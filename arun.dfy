/** lang.celadon.ARun: a runnable declared from a token list, holding the bindings it was declared
    under, its parameter names, its body and a fixed copy of the body. Natively implemented runs
    have no names and no body. */
module Runs {
  import opened Wrappers
  import opened Objects
  import Contexts
  import TLists

  /** An ARun's fields. A null list is None. The context is the Context object the run holds,
      a shallow copy of the one it was declared under. */
  datatype Run = Run(
    context: Contexts.Context,
    title: Option<string>,
    names: Option<seq<Token>>,
    body: Option<seq<Token>>,
    bodyFixed: Option<seq<Token>>)

  /** The two ranges a declaration slices are both ranges of the token list. */
  predicate Slices(tokens: seq<Token>, nameStart: int, nameEnd: int, bodyStart: int, bodyEnd: int)
  {
    0 <= nameStart <= nameEnd <= |tokens| && 0 <= bodyStart <= bodyEnd <= |tokens|
  }

  /** The six- and seven-argument constructors: the context is copied with `new Context(context)`,
      which shares its binding lists; names and body are slices of the token list and bodyFixed
      a separate list equal to body; either slice being out of range is the exception subList
      throws. */
  method Declare(ctx: Contexts.Context, title: Option<string>, tokens: seq<Token>,
                 nameStart: int, nameEnd: int, bodyStart: int, bodyEnd: int) returns (r: Result<Run, TLists.Failure>)
    requires ctx.Valid()
    ensures r.Ok? <==> Slices(tokens, nameStart, nameEnd, bodyStart, bodyEnd)
    ensures r.Err? ==> r.error == TLists.IndexOutOfBounds
    ensures r.Ok? ==> fresh(r.value.context) && r.value.context.Valid()
                      && r.value.context.table == ctx.table && r.value.title == title
    ensures r.Ok? ==> r.value.names == Some(tokens[nameStart..nameEnd])
                      && r.value.body == Some(tokens[bodyStart..bodyEnd])
                      && r.value.bodyFixed == r.value.body
  {
    var copy := new Contexts.Context.Copy(ctx);
    if !Slices(tokens, nameStart, nameEnd, bodyStart, bodyEnd) {
      return Err(TLists.IndexOutOfBounds);
    }
    var body := tokens[bodyStart..bodyEnd];
    return Ok(Run(copy, title, Some(tokens[nameStart..nameEnd]), Some(body), Some(body)));
  }

  /** The context and context-and-title constructors: a native run over a shallow copy of the
      context, with no names and no body. */
  method Native(ctx: Contexts.Context, title: Option<string>) returns (r: Run)
    requires ctx.Valid()
    ensures fresh(r.context) && r.context.Valid() && r.context.table == ctx.table && r.title == title
    ensures r.names.None? && r.body.None? && r.bodyFixed.None?
  {
    var copy := new Contexts.Context.Copy(ctx);
    r := Run(copy, title, None, None, None);
  }

  const UnknownNative := "{fn ~|/unknown name, non-native/|~)"

  /** ARun.toString as written: the title alone when there is one; the fixed unknown-name text
      when names or bodyFixed is null; otherwise "{fn [", the names joined by spaces, " ] ", the
      fixed body joined by spaces and "}". */
  function Text(r: Run): (s: string)
    ensures |s| >= 5 && s[..4] == "{fn "
  {
    if r.title.Some? then "{fn " + r.title.value + "}"
    else if r.names.None? || r.bodyFixed.None? then UnknownNative
    else "{fn [" + Joined(TokenTexts(r.names.value)) + " ] " + Joined(TokenTexts(r.bodyFixed.value)) + "}"
  }

  /** ARun.toString with the unknown-name text closed by "}" like every other rendering. */
  function TextCorrected(r: Run): string
  {
    if r.title.Some? || (r.names.Some? && r.bodyFixed.Some?) then Text(r)
    else "{fn ~|/unknown name, non-native/|~}"
  }

  // ---- properties ----

  /** TList.toString of a list is its joined tokens in square brackets. */
  lemma ListTextParts(xs: seq<Token>)
    ensures var l := ListText(xs); var j := Joined(TokenTexts(xs));
      l[..|l| - 1] == "[" + j && l[1..|l| - 1] == j
  {
    var l := ListText(xs);
    var j := Joined(TokenTexts(xs));
    assert l == "[" + j + "]";
  }

  /** A declared run without a title shows its names and its fixed body, each as TList.toString
      shows a list without its square brackets; a titled run shows the title. */
  lemma DeclaredText(r: Run)
    requires r.names.Some? && r.bodyFixed.Some?
    ensures var n := ListText(r.names.value);
      var b := ListText(r.bodyFixed.value);
      && (r.title.Some? ==> Text(r) == "{fn " + r.title.value + "}")
      && (r.title.None? ==> Text(r) == "{fn " + n[..|n| - 1] + " ] " + b[1..|b| - 1] + "}")
  {
    if r.title.None? {
      var ns, bs := r.names.value, r.bodyFixed.value;
      ListTextParts(ns);
      ListTextParts(bs);
      Rebracket(Joined(TokenTexts(ns)), Joined(TokenTexts(bs)));
    }
  }

  /** The declared rendering, with the names' opening bracket and the body's brackets taken
      from the two lists' own renderings. */
  lemma Rebracket(jn: string, jb: string)
    ensures "{fn [" + jn + " ] " + jb + "}" == "{fn " + ("[" + jn) + " ] " + jb + "}"
  {
    assert "{fn [" + jn == "{fn " + ("[" + jn);
  }

  /** An untitled run without names, as the context constructors make, always shows the same
      text, whatever context it holds. */
  lemma NativeTextIsFixed(r: Run)
    requires r.title.None? && r.names.None?
    ensures Text(r) == UnknownNative
  {
  }

  /** Every rendering of a titled or declared run ends with "}", but the unknown-name text of an
      untitled native run ends with ")". */
  lemma UnknownTextUnbalanced(r: Run)
    ensures r.title.Some? || (r.names.Some? && r.bodyFixed.Some?) ==> Text(r)[|Text(r)| - 1] == '}'
    ensures r.title.None? && (r.names.None? || r.bodyFixed.None?) ==> Text(r)[|Text(r)| - 1] == ')'
  {
  }

  /** The corrected rendering of every run opens with "{fn " and closes with "}", and differs
      from the one as written only for untitled native runs. */
  lemma CorrectedTextDelimited(r: Run)
    ensures var s := TextCorrected(r); |s| >= 5 && s[..4] == "{fn " && s[|s| - 1] == '}'
    ensures TextCorrected(r) != Text(r) <==> r.title.None? && (r.names.None? || r.bodyFixed.None?)
  {
  }
}
