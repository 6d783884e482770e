/** lang.celadon.Mutant: a handler that captures a slice of a token list as its body, keeps a
    fixed copy of that slice, and when it is called rewrites the caller's token list in place:
    the called range is cut out and the result of reducing the body is spliced in. */
module Mutants {
  import opened Wrappers
  import opened Objects
  import Contexts
  import TLists

  /** The loop `while (context.step(body, 0) >= 0) r = body.remove(0);`. Context.step is not
      part of this model, so the loop is an oracle: from the body it gives the last token the
      loop removed (None when it removed none, where r stays null) and what is left of the
      body. */
  type Reduction = seq<Token> -> (Option<Token>, seq<Token>)

  /** The tokens morph splices in for the result r: none when r is null, r.solid is null or
      r.solid is an empty collection; the elements of a collection; the token r.solid; or r
      itself. Token lists are the collections among the objects. */
  function Refill(r: Option<Token>): (ins: seq<Token>)
    ensures r.None? ==> ins == []
    ensures r.Some? && r.value.solid == Null ==> ins == []
    ensures r.Some? && r.value.solid.TokList? ==> ins == r.value.solid.items
    ensures r.Some? && r.value.solid.Tok? ==> ins == [r.value.solid.token]
    ensures r.Some? && !(r.value.solid == Null || r.value.solid.TokList? || r.value.solid.Tok?) ==> ins == [r.value]
  {
    if r.None? || r.value.solid == Null then []
    else if r.value.solid.TokList? then r.value.solid.items
    else if r.value.solid.Tok? then [r.value.solid.token]
    else [r.value]
  }

  /** tokens.subList(start, end).clear() followed by inserting ins at start. */
  function Splice(xs: seq<Token>, start: int, end: int, ins: seq<Token>): seq<Token>
    requires 0 <= start <= end <= |xs|
  {
    xs[..start] + ins + xs[end..]
  }

  /** The value morph returns as written: the size of the whole list after a collection is
      spliced in, and otherwise the number of tokens spliced in. */
  function CountAsWritten(r: Option<Token>, spliced: seq<Token>): int
  {
    if Refill(r) != [] && r.value.solid.TokList? then |spliced| else |Refill(r)|
  }

  /** The splice leaves the tokens before start as they were, puts the refill at start, and
      keeps the tokens from end on, in order, after it. */
  lemma SpliceKeepsOutside(xs: seq<Token>, start: int, end: int, ins: seq<Token>)
    requires 0 <= start <= end <= |xs|
    ensures var ys := Splice(xs, start, end, ins);
      && |ys| == |xs| - (end - start) + |ins|
      && ys[..start] == xs[..start]
      && ys[start..start + |ins|] == ins
      && ys[start + |ins|..] == xs[end..]
  {
    var ys := Splice(xs, start, end, ins);
    assert ys == xs[..start] + (ins + xs[end..]);
    assert ys[start..] == ins + xs[end..];
    assert ys[start..][..|ins|] == ins;
    assert ys[start..][|ins|..] == xs[end..];
  }

  class Mutant {
    var context: Contexts.Context
    var body: seq<Token>
    var title: Option<string>
    const bodyFixed: seq<Token>

    /** new Mutant(context, title, tokens, bodyStart, bodyEnd), once the range is known to be
        valid: a copy of the context over the same lists, and the body slice twice. */
    constructor (ctx: Contexts.Context, title: Option<string>, tokens: seq<Token>, bodyStart: int, bodyEnd: int)
      requires ctx.Valid() && 0 <= bodyStart <= bodyEnd <= |tokens|
      ensures fresh(context) && context.table == ctx.table && context.Valid()
      ensures this.title == title
      ensures body == tokens[bodyStart..bodyEnd] && bodyFixed == body
    {
      context := new Contexts.Context.Copy(ctx);
      this.title := title;
      body := tokens[bodyStart..bodyEnd];
      bodyFixed := tokens[bodyStart..bodyEnd];
    }

    /** Mutant.morph, with the reduction loop as the oracle `reduce`. The body is refilled with
        its fixed copy before the range is cut, so a bad range still leaves the body refilled. */
    method Morph(tokens: Contexts.TokenList, start: int, end: int, reduce: Reduction)
      returns (count: Result<int, TLists.Failure>)
      modifies this, tokens
      ensures body == reduce(old(body)).1 + bodyFixed
      ensures reduce(old(body)).1 == [] ==> body == bodyFixed
      ensures context == old(context) && title == old(title)
      ensures !(0 <= start <= end <= |old(tokens.items)|) ==>
                count == Err(TLists.IndexOutOfBounds) && tokens.items == old(tokens.items)
      ensures 0 <= start <= end <= |old(tokens.items)| ==>
                var r := reduce(old(body)).0;
                && tokens.items == Splice(old(tokens.items), start, end, Refill(r))
                && count == Ok(CountAsWritten(r, tokens.items))
    {
      var r, rest := reduce(body).0, reduce(body).1;
      body := rest + bodyFixed;
      if !(0 <= start <= end <= |tokens.items|) {
        return Err(TLists.IndexOutOfBounds);
      }
      tokens.items := tokens.items[..start] + tokens.items[end..];
      if r.None? || r.value.solid == Null || (r.value.solid.TokList? && r.value.solid.items == []) {
        return Ok(0);
      }
      if r.value.solid.TokList? {
        tokens.items := tokens.items[..start] + r.value.solid.items + tokens.items[start..];
        return Ok(|tokens.items|);
      }
      if r.value.solid.Tok? {
        tokens.items := tokens.items[..start] + [r.value.solid.token] + tokens.items[start..];
        return Ok(1);
      }
      tokens.items := tokens.items[..start] + [r.value] + tokens.items[start..];
      return Ok(1);
    }

    /** morph as the handler contract describes it: the same splice, returning the number of
        tokens refilled. */
    method MorphCorrected(tokens: Contexts.TokenList, start: int, end: int, reduce: Reduction)
      returns (count: Result<int, TLists.Failure>)
      modifies this, tokens
      ensures body == reduce(old(body)).1 + bodyFixed
      ensures context == old(context) && title == old(title)
      ensures !(0 <= start <= end <= |old(tokens.items)|) ==>
                count == Err(TLists.IndexOutOfBounds) && tokens.items == old(tokens.items)
      ensures 0 <= start <= end <= |old(tokens.items)| ==>
                var ins := Refill(reduce(old(body)).0);
                && tokens.items == Splice(old(tokens.items), start, end, ins)
                && count == Ok(|ins|)
                && |tokens.items| == |old(tokens.items)| - (end - start) + count.value
    {
      var r, rest := reduce(body).0, reduce(body).1;
      body := rest + bodyFixed;
      if !(0 <= start <= end <= |tokens.items|) {
        return Err(TLists.IndexOutOfBounds);
      }
      var ins := Refill(r);
      tokens.items := tokens.items[..start] + ins + tokens.items[end..];
      return Ok(|ins|);
    }

    /** Mutant.toString. */
    method ToString() returns (s: string)
      ensures s == MutantText(title, bodyFixed)
    {
      if title.Some? {
        return "{mutant " + title.value + "}";
      }
      var shown := "~|/unknown body/|~ ";
      if bodyFixed != [] {
        var texts := TokenTexts(bodyFixed);
        JoinedStep(texts, 0);
        shown := texts[0];
        var i := 1;
        while i < |bodyFixed|
          invariant 1 <= i <= |bodyFixed|
          invariant shown == Joined(texts[..i])
        {
          JoinedStep(texts, i);
          shown := shown + " " + texts[i];
          i := i + 1;
        }
        assert texts[..i] == texts;
      }
      s := "{mutant " + shown + "}";
    }
  }

  /** What Mutant.toString renders. The branch for a null bodyFixed is left out: both
      constructors set it. */
  function MutantText(title: Option<string>, bodyFixed: seq<Token>): string
  {
    if title.Some? then "{mutant " + title.value + "}"
    else "{mutant " + (if bodyFixed != [] then Joined(TokenTexts(bodyFixed)) else "~|/unknown body/|~ ") + "}"
  }

  /** new Mutant(context, tokens, bodyStart, bodyEnd) and the five-argument constructor, with
      the IndexOutOfBoundsException of subList as an error. */
  method NewMutant(ctx: Contexts.Context, title: Option<string>, tokens: seq<Token>, bodyStart: int, bodyEnd: int)
    returns (m: Result<Mutant, TLists.Failure>)
    requires ctx.Valid()
    ensures !(0 <= bodyStart <= bodyEnd <= |tokens|) <==> m.Err?
    ensures m.Ok? ==> fresh(m.value) && fresh(m.value.context) && m.value.context.table == ctx.table
                      && m.value.title == title
                      && m.value.body == tokens[bodyStart..bodyEnd] && m.value.bodyFixed == m.value.body
  {
    if !(0 <= bodyStart <= bodyEnd <= |tokens|) {
      return Err(TLists.IndexOutOfBounds);
    }
    var made := new Mutant(ctx, title, tokens, bodyStart, bodyEnd);
    return Ok(made);
  }

  // ---- properties ----

  /** A mutant rendering its body shows the tokens as TList.toString shows them, with "{mutant "
      and "}" in place of the square brackets; with a title it shows only the title. */
  lemma MutantTextAgreesWithListText(title: Option<string>, bodyFixed: seq<Token>)
    ensures title.Some? ==> MutantText(title, bodyFixed) == "{mutant " + title.value + "}"
    ensures title.None? && bodyFixed != [] ==>
      var l := ListText(bodyFixed);
      MutantText(title, bodyFixed) == "{mutant " + l[1..|l| - 1] + "}"
  {
    if title.None? && bodyFixed != [] {
      var j := Joined(TokenTexts(bodyFixed));
      assert ListText(bodyFixed) == "[" + j + "]";
      assert ("[" + j + "]")[1..|j| + 1] == j;
    }
  }

  /** The value morph returns as written is the refill count plus, for a non-empty collection,
      the number of tokens left outside the cut range; the two agree exactly when the result is
      not a non-empty collection or nothing is left outside. */
  lemma CountAsWrittenExceedsRefill(xs: seq<Token>, start: int, end: int, r: Option<Token>)
    requires 0 <= start <= end <= |xs|
    ensures var ins := Refill(r);
      var outside := |xs| - (end - start);
      && CountAsWritten(r, Splice(xs, start, end, ins))
         == |ins| + (if ins != [] && r.value.solid.TokList? then outside else 0)
  {
    SpliceKeepsOutside(xs, start, end, Refill(r));
  }

  /** With a collection result the value morph returns is the size of the whole list, which is
      the refill count only when nothing else is left in the list. An example: cutting
      [x, y][0..1] and splicing in one token returns 2, not 1. */
  lemma CountIsListSize(x: Token, y: Token, p: Token)
    ensures var r := Some(Stable(TokList([p])));
      var spliced := Splice([x, y], 0, 1, Refill(r));
      && spliced == [p, y]
      && CountAsWritten(r, spliced) == 2
      && |Refill(r)| == 1
  {
    var r := Some(Stable(TokList([p])));
    assert Refill(r) == [p];
    assert Splice([x, y], 0, 1, [p]) == [p, y];
  }
}
