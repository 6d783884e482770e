/** Context: the table from names to binding stacks (LinkedLists of tokens, most recent first)
    and the bracket-matching scan `parse`. A list that ends with the RESERVED marker belongs to
    a reserved name: push and pop leave it alone. */
module Contexts {
  import opened Wrappers
  import opened Objects
  import Lexeme
  import TLists

  /** A LinkedList<Token>; the head of the list is items[0]. */
  class TokenList {
    var items: seq<Token>

    constructor (xs: seq<Token>)
      ensures items == xs
    {
      items := xs;
    }
  }

  /** What a context binds, read through its lists. */
  type Bindings = map<string, seq<Token>>

  /** The exception LinkedList.getLast throws on an empty list. */
  datatype Failure = NoSuchElement

  function Last(xs: seq<Token>): Token
    requires xs != []
  {
    xs[|xs| - 1]
  }

  /** A reserved name: its list ends with the marker. */
  predicate Reserved(b: Bindings, key: string)
  {
    key in b && b[key] != [] && Last(b[key]) == RESERVED
  }

  /** Every bound name has at least one token. */
  predicate NonEmpty(b: Bindings)
  {
    forall k :: k in b ==> b[k] != []
  }

  /** Context.peek: the most recent token bound to key, or null. */
  function PeekIn(b: Bindings, key: string): Option<Token>
  {
    if key in b && b[key] != [] then Some(b[key][0]) else None
  }

  /** The bindings after push(key, value); an empty list makes getLast throw and changes
      nothing. */
  function Pushed(b: Bindings, key: string, value: Token): Bindings
  {
    if key !in b then b[key := [value]]
    else if b[key] == [] || Last(b[key]) == RESERVED then b
    else b[key := [value] + b[key]]
  }

  /** The bindings after pop(key). */
  function Popped(b: Bindings, key: string): Bindings
  {
    if key !in b || b[key] == [] || Last(b[key]) == RESERVED then b
    else if |b[key]| == 1 then b - {key}
    else b[key := b[key][1..]]
  }

  /** Token.stable of each item, in order. */
  function StableTokens(items: seq<Obj>): (r: seq<Token>)
    ensures |r| == |items|
    ensures forall j :: 0 <= j < |items| ==> r[j] == Stable(items[j])
  {
    if items == [] then [] else [Stable(items[0])] + StableTokens(items[1..])
  }

  // ---- parse ----

  /** An IMorph.morph call: given the handler, the token list and the range [start, end), the
      rewritten list and the count it returns. Handlers are not part of this model. */
  type Morph = (Obj, seq<Token>, int, int) -> (seq<Token>, int)

  /** The exceptions parse can throw. */
  datatype ParseError =
    | NullPointer        // peek found nothing for a mode, or a handler token has no payload
    | ClassCast          // a handler token's payload is not an IMorph
    | EmptyStack         // a closing bracket with no open bracket to pop
    | IndexOutOfRange    // tokens.get outside the list, after handlers reshaped it
    | Mismatch(message: string)
    | OutOfFuel          // the scan did not end within the step bound

  /** The message of the mismatch exception. It prints the opening bracket in both places. */
  function MismatchMessage(opening: Token): string
  {
    "Brackets do not match: opening bracket is " + Shown(opening.bracket)
    + ", closing bracket is " + Shown(opening.bracket)
  }

  /** The scan's variables: the token list, the index, the open-bracket positions and the
      values collected so far. */
  datatype ScanState = ScanState(toks: seq<Token>, i: int, stack: seq<int>, values: seq<Obj>)

  /** The scan goes on from a state, or stops with an exception and the list as it was then. */
  datatype Outcome = Done(state: ScanState) | Failed(error: ParseError, toks: seq<Token>)

  /** Calls a handler on [start, end): i -= 1 + count, and the loop's i++ follows. */
  function Invoke(h: Obj, st: ScanState, start: int, end: int, morph: Morph): Outcome
  {
    if h == Null then Failed(NullPointer, st.toks)
    else if !h.Handler? then Failed(ClassCast, st.toks)
    else
      var res := morph(h, st.toks, start, end);
      Done(st.(toks := res.0, i := st.i - res.1))
  }

  /** One pass of the loop body of parse, at index st.i, including the i++ that ends it. */
  function Step(b: Bindings, st: ScanState, morph: Morph): Outcome
    requires 0 <= st.i < |st.toks|
  {
    var t := st.toks[st.i];
    if t.special > 0 then Done(st.(i := st.i + 1, values := st.values + [t.solid]))
    else if t.bracket.Some? && t.contents.Some? && t.mode.Some? then TaggedStep(b, st, t, morph)
    else if t.bracket.Some? then BracketStep(st, t, morph)
    else if t.special < 0 then Invoke(t.solid, st, st.i, st.i - t.special, morph)
    else Done(st.(i := st.i + 1))
  }

  /** A token with a bracket, contents and a mode: the handler bound to the mode rewrites it,
      or its contents are a value. */
  function TaggedStep(b: Bindings, st: ScanState, t: Token, morph: Morph): Outcome
    requires t.mode.Some? && t.contents.Some?
  {
    var t2 := PeekIn(b, t.mode.value);
    if t2.None? then Failed(NullPointer, st.toks)
    else if t2.value.special < 0 then Invoke(t2.value.solid, st, st.i, st.i + 1, morph)
    else Done(st.(i := st.i + 1, values := st.values + [Str(t.contents.value)]))
  }

  /** A bracket token: an open bracket pushes its index; a closing one pops the most recent
      open bracket, which must mirror it, and calls that bracket's handler if it has one. */
  function BracketStep(st: ScanState, t: Token, morph: Morph): Outcome
  {
    if !t.closing then Done(st.(i := st.i + 1, stack := st.stack + [st.i]))
    else if st.stack == [] then Failed(EmptyStack, st.toks)
    else
      var i0, rest := st.stack[|st.stack| - 1], st.stack[..|st.stack| - 1];
      if !(0 <= i0 < |st.toks|) then Failed(IndexOutOfRange, st.toks)
      else
        var t2 := st.toks[i0];
        if !Lexeme.Pairs(t.Shape(), Some(t2.Shape())) then Failed(Mismatch(MismatchMessage(t2)), st.toks)
        else if t2.special < 0 then Invoke(t2.solid, st.(stack := rest), i0, st.i + 1, morph)
        else Done(st.(i := st.i + 1, stack := rest))
  }

  /** The whole scan: runs the loop until the index passes the end of the list, for at most
      fuel passes. */
  function Scan(b: Bindings, st: ScanState, fuel: int, morph: Morph): Outcome
    decreases fuel, 1
  {
    if st.i >= |st.toks| then Done(st)
    else if st.i < 0 then Failed(IndexOutOfRange, st.toks)
    else if fuel <= 0 then Failed(OutOfFuel, st.toks)
    else Continue(b, st, fuel, morph)
  }

  /** One pass, then the rest of the scan from the state it leaves. */
  function Continue(b: Bindings, st: ScanState, fuel: int, morph: Morph): Outcome
    requires 0 <= st.i < |st.toks| && fuel > 0
    decreases fuel, 0
  {
    match Step(b, st, morph)
    case Failed(e, toks) => Failed(e, toks)
    case Done(next) => Scan(b, next, fuel - 1, morph)
  }

  class Context {
    var table: map<string, TokenList>

    /** Distinct names own distinct lists. */
    predicate Valid()
      reads this
    {
      forall k1, k2 :: k1 in table && k2 in table && k1 != k2 ==> table[k1] != table[k2]
    }

    function Bindings(): Bindings
      reads this, table.Values
    {
      map k | k in table :: table[k].items
    }

    /** new Context(). */
    constructor ()
      ensures Valid() && table == map[]
    {
      table := map[];
    }

    /** new Context(existing): a new table over the same lists. */
    constructor Copy(existing: Context)
      requires existing.Valid()
      ensures Valid() && table == existing.table && Bindings() == existing.Bindings()
    {
      table := existing.table;
    }

    /** A copy that owns fresh lists with the same tokens. */
    constructor Snapshot(existing: Context)
      requires existing.Valid()
      ensures Valid() && Bindings() == existing.Bindings()
      ensures forall k :: k in table ==> fresh(table[k])
    {
      var source := existing.table;
      var fresh_table: map<string, TokenList> := map[];
      var todo := source.Keys;
      while todo != {}
        invariant todo <= source.Keys
        invariant fresh_table.Keys == source.Keys - todo
        invariant forall k :: k in fresh_table ==> fresh(fresh_table[k])
        invariant forall k :: k in fresh_table ==> fresh_table[k].items == source[k].items
        invariant forall k1, k2 :: k1 in fresh_table && k2 in fresh_table && k1 != k2 ==>
                    fresh_table[k1] != fresh_table[k2]
        decreases todo
      {
        var k :| k in todo;
        var l := new TokenList(source[k].items);
        fresh_table := fresh_table[k := l];
        todo := todo - {k};
      }
      table := fresh_table;
    }

    /** Context.peek. */
    function Peek(key: string): (r: Option<Token>)
      reads this, table.Values
      ensures r == PeekIn(Bindings(), key)
    {
      if key in table && table[key].items != [] then Some(table[key].items[0]) else None
    }

    /** Context.push. */
    method Push(key: string, value: Token) returns (r: Result<(), Failure>)
      requires Valid()
      modifies this, table.Values
      ensures Valid()
      ensures Bindings() == Pushed(old(Bindings()), key, value)
      ensures r.Err? <==> key in old(Bindings()) && old(Bindings())[key] == []
      ensures key in old(table) ==> table == old(table)
      ensures forall l :: l in table.Values ==> l in old(table.Values) || fresh(l)
    {
      if key in table {
        var items := table[key];
        if items.items == [] {
          return Err(NoSuchElement);
        }
        if Last(items.items) != RESERVED {
          items.items := [value] + items.items;
        }
      } else {
        var items := new TokenList([value]);
        table := table[key := items];
      }
      r := Ok(());
    }

    /** Context.pop. */
    method Pop(key: string) returns (r: Result<(), Failure>)
      requires Valid()
      modifies this, table.Values
      ensures Valid()
      ensures Bindings() == Popped(old(Bindings()), key)
      ensures r.Err? <==> key in old(Bindings()) && old(Bindings())[key] == []
    {
      if key in table {
        var items := table[key];
        if items.items == [] {
          return Err(NoSuchElement);
        }
        if Last(items.items) == RESERVED {
          return Ok(());
        }
        items.items := items.items[1..];
        if items.items == [] {
          table := table - {key};
        }
      }
      r := Ok(());
    }

    /** Context.core: "null", "true" and "false" become reserved names for their values. */
    method Core()
      requires Valid()
      modifies this
      ensures Valid()
      ensures Bindings() == old(Bindings())["null" := [Stable(Null), RESERVED]]
                                           ["true" := [Stable(Bool(true)), RESERVED]]
                                           ["false" := [Stable(Bool(false)), RESERVED]]
    {
      var n := Reserve(Null);
      Put("null", n);
      var t := Reserve(Bool(true));
      Put("true", t);
      var f := Reserve(Bool(false));
      Put("false", f);
    }

    /** HashMap.put of a list no other name owns. */
    method Put(key: string, l: TokenList)
      requires Valid() && l !in table.Values
      modifies this
      ensures Valid() && table == old(table)[key := l]
      ensures Bindings() == old(Bindings())[key := l.items]
    {
      table := table[key := l];
      assert forall k :: k in table && k != key ==> table[k] == old(table)[k];
    }

    /** Context.parse, with the handlers' morph calls given by `morph` and the number of
        loop passes bounded by `fuel`. */
    method Parse(tokens: TokenList?, morph: Morph, fuel: nat) returns (r: Result<seq<Obj>, ParseError>)
      requires tokens == null || tokens !in table.Values
      modifies tokens
      ensures tokens == null ==> r == Ok([])
      ensures tokens != null ==>
                var out := Scan(Bindings(), ScanState(old(tokens.items), 0, [], []), fuel, morph);
                && (out.Done? ==> r == Ok(out.state.values) && tokens.items == out.state.toks)
                && (out.Failed? ==> r == Err(out.error) && tokens.items == out.toks)
    {
      if tokens == null {
        return Ok([]);
      }
      ghost var b := Bindings();
      ghost var goal := Scan(b, ScanState(tokens.items, 0, [], []), fuel, morph);
      var values: seq<Obj> := [];
      var bracketPositions: seq<int> := [];
      var i := 0;
      var f := fuel;
      while i < |tokens.items|
        invariant Bindings() == b
        invariant Scan(b, ScanState(tokens.items, i, bracketPositions, values), f, morph) == goal
        decreases f
      {
        if i < 0 {
          return Err(IndexOutOfRange);
        }
        if f == 0 {
          return Err(OutOfFuel);
        }
        var out := Pass(tokens, i, bracketPositions, values, morph);
        if out.Failed? {
          return Err(out.error);
        }
        i, bracketPositions, values := out.state.i, out.state.stack, out.state.values;
        f := f - 1;
      }
      r := Ok(values);
    }

    /** The body of the loop in parse, at index i, up to and including its i++. */
    method Pass(tokens: TokenList, i: int, bracketPositions: seq<int>, values: seq<Obj>, morph: Morph)
      returns (out: Outcome)
      requires tokens !in table.Values
      requires 0 <= i < |tokens.items|
      modifies tokens
      ensures out == Step(Bindings(), ScanState(old(tokens.items), i, bracketPositions, values), morph)
      ensures tokens.items == if out.Done? then out.state.toks else out.toks
    {
      var t := tokens.items[i];
      var next := i;
      var stack, vals := bracketPositions, values;
      if t.special > 0 {
        vals := vals + [t.solid];
      } else if t.bracket.Some? && t.contents.Some? && t.mode.Some? {
        var t2 := Peek(t.mode.value);
        if t2.None? {
          return Failed(NullPointer, tokens.items);
        }
        if t2.value.special < 0 {
          var count := CallMorph(t2.value.solid, tokens, i, i + 1, morph);
          if count.Err? {
            return Failed(count.error, tokens.items);
          }
          next := next - (1 + count.value);
        } else {
          vals := vals + [Str(t.contents.value)];
        }
      } else if t.bracket.Some? {
        if !t.closing {
          stack := stack + [i];
        } else {
          if stack == [] {
            return Failed(EmptyStack, tokens.items);
          }
          var i0 := stack[|stack| - 1];
          stack := stack[..|stack| - 1];
          if !(0 <= i0 < |tokens.items|) {
            return Failed(IndexOutOfRange, tokens.items);
          }
          var t2 := tokens.items[i0];
          var matched := Lexeme.BracketsMatch(t.Shape(), Some(t2.Shape()));
          if !matched {
            return Failed(Mismatch(MismatchMessage(t2)), tokens.items);
          }
          if t2.special < 0 {
            var count := CallMorph(t2.solid, tokens, i0, i + 1, morph);
            if count.Err? {
              return Failed(count.error, tokens.items);
            }
            next := next - (1 + count.value);
          }
        }
      } else if t.special < 0 {
        var i0 := t.special;
        var count := CallMorph(t.solid, tokens, i, i - i0, morph);
        if count.Err? {
          return Failed(count.error, tokens.items);
        }
        next := next - (1 + count.value);
      }
      next := next + 1;
      out := Done(ScanState(tokens.items, next, stack, vals));
    }
  }

  /** ((IMorph) h).morph(tokens, start, end): rewrites the list and gives the count. */
  method CallMorph(h: Obj, tokens: TokenList, start: int, end: int, morph: Morph)
    returns (r: Result<int, ParseError>)
    modifies tokens
    ensures h == Null ==> r == Err(NullPointer) && tokens.items == old(tokens.items)
    ensures h != Null && !h.Handler? ==> r == Err(ClassCast) && tokens.items == old(tokens.items)
    ensures h.Handler? ==> r == Ok(morph(h, old(tokens.items), start, end).1)
                           && tokens.items == morph(h, old(tokens.items), start, end).0
  {
    if h == Null {
      return Err(NullPointer);
    }
    if !h.Handler? {
      return Err(ClassCast);
    }
    var res := morph(h, tokens.items, start, end);
    tokens.items := res.0;
    r := Ok(res.1);
  }

  /** Context.makeLL: a stable token for each item, in the items' order. */
  method MakeLL(items: seq<Obj>) returns (ll: TokenList)
    ensures fresh(ll)
    ensures ll.items == StableTokens(items)
  {
    ll := new TokenList([]);
    var i := |items| - 1;
    while i >= 0
      invariant -1 <= i < |items|
      invariant ll.items == StableTokens(items[i + 1..])
      decreases i
    {
      assert items[i..][1..] == items[i + 1..];
      ll.items := [Stable(items[i])] + ll.items;
      i := i - 1;
    }
  }

  /** Context.stableLL: one stable token. */
  method StableLL(item: Obj) returns (ll: TokenList)
    ensures fresh(ll) && ll.items == [Stable(item)]
  {
    ll := new TokenList([]);
    ll.items := ll.items + [Stable(item)];
  }

  /** Context.reserve: the stable value followed by the marker. */
  method Reserve(item: Obj) returns (ll: TokenList)
    ensures fresh(ll) && ll.items == [Stable(item), RESERVED]
  {
    ll := new TokenList([]);
    ll.items := ll.items + [Stable(item)];
    ll.items := ll.items + [RESERVED];
  }

  // ---- laws of push and pop ----

  /** After push on a name that is not reserved, peek gives the pushed token, and no other
      name is affected. */
  lemma PushThenPeek(b: Bindings, key: string, value: Token)
    requires !Reserved(b, key) && (key in b ==> b[key] != [])
    ensures PeekIn(Pushed(b, key, value), key) == Some(value)
    ensures forall k :: k != key ==> PeekIn(Pushed(b, key, value), k) == PeekIn(b, k)
  {
  }

  /** push followed by pop on a name that is not reserved gives back the bindings exactly.
      On an unbound name this needs the pushed token not to be the marker, which would make
      the new one-token list reserved. */
  lemma {:induction false} PushPopRoundTrip(b: Bindings, key: string, value: Token)
    requires !Reserved(b, key) && (key in b ==> b[key] != [])
    requires key !in b ==> value != RESERVED
    ensures Popped(Pushed(b, key, value), key) == b
  {
    if key in b {
      var xs := b[key];
      assert Last([value] + xs) == Last(xs);
      assert ([value] + xs)[1..] == xs;
    } else {
      assert b[key := [value]] - {key} == b;
    }
  }

  /** pop removes the most recent token and reveals the one below; popping the last token
      unbinds the name. */
  lemma PopRevealsPrevious(b: Bindings, key: string)
    requires key in b && b[key] != [] && !Reserved(b, key)
    ensures |b[key]| >= 2 ==> PeekIn(Popped(b, key), key) == Some(b[key][1])
    ensures |b[key]| == 1 ==> key !in Popped(b, key)
    ensures forall k :: k != key ==> PeekIn(Popped(b, key), k) == PeekIn(b, k)
  {
  }

  /** push and pop leave a reserved name alone, and pop of an unbound name does nothing. */
  lemma ReservedNamesAreFrozen(b: Bindings, key: string, value: Token)
    ensures Reserved(b, key) ==> Pushed(b, key, value) == b && Popped(b, key) == b
    ensures key !in b ==> Popped(b, key) == b
  {
  }

  /** No bound name ever holds an empty list, once none does. */
  lemma NonEmptyIsKept(b: Bindings, key: string, value: Token)
    requires NonEmpty(b)
    ensures NonEmpty(Pushed(b, key, value)) && NonEmpty(Popped(b, key))
  {
  }

  /** After core, "null", "true" and "false" are reserved, peek gives their stable values, and
      neither push nor pop can change them. */
  lemma CoreNamesAreConstants(b: Bindings, key: string, value: Token)
    requires key in {"null", "true", "false"}
    ensures var c := b["null" := [Stable(Null), RESERVED]]["true" := [Stable(Bool(true)), RESERVED]]
                      ["false" := [Stable(Bool(false)), RESERVED]];
      && Reserved(c, key)
      && PeekIn(c, key) == Some(Stable(if key == "null" then Null else Bool(key == "true")))
      && Pushed(c, key, value) == c && Popped(c, key) == c
  {
  }

  // ---- the copy constructor shares the binding lists ----

  /** A push made through a copy made by new Context(existing) shows in the original: on a
      name the original binds, both tables hold the same list. */
  method PushThroughCopy(ctx: Context, key: string, value: Token) returns (copy: Context)
    requires ctx.Valid() && key in ctx.table
    modifies ctx.table.Values
    ensures ctx.Bindings() == Pushed(old(ctx.Bindings()), key, value)
    ensures copy.Bindings() == ctx.Bindings()
  {
    copy := new Context.Copy(ctx);
    var _ := copy.Push(key, value);
  }

  /** An example of the sharing on concrete tokens: after binding x to 1 and pushing 2 on x through a copy, the
      original's peek of x is 2. */
  method CopySharesBindings() returns (seen: Option<Token>)
    ensures seen == Some(Stable(Integral(Long, 2)))
  {
    var ctx := new Context();
    var _ := ctx.Push("x", Stable(Integral(Long, 1)));
    ghost var before := ctx.Bindings();
    var copy := new Context.Copy(ctx);
    var _ := copy.Push("x", Stable(Integral(Long, 2)));
    PushThenPeek(before, "x", Stable(Integral(Long, 2)));
    seen := ctx.Peek("x");
  }

  /** A snapshot owns its lists: pushing on it leaves the original as it was. */
  method PushThroughSnapshot(ctx: Context, key: string, value: Token) returns (copy: Context)
    requires ctx.Valid()
    ensures ctx.Bindings() == old(ctx.Bindings())
    ensures copy.Bindings() == Pushed(ctx.Bindings(), key, value)
  {
    copy := new Context.Snapshot(ctx);
    var _ := copy.Push(key, value);
  }

  /** An example on concrete tokens, with a deep copy: the original's peek of x stays 1. */
  method SnapshotKeepsBindings() returns (seen: Option<Token>)
    ensures seen == Some(Stable(Integral(Long, 1)))
  {
    var ctx := new Context();
    var _ := ctx.Push("x", Stable(Integral(Long, 1)));
    ghost var before := ctx.Bindings();
    PushThenPeek(map[], "x", Stable(Integral(Long, 1)));
    var copy := new Context.Snapshot(ctx);
    var _ := copy.Push("x", Stable(Integral(Long, 2)));
    assert ctx.Bindings() == before;
    seen := ctx.Peek("x");
  }

  // ---- laws of the scan ----

  /** Token trees: single tokens and bracket groups. */
  datatype Form = Atom(t: Token) | Group(open: Token, body: seq<Form>, close: Token)

  function Flatten(f: Form): seq<Token>
    decreases f
  {
    match f
    case Atom(t) => [t]
    case Group(o, body, c) => [o] + FlattenAll(body) + [c]
  }

  function FlattenAll(fs: seq<Form>): seq<Token>
    decreases fs
  {
    if fs == [] then [] else Flatten(fs[0]) + FlattenAll(fs[1..])
  }

  /** A bracket token the scan treats as a bracket and not as a handler, a value or a
      mode-tagged literal. */
  predicate PlainBracket(t: Token, closing: bool)
  {
    t.special == 0 && t.bracket.Some? && t.closing == closing
    && !(t.contents.Some? && t.mode.Some?)
  }

  /** Well-nested token trees without handlers: every atom is a value (positive level) or an
      ignored token (level 0, no bracket), and every group opens and closes with matching
      plain brackets. */
  predicate WellNested(f: Form)
    decreases f
  {
    match f
    case Atom(t) => t.special > 0 || (t.special == 0 && t.bracket.None?)
    case Group(o, body, c) =>
      PlainBracket(o, false) && PlainBracket(c, true)
      && Lexeme.Pairs(c.Shape(), Some(o.Shape())) && WellNestedAll(body)
  }

  predicate WellNestedAll(fs: seq<Form>)
    decreases fs
  {
    forall j :: 0 <= j < |fs| ==> WellNested(fs[j])
  }

  /** The tokens `s` sit in `toks` from position `pos` on. */
  predicate At(toks: seq<Token>, pos: nat, s: seq<Token>)
    decreases |s|
  {
    if s == [] then pos <= |toks|
    else pos < |toks| && toks[pos] == s[0] && At(toks, pos + 1, s[1..])
  }

  lemma {:induction false} AtSplit(toks: seq<Token>, pos: nat, s: seq<Token>, u: seq<Token>)
    requires At(toks, pos, s + u)
    ensures At(toks, pos, s) && At(toks, pos + |s|, u)
    decreases |s|
  {
    if s == [] {
      assert s + u == u;
    } else {
      assert (s + u)[0] == s[0] && (s + u)[1..] == s[1..] + u;
      AtSplit(toks, pos + 1, s[1..], u);
    }
  }

  /** Every suffix of a list sits in it where it starts. */
  lemma {:induction false} AtSuffix(toks: seq<Token>, pos: nat)
    requires pos <= |toks|
    ensures At(toks, pos, toks[pos..])
    decreases |toks| - pos
  {
    if pos < |toks| {
      assert toks[pos..][1..] == toks[pos + 1..];
      AtSuffix(toks, pos + 1);
    }
  }

  /** One pass over a value or an ignored token. */
  lemma ScanAtom(b: Bindings, toks: seq<Token>, pos: nat, stack: seq<int>, values: seq<Obj>,
                 fuel: int, morph: Morph)
    requires pos < |toks| && fuel >= 1
    requires toks[pos].special > 0 || (toks[pos].special == 0 && toks[pos].bracket.None?)
    ensures Scan(b, ScanState(toks, pos, stack, values), fuel, morph)
         == Scan(b, ScanState(toks, pos + 1, stack, values + TLists.Payloads([toks[pos]])), fuel - 1, morph)
  {
    var t := toks[pos];
    TLists.PayloadsLaws([], [], t);
    var st := ScanState(toks, pos, stack, values);
    var next := ScanState(toks, pos + 1, stack, values + TLists.Payloads([t]));
    if t.special > 0 {
      assert TLists.Payloads([t]) == [t.solid];
    } else {
      assert TLists.Payloads([t]) == [];
      assert values + [] == values;
    }
    assert Step(b, st, morph) == Done(next);
  }

  /** One pass over a plain open bracket pushes its position. */
  lemma ScanOpen(b: Bindings, toks: seq<Token>, pos: nat, stack: seq<int>, values: seq<Obj>,
                 fuel: int, morph: Morph)
    requires pos < |toks| && fuel >= 1 && PlainBracket(toks[pos], false)
    ensures Scan(b, ScanState(toks, pos, stack, values), fuel, morph)
         == Scan(b, ScanState(toks, pos + 1, stack + [pos], values), fuel - 1, morph)
  {
  }

  /** One pass over a plain closing bracket that mirrors the open bracket on top of the stack
      pops it. */
  lemma ScanClose(b: Bindings, toks: seq<Token>, pos0: nat, pos: nat, stack: seq<int>, values: seq<Obj>,
                  fuel: int, morph: Morph)
    requires pos0 < pos < |toks| && fuel >= 1
    requires PlainBracket(toks[pos0], false) && PlainBracket(toks[pos], true)
    requires Lexeme.Pairs(toks[pos].Shape(), Some(toks[pos0].Shape()))
    ensures Scan(b, ScanState(toks, pos, stack + [pos0], values), fuel, morph)
         == Scan(b, ScanState(toks, pos + 1, stack, values), fuel - 1, morph)
  {
    assert (stack + [pos0])[..|stack|] == stack;
  }

  /** Scanning the tokens of a well-nested tree advances past them, keeps the open-bracket
      stack as it found it and collects the tree's payloads. */
  lemma {:induction false} ScanForm(b: Bindings, toks: seq<Token>, pos: nat, f: Form, stack: seq<int>,
                                    values: seq<Obj>, fuel: int, morph: Morph)
    requires WellNested(f) && At(toks, pos, Flatten(f)) && fuel >= |Flatten(f)|
    ensures Scan(b, ScanState(toks, pos, stack, values), fuel, morph)
         == Scan(b, ScanState(toks, pos + |Flatten(f)|, stack, values + TLists.Payloads(Flatten(f))),
                 fuel - |Flatten(f)|, morph)
    decreases f, 2
  {
    if f.Atom? {
      ScanAtom(b, toks, pos, stack, values, fuel, morph);
    } else {
      ScanGroup(b, toks, pos, f, stack, values, fuel, morph);
    }
  }

  lemma {:induction false} ScanGroup(b: Bindings, toks: seq<Token>, pos: nat, f: Form, stack: seq<int>,
                                     values: seq<Obj>, fuel: int, morph: Morph)
    requires f.Group? && WellNested(f) && At(toks, pos, Flatten(f)) && fuel >= |Flatten(f)|
    ensures Scan(b, ScanState(toks, pos, stack, values), fuel, morph)
         == Scan(b, ScanState(toks, pos + |Flatten(f)|, stack, values + TLists.Payloads(Flatten(f))),
                 fuel - |Flatten(f)|, morph)
    decreases f, 1
  {
    var inner := FlattenAll(f.body);
    var m := |inner|;
    GroupParts(toks, pos, f);
    ScanOpen(b, toks, pos, stack, values, fuel, morph);
    ScanForms(b, toks, pos + 1, f.body, stack + [pos], values, fuel - 1, morph);
    ScanClose(b, toks, pos, pos + 1 + m, stack, values + TLists.Payloads(inner), fuel - 1 - m, morph);
    AfterGroup(toks, pos, f.open, inner, f.close, Flatten(f), stack, values, fuel);
    var s1, s2 := ScanState(toks, pos, stack, values), ScanState(toks, pos + 1, stack + [pos], values);
    var s3 := ScanState(toks, pos + 1 + m, stack + [pos], values + TLists.Payloads(inner));
    ScanChain(b, s1, fuel, s2, fuel - 1, s3, fuel - 1 - m, s3, fuel - 1 - m, morph);
    ScanChain(b, s1, fuel, s3, fuel - 1 - m,
              ScanState(toks, pos + 1 + m + 1, stack, values + TLists.Payloads(inner)), fuel - 1 - m - 1,
              ScanState(toks, pos + |Flatten(f)|, stack, values + TLists.Payloads(Flatten(f))),
              fuel - |Flatten(f)|, morph);
  }

  /** Where the brackets and the body of a group sit among the tokens. */
  lemma GroupParts(toks: seq<Token>, pos: nat, f: Form)
    requires f.Group? && WellNested(f) && At(toks, pos, Flatten(f))
    ensures Flatten(f) == [f.open] + FlattenAll(f.body) + [f.close]
    ensures pos + 1 + |FlattenAll(f.body)| < |toks|
    ensures toks[pos] == f.open && toks[pos + 1 + |FlattenAll(f.body)|] == f.close
    ensures PlainBracket(f.open, false) && PlainBracket(f.close, true)
    ensures Lexeme.Pairs(f.close.Shape(), Some(f.open.Shape()))
    ensures WellNestedAll(f.body) && At(toks, pos + 1, FlattenAll(f.body))
  {
    var o, inner, c := f.open, FlattenAll(f.body), f.close;
    var m := |inner|;
    AtSplit(toks, pos, [o] + inner, [c]);
    AtSplit(toks, pos, [o], inner);
  }

  lemma AfterGroup(toks: seq<Token>, pos: nat, o: Token, inner: seq<Token>, c: Token, w: seq<Token>,
                   stack: seq<int>, values: seq<Obj>, fuel: int)
    requires w == [o] + inner + [c] && o.special == 0 && c.special == 0
    ensures fuel - 1 - |inner| - 1 == fuel - |w|
    ensures ScanState(toks, pos + 1 + |inner| + 1, stack, values + TLists.Payloads(inner))
         == ScanState(toks, pos + |w|, stack, values + TLists.Payloads(w))
  {
    PayloadsOfGroup(o, inner, c);
  }

  /** The brackets of a group carry no payload. */
  lemma PayloadsOfGroup(o: Token, inner: seq<Token>, c: Token)
    requires o.special == 0 && c.special == 0
    ensures TLists.Payloads([o] + inner + [c]) == TLists.Payloads(inner)
  {
    TLists.PayloadsLaws([o], inner, o);
    TLists.PayloadsLaws([o] + inner, [c], c);
    TLists.PayloadsLaws([], inner, o);
    assert [] + inner == inner;
  }

  /** The same for a sequence of trees. */
  lemma {:induction false} ScanForms(b: Bindings, toks: seq<Token>, pos: nat, fs: seq<Form>, stack: seq<int>,
                                     values: seq<Obj>, fuel: int, morph: Morph)
    requires WellNestedAll(fs) && At(toks, pos, FlattenAll(fs)) && fuel >= |FlattenAll(fs)|
    ensures Scan(b, ScanState(toks, pos, stack, values), fuel, morph)
         == Scan(b, ScanState(toks, pos + |FlattenAll(fs)|, stack, values + TLists.Payloads(FlattenAll(fs))),
                 fuel - |FlattenAll(fs)|, morph)
    decreases fs, 2
  {
    if fs == [] {
      assert FlattenAll(fs) == [];
      assert TLists.Payloads([]) == [];
      assert values + TLists.Payloads(FlattenAll(fs)) == values;
    } else {
      ScanFormsCons(b, toks, pos, fs, stack, values, fuel, morph);
    }
  }

  lemma {:induction false} ScanFormsCons(b: Bindings, toks: seq<Token>, pos: nat, fs: seq<Form>, stack: seq<int>,
                                         values: seq<Obj>, fuel: int, morph: Morph)
    requires fs != [] && WellNestedAll(fs) && At(toks, pos, FlattenAll(fs)) && fuel >= |FlattenAll(fs)|
    ensures Scan(b, ScanState(toks, pos, stack, values), fuel, morph)
         == Scan(b, ScanState(toks, pos + |FlattenAll(fs)|, stack, values + TLists.Payloads(FlattenAll(fs))),
                 fuel - |FlattenAll(fs)|, morph)
    decreases fs, 1
  {
    ConsParts(toks, pos, fs);
    ScanForm(b, toks, pos, fs[0], stack, values, fuel, morph);
    ScanFormsRest(b, toks, pos, fs, stack, values, fuel, morph);
  }

  lemma {:induction false} ScanFormsRest(b: Bindings, toks: seq<Token>, pos: nat, fs: seq<Form>, stack: seq<int>,
                                         values: seq<Obj>, fuel: int, morph: Morph)
    requires fs != [] && FlattenAll(fs) == Flatten(fs[0]) + FlattenAll(fs[1..])
    requires WellNestedAll(fs[1..]) && At(toks, pos + |Flatten(fs[0])|, FlattenAll(fs[1..]))
    requires fuel >= |FlattenAll(fs)|
    ensures Scan(b, ScanState(toks, pos + |Flatten(fs[0])|, stack, values + TLists.Payloads(Flatten(fs[0]))),
                 fuel - |Flatten(fs[0])|, morph)
         == Scan(b, ScanState(toks, pos + |FlattenAll(fs)|, stack, values + TLists.Payloads(FlattenAll(fs))),
                 fuel - |FlattenAll(fs)|, morph)
    decreases fs, 0
  {
    var head, tail := Flatten(fs[0]), FlattenAll(fs[1..]);
    var s2 := ScanState(toks, pos + |head|, stack, values + TLists.Payloads(head));
    ScanForms(b, toks, pos + |head|, fs[1..], stack, values + TLists.Payloads(head), fuel - |head|, morph);
    AfterAppend(toks, pos, head, tail, FlattenAll(fs), stack, values, fuel);
    ScanChain(b, s2, fuel - |head|, s2, fuel - |head|,
              ScanState(toks, pos + |head| + |tail|, stack, values + TLists.Payloads(head) + TLists.Payloads(tail)),
              fuel - |head| - |tail|,
              ScanState(toks, pos + |FlattenAll(fs)|, stack, values + TLists.Payloads(FlattenAll(fs))),
              fuel - |FlattenAll(fs)|, morph);
  }

  /** How the first tree and the rest of a sequence of trees divide its tokens. */
  lemma ConsParts(toks: seq<Token>, pos: nat, fs: seq<Form>)
    requires fs != [] && WellNestedAll(fs) && At(toks, pos, FlattenAll(fs))
    ensures FlattenAll(fs) == Flatten(fs[0]) + FlattenAll(fs[1..])
    ensures WellNested(fs[0]) && At(toks, pos, Flatten(fs[0]))
    ensures WellNestedAll(fs[1..]) && At(toks, pos + |Flatten(fs[0])|, FlattenAll(fs[1..]))
  {
    AtSplit(toks, pos, Flatten(fs[0]), FlattenAll(fs[1..]));
    WellNestedParts(fs);
  }

  /** Equal scans chain, up to equal states and bounds. */
  lemma ScanChain(b: Bindings, s1: ScanState, f1: int, s2: ScanState, f2: int, s3: ScanState, f3: int,
                  s4: ScanState, f4: int, morph: Morph)
    requires Scan(b, s1, f1, morph) == Scan(b, s2, f2, morph)
    requires Scan(b, s2, f2, morph) == Scan(b, s3, f3, morph)
    requires s3 == s4 && f3 == f4
    ensures Scan(b, s1, f1, morph) == Scan(b, s4, f4, morph)
  {
  }

  lemma AfterAppend(toks: seq<Token>, pos: nat, s: seq<Token>, u: seq<Token>, w: seq<Token>, stack: seq<int>,
                    values: seq<Obj>, fuel: int)
    requires w == s + u
    ensures fuel - |s| - |u| == fuel - |w|
    ensures ScanState(toks, pos + |s| + |u|, stack, values + TLists.Payloads(s) + TLists.Payloads(u))
         == ScanState(toks, pos + |w|, stack, values + TLists.Payloads(w))
  {
    TLists.PayloadsLaws(s, u, RESERVED);
    var ps, pu := TLists.Payloads(s), TLists.Payloads(u);
    assert TLists.Payloads(w) == ps + pu;
    assert values + ps + pu == values + (ps + pu);
  }

  lemma WellNestedParts(fs: seq<Form>)
    requires fs != [] && WellNestedAll(fs)
    ensures WellNested(fs[0]) && WellNestedAll(fs[1..])
  {
    forall j | 0 <= j < |fs[1..]| ensures WellNested(fs[1..][j]) {
      assert fs[1..][j] == fs[j + 1];
    }
  }

  /** parse of a well-nested token list without handlers ends normally, leaves the list as
      it is and returns the payloads of the tokens with a positive level, in list order: what
      TList.as returns for the same list. */
  lemma ParseWellNested(b: Bindings, fs: seq<Form>, fuel: int, morph: Morph)
    requires WellNestedAll(fs) && fuel >= |FlattenAll(fs)|
    ensures var toks := FlattenAll(fs);
      Scan(b, ScanState(toks, 0, [], []), fuel, morph)
      == Done(ScanState(toks, |toks|, [], TLists.Payloads(toks)))
  {
    var toks := FlattenAll(fs);
    AtSuffix(toks, 0);
    ScanForms(b, toks, 0, fs, [], [], fuel, morph);
    assert [] + TLists.Payloads(toks) == TLists.Payloads(toks);
  }

  /** The tokens of `pre`, then `o`, then the tokens of `mid`, then `c`, sit in `toks` at 0. */
  lemma {:induction false} FramedParts(toks: seq<Token>, pre: seq<Token>, o: Token, mid: seq<Token>, c: Token,
                                       rest: seq<Token>)
    requires toks == pre + [o] + mid + [c] + rest
    ensures At(toks, 0, pre) && At(toks, |pre| + 1, mid)
    ensures |pre| + 1 + |mid| < |toks| && toks[|pre|] == o && toks[|pre| + 1 + |mid|] == c
  {
    AtSuffix(toks, 0);
    assert toks[0..] == pre + ([o] + mid + [c] + rest);
    AtSplit(toks, 0, pre, [o] + mid + [c] + rest);
    assert toks[|pre| + 1..] == mid + ([c] + rest);
    AtSuffix(toks, |pre| + 1);
    AtSplit(toks, |pre| + 1, mid, [c] + rest);
  }

  /** A closing bracket that does not mirror the most recent open bracket makes parse throw,
      whatever well-nested forms come before the open bracket and between the two, and
      whatever follows: the exception names the open bracket and the list is left as it is. */
  lemma {:induction false} ParseRejectsMismatch(b: Bindings, pre: seq<Form>, o: Token, mid: seq<Form>, c: Token,
                                                rest: seq<Token>, fuel: int, morph: Morph)
    requires WellNestedAll(pre) && WellNestedAll(mid)
    requires PlainBracket(o, false) && PlainBracket(c, true) && !Lexeme.Pairs(c.Shape(), Some(o.Shape()))
    requires fuel >= |FlattenAll(pre)| + |FlattenAll(mid)| + 2
    ensures var toks := FlattenAll(pre) + [o] + FlattenAll(mid) + [c] + rest;
      Scan(b, ScanState(toks, 0, [], []), fuel, morph) == Failed(Mismatch(MismatchMessage(o)), toks)
  {
    var toks := FlattenAll(pre) + [o] + FlattenAll(mid) + [c] + rest;
    var p := |FlattenAll(pre)|;
    FramedParts(toks, FlattenAll(pre), o, FlattenAll(mid), c, rest);
    ScanForms(b, toks, 0, pre, [], [], fuel, morph);
    ScanRejectsMismatch(b, toks, p, mid, [], [] + TLists.Payloads(FlattenAll(pre)), fuel - p, morph);
  }

  /** The same at any depth: from any point of the scan, whatever brackets are already open and
      whatever values are collected, a plain open bracket, well-nested forms and then a closing
      bracket that does not mirror it make parse throw, naming that open bracket. */
  lemma {:induction false} ScanRejectsMismatch(b: Bindings, toks: seq<Token>, p: nat, mid: seq<Form>,
                                               stack: seq<int>, values: seq<Obj>, fuel: int, morph: Morph)
    requires WellNestedAll(mid) && At(toks, p + 1, FlattenAll(mid)) && p + 1 + |FlattenAll(mid)| < |toks|
    requires PlainBracket(toks[p], false) && PlainBracket(toks[p + 1 + |FlattenAll(mid)|], true)
    requires !Lexeme.Pairs(toks[p + 1 + |FlattenAll(mid)|].Shape(), Some(toks[p].Shape()))
    requires fuel >= |FlattenAll(mid)| + 2
    ensures Scan(b, ScanState(toks, p, stack, values), fuel, morph) == Failed(Mismatch(MismatchMessage(toks[p])), toks)
  {
    var m := |FlattenAll(mid)|;
    ScanOpen(b, toks, p, stack, values, fuel, morph);
    ScanForms(b, toks, p + 1, mid, stack + [p], values, fuel - 1, morph);
    ScanMismatch(b, toks, p, p + 1 + m, stack, values + TLists.Payloads(FlattenAll(mid)), fuel - 1 - m, morph);
  }

  /** An example at depth two: in `( { ] )` the "]" is checked against the "{" opened last,
      not against the "(" that it would mirror, and parse throws naming "{". */
  lemma ParseRejectsNestedExample(b: Bindings, fuel: int, morph: Morph)
    requires fuel >= 3
    ensures var o1, o2 := Token(None, Some("("), None, false, 0, Null), Token(None, Some("{"), None, false, 0, Null);
      var c1, c2 := Token(None, Some("]"), None, true, 0, Null), Token(None, Some(")"), None, true, 0, Null);
      Scan(b, ScanState([o1, o2, c1, c2], 0, [], []), fuel, morph) == Failed(Mismatch(MismatchMessage(o2)), [o1, o2, c1, c2])
  {
    var o1, o2 := Token(None, Some("("), None, false, 0, Null), Token(None, Some("{"), None, false, 0, Null);
    var c1, c2 := Token(None, Some("]"), None, true, 0, Null), Token(None, Some(")"), None, true, 0, Null);
    var toks := [o1, o2, c1, c2];
    assert !Lexeme.MirrorImage("]", "{") by {
      assert "]"[0] == ']' && "{"[0] == '{';
      assert Lexeme.MatchBracket('{') == '}';
    }
    assert FlattenAll([]) == [];
    ScanOpen(b, toks, 0, [], [], fuel, morph);
    assert [] + [0] == [0];
    ScanRejectsMismatch(b, toks, 1, [], [0], [], fuel - 1, morph);
  }

  /** One pass over a plain closing bracket that does not mirror the open bracket on top of
      the stack throws. */
  lemma ScanMismatch(b: Bindings, toks: seq<Token>, pos0: nat, pos: nat, stack: seq<int>, values: seq<Obj>,
                     fuel: int, morph: Morph)
    requires pos0 < pos < |toks| && fuel >= 1
    requires PlainBracket(toks[pos], true) && !Lexeme.Pairs(toks[pos].Shape(), Some(toks[pos0].Shape()))
    ensures Scan(b, ScanState(toks, pos, stack + [pos0], values), fuel, morph)
         == Failed(Mismatch(MismatchMessage(toks[pos0])), toks)
  {
    assert (stack + [pos0])[..|stack|] == stack;
  }

  /** A closing bracket with nothing open makes parse throw, whatever well-nested forms come
      before it and whatever follows. */
  lemma {:induction false} ParseRejectsStrayClose(b: Bindings, pre: seq<Form>, c: Token, rest: seq<Token>,
                                                  fuel: int, morph: Morph)
    requires WellNestedAll(pre) && PlainBracket(c, true) && fuel >= |FlattenAll(pre)| + 1
    ensures var toks := FlattenAll(pre) + [c] + rest;
      Scan(b, ScanState(toks, 0, [], []), fuel, morph) == Failed(EmptyStack, toks)
  {
    var toks := FlattenAll(pre) + [c] + rest;
    var p := |FlattenAll(pre)|;
    AtSuffix(toks, 0);
    assert toks[0..] == FlattenAll(pre) + ([c] + rest);
    AtSplit(toks, 0, FlattenAll(pre), [c] + rest);
    ScanForms(b, toks, 0, pre, [], [], fuel, morph);
    var st := ScanState(toks, p, [], [] + TLists.Payloads(FlattenAll(pre)));
    assert toks[p] == c;
    assert Step(b, st, morph) == Failed(EmptyStack, toks);
    assert Scan(b, st, fuel - p, morph) == Failed(EmptyStack, toks);
  }
}
