/** TList: an ArrayList of tokens with its own rendering and payload filter, and the immutable
    EmptyTList behind TList.empty, whose mutators all fail except clear, which does nothing. */
module TLists {
  import opened Wrappers
  import opened Objects
  import Lexeme

  /** The exceptions a list operation can throw. */
  datatype Failure = Unsupported | IndexOutOfBounds

  /** The payloads of the tokens with a positive level, in list order. */
  function Payloads(items: seq<Token>): seq<Obj>
  {
    if items == [] then []
    else Payloads(items[..|items| - 1])
         + (if items[|items| - 1].special > 0 then [items[|items| - 1].solid] else [])
  }

  /** ArrayList.contains(t) on a collection: some element c[j] with t.equals(c[j]). */
  predicate Contains(c: seq<Obj>, t: Token)
  {
    exists j :: 0 <= j < |c| && TokenEquals(t, c[j])
  }

  /** The tokens that c contains (keep) or does not contain (!keep), in list order. */
  function Filter(items: seq<Token>, c: seq<Obj>, keep: bool): (r: seq<Token>)
    ensures |r| <= |items|
    ensures forall t :: t in r ==> t in items && Contains(c, t) == keep
  {
    if items == [] then []
    else (if Contains(c, items[0]) == keep then [items[0]] else []) + Filter(items[1..], c, keep)
  }

  /** The first index whose token o equals, if any. */
  function IndexOf(items: seq<Token>, o: Obj): (r: Option<nat>)
    ensures r.Some? ==> r.value < |items| && o != Null && Equals(o, Tok(items[r.value]))
    ensures r.Some? ==> forall i :: 0 <= i < r.value ==> !Equals(o, Tok(items[i]))
    ensures r.None? ==> forall i :: 0 <= i < |items| ==> o == Null || !Equals(o, Tok(items[i]))
  {
    if o == Null || items == [] then None
    else if Equals(o, Tok(items[0])) then Some(0)
    else
      var k := IndexOf(items[1..], o);
      if k.Some? then Some(k.value + 1) else None
  }

  class TList {
    var items: seq<Token>
    /** Whether this is the EmptyTList behind TList.empty. */
    const immutable: bool

    /** The immutable list holds nothing, ever. */
    predicate Valid()
      reads this
    {
      immutable ==> items == []
    }

    /** new TList() and new TList(initialCapacity). */
    constructor ()
      ensures Valid() && items == [] && !immutable
    {
      items := [];
      immutable := false;
    }

    /** new TList(collection): the collection's tokens in its iteration order. */
    constructor FromCollection(c: seq<Token>)
      ensures Valid() && items == c && !immutable
    {
      items := c;
      immutable := false;
    }

    /** new EmptyTList(), the object TList.empty holds. */
    constructor Empty()
      ensures Valid() && items == [] && immutable
    {
      items := [];
      immutable := true;
    }

    /** TList.toString. */
    method ToString() returns (s: string)
      ensures s == ListText(items)
    {
      var n, i, first := |items|, 0, true;
      s := "[";
      while i < n
        invariant 0 <= i <= n
        invariant first <==> i == 0
        invariant s == "[" + Joined(TokenTexts(items[..i]))
      {
        if first {
          first := false;
        } else {
          s := s + " ";
        }
        ghost var before := TokenTexts(items[..i]);
        s := s + Lexeme.ToString(items[i].Shape());
        assert items[..i + 1][..i] == items[..i];
        assert TokenTexts(items[..i + 1]) == before + [Lexeme.ToString(items[i].Shape())];
        assert (before + [Lexeme.ToString(items[i].Shape())])[..|before|] == before;
        i := i + 1;
      }
      assert items[..n] == items;
      s := s + "]";
    }

    /** TList.as(clazz): the payloads of the tokens with a positive level. The class argument
        only drives an unchecked cast and does not change the result. */
    method As() returns (r: seq<Obj>)
      ensures r == Payloads(items)
    {
      var sz := |items|;
      r := [];
      for i := 0 to sz
        invariant r == Payloads(items[..i])
      {
        var tk := items[i];
        assert items[..i + 1][..i] == items[..i];
        if tk.special > 0 {
          r := r + [tk.solid];
        }
      }
      assert items[..sz] == items;
    }

    /** set(index, element): the old element, or a failure. */
    method Set(index: int, element: Token) returns (r: Result<Token, Failure>)
      requires Valid()
      modifies this
      ensures Valid()
      ensures immutable ==> r == Err(Unsupported) && items == old(items)
      ensures !immutable && !(0 <= index < |old(items)|) ==> r == Err(IndexOutOfBounds) && items == old(items)
      ensures !immutable && 0 <= index < |old(items)| ==>
                r == Ok(old(items)[index]) && items == old(items)[index := element]
    {
      if immutable {
        return Err(Unsupported);
      }
      if !(0 <= index < |items|) {
        return Err(IndexOutOfBounds);
      }
      r := Ok(items[index]);
      items := items[index := element];
    }

    /** add(token). */
    method Add(token: Token) returns (r: Result<bool, Failure>)
      requires Valid()
      modifies this
      ensures Valid()
      ensures immutable ==> r == Err(Unsupported) && items == old(items)
      ensures !immutable ==> r == Ok(true) && items == old(items) + [token]
    {
      if immutable {
        return Err(Unsupported);
      }
      items := items + [token];
      r := Ok(true);
    }

    /** add(index, element). */
    method AddAt(index: int, element: Token) returns (r: Result<(), Failure>)
      requires Valid()
      modifies this
      ensures Valid()
      ensures immutable ==> r == Err(Unsupported) && items == old(items)
      ensures !immutable && !(0 <= index <= |old(items)|) ==> r == Err(IndexOutOfBounds) && items == old(items)
      ensures !immutable && 0 <= index <= |old(items)| ==>
                r == Ok(()) && items == old(items)[..index] + [element] + old(items)[index..]
    {
      if immutable {
        return Err(Unsupported);
      }
      if !(0 <= index <= |items|) {
        return Err(IndexOutOfBounds);
      }
      items := items[..index] + [element] + items[index..];
      r := Ok(());
    }

    /** remove(index): the removed element. */
    method RemoveAt(index: int) returns (r: Result<Token, Failure>)
      requires Valid()
      modifies this
      ensures Valid()
      ensures immutable ==> r == Err(Unsupported) && items == old(items)
      ensures !immutable && !(0 <= index < |old(items)|) ==> r == Err(IndexOutOfBounds) && items == old(items)
      ensures !immutable && 0 <= index < |old(items)| ==>
                r == Ok(old(items)[index]) && items == old(items)[..index] + old(items)[index + 1..]
    {
      if immutable {
        return Err(Unsupported);
      }
      if !(0 <= index < |items|) {
        return Err(IndexOutOfBounds);
      }
      r := Ok(items[index]);
      items := items[..index] + items[index + 1..];
    }

    /** remove(object): drops the first token the object equals. */
    method RemoveObject(o: Obj) returns (r: Result<bool, Failure>)
      requires Valid()
      modifies this
      ensures Valid()
      ensures immutable ==> r == Err(Unsupported) && items == old(items)
      ensures !immutable && IndexOf(old(items), o).None? ==> r == Ok(false) && items == old(items)
      ensures !immutable && IndexOf(old(items), o).Some? ==>
                var k := IndexOf(old(items), o).value;
                r == Ok(true) && items == old(items)[..k] + old(items)[k + 1..]
    {
      if immutable {
        return Err(Unsupported);
      }
      var k := IndexOf(items, o);
      if k.None? {
        return Ok(false);
      }
      items := items[..k.value] + items[k.value + 1..];
      r := Ok(true);
    }

    /** clear(): empties an ordinary list and leaves the immutable one as it is, empty. */
    method Clear()
      requires Valid()
      modifies this
      ensures Valid() && items == []
    {
      if !immutable {
        items := [];
      }
    }

    /** addAll(collection): whether anything was added. */
    method AddAll(c: seq<Token>) returns (r: Result<bool, Failure>)
      requires Valid()
      modifies this
      ensures Valid()
      ensures immutable ==> r == Err(Unsupported) && items == old(items)
      ensures !immutable ==> r == Ok(c != []) && items == old(items) + c
    {
      if immutable {
        return Err(Unsupported);
      }
      items := items + c;
      r := Ok(c != []);
    }

    /** addAll(index, collection). */
    method AddAllAt(index: int, c: seq<Token>) returns (r: Result<bool, Failure>)
      requires Valid()
      modifies this
      ensures Valid()
      ensures immutable ==> r == Err(Unsupported) && items == old(items)
      ensures !immutable && !(0 <= index <= |old(items)|) ==> r == Err(IndexOutOfBounds) && items == old(items)
      ensures !immutable && 0 <= index <= |old(items)| ==>
                r == Ok(c != []) && items == old(items)[..index] + c + old(items)[index..]
    {
      if immutable {
        return Err(Unsupported);
      }
      if !(0 <= index <= |items|) {
        return Err(IndexOutOfBounds);
      }
      items := items[..index] + c + items[index..];
      r := Ok(c != []);
    }

    /** removeRange(fromIndex, toIndex). */
    method RemoveRange(fromIndex: int, toIndex: int) returns (r: Result<(), Failure>)
      requires Valid()
      modifies this
      ensures Valid()
      ensures immutable ==> r == Err(Unsupported) && items == old(items)
      ensures !immutable && !(0 <= fromIndex <= toIndex <= |old(items)|) ==>
                r == Err(IndexOutOfBounds) && items == old(items)
      ensures !immutable && 0 <= fromIndex <= toIndex <= |old(items)| ==>
                r == Ok(()) && items == old(items)[..fromIndex] + old(items)[toIndex..]
    {
      if immutable {
        return Err(Unsupported);
      }
      if !(0 <= fromIndex <= toIndex <= |items|) {
        return Err(IndexOutOfBounds);
      }
      items := items[..fromIndex] + items[toIndex..];
      r := Ok(());
    }

    /** removeAll(collection): keeps the tokens the collection does not contain. */
    method RemoveAll(c: seq<Obj>) returns (r: Result<bool, Failure>)
      requires Valid()
      modifies this
      ensures Valid()
      ensures immutable ==> r == Err(Unsupported) && items == old(items)
      ensures !immutable ==> items == Filter(old(items), c, false) && r == Ok(|items| != |old(items)|)
    {
      if immutable {
        return Err(Unsupported);
      }
      var before := |items|;
      items := Filter(items, c, false);
      r := Ok(|items| != before);
    }

    /** retainAll(collection): keeps the tokens the collection contains. */
    method RetainAll(c: seq<Obj>) returns (r: Result<bool, Failure>)
      requires Valid()
      modifies this
      ensures Valid()
      ensures immutable ==> r == Err(Unsupported) && items == old(items)
      ensures !immutable ==> items == Filter(old(items), c, true) && r == Ok(|items| != |old(items)|)
    {
      if immutable {
        return Err(Unsupported);
      }
      var before := |items|;
      items := Filter(items, c, true);
      r := Ok(|items| != before);
    }
  }

  /** Joining two non-empty runs of texts is joining each and putting one space between. */
  lemma {:induction false} JoinedAppend(ps: seq<string>, qs: seq<string>)
    requires ps != [] && qs != []
    ensures Joined(ps + qs) == Joined(ps) + " " + Joined(qs)
    decreases |qs|
  {
    var all := ps + qs;
    assert all[..|all| - 1] == ps + qs[..|qs| - 1];
    if |qs| == 1 {
      assert all[..|all| - 1] == ps;
      assert Joined(qs) == qs[0] by {
        assert qs[..0] == [];
      }
    } else {
      JoinedAppend(ps, qs[..|qs| - 1]);
    }
  }

  lemma {:induction false} TokenTextsAppend(xs: seq<Token>, ys: seq<Token>)
    ensures TokenTexts(xs + ys) == TokenTexts(xs) + TokenTexts(ys)
    decreases |ys|
  {
    if ys == [] {
      assert xs + ys == xs;
    } else {
      var zs := xs + ys;
      assert zs[..|zs| - 1] == xs + ys[..|ys| - 1];
      TokenTextsAppend(xs, ys[..|ys| - 1]);
    }
  }

  /** TList.toString: "[]" for the empty list and "[t]" for one token. */
  lemma ListTextSmall(t: Token)
    ensures ListText([]) == "[]"
    ensures ListText([t]) == "[" + Lexeme.ToString(t.Shape()) + "]"
  {
    assert [t][..0] == [];
    var text := Lexeme.ToString(t.Shape());
    assert TokenTexts([t]) == [text];
    assert [text][..0] == [];
    assert Joined([text]) == text;
  }

  /** Bracketed joins of two non-empty runs of texts meet at one space. */
  lemma BracketedJoinAppend(tx: seq<string>, ty: seq<string>)
    requires tx != [] && ty != []
    ensures var lx, ly := "[" + Joined(tx) + "]", "[" + Joined(ty) + "]";
      "[" + Joined(tx + ty) + "]" == lx[..|lx| - 1] + " " + ly[1..]
  {
    JoinedAppend(tx, ty);
    var jx, jy := Joined(tx), Joined(ty);
    var lx, ly := "[" + jx + "]", "[" + jy + "]";
    assert lx[..|lx| - 1] == "[" + jx;
    assert ly[1..] == jy + "]";
  }

  /** TList.toString: two lists render as their texts between one pair of brackets, joined
      by exactly one space. */
  lemma ListTextAppend(xs: seq<Token>, ys: seq<Token>)
    requires xs != [] && ys != []
    ensures ListText(xs + ys) == ListText(xs)[..|ListText(xs)| - 1] + " " + ListText(ys)[1..]
  {
    TokenTextsAppend(xs, ys);
    BracketedJoinAppend(TokenTexts(xs), TokenTexts(ys));
  }

  /** TList.as: payloads of concatenated lists concatenate, so the filter keeps list order; a
      single token contributes its payload exactly when its level is positive. The result is
      never longer than the list. */
  lemma {:induction false} PayloadsLaws(xs: seq<Token>, ys: seq<Token>, t: Token)
    ensures Payloads(xs + ys) == Payloads(xs) + Payloads(ys)
    ensures Payloads([t]) == (if t.special > 0 then [t.solid] else [])
    ensures |Payloads(xs)| <= |xs|
    decreases |ys|
  {
    assert [t][..0] == [];
    PayloadsShorter(xs);
    if ys != [] {
      var zs := xs + ys;
      assert zs[..|zs| - 1] == xs + ys[..|ys| - 1];
      assert zs[|zs| - 1] == ys[|ys| - 1];
      PayloadsLaws(xs, ys[..|ys| - 1], t);
    } else {
      assert xs + ys == xs;
    }
  }

  lemma {:induction false} PayloadsShorter(xs: seq<Token>)
    ensures |Payloads(xs)| <= |xs|
    decreases |xs|
  {
    if xs != [] {
      PayloadsShorter(xs[..|xs| - 1]);
    }
  }

  /** TList.empty: each of its eleven mutators in turn leaves it empty, and every one of them
      but clear refuses with UnsupportedOperationException. */
  method EmptyStaysEmpty(t: Token, c: seq<Token>, o: Obj, os: seq<Obj>, i: int, j: int)
    returns (sizes: seq<nat>, refused: seq<bool>)
    ensures sizes == [0, 0, 0, 0, 0, 0, 0, 0, 0, 0, 0]
    ensures refused == [true, true, true, true, true, true, true, true, true, true]
  {
    var empty := new TList.Empty();
    var replaced := empty.Set(i, t);
    sizes := [|empty.items|];
    var added := empty.Add(t);
    sizes := sizes + [|empty.items|];
    var inserted := empty.AddAt(i, t);
    sizes := sizes + [|empty.items|];
    var removed := empty.RemoveAt(i);
    sizes := sizes + [|empty.items|];
    var removedObject := empty.RemoveObject(o);
    sizes := sizes + [|empty.items|];
    empty.Clear();
    sizes := sizes + [|empty.items|];
    var appended := empty.AddAll(c);
    sizes := sizes + [|empty.items|];
    var spliced := empty.AddAllAt(i, c);
    sizes := sizes + [|empty.items|];
    var cut := empty.RemoveRange(i, j);
    sizes := sizes + [|empty.items|];
    var dropped := empty.RemoveAll(os);
    sizes := sizes + [|empty.items|];
    var kept := empty.RetainAll(os);
    sizes := sizes + [|empty.items|];
    refused := [replaced == Err(Unsupported), added == Err(Unsupported), inserted == Err(Unsupported),
                removed == Err(Unsupported), removedObject == Err(Unsupported),
                appended == Err(Unsupported), spliced == Err(Unsupported), cut == Err(Unsupported),
                dropped == Err(Unsupported), kept == Err(Unsupported)];
  }
}
