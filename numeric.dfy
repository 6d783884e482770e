/** Core: the numeric coercions and the `plus` procedure, which works on the front of the
    exchange deque through which procedures receive operands and return results. */
module Numeric {
  import opened Wrappers
  import opened JavaLang
  import opened Objects

  /** Core.isNumeric: a Number or a Boolean. */
  predicate IsNumeric(o: Obj)
  {
    o.Bool? || o.Integral? || o.Floating?
  }

  /** Core.isFloating: a Double or a Float. */
  predicate IsFloating(o: Obj)
  {
    o.Floating?
  }

  /** Core.asLong: a number's longValue(), 1 or 0 for a boolean, 0 for anything else,
      null included. A boxed value is taken to lie within its class's range. */
  function AsLong(o: Obj): (r: int)
    ensures !IsNumeric(o) ==> r == 0
    ensures o.Bool? ==> r == (if o.b then 1 else 0)
  {
    match o
    case Integral(_, n) => n
    case Floating(_, _, whole, _) => whole
    case Bool(b) => if b then 1 else 0
    case _ => 0
  }

  /** The Long that autoboxing a long produces. */
  function BoxLong(n: int): Obj
  {
    Integral(Long, n)
  }

  /** Every floating value is numeric, and boxing a long and reading it back is the identity. */
  lemma CoercionLaws(o: Obj, n: int)
    ensures IsFloating(o) ==> IsNumeric(o)
    ensures IsNumeric(BoxLong(n)) && !IsFloating(BoxLong(n)) && AsLong(BoxLong(n)) == n
    ensures AsLong(Null) == 0 && !IsNumeric(Null)
  {
  }

  /** What plus.run leaves in the exchange, as written. A floating head is replaced, together
      with the operand after it if there is one, by the Double that floating-point addition
      yields; that Double is a parameter, since floating point is not part of this model. A
      non-floating head is replaced by its long value: the second operand is only read when
      the deque is already empty, where pollFirst() gives null, whose long value is 0. */
  function PlusAsWritten(xs: seq<Obj>, pushed: Obj): (r: seq<Obj>)
  {
    if |xs| == 0 then []
    else if IsFloating(xs[0]) then
      if |xs| == 1 then [pushed] else [pushed] + xs[2..]
    else [BoxLong(AsLong(xs[0]))] + xs[1..]
  }

  /** plus.run as evidently intended: the operand after a non-floating head is added to it
      (in 64-bit arithmetic when it is not floating). */
  function PlusIntended(xs: seq<Obj>, pushed: Obj): (r: seq<Obj>)
  {
    if |xs| == 0 then []
    else if IsFloating(xs[0]) then
      if |xs| == 1 then [pushed] else [pushed] + xs[2..]
    else if |xs| == 1 then [BoxLong(AsLong(xs[0]))]
    else if IsFloating(xs[1]) then [pushed] + xs[2..]
    else [BoxLong(Wrap64(AsLong(xs[0]) + AsLong(xs[1])))] + xs[2..]
  }

  /** The exchange deque of a Manager; the front of the deque is items[0]. */
  class Exchange {
    var items: seq<Obj>

    constructor ()
      ensures items == []
    {
      items := [];
    }

    /** Core.plus.run, as written. */
    method Plus(pushed: Obj)
      modifies this
      ensures items == PlusAsWritten(old(items), pushed)
    {
      if |items| != 0 {
        if IsFloating(items[0]) {
          items := items[1..];
          if |items| == 0 {
            items := [pushed] + items;
          } else {
            items := items[1..];
            items := [pushed] + items;
          }
        } else {
          var first := AsLong(items[0]);
          items := items[1..];
          if |items| == 0 {
            // peekFirst() and pollFirst() of the empty deque are both null, which is not
            // floating and whose long value is 0
            items := [BoxLong(first + AsLong(Null))] + items;
          } else {
            items := [BoxLong(first)] + items;
          }
        }
      }
    }

    /** Core.plus.run with the emptiness test the evident intent calls for. */
    method PlusCorrected(pushed: Obj)
      modifies this
      ensures items == PlusIntended(old(items), pushed)
    {
      if |items| != 0 {
        if IsFloating(items[0]) {
          items := items[1..];
          if |items| == 0 {
            items := [pushed] + items;
          } else {
            items := items[1..];
            items := [pushed] + items;
          }
        } else {
          var first := AsLong(items[0]);
          items := items[1..];
          if |items| != 0 {
            if IsFloating(items[0]) {
              items := items[1..];
              items := [pushed] + items;
            } else {
              var second := AsLong(items[0]);
              items := items[1..];
              items := [BoxLong(Wrap64(first + second))] + items;
            }
          } else {
            items := [BoxLong(first)] + items;
          }
        }
      }
    }
  }

  /** plus as written: an empty exchange stays empty; a non-floating head becomes its long
      value and nothing else changes, so no second operand is ever added; a floating head
      takes its partner with it. */
  lemma PlusAsWrittenEffect(xs: seq<Obj>, pushed: Obj)
    ensures xs == [] ==> PlusAsWritten(xs, pushed) == []
    ensures xs != [] && !IsFloating(xs[0]) ==>
              var r := PlusAsWritten(xs, pushed);
              |r| == |xs| && r[1..] == xs[1..] && r[0] == BoxLong(AsLong(xs[0]))
              && AsLong(r[0]) == AsLong(xs[0])
    ensures |xs| >= 2 && IsFloating(xs[0]) ==> |PlusAsWritten(xs, pushed)| == |xs| - 1
    ensures |xs| == 1 && IsFloating(xs[0]) ==> PlusAsWritten(xs, pushed) == [pushed]
  {
  }

  /** An example of the discrepancy: as written, plus on the exchange 1, 2 leaves 1, 2; as intended it
      leaves 3. */
  lemma PlusIgnoresSecondOperand()
    ensures PlusAsWritten([BoxLong(1), BoxLong(2)], Null) == [BoxLong(1), BoxLong(2)]
    ensures PlusIntended([BoxLong(1), BoxLong(2)], Null) == [BoxLong(3)]
  {
    assert [BoxLong(1), BoxLong(2)][1..] == [BoxLong(2)];
    assert [BoxLong(1), BoxLong(2)][2..] == [];
  }

  /** plus as intended: two non-floating operands are replaced by one Long holding their
      64-bit sum, which does not depend on their order; the rest of the exchange is kept. */
  lemma {:induction false} PlusIntendedAdds(a: Obj, b: Obj, rest: seq<Obj>, pushed: Obj)
    requires !IsFloating(a) && !IsFloating(b)
    ensures var r := PlusIntended([a, b] + rest, pushed);
      && |r| == |rest| + 1
      && r[1..] == rest
      && r[0].Integral? && r[0].icls == Long
      && -TWO_63 <= AsLong(r[0]) < TWO_63
      && (AsLong(r[0]) - (AsLong(a) + AsLong(b))) % TWO_64 == 0
      && r == PlusIntended([b, a] + rest, pushed)
  {
    var xs, ys := [a, b] + rest, [b, a] + rest;
    assert xs[0] == a && xs[1] == b && xs[2..] == rest;
    assert ys[0] == b && ys[1] == a && ys[2..] == rest;
    assert AsLong(a) + AsLong(b) == AsLong(b) + AsLong(a);
  }
}
