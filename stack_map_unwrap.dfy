/** StackMap.unwrap and StackMap.objectUnwrap: copy what an iterator yields into an array from an
    offset, at most max elements, and answer how many were copied. The iterator is the sequence
    `items` of what it would yield; Java's exceptions are the Err cases. */
module StackMapUnwrap {
  import opened Wrappers
  import opened JavaLang

  /** IllegalArgumentException from the guards, ArrayIndexOutOfBoundsException from a store
      past the end of the array. */
  datatype UnwrapFailure = IllegalArgument | IndexOutOfBounds

  function Min(x: int, y: int): (m: int)
    ensures m <= x && m <= y && (m == x || m == y)
  {
    if x <= y then x else y
  }

  /** `now` is `before` with items[0..n) stored from offset on, as far as the array reaches. */
  ghost predicate Stored<T>(now: seq<T>, before: seq<T>, offset: int, items: seq<T>, n: int)
  {
    && 0 <= n <= |items| && |now| == |before|
    && forall i :: 0 <= i < |now| ==> now[i] == if offset <= i < offset + n then items[i - offset] else before[i]
  }

  /** The loop shared by both overloads, after their guards:
      `j = max; while (j-- != 0 && i.hasNext()) array[offset++] = i.next(); return max - j - 1;`
      It copies min(max, |items|) elements, and fails at the first store past the array's end. */
  method CopyOut<T>(items: seq<T>, a: array<T>, offset: int, max: int) returns (r: Result<int, UnwrapFailure>)
    requires 0 <= offset && 0 <= max
    modifies a
    ensures var n := Min(max, |items|);
      && (r.Ok? <==> n == 0 || offset + n <= a.Length)
      && (r.Ok? ==> r.value == n)
      && (r.Err? ==> r.error == IndexOutOfBounds)
      && Stored(a[..], old(a[..]), offset, items, n)
  {
    var j := max;
    var n := 0;
    var off := offset;
    var go := j != 0;
    j := j - 1;
    go := go && n < |items|;
    while go
      invariant 0 <= n <= max && n <= |items| && off == offset + n && (n == 0 || off <= a.Length)
      invariant j == max - n - 1
      invariant go == (n < max && n < |items|)
      invariant Stored(a[..], old(a[..]), offset, items, n)
      decreases max - n
    {
      if off >= a.Length {
        r := Err(IndexOutOfBounds);
        return;
      }
      a[off] := items[n];
      off := off + 1;
      n := n + 1;
      go := j != 0;
      j := j - 1;
      go := go && n < |items|;
    }
    r := Ok(max - j - 1);
  }

  /** The four-argument unwrap as written. Its second guard adds offset and max as Java ints, so a
      sum past Integer.MAX_VALUE wraps negative and passes; the loop then stores past the array's
      end. offset and max are ints and an array holds fewer than 2^31 elements. */
  method Unwrap<T>(items: seq<T>, a: array<T>, offset: int, max: int) returns (r: Result<int, UnwrapFailure>)
    requires IsInt(offset) && IsInt(max) && a.Length < TWO_31
    modifies a
    ensures var admitted := 0 <= max && 0 <= offset && Wrap32(offset + max) <= a.Length;
      var n := Min(max, |items|);
      && (r == Err(IllegalArgument) <==> !admitted)
      && (r == Err(IndexOutOfBounds) <==> admitted && 0 < n && a.Length < offset + n)
      && (r.Ok? <==> admitted && (n == 0 || offset + n <= a.Length))
      && (r.Ok? ==> r.value == n)
      && (admitted ==> Stored(a[..], old(a[..]), offset, items, n))
    ensures r == Err(IllegalArgument) ==> a[..] == old(a[..])
  {
    if max < 0 {
      return Err(IllegalArgument);
    }
    if offset < 0 || Wrap32(offset + max) > a.Length {
      return Err(IllegalArgument);
    }
    r := CopyOut(items, a, offset, max);
  }

  /** The two-argument unwrap, `unwrap(i, array, 0, array.length)`: it fills the array from the
      start with as many elements as both hold, and never fails. */
  method UnwrapAll<T>(items: seq<T>, a: array<T>) returns (r: Result<int, UnwrapFailure>)
    requires a.Length < TWO_31
    modifies a
    ensures r == Ok(Min(a.Length, |items|))
    ensures Stored(a[..], old(a[..]), 0, items, Min(a.Length, |items|))
  {
    assert Wrap32(0 + a.Length) == a.Length;
    r := Unwrap(items, a, 0, a.Length);
  }

  /** The second guard as written lets offset 5 and max Integer.MAX_VALUE through for a ten-element
      array, since the sum wraps to a negative int; the corrected guard refuses them. */
  lemma GuardAdmitsWrappedSum()
    ensures var offset, max, length := 5, 0x7FFF_FFFF, 10;
      && !(offset < 0 || Wrap32(offset + max) > length)
      && offset + max > length
      && (offset < 0 || max > length - offset)
  {
    assert Wrap32(5 + 0x7FFF_FFFF) == -0x7FFF_FFFC;
  }

  /** The two guards agree whenever offset + max is an int, so the difference is the overflow
      alone. */
  lemma GuardsAgreeWithoutOverflow(offset: int, max: int, length: int)
    requires IsInt(offset + max)
    ensures (offset < 0 || Wrap32(offset + max) > length) <==> (offset < 0 || max > length - offset)
  {
  }

  /** unwrap with the second guard as `offset < 0 || max > array.length - offset`, which cannot
      overflow: whatever it admits fits in the array, so it never stores past the end. */
  method UnwrapCorrected<T>(items: seq<T>, a: array<T>, offset: int, max: int) returns (r: Result<int, UnwrapFailure>)
    requires IsInt(offset) && IsInt(max) && a.Length < TWO_31
    modifies a
    ensures r.Err? <==> max < 0 || offset < 0 || offset + max > a.Length
    ensures r.Err? ==> r.error == IllegalArgument && a[..] == old(a[..])
    ensures r.Ok? ==> r.value == Min(max, |items|) && offset + r.value <= a.Length
    ensures r.Ok? ==> a[..] == old(a[..offset]) + items[..r.value] + old(a[offset + r.value..])
  {
    if max < 0 {
      return Err(IllegalArgument);
    }
    if offset < 0 || max > a.Length - offset {
      return Err(IllegalArgument);
    }
    ghost var before := a[..];
    r := CopyOut(items, a, offset, max);
    StoredSplices(a[..], before, offset, items, r.value);
  }

  /** Stored elements inside the array read as a splice of the sequence. */
  lemma StoredSplices<T>(now: seq<T>, before: seq<T>, offset: int, items: seq<T>, n: int)
    requires 0 <= offset && offset + n <= |before| && Stored(now, before, offset, items, n)
    ensures now == before[..offset] + items[..n] + before[offset + n..]
  {
    var spliced := before[..offset] + items[..n] + before[offset + n..];
    assert |spliced| == |now|;
    forall i | 0 <= i < |now|
      ensures now[i] == spliced[i]
    {
      if i < offset {
      } else if i < offset + n {
        assert spliced[i] == items[..n][i - offset];
      } else {
        assert spliced[i] == before[offset + n..][i - offset - n];
      }
    }
  }
}
