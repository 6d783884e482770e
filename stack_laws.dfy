/** What StackMap promises, stated over the table value: put and remove contracts, the shape
    every operation keeps, and the stack each key behaves as while its probe run is its own. */
module StackLaws {
  import opened Wrappers
  import opened StackTables

  // ---- probing ----

  /** A distance whose slots before it are all occupied, and which is itself empty, is the gap. */
  lemma GapIs<K>(ks: seq<Option<K>>, p: int, g: int)
    requires 0 <= p < |ks| && 0 <= g < |ks| && ks[Slot(|ks|, p, g)].None?
    requires forall e :: 0 <= e < g ==> ks[Slot(|ks|, p, e)].Some?
    ensures Gap(ks, p, 0) == g
  {
  }

  /** A distance holding k, with every slot before it occupied by other keys, is what Find
      returns. */
  lemma FindIs<K>(ks: seq<Option<K>>, k: K, p: int, d: int)
    requires 0 <= p < |ks| && 0 <= d < |ks| && ks[Slot(|ks|, p, d)] == Some(k)
    requires forall e :: 0 <= e < d ==> ks[Slot(|ks|, p, e)].Some? && ks[Slot(|ks|, p, e)] != Some(k)
    ensures Find(ks, k, p, 0) == Some(d)
  {
  }

  /** Changing one slot beyond the gap's distance, or a slot at a distance past where k is found,
      changes neither the gap before it nor where k is found. */
  lemma FindAfterUpdate<K>(ks: seq<Option<K>>, k: K, p: int, q: int, x: Option<K>)
    requires 0 <= p < |ks| && 0 <= q < |ks| && Find(ks, k, p, 0).Some?
    requires q != Slot(|ks|, p, Find(ks, k, p, 0).value)
    requires forall e :: 0 <= e < Find(ks, k, p, 0).value ==> Slot(|ks|, p, e) != q
    ensures Find(ks[q := x], k, p, 0) == Find(ks, k, p, 0)
  {
    var d := Find(ks, k, p, 0).value;
    FindIs(ks[q := x], k, p, d);
  }

  // ---- order bookkeeping ----

  /** fixOrder(i) removes exactly i from order, keeps every other position in its relative
      order, returns the index i had, and leaves first and last at the ends of what remains. */
  lemma FixOrderRemoves<K, V>(t: Table<K, V>, i: int)
    requires 0 <= t.size && |t.order| == t.size + 1 && i in t.order && Distinct(t.order)
    requires t.first == t.order[0] && t.last == t.order[|t.order| - 1]
    ensures var r, idx := FixOrder(t, i).0, FixOrder(t, i).1;
      && 0 <= idx < |t.order| && t.order[idx] == i
      && r.order == t.order[..idx] + t.order[idx + 1..]
      && i !in r.order && Distinct(r.order)
      && (forall x :: x in r.order <==> x in t.order && x != i)
      && (r.order == [] ==> r.first == -1 && r.last == -1)
      && (r.order != [] ==> r.first == r.order[0] && r.last == r.order[|r.order| - 1])
      && r.keys == t.keys && r.vals == t.vals && r.size == t.size
  {
    var r, idx := FixOrder(t, i).0, FixOrder(t, i).1;
    if t.size == 0 {
      assert t.order == [i];
    } else {
      var rest := t.order[..idx] + t.order[idx + 1..];
      assert forall j :: 0 <= j < |rest| ==> rest[j] == if j < idx then t.order[j] else t.order[j + 1];
      assert i !in rest;
      if t.first == i {
        assert idx == 0;
      }
      if t.last == i {
        assert idx == |t.order| - 1;
      }
    }
  }

  /** fixOrder(s, d) replaces s by d at the position s holds in order, and first and last follow
      it. */
  lemma FixOrderShiftReplaces<K, V>(t: Table<K, V>, s: int, d: int)
    requires t.order != [] && s in t.order && Distinct(t.order) && t.size == |t.order|
    requires t.first == t.order[0] && t.last == t.order[|t.order| - 1]
    ensures var r := FixOrderShift(t, s, d);
      && r.order == t.order[IndexOf(t.order, s) := d]
      && r.first == r.order[0] && r.last == r.order[|r.order| - 1]
      && r.keys == t.keys && r.vals == t.vals && r.size == t.size
  {
    var i := IndexOf(t.order, s);
    if t.size == 1 {
      assert i == 0;
    } else if t.first == s {
      assert i == 0;
    } else if t.last == s {
      assert i == |t.order| - 1;
    } else {
      assert 0 < i < |t.order| - 1;
    }
  }

  // ---- the shape is kept ----

  /** Filling one empty slot and listing it at one end of order keeps the shape. */
  lemma Occupy<K, V>(t: Table<K, V>, r: Table<K, V>, pos: int, maxFill: int)
    requires Inv(t, maxFill) && t.size < maxFill
    requires 0 <= pos < |t.keys| && t.keys[pos].None?
    requires |r.keys| == |r.vals| == |t.keys| && r.size == t.size + 1
    requires r.keys[pos].Some? && forall p :: 0 <= p < |t.keys| && p != pos ==> r.keys[p] == t.keys[p]
    requires forall p :: 0 <= p < |t.keys| && r.keys[p].None? ==> r.vals[p] == t.vals[p]
    requires r.order == t.order + [pos] || r.order == [pos] + t.order
    requires r.first == r.order[0] && r.last == r.order[|r.order| - 1]
    ensures Inv(r, maxFill)
  {
    assert pos !in t.order;
    OrderGrows(t.order, r.order, pos, |t.keys|);
  }

  /** Listing a new position at either end of order keeps it free of repeats and in range. */
  lemma OrderGrows(xs: seq<int>, ys: seq<int>, pos: int, n: int)
    requires Distinct(xs) && pos !in xs && 0 <= pos < n
    requires forall i :: 0 <= i < |xs| ==> 0 <= xs[i] < n
    requires ys == xs + [pos] || ys == [pos] + xs
    ensures Distinct(ys) && forall i :: 0 <= i < |ys| ==> 0 <= ys[i] < n
    ensures forall x :: x in ys <==> x in xs || x == pos
  {
    if ys == xs + [pos] {
      assert forall j :: 0 <= j < |xs| ==> ys[j] == xs[j];
    } else {
      assert forall j :: 0 <= j < |xs| ==> ys[j + 1] == xs[j];
    }
  }

  lemma AppendKeeps<K, V>(t: Table<K, V>, k: K, v: Option<V>, h: int, maxFill: int)
    requires Inv(t, maxFill) && t.size < maxFill && 0 <= h < |t.keys|
    ensures Gap(t.keys, h, 0) < |t.keys|
    ensures var r := Append(t, k, v, h); var pos := Free(t.keys, h);
      && Inv(r, maxFill) && r.keys == t.keys[pos := Some(k)] && r.vals == t.vals[pos := v]
      && r.order == t.order + [pos] && r.size == t.size + 1
  {
    HasGap(t, h);
    var pos := Free(t.keys, h);
    Occupy(t, Append(t, k, v, h), pos, maxFill);
  }

  /** Emptying one occupied slot and dropping it from order keeps the shape. */
  lemma Vacate<K, V>(t: Table<K, V>, r: Table<K, V>, pos: int, idx: int, maxFill: int)
    requires Inv(t, maxFill)
    requires 0 <= idx < |t.order| && t.order[idx] == pos
    requires |r.vals| == |t.keys| && r.size == t.size - 1
    requires r.keys == t.keys[pos := None]
    requires forall p :: 0 <= p < |t.keys| && r.keys[p].None? ==> r.vals[p].None?
    requires r.order == t.order[..idx] + t.order[idx + 1..]
    requires r.order == [] ==> r.first == -1 && r.last == -1
    requires r.order != [] ==> r.first == r.order[0] && r.last == r.order[|r.order| - 1]
    ensures Inv(r, maxFill)
  {
    var rest := r.order;
    assert forall j :: 0 <= j < |rest| ==> rest[j] == if j < idx then t.order[j] else t.order[j + 1];
    assert forall x :: x in rest <==> x in t.order && x != pos;
  }

  /** Emptying the last slot of a run and dropping it from order keeps the shape. */
  lemma RemoveEntryKeeps<K, V>(t: Table<K, V>, h: int, d: int, maxFill: int)
    requires Inv(t, maxFill) && 0 <= h < |t.keys| && 0 <= d < Gap(t.keys, h, 0)
    ensures var r := RemoveEntry(t, h, d).0;
      && Inv(r, maxFill) && r.size == t.size - 1
  {
    var n := |t.keys|;
    var pos := Slot(n, h, d);
    assert Slot(n, h, 0) == h;
    var posEnd := RunEnd(t.keys, h);
    assert t.keys[posEnd].Some? && t.keys[pos].Some?;
    CutKeeps(t, pos, posEnd, maxFill);
  }

  /** The table removeEntry builds before fixing order, with the value of slot e moved into the
      occupied slot pos and e emptied, keeps the shape once e leaves order. */
  lemma CutKeeps<K, V>(t: Table<K, V>, pos: int, e: int, maxFill: int)
    requires Inv(t, maxFill) && 0 <= pos < |t.keys| && 0 <= e < |t.keys|
    requires t.keys[pos].Some? && t.keys[e].Some?
    ensures var cut := Table(t.keys[e := None], t.vals[pos := t.vals[e]][e := None],
                             t.size - 1, t.first, t.last, t.order);
      && e in cut.order && |cut.order| == cut.size + 1 && 0 <= cut.size
      && Inv(FixOrder(cut, e).0, maxFill) && FixOrder(cut, e).0.size == t.size - 1
  {
    var ks, vs := t.keys[e := None], t.vals[pos := t.vals[e]][e := None];
    var cut := Table(ks, vs, t.size - 1, t.first, t.last, t.order);
    FixOrderRemoves(cut, e);
    CutKeepsEmptySlotsEmpty(t.keys, t.vals, ks, vs, pos, e);
    Vacate(t, FixOrder(cut, e).0, e, FixOrder(cut, e).1, maxFill);
  }

  /** Moving the value of the emptied slot into an occupied one leaves every empty slot without
      a value. */
  lemma CutKeepsEmptySlotsEmpty<K, V>(ks: seq<Option<K>>, vs: seq<Option<V>>, ks': seq<Option<K>>, vs': seq<Option<V>>, pos: int, e: int)
    requires |ks| == |vs| && 0 <= pos < |ks| && 0 <= e < |ks| && ks[pos].Some?
    requires forall p :: 0 <= p < |ks| && ks[p].None? ==> vs[p].None?
    requires ks' == ks[e := None] && vs' == vs[pos := vs[e]][e := None]
    ensures forall p :: 0 <= p < |ks| && ks'[p].None? ==> vs'[p].None?
  {
  }

  // ---- put ----

  /** put on an absent key: the default value comes back, k now maps to v, and one new slot,
      empty before, holds it at the end of order. */
  lemma PutAbsent<K, V>(t: Table<K, V>, k: K, v: Option<V>, h: int, defRet: Option<V>, maxFill: int)
    requires Inv(t, maxFill) && t.size < maxFill && 0 <= h < |t.keys|
    requires Find(t.keys, k, h, 0).None?
    ensures var (r, previous) := Put(t, k, v, h, defRet);
      && Inv(r, maxFill) && previous == defRet
      && Lookup(r, k, h, defRet) == v
      && r.size == t.size + 1 && |r.order| == |t.order| + 1 && r.order[..|t.order|] == t.order
      && t.keys[r.last].None? && r.keys[r.last] == Some(k) && r.last == r.order[|t.order|]
  {
    AppendKeeps(t, k, v, h, maxFill);
    var pos := Free(t.keys, h);
    var r := Append(t, k, v, h);
    var g := Gap(t.keys, h, 0);
    assert r.order[..|t.order|] == t.order;
    FindIs(r.keys, k, h, g);
  }

  /** put on a present key: the value k mapped to comes back, k now maps to v, and one new slot,
      empty before, holds k with the displaced value at the end of order. */
  lemma PutPresent<K, V>(t: Table<K, V>, k: K, v: Option<V>, h: int, defRet: Option<V>, maxFill: int)
    requires Inv(t, maxFill) && t.size < maxFill && 0 <= h < |t.keys|
    requires Find(t.keys, k, h, 0).Some?
    ensures var (r, previous) := Put(t, k, v, h, defRet);
      && Inv(r, maxFill) && previous == Lookup(t, k, h, defRet)
      && Lookup(r, k, h, defRet) == v
      && r.size == t.size + 1 && |r.order| == |t.order| + 1 && r.order[..|t.order|] == t.order
      && t.keys[r.last].None? && r.keys[r.last] == Some(k) && r.vals[r.last] == previous
      && r.last == r.order[|t.order|]
  {
    HasGap(t, h);
    var n := |t.keys|;
    var d := Find(t.keys, k, h, 0).value;
    var g := Gap(t.keys, h, 0);
    var primary, secondary := Slot(n, h, d), Free(t.keys, h);
    var v0 := Lookup(t, k, h, defRet);
    var r := AppendAndOverwrite(t, k, v, v0, h);
    assert r.keys == t.keys[secondary := Some(k)];
    assert r.order[..|t.order|] == t.order;
    assert primary != secondary;
    Occupy(t, r, secondary, maxFill);
    FindAfterUpdate(t.keys, k, h, secondary, Some(k));
  }

  /** appendAndOverwrite keeps the shape whatever displaced value it is given, and adds one
      entry. */
  lemma AppendAndOverwriteKeeps<K, V>(t: Table<K, V>, k: K, v: Option<V>, v0: Option<V>, h: int, maxFill: int)
    requires Inv(t, maxFill) && t.size < maxFill && 0 <= h < |t.keys|
    ensures Gap(t.keys, h, 0) < |t.keys|
    ensures var r := AppendAndOverwrite(t, k, v, v0, h);
      && Inv(r, maxFill) && r.size == t.size + 1
    ensures Find(t.keys, k, h, 0).Some? ==>
      var primary, secondary := Slot(|t.keys|, h, Find(t.keys, k, h, 0).value), Free(t.keys, h);
      AppendAndOverwrite(t, k, v, v0, h)
        == Table(t.keys[secondary := Some(k)], t.vals[primary := v][secondary := v0],
                 t.size + 1, t.first, secondary, t.order + [secondary])
  {
    HasGap(t, h);
    if Find(t.keys, k, h, 0).None? {
      AppendKeeps(t, k, v, h, maxFill);
    } else {
      var n := |t.keys|;
      var d := Find(t.keys, k, h, 0).value;
      var primary, secondary := Slot(n, h, d), Free(t.keys, h);
      var r := AppendAndOverwrite(t, k, v, v0, h);
      assert r.keys == t.keys[secondary := Some(k)];
      assert primary != secondary;
      Occupy(t, r, secondary, maxFill);
    }
  }

  // ---- set, remove, removeAt, putAndMoveToFirst/Last, clear ----

  /** set overwrites the value k maps to, returning the old one, without adding a slot; on an
      absent key it appends like put. Either way k then maps to v. */
  lemma SetOverwrites<K, V>(t: Table<K, V>, k: K, v: Option<V>, h: int, defRet: Option<V>, maxFill: int)
    requires Inv(t, maxFill) && 0 <= h < |t.keys| && (Find(t.keys, k, h, 0).None? ==> t.size < maxFill)
    ensures var (r, previous) := Set(t, k, v, h, defRet);
      && Inv(r, maxFill) && previous == Lookup(t, k, h, defRet)
      && Lookup(r, k, h, defRet) == v
      && (Find(t.keys, k, h, 0).Some? ==> r.keys == t.keys && r.order == t.order && r.size == t.size)
      && (Find(t.keys, k, h, 0).None? ==> r.size == t.size + 1)
  {
    if Find(t.keys, k, h, 0).None? {
      PutAbsent(t, k, v, h, defRet, maxFill);
    }
  }

  /** remove returns what k mapped to; on an absent key nothing changes, and on a present one an
      entry goes and the shape is kept. */
  lemma RemoveKeeps<K, V>(t: Table<K, V>, k: K, h: int, defRet: Option<V>, maxFill: int)
    requires Inv(t, maxFill) && 0 <= h < |t.keys|
    ensures var (r, previous) := Remove(t, k, h, defRet);
      && Inv(r, maxFill) && previous == Lookup(t, k, h, defRet)
      && (Find(t.keys, k, h, 0).None? ==> r == t && previous == defRet)
      && (Find(t.keys, k, h, 0).Some? ==> r.size == t.size - 1)
  {
    if Find(t.keys, k, h, 0).Some? {
      RemoveEntryKeeps(t, h, Find(t.keys, k, h, 0).value, maxFill);
    }
  }

  /** removeAt keeps the shape: outside order nothing changes; inside, one entry goes. */
  lemma RemoveAtKeeps<K, V>(t: Table<K, V>, idx: int, defRet: Option<V>, maxFill: int)
    requires Inv(t, maxFill)
    ensures Inv(RemoveAt(t, idx, defRet).0, maxFill)
  {
    if 0 <= idx < |t.order| {
      var pos := t.order[idx];
      assert t.keys[pos].Some? && Slot(|t.keys|, pos, 0) == pos;
      RemoveEntryKeeps(t, pos, 0, maxFill);
    }
  }

  /** putAndMoveToFirst always takes a new slot, empty before, and lists it first, even when k is
      already present; the default value comes back. */
  lemma PutAndMoveToFirstAddsFirst<K, V>(t: Table<K, V>, k: K, v: Option<V>, h: int, defRet: Option<V>, maxFill: int)
    requires Inv(t, maxFill) && t.size < maxFill && 0 <= h < |t.keys|
    ensures var (r, previous) := PutAndMoveToFirst(t, k, v, h, defRet);
      && Inv(r, maxFill) && previous == defRet
      && r.size == t.size + 1 && r.order[1..] == t.order
      && r.first == r.order[0] && t.keys[r.first].None? && r.keys[r.first] == Some(k) && r.vals[r.first] == v
  {
    HasGap(t, h);
    var pos := Free(t.keys, h);
    var r := PutAndMoveToFirst(t, k, v, h, defRet).0;
    assert r.order[1..] == t.order;
    Occupy(t, r, pos, maxFill);
  }

  /** putAndMoveToLast on a non-empty map always takes a new slot, empty before, and lists it
      last, even when k is already present; the default value comes back. */
  lemma PutAndMoveToLastAddsLast<K, V>(t: Table<K, V>, k: K, v: Option<V>, h: int, defRet: Option<V>, maxFill: int)
    requires Inv(t, maxFill) && t.size < maxFill && 0 <= h < |t.keys| && t.size > 0
    ensures var (r, previous) := PutAndMoveToLast(t, k, v, h, defRet);
      && Inv(r, maxFill) && previous == defRet
      && r.size == t.size + 1 && r.order[..|t.order|] == t.order && |r.order| == |t.order| + 1
      && r.last == r.order[|t.order|] && t.keys[r.last].None? && r.keys[r.last] == Some(k) && r.vals[r.last] == v
  {
    HasGap(t, h);
    var pos := Free(t.keys, h);
    assert pos !in t.order;
    var r := PutAndMoveToLast(t, k, v, h, defRet).0;
    assert r.order[..|t.order|] == t.order;
    Occupy(t, r, pos, maxFill);
  }

  /** clear leaves an empty map of the same table size in which no key is found. */
  lemma ClearEmpties<K, V>(t: Table<K, V>, maxFill: int)
    requires Inv(t, maxFill)
    ensures var r := Clear(t);
      && Inv(r, maxFill) && r.size == 0 && |r.keys| == |t.keys|
      && forall k, h, defRet :: 0 <= h < |r.keys| ==> Lookup(r, k, h, defRet) == defRet
  {
    var r := Clear(t);
    if t.size == 0 {
      assert t.order == [];
      assert forall p :: 0 <= p < |t.keys| ==> t.keys[p].None?;
    }
    forall k, h, defRet: Option<V> | 0 <= h < |r.keys|
      ensures Lookup(r, k, h, defRet) == defRet
    {
      assert Slot(|r.keys|, h, 0) == h;
    }
  }

  // ---- each key is a stack ----

  /** Every slot of k's probe run holds k. */
  predicate OwnRun<K(==), V>(t: Table<K, V>, k: K, h: int)
    requires 0 <= h < |t.keys|
  {
    forall e :: 0 <= e < Gap(t.keys, h, 0) ==> t.keys[Slot(|t.keys|, h, e)] == Some(k)
  }

  /** The values on the probe run from h, in slot order. */
  function RunValues<K, V>(t: Table<K, V>, h: int): (run: seq<Option<V>>)
    requires 0 <= h < |t.keys| == |t.vals|
    ensures |run| == Gap(t.keys, h, 0)
    ensures forall e :: 0 <= e < |run| ==> run[e] == t.vals[Slot(|t.keys|, h, e)]
  {
    var g := Gap(t.keys, h, 0);
    seq(g, e requires 0 <= e < g => t.vals[Slot(|t.keys|, h, e)])
  }

  function Reversed<T>(xs: seq<T>): (r: seq<T>)
    ensures |r| == |xs|
  {
    if xs == [] then [] else [xs[|xs| - 1]] + Reversed(xs[..|xs| - 1])
  }

  /** A key's stack, most recent first, from the values on its run: the first slot holds the
      most recent value, and the slots after it hold the older ones, oldest first. */
  function StackOf<T>(run: seq<T>): (s: seq<T>)
    ensures |s| == |run|
  {
    if run == [] then [] else [run[0]] + Reversed(run[1..])
  }

  /** While k's run is its own, get(k) is the top of its stack, or the default value when the
      stack is empty. */
  lemma LookupIsTop<K, V>(t: Table<K, V>, k: K, h: int, defRet: Option<V>)
    requires WellFormed(t) && 0 <= h < |t.keys| && OwnRun(t, k, h)
    ensures Lookup(t, k, h, defRet) == if RunValues(t, h) == [] then defRet else StackOf(RunValues(t, h))[0]
  {
    assert Slot(|t.keys|, h, 0) == h;
    if RunValues(t, h) != [] {
      FindIs(t.keys, k, h, 0);
    }
  }

  /** The two ways a stack changes, on the run of values: pushing v overwrites the first slot
      and moves the old top to a new last slot; popping moves the last slot's value to the
      first slot and empties the last slot. */
  lemma StackPushed<T>(run: seq<T>, w: seq<T>, v: T)
    requires run != [] && |w| == |run| + 1
    requires forall e :: 0 <= e < |w| ==> w[e] == if e == 0 then v else if e < |run| then run[e] else run[0]
    ensures StackOf(w) == [v] + StackOf(run)
  {
    var tail := run[1..] + [run[0]];
    assert w == [v] + tail;
    assert tail[..|tail| - 1] == run[1..];
  }

  lemma StackPopped<T>(run: seq<T>, w: seq<T>)
    requires |run| >= 2 && |w| == |run| - 1
    requires forall e :: 0 <= e < |w| ==> w[e] == if e == 0 then run[|run| - 1] else run[e]
    ensures StackOf(w) == StackOf(run)[1..]
  {
    var m := |run| - 1;
    assert run[1..][..m - 1] == run[1..m];
    assert w[1..] == run[1..m];
  }

  /** Emptying again the slot a push filled, after moving its value back, restores the values. */
  lemma UndoMove<T>(vs: seq<Option<T>>, i: int, j: int, v: Option<T>)
    requires 0 <= i < |vs| && 0 <= j < |vs| && i != j && vs[j].None?
    ensures var w := vs[i := v][j := vs[i]]; w[i := w[j]][j := None] == vs
  {
  }

  lemma Unset<T>(xs: seq<Option<T>>, i: int, x: Option<T>)
    requires 0 <= i < |xs| && xs[i].None?
    ensures xs[i := x][i := None] == xs
  {
  }

  lemma UndoFill<T>(vs: seq<Option<T>>, i: int, v: Option<T>)
    requires 0 <= i < |vs| && vs[i].None?
    ensures var w := vs[i := v]; w[i := w[i]][i := None] == vs
  {
  }

  /** What put does to the slots: k goes into the first empty slot on its run, which goes last
      in order; an absent key's value goes with it, while for a present key v overwrites the
      first slot holding k and the displaced value goes into the new slot. */
  lemma PutShape<K, V>(t: Table<K, V>, k: K, v: Option<V>, h: int, defRet: Option<V>)
    requires WellFormed(t) && 0 <= h < |t.keys|
    ensures Gap(t.keys, h, 0) < |t.keys|
    ensures var r := Put(t, k, v, h, defRet).0; var pos := Free(t.keys, h);
      && r.keys == t.keys[pos := Some(k)]
      && r.order == t.order + [pos] && r.size == t.size + 1 && r.last == pos
      && r.first == (if t.size == 0 then pos else t.first)
      && (Find(t.keys, k, h, 0).None? ==> r.vals == t.vals[pos := v])
      && (Find(t.keys, k, h, 0).Some? ==>
            r.vals == t.vals[Slot(|t.keys|, h, Find(t.keys, k, h, 0).value) := v][pos := Lookup(t, k, h, defRet)])
  {
    HasGap(t, h);
    if Find(t.keys, k, h, 0).Some? {
      var primary := Slot(|t.keys|, h, Find(t.keys, k, h, 0).value);
      assert primary in t.order;
    }
  }

  /** What remove of a present key does to the slots: the first slot holding k takes the value
      of the last slot of the run, and that last slot is emptied and leaves order. */
  lemma RemoveShape<K, V>(t: Table<K, V>, k: K, h: int, defRet: Option<V>)
    requires WellFormed(t) && 0 <= h < |t.keys| && Find(t.keys, k, h, 0).Some?
    ensures t.keys[h].Some?
    ensures var r := Remove(t, k, h, defRet).0; var n := |t.keys|;
      var pos := Slot(n, h, Find(t.keys, k, h, 0).value); var e := RunEnd(t.keys, h);
      && r.keys == t.keys[e := None]
      && r.vals == t.vals[pos := t.vals[e]][e := None]
      && r == FixOrder(Table(t.keys[e := None], t.vals[pos := t.vals[e]][e := None],
                             t.size - 1, t.first, t.last, t.order), e).0
  {
    assert Slot(|t.keys|, h, 0) == h;
    var e := RunEnd(t.keys, h);
    assert t.keys[e].Some?;
  }

  /** Dropping the slot that was just listed last restores the table it was listed onto. */
  lemma FixOrderUndoesAppend<K, V>(t: Table<K, V>, c: Table<K, V>, pos: int)
    requires 0 <= t.size == |t.order| && pos !in t.order
    requires t.order == [] ==> t.first == -1 && t.last == -1
    requires t.order != [] ==> t.first == t.order[0] && t.last == t.order[|t.order| - 1]
    requires c.keys == t.keys && c.vals == t.vals && c.size == t.size
    requires c.order == t.order + [pos] && c.last == pos
    requires c.first == (if t.size == 0 then pos else t.first)
    ensures FixOrder(c, pos).0 == t
  {
    if t.size > 0 {
      var idx := IndexOf(c.order, pos);
      assert idx == |t.order|;
      assert c.order[..idx] + c.order[idx + 1..] == t.order;
    }
  }

  /** What put does to a run that is k's own: the run grows by the slot after it, and the
      first slot takes v while the new slot takes the displaced value. */
  lemma PushedSlots<K, V>(t: Table<K, V>, k: K, v: Option<V>, h: int, defRet: Option<V>)
    requires WellFormed(t) && 0 <= h < |t.keys| && OwnRun(t, k, h)
    requires Gap(t.keys, h, 0) + 1 < |t.keys| && t.keys[Slot(|t.keys|, h, Gap(t.keys, h, 0) + 1)].None?
    ensures var r := Put(t, k, v, h, defRet).0; var n := |t.keys|; var g := Gap(t.keys, h, 0);
      && |r.keys| == |r.vals| == n && OwnRun(r, k, h) && Gap(r.keys, h, 0) == g + 1
      && r.vals == if g == 0 then t.vals[h := v] else t.vals[h := v][Slot(n, h, g) := t.vals[h]]
  {
    var n := |t.keys|;
    var g := Gap(t.keys, h, 0);
    PutShape(t, k, v, h, defRet);
    var r := Put(t, k, v, h, defRet).0;
    assert Slot(n, h, 0) == h;
    GapIs(r.keys, h, g + 1);
    if g > 0 {
      FindIs(t.keys, k, h, 0);
    }
  }

  /** On the values of the run, that change is a push. */
  lemma PushedValues<K, V>(t: Table<K, V>, r: Table<K, V>, v: Option<V>, h: int)
    requires 0 <= h < |t.keys| == |t.vals| == |r.keys| == |r.vals|
    requires Gap(r.keys, h, 0) == Gap(t.keys, h, 0) + 1
    requires var n, g := |t.keys|, Gap(t.keys, h, 0);
      r.vals == if g == 0 then t.vals[h := v] else t.vals[h := v][Slot(n, h, g) := t.vals[h]]
    ensures StackOf(RunValues(r, h)) == [v] + StackOf(RunValues(t, h))
  {
    var n, g := |t.keys|, Gap(t.keys, h, 0);
    var old_run, new_run := RunValues(t, h), RunValues(r, h);
    assert Slot(n, h, 0) == h;
    if g == 0 {
      assert new_run == [v];
    } else {
      forall e | 0 <= e < g + 1
        ensures new_run[e] == if e == 0 then v else if e < g then old_run[e] else old_run[0]
      {
        assert e == 0 <==> Slot(n, h, e) == h;
      }
      StackPushed(old_run, new_run, v);
    }
  }

  /** put pushes onto k's stack while k's run is its own and the slot after the run's gap is
      empty, so the run stays k's own. The value returned is the old top. */
  lemma StackPush<K, V>(t: Table<K, V>, k: K, v: Option<V>, h: int, defRet: Option<V>)
    requires WellFormed(t) && 0 <= h < |t.keys| && OwnRun(t, k, h)
    requires Gap(t.keys, h, 0) + 1 < |t.keys| && t.keys[Slot(|t.keys|, h, Gap(t.keys, h, 0) + 1)].None?
    ensures var r := Put(t, k, v, h, defRet).0;
      && |r.keys| == |r.vals| == |t.keys| && OwnRun(r, k, h)
      && Gap(r.keys, h, 0) == Gap(t.keys, h, 0) + 1
      && StackOf(RunValues(r, h)) == [v] + StackOf(RunValues(t, h))
    ensures Put(t, k, v, h, defRet).1 == if RunValues(t, h) == [] then defRet else StackOf(RunValues(t, h))[0]
  {
    PushedSlots(t, k, v, h, defRet);
    PushedValues(t, Put(t, k, v, h, defRet).0, v, h);
    LookupIsTop(t, k, h, defRet);
  }

  /** What remove does to a non-empty run that is k's own: the first slot takes the value of
      the last one, which is emptied, and the run shrinks by it. */
  lemma PoppedSlots<K, V>(t: Table<K, V>, k: K, h: int, defRet: Option<V>)
    requires WellFormed(t) && 0 <= h < |t.keys| && OwnRun(t, k, h) && Gap(t.keys, h, 0) > 0
    ensures var r := Remove(t, k, h, defRet).0; var n := |t.keys|; var g := Gap(t.keys, h, 0);
      var e := Slot(n, h, g - 1);
      && |r.keys| == |r.vals| == n && OwnRun(r, k, h) && Gap(r.keys, h, 0) == g - 1
      && r.vals == t.vals[h := t.vals[e]][e := None]
  {
    var n := |t.keys|;
    var g := Gap(t.keys, h, 0);
    assert Slot(n, h, 0) == h;
    FindIs(t.keys, k, h, 0);
    RemoveShape(t, k, h, defRet);
    var r := Remove(t, k, h, defRet).0;
    GapIs(r.keys, h, g - 1);
  }

  /** On the values of the run, that change is a pop. */
  lemma PoppedValues<K, V>(t: Table<K, V>, r: Table<K, V>, h: int)
    requires 0 <= h < |t.keys| == |t.vals| == |r.keys| == |r.vals|
    requires Gap(r.keys, h, 0) + 1 == Gap(t.keys, h, 0)
    requires var n, g := |t.keys|, Gap(t.keys, h, 0); var e := Slot(n, h, g - 1);
      r.vals == t.vals[h := t.vals[e]][e := None]
    ensures StackOf(RunValues(r, h)) == StackOf(RunValues(t, h))[1..]
  {
    var n, g := |t.keys|, Gap(t.keys, h, 0);
    var old_run, new_run := RunValues(t, h), RunValues(r, h);
    assert Slot(n, h, 0) == h;
    if g > 1 {
      forall e | 0 <= e < g - 1
        ensures new_run[e] == if e == 0 then old_run[g - 1] else old_run[e]
      {
        assert e == 0 <==> Slot(n, h, e) == h;
      }
      StackPopped(old_run, new_run);
    }
  }

  /** remove pops k's stack while k's run is its own: it returns the top, and the run stays k's
      own holding the rest. */
  lemma StackPop<K, V>(t: Table<K, V>, k: K, h: int, defRet: Option<V>)
    requires WellFormed(t) && 0 <= h < |t.keys| && OwnRun(t, k, h) && RunValues(t, h) != []
    ensures var r := Remove(t, k, h, defRet).0;
      && |r.keys| == |r.vals| == |t.keys| && OwnRun(r, k, h)
      && Gap(r.keys, h, 0) == Gap(t.keys, h, 0) - 1
      && StackOf(RunValues(r, h)) == StackOf(RunValues(t, h))[1..]
    ensures Remove(t, k, h, defRet).1 == StackOf(RunValues(t, h))[0]
  {
    PoppedSlots(t, k, h, defRet);
    PoppedValues(t, Remove(t, k, h, defRet).0, h);
    LookupIsTop(t, k, h, defRet);
  }

  /** put keeps the shape wherever it does not grow the table, and adds one entry. */
  lemma PutKeeps<K, V>(t: Table<K, V>, k: K, v: Option<V>, h: int, defRet: Option<V>, maxFill: int)
    requires Inv(t, maxFill) && t.size < maxFill && 0 <= h < |t.keys|
    ensures Inv(Put(t, k, v, h, defRet).0, maxFill) && Put(t, k, v, h, defRet).0.size == t.size + 1
  {
    if Find(t.keys, k, h, 0).None? {
      PutAbsent(t, k, v, h, defRet, maxFill);
    } else {
      PutPresent(t, k, v, h, defRet, maxFill);
    }
  }

  /** Removing k from a table r that a push onto k's run made from t, filling slot pos at
      distance g, empties pos again, puts the values back as they were in t, and returns the
      value pushed. */
  lemma PopRestoresSlots<K, V>(t: Table<K, V>, r: Table<K, V>, k: K, v: Option<V>, h: int, pos: int, defRet: Option<V>)
    requires WellFormed(r) && 0 <= h < |t.keys| == |t.vals| == |r.keys|
    requires 0 <= pos < |t.keys| && t.keys[pos].None? && t.vals[pos].None?
    requires Find(r.keys, k, h, 0) == Some(0) && r.keys[h].Some? && RunEnd(r.keys, h) == pos
    requires 0 <= t.size == |t.order| && pos !in t.order
    requires t.order == [] ==> t.first == -1 && t.last == -1
    requires t.order != [] ==> t.first == t.order[0] && t.last == t.order[|t.order| - 1]
    requires r.keys == t.keys[pos := Some(k)]
    requires r.vals == if pos == h then t.vals[h := v] else t.vals[h := v][pos := t.vals[h]]
    requires r.order == t.order + [pos] && r.size == t.size + 1 && r.last == pos
    requires r.first == if t.size == 0 then pos else t.first
    ensures Remove(r, k, h, defRet).0 == FixOrder(Table(t.keys, t.vals, t.size, r.first, r.last, r.order), pos).0
    ensures Remove(r, k, h, defRet).1 == v
  {
    assert Slot(|t.keys|, h, 0) == h;
    var ks, vs := r.keys[pos := None], r.vals[h := r.vals[pos]][pos := None];
    assert ks == t.keys by {
      Unset(t.keys, pos, Some(k));
    }
    assert vs == t.vals by {
      if pos == h {
        UndoFill(t.vals, h, v);
      } else {
        UndoMove(t.vals, h, pos, v);
      }
    }
    RemoveShape(r, k, h, defRet);
    assert Remove(r, k, h, defRet).0 == FixOrder(Table(ks, vs, r.size - 1, r.first, r.last, r.order), pos).0;
  }

  /** ... and so gives back t. */
  lemma PopUndoesPush<K, V>(t: Table<K, V>, r: Table<K, V>, k: K, v: Option<V>, h: int, pos: int, defRet: Option<V>)
    requires WellFormed(r) && 0 <= h < |t.keys| == |t.vals| == |r.keys|
    requires 0 <= pos < |t.keys| && t.keys[pos].None? && t.vals[pos].None?
    requires Find(r.keys, k, h, 0) == Some(0) && r.keys[h].Some? && RunEnd(r.keys, h) == pos
    requires 0 <= t.size == |t.order| && pos !in t.order
    requires t.order == [] ==> t.first == -1 && t.last == -1
    requires t.order != [] ==> t.first == t.order[0] && t.last == t.order[|t.order| - 1]
    requires r.keys == t.keys[pos := Some(k)]
    requires r.vals == if pos == h then t.vals[h := v] else t.vals[h := v][pos := t.vals[h]]
    requires r.order == t.order + [pos] && r.size == t.size + 1 && r.last == pos
    requires r.first == if t.size == 0 then pos else t.first
    ensures Remove(r, k, h, defRet) == (t, v)
  {
    PopRestoresSlots(t, r, k, v, h, pos, defRet);
    FixOrderUndoesAppend(t, Table(t.keys, t.vals, t.size, r.first, r.last, r.order), pos);
  }

  /** The stack behaviour as a round trip: while k's run is its own and has room to grow, put
      followed by remove restores the whole map and returns the value put. */
  lemma PutThenRemove<K, V>(t: Table<K, V>, k: K, v: Option<V>, h: int, defRet: Option<V>, maxFill: int)
    requires Inv(t, maxFill) && t.size < maxFill && 0 <= h < |t.keys| && OwnRun(t, k, h)
    requires Gap(t.keys, h, 0) + 1 < |t.keys| && t.keys[Slot(|t.keys|, h, Gap(t.keys, h, 0) + 1)].None?
    ensures var r := Put(t, k, v, h, defRet).0;
      WellFormed(r) && Remove(r, k, h, defRet) == (t, v)
  {
    PushedSlots(t, k, v, h, defRet);
    PutShape(t, k, v, h, defRet);
    PutKeeps(t, k, v, h, defRet, maxFill);
    var r := Put(t, k, v, h, defRet).0;
    assert Slot(|t.keys|, h, 0) == h;
    FindIs(r.keys, k, h, 0);
    var g := Gap(t.keys, h, 0);
    var pos := Slot(|t.keys|, h, g);
    assert pos !in t.order;
    assert RunEnd(r.keys, h) == pos;
    assert g == 0 <==> pos == h;
    PopUndoesPush(t, r, k, v, h, pos, defRet);
  }

  /** A push onto k's own run with two empty slots after its gap leaves k's run its own, with
      one empty slot after it, and k mapping to the value pushed. */
  lemma PushLeavesRoom<K, V>(t: Table<K, V>, k: K, a: Option<V>, h: int, defRet: Option<V>, maxFill: int)
    requires Inv(t, maxFill) && t.size + 1 < maxFill && 0 <= h < |t.keys| && OwnRun(t, k, h)
    requires Gap(t.keys, h, 0) + 2 < |t.keys|
    requires t.keys[Slot(|t.keys|, h, Gap(t.keys, h, 0) + 1)].None?
    requires t.keys[Slot(|t.keys|, h, Gap(t.keys, h, 0) + 2)].None?
    ensures var t1 := Put(t, k, a, h, defRet).0;
      && Inv(t1, maxFill) && t1.size < maxFill && t1.size == t.size + 1
      && |t1.keys| == |t.keys| && OwnRun(t1, k, h)
      && Gap(t1.keys, h, 0) + 1 < |t1.keys| && t1.keys[Slot(|t1.keys|, h, Gap(t1.keys, h, 0) + 1)].None?
      && Lookup(t1, k, h, defRet) == a
  {
    var n := |t.keys|;
    var g := Gap(t.keys, h, 0);
    PushedSlots(t, k, a, h, defRet);
    PutShape(t, k, a, h, defRet);
    PutKeeps(t, k, a, h, defRet, maxFill);
    var t1 := Put(t, k, a, h, defRet).0;
    assert Slot(n, h, 0) == h;
    FindIs(t1.keys, k, h, 0);
    assert Slot(n, h, g + 2) != Slot(n, h, g);
  }

  /** put(k, a); put(k, b); remove(k) returns b and leaves the map as it was after the first
      put, where k maps to a, when k's run is its own and two slots past its gap are empty. */
  lemma PutPutRemove<K, V>(t: Table<K, V>, k: K, a: Option<V>, b: Option<V>, h: int, defRet: Option<V>, maxFill: int)
    requires Inv(t, maxFill) && t.size + 1 < maxFill && 0 <= h < |t.keys| && OwnRun(t, k, h)
    requires Gap(t.keys, h, 0) + 2 < |t.keys|
    requires t.keys[Slot(|t.keys|, h, Gap(t.keys, h, 0) + 1)].None?
    requires t.keys[Slot(|t.keys|, h, Gap(t.keys, h, 0) + 2)].None?
    ensures var t1 := Put(t, k, a, h, defRet).0;
      && WellFormed(t1) && WellFormed(Put(t1, k, b, h, defRet).0)
      && Remove(Put(t1, k, b, h, defRet).0, k, h, defRet) == (t1, b)
      && Lookup(t1, k, h, defRet) == a && t1.size == t.size + 1
  {
    PushLeavesRoom(t, k, a, h, defRet, maxFill);
    PutThenRemove(Put(t, k, a, h, defRet).0, k, b, h, defRet, maxFill);
  }

  // ---- a run shared with another key ----

  /** Two keys a and b with the same home slot 0 in a table of four slots: a was put first and
      holds x, b was put next and holds y in the slot after it. */
  function SharedRun<K, V>(a: K, b: K, x: V, y: V): (t: Table<K, V>)
    ensures |t.keys| == |t.vals| == 4
  {
    Table([Some(a), Some(b), None, None], [Some(x), Some(y), None, None], 2, 0, 1, [0, 1])
  }

  /** That table is well formed, and a and b are both found on the run from slot 0. */
  lemma SharedRunFindsBoth<K, V>(a: K, b: K, x: V, y: V, defRet: Option<V>)
    requires a != b
    ensures var t := SharedRun(a, b, x, y);
      && Inv(t, 2) && Gap(t.keys, 0, 0) == 2
      && Lookup(t, a, 0, defRet) == Some(x) && Lookup(t, b, 0, defRet) == Some(y)
  {
    var t := SharedRun(a, b, x, y);
    assert Slot(4, 0, 0) == 0 && Slot(4, 0, 1) == 1 && Slot(4, 0, 2) == 2;
    GapIs(t.keys, 0, 2);
    FindIs(t.keys, a, 0, 0);
    FindIs(t.keys, b, 0, 1);
  }

  /** remove takes the last slot of the whole probe run, whoever owns it: removing a from that
      table returns x, but then a maps to b's value y and b is lost. */
  lemma RemoveOnSharedRun<K, V>(a: K, b: K, x: V, y: V, defRet: Option<V>)
    requires a != b
    ensures WellFormed(SharedRun(a, b, x, y))
    ensures var r := Remove(SharedRun(a, b, x, y), a, 0, defRet);
      && r.1 == Some(x)
      && Lookup(r.0, a, 0, defRet) == Some(y)
      && Lookup(r.0, b, 0, defRet) == defRet
  {
    var t := SharedRun(a, b, x, y);
    SharedRunFindsBoth(a, b, x, y, defRet);
    assert Slot(4, 0, 0) == 0 && Slot(4, 0, 1) == 1;
    FindIs(t.keys, a, 0, 0);
    var r := Remove(t, a, 0, defRet).0;
    assert r.keys == [Some(a), None, None, None];
    assert r.vals == [Some(y), None, None, None];
    FindIs(r.keys, a, 0, 0);
  }
}
