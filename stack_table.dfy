/** The open-addressing table behind lang.celadon.StackMap, as a value. A key may occupy several
    slots: the first slot on its probe run holds its most recent value and the later ones the
    values it displaced. Slots are found by linear probing from a key's home slot; the separate
    order list records occupied slots in iteration order. */
module StackTables {
  import opened Wrappers

  /** The fields of a StackMap: key and value arrays (null is None), size, the first and last
      slots in iteration order (-1 when empty), and the order list. */
  datatype Table<K, V> = Table(
    keys: seq<Option<K>>,
    vals: seq<Option<V>>,
    size: int,
    first: int,
    last: int,
    order: seq<int>)

  /** DEFAULT_INITIAL_SIZE, below which removal never shrinks the table. */
  const DefaultInitialSize := 16

  /** The slot d probe steps after p on a table of n slots, for p < n and d < n: the position
      `(p + d) & mask` reaches when n is a power of two and mask is n - 1. */
  function Slot(n: int, p: int, d: int): int
  {
    if p + d < n then p + d else p + d - n
  }

  /** One probe step, `(pos + 1) & mask`. */
  function Next(n: int, p: int): int
  {
    if p + 1 == n then 0 else p + 1
  }

  lemma NextSlot(n: int, p: int, d: int)
    requires 0 <= p < n && 0 <= d && d + 1 < n
    ensures Next(n, Slot(n, p, d)) == Slot(n, p, d + 1)
  {
  }

  /** The distance from p to the first empty slot at distance d or more, or the table size when
      every slot from there on is occupied. */
  function Gap<K>(ks: seq<Option<K>>, p: int, d: int): (g: int)
    requires 0 <= p < |ks| && 0 <= d <= |ks|
    ensures d <= g <= |ks|
    ensures g < |ks| ==> ks[Slot(|ks|, p, g)].None?
    ensures forall e :: d <= e < g ==> ks[Slot(|ks|, p, e)].Some?
    decreases |ks| - d
  {
    if d == |ks| then d
    else if ks[Slot(|ks|, p, d)].None? then d
    else Gap(ks, p, d + 1)
  }

  /** The distance from p to the first slot holding k at distance d or more, if one comes before
      the first empty slot: the probe of appendAndOverwrite and remove. */
  function Find<K(==)>(ks: seq<Option<K>>, k: K, p: int, d: int): (r: Option<int>)
    requires 0 <= p < |ks| && 0 <= d <= |ks|
    ensures r.Some? ==> d <= r.value < Gap(ks, p, d) && ks[Slot(|ks|, p, r.value)] == Some(k)
    ensures r.Some? ==> forall e :: d <= e < r.value ==> ks[Slot(|ks|, p, e)] != Some(k)
    ensures r.None? ==> forall e :: d <= e < Gap(ks, p, d) ==> ks[Slot(|ks|, p, e)] != Some(k)
    decreases |ks| - d
  {
    if d == |ks| then None
    else match ks[Slot(|ks|, p, d)]
      case None => None
      case Some(k') => if k' == k then Some(d) else Find(ks, k, p, d + 1)
  }

  predicate Distinct(xs: seq<int>)
  {
    forall i, j :: 0 <= i < j < |xs| ==> xs[i] != xs[j]
  }

  /** The first index of x in xs: IntVLA.indexOf on a list that holds x. */
  function IndexOf(xs: seq<int>, x: int): (i: int)
    requires x in xs
    ensures 0 <= i < |xs| && xs[i] == x
    ensures forall j :: 0 <= j < i ==> xs[j] != x
  {
    if xs[0] == x then 0 else 1 + IndexOf(xs[1..], x)
  }

  /** The shape every StackMap keeps: parallel arrays; order lists each occupied slot once;
      an empty slot holds no value; first and last are the ends of order; and size counts the
      occupied slots and stays within the fill threshold, which is below the table size. */
  predicate WellFormed<K, V>(t: Table<K, V>)
  {
    var n := |t.keys|;
    && |t.vals| == n
    && 0 <= t.size == |t.order| < n
    && Distinct(t.order)
    && (forall i :: 0 <= i < |t.order| ==> 0 <= t.order[i] < n)
    && (forall p :: 0 <= p < n ==> (t.keys[p].Some? <==> p in t.order))
    && (forall p :: 0 <= p < n && t.keys[p].None? ==> t.vals[p].None?)
    && (t.order == [] ==> t.first == -1 && t.last == -1)
    && (t.order != [] ==> t.first == t.order[0] && t.last == t.order[|t.order| - 1])
  }

  predicate Inv<K, V>(t: Table<K, V>, maxFill: int)
  {
    WellFormed(t) && t.size <= maxFill < |t.keys|
  }

  /** The empty table of n slots. */
  function Empty<K, V>(n: nat): (t: Table<K, V>)
    ensures |t.keys| == |t.vals| == n
    ensures forall p :: 0 <= p < n ==> t.keys[p].None? && t.vals[p].None?
    ensures 0 < n ==> WellFormed(t)
  {
    Table(seq(n, _ => None), seq(n, _ => None), 0, -1, -1, [])
  }

  // ---- there is always an empty slot ----

  /** A list of distinct slots shorter than the table misses some slot. */
  lemma {:induction false} Pigeonhole(xs: seq<int>, n: int)
    requires Distinct(xs) && |xs| < n
    requires forall i :: 0 <= i < |xs| ==> 0 <= xs[i] < n
    ensures exists e :: 0 <= e < n && e !in xs
    decreases n
  {
    if n - 1 !in xs {
      return;
    }
    var i :| 0 <= i < |xs| && xs[i] == n - 1;
    var ys := xs[..i] + xs[i + 1..];
    assert forall j :: 0 <= j < |ys| ==> ys[j] == if j < i then xs[j] else xs[j + 1];
    Pigeonhole(ys, n - 1);
    var e :| 0 <= e < n - 1 && e !in ys;
    assert e !in xs;
  }

  /** Every probe run of a well-formed table ends at an empty slot. */
  lemma HasGap<K, V>(t: Table<K, V>, h: int)
    requires WellFormed(t) && 0 <= h < |t.keys|
    ensures Gap(t.keys, h, 0) < |t.keys|
  {
    var n := |t.keys|;
    Pigeonhole(t.order, n);
    var e :| 0 <= e < n && e !in t.order;
    var d := if e >= h then e - h else e - h + n;
    assert Slot(n, h, d) == e;
  }

  /** The slot an insertion probing from h fills: the first empty one. */
  function Free<K>(ks: seq<Option<K>>, h: int): (pos: int)
    requires 0 <= h < |ks| && Gap(ks, h, 0) < |ks|
    ensures 0 <= pos < |ks| && ks[pos].None?
  {
    Slot(|ks|, h, Gap(ks, h, 0))
  }

  /** OrderedMap.get as the probe sees it: the value in the first slot holding k on its run
      from h, or the default return value when no slot before the first empty one holds k. */
  function Lookup<K(==), V>(t: Table<K, V>, k: K, h: int, defRet: Option<V>): Option<V>
    requires 0 <= h < |t.keys| == |t.vals|
  {
    match Find(t.keys, k, h, 0)
    case None => defRet
    case Some(d) => t.vals[Slot(|t.keys|, h, d)]
  }

  // ---- the operations ----

  /** StackMap.append for a non-null key: k and v go into the first empty slot probing from
      h, which becomes the last in order (and the first too in an empty map). */
  function Append<K, V>(t: Table<K, V>, k: K, v: Option<V>, h: int): (r: Table<K, V>)
    requires WellFormed(t) && 0 <= h < |t.keys|
  {
    HasGap(t, h);
    var pos := Free(t.keys, h);
    Table(t.keys[pos := Some(k)], t.vals[pos := v], t.size + 1,
          if t.size == 0 then pos else t.first, pos, t.order + [pos])
  }

  /** StackMap.appendAndOverwrite: the first slot holding k takes v, and a new slot at the first
      empty position takes k with the displaced v0 and goes last in order; with no slot holding
      k it is append. */
  function AppendAndOverwrite<K(==), V>(t: Table<K, V>, k: K, v: Option<V>, v0: Option<V>, h: int): (r: Table<K, V>)
    requires WellFormed(t) && 0 <= h < |t.keys|
  {
    match Find(t.keys, k, h, 0)
    case None => Append(t, k, v, h)
    case Some(d) =>
      HasGap(t, h);
      var primary := Slot(|t.keys|, h, d);
      var secondary := Free(t.keys, h);
      Table(t.keys[secondary := Some(k)], t.vals[primary := v][secondary := v0], t.size + 1,
            t.first, secondary, t.order + [secondary])
  }

  /** StackMap.put: append when k is absent, returning the default value; otherwise overwrite
      and push the displaced value, returning it. */
  function Put<K(==), V>(t: Table<K, V>, k: K, v: Option<V>, h: int, defRet: Option<V>): (r: (Table<K, V>, Option<V>))
    requires WellFormed(t) && 0 <= h < |t.keys|
    ensures |r.0.keys| == |r.0.vals| == |t.keys|
  {
    if Find(t.keys, k, h, 0).None? then (Append(t, k, v, h), defRet)
    else
      var v0 := Lookup(t, k, h, defRet);
      (AppendAndOverwrite(t, k, v, v0, h), v0)
  }

  /** StackMap.set, which is OrderedMap.put: overwrite the first slot holding k, returning its
      value, or append when k is absent, returning the default value. */
  function Set<K(==), V>(t: Table<K, V>, k: K, v: Option<V>, h: int, defRet: Option<V>): (r: (Table<K, V>, Option<V>))
    requires WellFormed(t) && 0 <= h < |t.keys|
  {
    match Find(t.keys, k, h, 0)
    case None => (Append(t, k, v, h), defRet)
    case Some(d) =>
      var pos := Slot(|t.keys|, h, d);
      (t.(vals := t.vals[pos := v]), t.vals[pos])
  }

  /** StackMap.fixOrder(i), called once size has been decremented: i leaves order, the index it
      had is returned, and first or last moves to the new end when i was that end. When the map
      has become empty, order is cleared and 0 returned. */
  function FixOrder<K, V>(t: Table<K, V>, i: int): (r: (Table<K, V>, int))
    requires 0 <= t.size && |t.order| == t.size + 1 && i in t.order
  {
    if t.size == 0 then (t.(order := [], first := -1, last := -1), 0)
    else
      var idx := IndexOf(t.order, i);
      var rest := t.order[..idx] + t.order[idx + 1..];
      (t.(order := rest,
          first := if t.first == i then rest[0] else t.first,
          last := if t.last == i then rest[|rest| - 1] else t.last), idx)
  }

  /** StackMap.fixOrder(s, d), for an entry shifted from slot s to slot d: with one entry the
      single order position becomes d; otherwise the position holding s does, and first or last
      follows when s was that end. */
  function FixOrderShift<K, V>(t: Table<K, V>, s: int, d: int): (r: Table<K, V>)
    requires t.order != [] && s in t.order
  {
    if t.size == 1 then t.(first := d, last := d, order := t.order[0 := d])
    else if t.first == s then t.(first := d, order := t.order[0 := d])
    else if t.last == s then t.(last := d, order := t.order[|t.order| - 1 := d])
    else t.(order := t.order[IndexOf(t.order, s) := d])
  }

  /** The last slot of the probe run from h: where removeEntry's scan stops. */
  function RunEnd<K>(ks: seq<Option<K>>, h: int): (p: int)
    requires 0 <= h < |ks| && ks[h].Some?
  {
    assert Slot(|ks|, h, 0) == h;
    Slot(|ks|, h, Gap(ks, h, 0) - 1)
  }

  /** StackMap.removeEntry(pos, h) for a slot pos that lies d steps along the probe run from h:
      pos takes the value of the last slot of that run, which is emptied and leaves order. The
      old value at pos is returned. Both callers pass such a slot, so key[h & mask] is never
      null here. */
  function RemoveEntry<K, V>(t: Table<K, V>, h: int, d: int): (r: (Table<K, V>, Option<V>))
    requires WellFormed(t) && 0 <= h < |t.keys| && 0 <= d < Gap(t.keys, h, 0)
  {
    var n := |t.keys|;
    var pos := Slot(n, h, d);
    assert Slot(n, h, 0) == h && t.keys[h].Some?;
    var posEnd := RunEnd(t.keys, h);
    var cut := Table(t.keys[posEnd := None], t.vals[pos := t.vals[posEnd]][posEnd := None],
                     t.size - 1, t.first, t.last, t.order);
    (FixOrder(cut, posEnd).0, t.vals[pos])
  }

  /** StackMap.remove for a non-null key: the default value when no slot on k's run holds k,
      and otherwise removeEntry at the first slot that does. */
  function Remove<K(==), V>(t: Table<K, V>, k: K, h: int, defRet: Option<V>): (r: (Table<K, V>, Option<V>))
    requires WellFormed(t) && 0 <= h < |t.keys|
    ensures r.1 == Lookup(t, k, h, defRet)
    ensures Find(t.keys, k, h, 0).None? <==> r.0 == t && r.1 == defRet && Lookup(t, k, h, defRet) == defRet
  {
    match Find(t.keys, k, h, 0)
    case None => (t, defRet)
    case Some(d) => RemoveEntry(t, h, d)
  }

  /** StackMap.removeAt: the default value for an index outside order, and otherwise
      removeEntry(pos, pos) at the slot with that index in iteration order. Keys are never null
      here, so the null-key branch does not arise. */
  function RemoveAt<K, V>(t: Table<K, V>, idx: int, defRet: Option<V>): (r: (Table<K, V>, Option<V>))
    requires WellFormed(t)
    ensures !(0 <= idx < |t.order|) ==> r == (t, defRet)
    ensures 0 <= idx < |t.order| ==> r.1 == t.vals[t.order[idx]] && r.0.size == t.size - 1
  {
    if idx < 0 || idx >= |t.order| then (t, defRet)
    else
      var pos := t.order[idx];
      assert t.keys[pos].Some? && Slot(|t.keys|, pos, 0) == pos;
      RemoveEntry(t, pos, 0)
  }

  /** StackMap.putAndMoveToFirst for a non-null key: k and v always take a new slot, the first
      empty one probing from h, which goes first in order. */
  function PutAndMoveToFirst<K, V>(t: Table<K, V>, k: K, v: Option<V>, h: int, defRet: Option<V>): (r: (Table<K, V>, Option<V>))
    requires WellFormed(t) && 0 <= h < |t.keys|
  {
    HasGap(t, h);
    var pos := Free(t.keys, h);
    (Table(t.keys[pos := Some(k)], t.vals[pos := v], t.size + 1,
           pos, if t.size == 0 then pos else t.last, [pos] + t.order), defRet)
  }

  /** StackMap.putAndMoveToLast for a non-null key in a non-empty map: k and v always take a new
      slot, the first empty one probing from h, which goes last in order unless it already ends
      order. */
  function PutAndMoveToLast<K, V>(t: Table<K, V>, k: K, v: Option<V>, h: int, defRet: Option<V>): (r: (Table<K, V>, Option<V>))
    requires WellFormed(t) && 0 <= h < |t.keys| && t.size > 0
  {
    HasGap(t, h);
    var pos := Free(t.keys, h);
    (Table(t.keys[pos := Some(k)], t.vals[pos := v], t.size + 1,
           t.first, pos, if t.order[|t.order| - 1] != pos then t.order + [pos] else t.order), defRet)
  }

  /** StackMap.clear: nothing happens to an empty map; otherwise every slot is emptied and order
      cleared, and the table keeps its size. */
  function Clear<K, V>(t: Table<K, V>): (r: Table<K, V>)
  {
    if t.size == 0 then t
    else Table(seq(|t.keys|, _ => None), seq(|t.vals|, _ => None), 0, -1, -1, [])
  }
}
