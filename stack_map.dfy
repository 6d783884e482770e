/** lang.celadon.StackMap as the object it is: key and value arrays updated in place, with size,
    first, last and the order list as fields. Each method is proved to change the fields as the
    matching function of StackTables changes the table value, and to keep the shape. */
module StackMaps {
  import opened Wrappers
  import opened StackTables
  import StackLaws

  class StackMap<K(==), V> {
    /** The key and value arrays; null is None. The table is never rehashed here, so they are
        never replaced. */
    const key: array<Option<K>>
    const value: array<Option<V>>
    var size: int
    var first: int
    var last: int
    /** The IntVLA of occupied slots in iteration order. */
    var order: seq<int>
    /** The hash of a key, before it is reduced to a slot: HashCommon.mix(hasher.hash(k)). */
    const hash: K -> int
    /** The fill threshold beyond which the source rehashes. */
    const maxFill: int
    const defRetValue: Option<V>

    /** The fields as a table value. */
    function Abs(): Table<K, V>
      reads this, key, value
    {
      Table(key[..], value[..], size, first, last, order)
    }

    ghost predicate Valid()
      reads this, key, value
    {
      (key as object) != (value as object) && Inv(Abs(), maxFill)
    }

    /** Every slot of k's probe run holds k: no other key shares the run. */
    ghost predicate OwnsRun(k: K)
      reads this, key, value
      requires Valid()
    {
      StackLaws.OwnRun(Abs(), k, Home(k))
    }

    /** k's stack of values, most recent first. */
    ghost function Stack(k: K): seq<Option<V>>
      reads this, key, value
      requires Valid()
    {
      StackLaws.StackOf(StackLaws.RunValues(Abs(), Home(k)))
    }

    /** The slot one past the empty slot that ends k's run is empty too, so a slot added to the
        run does not join it to the next run. */
    ghost predicate RoomAfterRun(k: K)
      reads this, key, value
      requires Valid()
    {
      var g := Gap(key[..], Home(k), 0);
      g + 1 < key.Length && key[Slot(key.Length, Home(k), g + 1)].None?
    }

    /** The home slot of k, `hash & mask`: the hash reduced modulo the table size. */
    function Home(k: K): (h: int)
      requires key.Length > 0
      ensures 0 <= h < key.Length
    {
      hash(k) % key.Length
    }

    /** A map of n slots (a power of two in the source) with fill threshold maxFill, as the
        constructors leave it once they have sized the arrays. */
    constructor (n: int, maxFill: int, hash: K -> int, defRetValue: Option<V>)
      requires 0 <= maxFill < n
      ensures Valid() && Abs() == Empty(n)
      ensures this.maxFill == maxFill && this.hash == hash && this.defRetValue == defRetValue
      ensures fresh(key) && fresh(value)
    {
      key := new Option<K>[n](_ => None);
      value := new Option<V>[n](_ => None);
      size, first, last, order := 0, -1, -1, [];
      this.maxFill, this.hash, this.defRetValue := maxFill, hash, defRetValue;
      new;
      assert key[..] == Empty<K, V>(n).keys;
      assert value[..] == Empty<K, V>(n).vals;
    }

    /** The loop `while (key[pos = (pos + 1) & mask] != null)` after a first look at the home
        slot: the first empty slot on the run from h. */
    method FreeSlot(h: int) returns (pos: int)
      requires 0 <= h < key.Length && Gap(key[..], h, 0) < key.Length
      ensures pos == Free(key[..], h)
    {
      var n := key.Length;
      ghost var d := 0;
      pos := h;
      assert Slot(n, h, 0) == h;
      if key[pos].Some? {
        NextSlot(n, h, 0);
        d, pos := 1, Next(n, pos);
        while key[pos].Some?
          invariant 1 <= d <= Gap(key[..], h, 0) && pos == Slot(n, h, d)
          decreases Gap(key[..], h, 0) - d
        {
          NextSlot(n, h, d);
          d, pos := d + 1, Next(n, pos);
        }
      }
    }

    /** The loop of remove and appendAndOverwrite: the distance along the run from h to the first
        slot holding k, or None once an empty slot is reached. */
    method Locate(k: K, h: int) returns (r: Option<int>)
      requires Valid() && 0 <= h < key.Length
      ensures r == Find(key[..], k, h, 0)
    {
      HasGap(Abs(), h);
      var n := key.Length;
      ghost var ks := key[..];
      var d := 0;
      var pos := h;
      assert Slot(n, h, 0) == h;
      while true
        invariant 0 <= d <= Gap(ks, h, 0) < n && pos == Slot(n, h, d)
        invariant Find(ks, k, h, d) == Find(ks, k, h, 0)
        decreases Gap(ks, h, 0) - d
      {
        if key[pos].None? {
          return None;
        }
        if key[pos].value == k {
          return Some(d);
        }
        NextSlot(n, h, d);
        d, pos := d + 1, Next(n, pos);
      }
    }

    /** The scan of removeEntry: from h, step while the next slot is occupied, ending at the last
        slot of the run. */
    method LastOnRun(h: int) returns (posEnd: int)
      requires Valid() && 0 <= h < key.Length && key[h].Some?
      ensures posEnd == RunEnd(key[..], h)
    {
      HasGap(Abs(), h);
      var n := key.Length;
      ghost var ks := key[..];
      ghost var e := 0;
      posEnd := h;
      assert Slot(n, h, 0) == h;
      while key[Next(n, posEnd)].Some?
        invariant 0 <= e < Gap(ks, h, 0) < n && posEnd == Slot(n, h, e)
        decreases Gap(ks, h, 0) - e
      {
        NextSlot(n, h, e);
        e, posEnd := e + 1, Next(n, posEnd);
      }
      NextSlot(n, h, e);
      assert e + 1 == Gap(ks, h, 0);
    }

    /** StackMap.append for a non-null key: k and v go into the first empty slot on the run from
        k's home slot, which goes last in order. */
    method Append(k: K, v: Option<V>)
      requires Valid() && size < maxFill
      modifies this, key, value
      ensures Valid() && Abs() == StackTables.Append(old(Abs()), k, v, Home(k))
    {
      ghost var t := Abs();
      var h := Home(k);
      HasGap(t, h);
      var pos := FreeSlot(h);
      key[pos] := Some(k);
      value[pos] := v;
      if size == 0 {
        first, last := pos, pos;
      } else {
        last := pos;
      }
      order := order + [pos];
      size := size + 1;
      assert key[..] == t.keys[pos := Some(k)];
      assert value[..] == t.vals[pos := v];
      StackLaws.AppendKeeps(t, k, v, h, maxFill);
    }

    /** StackMap.appendAndOverwrite: the first slot holding k takes v, and k goes again into the
        first empty slot of its run with the displaced value v0, listed last; with no slot holding
        k it is append. */
    method AppendAndOverwrite(k: K, v: Option<V>, v0: Option<V>)
      requires Valid() && size < maxFill
      modifies this, key, value
      ensures Valid() && Abs() == StackTables.AppendAndOverwrite(old(Abs()), k, v, v0, Home(k))
    {
      var h := Home(k);
      var found := Locate(k, h);
      if found.None? {
        Append(k, v);
        return;
      }
      ghost var t := Abs();
      StackLaws.AppendAndOverwriteKeeps(t, k, v, v0, h, maxFill);
      var primary := Slot(key.Length, h, found.value);
      key[primary] := Some(k);
      value[primary] := v;
      assert key[..] == t.keys;
      var secondary := FreeSlot(h);
      key[secondary] := Some(k);
      value[secondary] := v0;
      last := secondary;
      order := order + [secondary];
      size := size + 1;
      assert key[..] == t.keys[secondary := Some(k)];
      assert value[..] == t.vals[primary := v][secondary := v0];
    }

    /** StackMap.put: containsKey and get are the parent's probe, Find and Lookup here. An absent
        key is appended and the default value returned; a present key has its value pushed down
        by appendAndOverwrite and the displaced value returned. */
    method Put(k: K, v: Option<V>) returns (previous: Option<V>)
      requires Valid() && size < maxFill
      modifies this, key, value
      ensures Valid() && (Abs(), previous) == StackTables.Put(old(Abs()), k, v, Home(k), defRetValue)
      ensures old(OwnsRun(k) && RoomAfterRun(k)) ==>
                OwnsRun(k) && Stack(k) == [v] + old(Stack(k))
                && previous == if old(Stack(k)) == [] then defRetValue else old(Stack(k))[0]
    {
      ghost var t := Abs();
      var h := Home(k);
      if StackLaws.OwnRun(t, k, h) && RoomAfterRun(k) {
        StackLaws.StackPush(t, k, v, h, defRetValue);
      }
      var found := Locate(k, h);
      if found.None? {
        Append(k, v);
        return defRetValue;
      }
      previous := value[Slot(key.Length, h, found.value)];
      AppendAndOverwrite(k, v, previous);
    }

    /** StackMap.set, the parent's put: the first slot holding k takes v and its old value is
        returned; an absent key is appended. Only an insertion can grow the table. */
    method Set(k: K, v: Option<V>) returns (previous: Option<V>)
      requires Valid() && (Find(key[..], k, Home(k), 0).None? ==> size < maxFill)
      modifies this, key, value
      ensures Valid() && (Abs(), previous) == StackTables.Set(old(Abs()), k, v, Home(k), defRetValue)
    {
      ghost var t := Abs();
      var h := Home(k);
      var found := Locate(k, h);
      if found.None? {
        Append(k, v);
        return defRetValue;
      }
      var pos := Slot(key.Length, h, found.value);
      previous := value[pos];
      value[pos] := v;
      assert value[..] == t.vals[pos := v];
      StackLaws.SetOverwrites(t, k, v, h, defRetValue, maxFill);
    }

    /** StackMap.fixOrder(i), once size has been decremented: i leaves order (IntVLA.removeValue),
        and first or last moves to the new end when i was that end. */
    method FixOrder(i: int) returns (idx: int)
      requires 0 <= size && |order| == size + 1 && i in order
      modifies this
      ensures (Abs(), idx) == StackTables.FixOrder(old(Abs()), i)
    {
      if size == 0 {
        order := [];
        first, last := -1, -1;
        return 0;
      }
      idx := IndexOf(order, i);
      order := order[..idx] + order[idx + 1..];
      if first == i {
        first := order[0];
      }
      if last == i {
        last := order[|order| - 1];
      }
    }

    /** StackMap.fixOrder(s, d): the order position holding s takes d, and first or last follows
        when s was that end. */
    method FixOrderShift(s: int, d: int)
      requires order != [] && s in order
      modifies this
      ensures Abs() == StackTables.FixOrderShift(old(Abs()), s, d)
    {
      if size == 1 {
        first, last := d, d;
        order := order[0 := d];
      } else if first == s {
        first := d;
        order := order[0 := d];
      } else if last == s {
        last := d;
        order := order[|order| - 1 := d];
      } else {
        order := order[IndexOf(order, s) := d];
      }
    }

    /** Whether removing one entry would shrink the table: removeEntry rehashes to half the size
        once size falls below a quarter of the fill threshold in a table above the default size. */
    predicate Shrinks()
      reads this, key
    {
      size - 1 < maxFill / 4 && key.Length > DefaultInitialSize
    }

    /** StackMap.removeEntry(pos, h) for the slot pos, d steps along the run from h: pos takes the
        value of the last slot of the run, which is emptied and leaves order, and the old value of
        pos is returned. shiftKeys(posEnd) finds the slot after posEnd empty and moves nothing. */
    method RemoveEntry(pos: int, h: int, ghost d: int) returns (oldValue: Option<V>)
      requires Valid() && 0 <= h < key.Length && 0 <= d < Gap(key[..], h, 0)
      requires pos == Slot(key.Length, h, d) && !Shrinks()
      modifies this, key, value
      ensures Valid() && (Abs(), oldValue) == StackTables.RemoveEntry(old(Abs()), h, d)
    {
      ghost var t := Abs();
      var n := key.Length;
      oldValue := value[pos];
      assert Slot(n, h, 0) == h && key[h].Some?;
      var posEnd := LastOnRun(h);
      assert key[pos].Some? && key[posEnd].Some?;
      StackLaws.CutKeeps(t, pos, posEnd, maxFill);
      value[pos] := value[posEnd];
      key[posEnd] := None;
      value[posEnd] := None;
      size := size - 1;
      assert key[..] == t.keys[posEnd := None];
      assert value[..] == t.vals[pos := t.vals[posEnd]][posEnd := None];
      var _ := FixOrder(posEnd);
    }

    /** StackMap.remove for a non-null key: the default value when no slot on k's run holds k,
        and otherwise removeEntry at the first slot that does. */
    method Remove(k: K) returns (previous: Option<V>)
      requires Valid() && (Find(key[..], k, Home(k), 0).Some? ==> !Shrinks())
      modifies this, key, value
      ensures Valid() && (Abs(), previous) == StackTables.Remove(old(Abs()), k, Home(k), defRetValue)
      ensures old(OwnsRun(k)) && old(Stack(k)) != [] ==>
                OwnsRun(k) && Stack(k) == old(Stack(k))[1..] && previous == old(Stack(k))[0]
    {
      ghost var t := Abs();
      var h := Home(k);
      if StackLaws.OwnRun(t, k, h) && StackLaws.RunValues(t, h) != [] {
        StackLaws.StackPop(t, k, h, defRetValue);
      }
      var found := Locate(k, h);
      if found.None? {
        return defRetValue;
      }
      previous := RemoveEntry(Slot(key.Length, h, found.value), h, found.value);
    }

    /** StackMap.removeAt: the default value for an index outside order, and otherwise
        removeEntry(pos, pos) at the slot with that index in iteration order. */
    method RemoveAt(idx: int) returns (previous: Option<V>)
      requires Valid() && (0 <= idx < |order| ==> !Shrinks())
      modifies this, key, value
      ensures Valid() && (Abs(), previous) == StackTables.RemoveAt(old(Abs()), idx, defRetValue)
    {
      if idx < 0 || idx >= |order| {
        return defRetValue;
      }
      var pos := order[idx];
      assert key[pos].Some? && Slot(key.Length, pos, 0) == pos;
      previous := RemoveEntry(pos, pos, 0);
    }

    /** StackMap.putAndMoveToFirst for a non-null key: k and v take the first empty slot of k's
        run, listed first, whether or not k is present. */
    method PutAndMoveToFirst(k: K, v: Option<V>) returns (previous: Option<V>)
      requires Valid() && size < maxFill
      modifies this, key, value
      ensures Valid() && (Abs(), previous) == StackTables.PutAndMoveToFirst(old(Abs()), k, v, Home(k), defRetValue)
    {
      ghost var t := Abs();
      var h := Home(k);
      HasGap(t, h);
      var pos := FreeSlot(h);
      key[pos] := Some(k);
      value[pos] := v;
      if size == 0 {
        first, last := pos, pos;
      } else {
        first := pos;
      }
      order := [pos] + order;
      size := size + 1;
      assert key[..] == t.keys[pos := Some(k)];
      assert value[..] == t.vals[pos := v];
      StackLaws.PutAndMoveToFirstAddsFirst(t, k, v, h, defRetValue, maxFill);
      return defRetValue;
    }

    /** StackMap.putAndMoveToLast for a non-null key in a non-empty map: k and v take the first
        empty slot of k's run, listed last unless order already ends with it. */
    method PutAndMoveToLast(k: K, v: Option<V>) returns (previous: Option<V>)
      requires Valid() && 0 < size < maxFill
      modifies this, key, value
      ensures Valid() && (Abs(), previous) == StackTables.PutAndMoveToLast(old(Abs()), k, v, Home(k), defRetValue)
    {
      ghost var t := Abs();
      var h := Home(k);
      HasGap(t, h);
      var pos := FreeSlot(h);
      key[pos] := Some(k);
      value[pos] := v;
      last := pos;
      if order[|order| - 1] != pos {
        order := order + [pos];
      }
      size := size + 1;
      assert key[..] == t.keys[pos := Some(k)];
      assert value[..] == t.vals[pos := v];
      StackLaws.PutAndMoveToLastAddsLast(t, k, v, h, defRetValue, maxFill);
      return defRetValue;
    }

    /** StackMap.clear: nothing happens to an empty map; otherwise every slot is emptied, order
        cleared, and the arrays keep their length. */
    method Clear()
      requires Valid()
      modifies this, key, value
      ensures Valid() && Abs() == StackTables.Clear(old(Abs()))
    {
      ghost var t := Abs();
      if size == 0 {
        StackLaws.ClearEmpties(t, maxFill);
        return;
      }
      size := 0;
      forall p | 0 <= p < key.Length {
        key[p] := None;
      }
      forall p | 0 <= p < value.Length {
        value[p] := None;
      }
      first, last := -1, -1;
      order := [];
      assert key[..] == seq(key.Length, _ => None);
      assert value[..] == seq(value.Length, _ => None);
      StackLaws.ClearEmpties(t, maxFill);
    }
  }
}
