/** The vertex hash table of the permutohedral lattice: an open-addressed map
    with linear probing from integer lattice keys (d components each) to dense
    vertex ids 0..filled-1, with one row of keys and one row of values per id. */
module Hashing {
  import opened Sums

  /** `size_t` arithmetic wraps modulo 2^64. */
  const WordModulus: nat := 0x1_0000_0000_0000_0000
  const HashMultiplier: nat := 1664525

  /** The hash of the first `n` key components: for each component, add it,
      then multiply by 1664525, both modulo 2^64 (a negative `short` converts
      to `size_t` modulo 2^64, as Dafny's Euclidean `%` does). */
  function HashPrefix(k: seq<int>, n: nat): (r: nat)
    requires n <= |k|
    ensures r < WordModulus
  {
    if n == 0 then 0
    else (((HashPrefix(k, n - 1) + k[n - 1]) % WordModulus) * HashMultiplier) % WordModulus
  }

  function Hash(k: seq<int>): nat
  {
    HashPrefix(k, |k|)
  }

  /** The slot where probing for key `k` starts. */
  function Home(k: seq<int>, cap: nat): (h: nat)
    requires cap > 0
    ensures h < cap
  {
    Hash(k) % cap
  }

  /** The slot visited after `j` linear-probe steps from `home`; probing wraps
      from the last slot to slot 0. */
  function Probe(home: nat, j: nat, cap: nat): (h: nat)
    requires home < cap && j < cap
    ensures h < cap
    ensures Dist(home, h, cap) == j
  {
    if home + j < cap then home + j else home + j - cap
  }

  /** The number of probe steps from `home` to slot `h`. */
  function Dist(home: nat, h: nat, cap: nat): (j: nat)
    requires home < cap && h < cap
    ensures j < cap
  {
    if h >= home then h - home else h + cap - home
  }

  lemma ProbeOfDist(home: nat, h: nat, cap: nat)
    requires home < cap && h < cap
    ensures Probe(home, Dist(home, h, cap), cap) == h
  {
  }

  /** Keys are pairwise different. */
  ghost predicate Distinct(keys: seq<seq<int>>)
  {
    forall a, b :: 0 <= a < b < |keys| ==> keys[a] != keys[b]
  }

  /** The position of `k` in `keys`, or -1 when absent. */
  function IndexOf(keys: seq<seq<int>>, k: seq<int>): (r: int)
    ensures -1 <= r < |keys|
    ensures r >= 0 ==> keys[r] == k
    ensures r == -1 <==> k !in keys
  {
    if |keys| == 0 then -1
    else if keys[0] == k then 0
    else
      var r := IndexOf(keys[1..], k);
      assert k in keys[1..] ==> k in keys;
      assert k in keys && keys[0] != k ==> k in keys[1..];
      if r < 0 then -1 else r + 1
  }

  /** In a list of pairwise different keys, the position of a key is unique. */
  lemma IndexOfDistinct(keys: seq<seq<int>>, i: int)
    requires Distinct(keys) && 0 <= i < |keys|
    ensures IndexOf(keys, keys[i]) == i
  {
    forall a | 0 <= a < |keys| && keys[a] == keys[i]
      ensures a == i
    {
    }
  }

  lemma IndexOfAppend(keys: seq<seq<int>>, k: seq<int>, x: seq<int>)
    requires Distinct(keys) && k !in keys
    ensures Distinct(keys + [k])
    ensures IndexOf(keys + [k], x) == if x == k then |keys| else IndexOf(keys, x)
  {
    var ks := keys + [k];
    var r := IndexOf(keys, x);
    if x == k {
      IndexOfDistinct(ks, |keys|);
    } else if r >= 0 {
      assert ks[r] == x;
      IndexOfDistinct(ks, r);
    } else {
      assert x !in ks;
    }
  }

  /** Every slot probed from `home` before slot `h` is occupied. */
  ghost predicate Clustered(t: seq<int>, cap: nat, home: nat, h: nat)
    requires |t| == cap && home < cap && h < cap
  {
    forall j :: 0 <= j < Dist(home, h, cap) ==> t[Probe(home, j, cap)] >= 0
  }

  /** How ids sit in a probe table `t`: every slot is empty (-1) or holds an id,
      `slot[e]` is the slot of id `e` or -1 when `e` is not placed yet, the two
      agree, and each placed id is reachable from its key's home slot without
      crossing an empty slot. */
  ghost predicate Placement(t: seq<int>, cap: nat, keys: seq<seq<int>>, slot: seq<int>)
  {
    && |t| == cap && |slot| == |keys|
    && (forall h :: 0 <= h < cap ==> -1 <= t[h] < |keys|)
    && (forall h :: 0 <= h < cap && t[h] >= 0 ==> slot[t[h]] == h)
    && (forall e :: 0 <= e < |keys| ==> -1 <= slot[e] < cap)
    && (forall e :: 0 <= e < |keys| && slot[e] >= 0 ==> t[slot[e]] == e)
    && (forall e :: 0 <= e < |keys| && slot[e] >= 0 ==> Clustered(t, cap, Home(keys[e], cap), slot[e]))
  }

  ghost predicate AllPlaced(slot: seq<int>)
  {
    forall e :: 0 <= e < |slot| ==> slot[e] >= 0
  }

  /** The ids met in the first `j` probe steps from `home`. */
  function RunIds(t: seq<int>, cap: nat, home: nat, j: nat): (ids: seq<int>)
    requires |t| == cap && home < cap && j <= cap
    ensures |ids| == j
  {
    seq(j, j' requires 0 <= j' < j => t[Probe(home, j', cap)])
  }

  /** A run of occupied slots is no longer than the number of ids: this is
      what makes every linear-probe loop terminate while ids < capacity. */
  lemma OccupiedRun(t: seq<int>, cap: nat, keys: seq<seq<int>>, slot: seq<int>, home: nat, j: nat)
    requires Placement(t, cap, keys, slot) && home < cap && j <= cap
    requires forall j' :: 0 <= j' < j ==> t[Probe(home, j', cap)] >= 0
    ensures j <= |keys|
  {
    var ids := RunIds(t, cap, home, j);
    forall a, b | 0 <= a < b < j
      ensures ids[a] != ids[b]
    {
      assert slot[ids[a]] == Probe(home, a, cap) && slot[ids[b]] == Probe(home, b, cap);
    }
    DistinctBelow(ids, |keys|);
  }

  /** Placing an unplaced id in an empty slot reached from its home slot
      through occupied slots keeps the placement consistent. */
  lemma PlaceId(t: seq<int>, cap: nat, keys: seq<seq<int>>, slot: seq<int>, e: int, h: int)
    requires Placement(t, cap, keys, slot)
    requires 0 <= e < |keys| && slot[e] == -1
    requires 0 <= h < cap && t[h] == -1
    requires Clustered(t, cap, Home(keys[e], cap), h)
    ensures Placement(t[h := e], cap, keys, slot[e := h])
  {
    var t', slot' := t[h := e], slot[e := h];
    forall e' | 0 <= e' < |keys| && slot'[e'] >= 0
      ensures Clustered(t', cap, Home(keys[e'], cap), slot'[e'])
    {
      var home := Home(keys[e'], cap);
      assert Clustered(t, cap, home, slot'[e']);
      forall j | 0 <= j < Dist(home, slot'[e'], cap)
        ensures t'[Probe(home, j, cap)] >= 0
      {
        assert t[Probe(home, j, cap)] >= 0;
      }
    }
  }

  /** Adding a new key with no slot yet keeps the placement consistent. */
  lemma AddUnplaced(t: seq<int>, cap: nat, keys: seq<seq<int>>, slot: seq<int>, k: seq<int>)
    requires Placement(t, cap, keys, slot)
    ensures Placement(t, cap, keys + [k], slot + [-1])
  {
    var keys', slot' := keys + [k], slot + [-1];
    forall e | 0 <= e < |keys'| && slot'[e] >= 0
      ensures Clustered(t, cap, Home(keys'[e], cap), slot'[e])
    {
      assert keys'[e] == keys[e] && slot'[e] == slot[e];
    }
  }

  /** Linear probing that reaches an empty slot, having passed only other
      keys, proves the key absent. */
  lemma AbsentAtGap(t: seq<int>, cap: nat, keys: seq<seq<int>>, slot: seq<int>, k: seq<int>, j: nat)
    requires Placement(t, cap, keys, slot) && AllPlaced(slot)
    requires j < cap && t[Probe(Home(k, cap), j, cap)] == -1
    requires forall j' :: 0 <= j' < j ==>
               var e := t[Probe(Home(k, cap), j', cap)]; 0 <= e < |keys| && keys[e] != k
    ensures k !in keys
  {
    var home := Home(k, cap);
    forall e | 0 <= e < |keys|
      ensures keys[e] != k
    {
      var dist := Dist(home, slot[e], cap);
      ProbeOfDist(home, slot[e], cap);
      assert Clustered(t, cap, Home(keys[e], cap), slot[e]);
      if dist < j {
        assert t[Probe(home, dist, cap)] == e;
      }
    }
  }

  /** After re-probing the id in old slot `i` (if any) at new slot `h`, the
      ids placed anew are exactly those whose old slot is at most `i`. */
  lemma ReplacedUpTo(T: seq<int>, cap: nat, keys: seq<seq<int>>, S: seq<int>, slot: seq<int>, slot': seq<int>,
                     i: nat, h: int)
    requires Placement(T, cap, keys, S) && i < cap && |slot| == |keys|
    requires forall e :: 0 <= e < |keys| ==> (slot[e] >= 0 <==> S[e] < i)
    requires T[i] < 0 ==> slot' == slot
    requires T[i] >= 0 ==> h >= 0 && slot' == slot[T[i] := h]
    ensures |slot'| == |keys|
    ensures forall e :: 0 <= e < |keys| ==> (slot'[e] >= 0 <==> S[e] < i + 1)
  {
    forall e | 0 <= e < |keys| && S[e] == i
      ensures T[i] == e
    {
    }
  }

  /** Re-inserts id `e`, not yet placed, by linear probing from `home` to
      the first empty slot of `t`. */
  method ProbeInsert(t: array<int>, ghost keys: seq<seq<int>>, ghost slot: seq<int>, e: int, home: nat)
      returns (h: nat)
    requires Placement(t[..], t.Length, keys, slot) && |keys| < t.Length
    requires 0 <= e < |keys| && slot[e] == -1 && home == Home(keys[e], t.Length)
    modifies t
    ensures h < t.Length && old(t[h]) == -1 && t[..] == old(t[..])[h := e]
    ensures Placement(t[..], t.Length, keys, slot[e := h])
  {
    ghost var t0 := t[..];
    h := home;
    ghost var j := 0;
    while t[h] >= 0
      modifies {}
      invariant 0 <= j <= |keys| && h == Probe(home, j, t.Length)
      invariant forall j' :: 0 <= j' < j ==> t0[Probe(home, j', t.Length)] >= 0
      decreases t.Length - j
    {
      h := if h < t.Length - 1 then h + 1 else 0;
      j := j + 1;
      OccupiedRun(t0, t.Length, keys, slot, home, j);
    }
    PlaceId(t0, t.Length, keys, slot, e, h);
    t[h] := e;
  }

  /** A copy of key storage `a` with `rows` rows; the added rows are zero. */
  method EnlargedKeys(a: array2<int>, rows: nat) returns (b: array2<int>)
    requires a.Length0 <= rows
    ensures fresh(b) && b.Length0 == rows && b.Length1 == a.Length1
    ensures forall e, i :: 0 <= e < a.Length0 && 0 <= i < a.Length1 ==> b[e, i] == a[e, i]
  {
    b := new int[rows, a.Length1]((e, i) reads a =>
      if 0 <= e < a.Length0 && 0 <= i < a.Length1 then a[e, i] else 0);
  }

  /** A copy of value storage `a` with `rows` rows; the added rows are zero. */
  method EnlargedValues(a: array2<real>, rows: nat) returns (b: array2<real>)
    requires a.Length0 <= rows
    ensures fresh(b) && b.Length0 == rows && b.Length1 == a.Length1
    ensures forall e, c :: 0 <= e < a.Length0 && 0 <= c < a.Length1 ==> b[e, c] == a[e, c]
    ensures forall e, c :: a.Length0 <= e < rows && 0 <= c < a.Length1 ==> b[e, c] == 0.0
  {
    b := new real[rows, a.Length1]((e, c) reads a =>
      if 0 <= e < a.Length0 && 0 <= c < a.Length1 then a[e, c] else 0.0);
  }

  /** Writes `k` into row `e` of key storage `a`, component by component. */
  method WriteRow(a: array2<int>, e: nat, k: seq<int>)
    requires e < a.Length0 && |k| == a.Length1
    modifies a
    ensures forall e', i :: 0 <= e' < a.Length0 && 0 <= i < a.Length1 ==>
              a[e', i] == if e' == e then k[i] else old(a[e', i])
  {
    for i := 0 to |k|
      invariant forall e', i' :: 0 <= e' < a.Length0 && 0 <= i' < a.Length1 ==>
                  a[e', i'] == if e' == e && i' < i then k[i'] else old(a[e', i'])
    {
      a[e, i] := k[i];
    }
  }

  /** The lattice vertex table. `keys` and `values` hold one row per id
      (the source keeps them as flat vectors of rows; here they are
      two-dimensional arrays with the same row layout). */
  class HashTable {
    const keySize: nat
    const valueSize: nat
    var filled: nat
    var capacity: nat
    var keys: array2<int>
    var table: array<int>
    var values: array2<real>

    /** The key of each id, in id order. */
    ghost var Contents: seq<seq<int>>
    /** The table slot of each id. */
    ghost var Slot: seq<int>

    /** Key rows, capacity and load factor. */
    ghost predicate KeysValid()
      reads this, keys
    {
      && capacity % 2 == 0 && 2 * filled <= capacity
      && table.Length == capacity
      && keys.Length0 == capacity / 2 + 10 && keys.Length1 == keySize
      && values.Length0 == capacity / 2 + 10 && values.Length1 == valueSize
      && |Contents| == filled
      && (forall e :: 0 <= e < filled ==> |Contents[e]| == keySize)
      && (forall e, i :: 0 <= e < filled && 0 <= i < keySize ==> keys[e, i] == Contents[e][i])
      && Distinct(Contents)
    }

    ghost predicate Valid()
      reads this, keys, table
    {
      KeysValid() && Placed()
    }

    /** Every id sits in the probe table where probing for its key finds it. */
    ghost predicate Placed()
      reads this, table
    {
      PlacedAfter(1)
    }

    /** `Placed` behind `depth` steps of recursion. The verifier unfolds one
        step of a recursive predicate per mention, so the users of the table
        do not see the probe layout; `UnfoldPlaced` exposes it. */
    ghost predicate PlacedAfter(depth: nat)
      reads this, table
    {
      if depth == 0 then Placement(table[..], capacity, Contents, Slot) && AllPlaced(Slot)
      else PlacedAfter(depth - 1)
    }

    lemma UnfoldPlaced()
      ensures Placed() <==> Placement(table[..], capacity, Contents, Slot) && AllPlaced(Slot)
    {
      assert PlacedAfter(1) == PlacedAfter(0);
    }

    constructor (keySize: nat, valueSize: nat, nElements: nat)
      ensures Valid()
      ensures this.keySize == keySize && this.valueSize == valueSize
      ensures capacity == 2 * nElements && filled == 0 && Contents == []
      ensures forall e, c :: 0 <= e < values.Length0 && 0 <= c < valueSize ==> values[e, c] == 0.0
      ensures fresh(keys) && fresh(table) && fresh(values)
    {
      this.keySize := keySize;
      this.valueSize := valueSize;
      filled := 0;
      capacity := 2 * nElements;
      keys := new int[nElements + 10, keySize]((e, i) => 0);
      table := new int[2 * nElements](h => -1);
      values := new real[nElements + 10, valueSize]((e, c) => 0.0);
      Contents := [];
      Slot := [];
      new;
      assert table[..] == seq(capacity, h => -1);
    }

    /** The number of vertices stored. */
    function Size(): (n: int)
      reads this, keys, table
      requires Valid()
      ensures n == |Contents|
    {
      filled
    }

    /** The key row of id `e`. */
    function GetKey(e: int): (r: seq<int>)
      reads this, keys
      requires KeysValid() && 0 <= e < filled
      ensures r == Contents[e]
    {
      var ks := keys;
      seq(keySize, i requires 0 <= i < keySize reads ks => ks[e, i])
    }

    /** Empties the table: no id is stored any more; capacity and the key and
        value storage stay as they are. */
    method Reset()
      requires Valid()
      modifies this, table
      ensures Valid() && filled == 0 && Contents == []
      ensures capacity == old(capacity) && table == old(table)
      ensures keys == old(keys) && values == old(values)
      ensures forall h :: 0 <= h < table.Length ==> table[h] == -1
    {
      filled := 0;
      var t := table;
      var h := 0;
      while h < t.Length
        modifies t
        invariant 0 <= h <= t.Length
        invariant forall h' :: 0 <= h' < h ==> t[h'] == -1
      {
        t[h] := -1;
        h := h + 1;
      }
      assert t[..] == seq(capacity, h => -1);
      Contents := [];
      Slot := [];
      UnfoldPlaced();
    }

    /** Installs `v` as the value storage, as swapping in a buffer of the
        same size does; ids, keys and the probe table stay as they are. */
    method ReplaceValues(v: array2<real>)
      requires Valid() && v.Length0 == values.Length0 && v.Length1 == valueSize
      modifies this
      ensures Valid() && values == v
      ensures filled == old(filled) && capacity == old(capacity) && Contents == old(Contents)
      ensures keys == old(keys) && table == old(table)
    {
      UnfoldPlaced();
      values := v;
      UnfoldPlaced();
    }

    /** Computes the hash of a key with the source's accumulator loop. */
    method HashOf(k: seq<int>) returns (r: nat)
      ensures r == Hash(k)
    {
      r := 0;
      var i := 0;
      while i < |k|
        invariant 0 <= i <= |k|
        invariant r == HashPrefix(k, i)
      {
        r := (r + k[i]) % WordModulus;
        r := (r * HashMultiplier) % WordModulus;
        i := i + 1;
      }
    }

    /** Compares the key row of id `e` with `k`, component by component,
        stopping at the first difference. */
    method RowMatches(e: int, k: seq<int>) returns (good: bool)
      requires KeysValid() && 0 <= e < filled && |k| == keySize
      ensures good <==> Contents[e] == k
    {
      good := true;
      var i := 0;
      while i < keySize && good
        invariant 0 <= i <= keySize
        invariant good <==> forall i' :: 0 <= i' < i ==> keys[e, i'] == k[i']
        invariant !good ==> Contents[e] != k
      {
        if keys[e, i] != k[i] {
          good := false;
        }
        i := i + 1;
      }
      assert good ==> Contents[e] == k by {
        if good {
          assert forall i' :: 0 <= i' < keySize ==> Contents[e][i'] == k[i'];
        }
      }
    }

    /** Builds a probe table of `newCapacity` slots holding every id, visiting
        the current slots in order and re-probing each id found there. */
    method Rehash(newCapacity: nat) returns (t: array<int>, ghost slot: seq<int>)
      requires Valid() && filled < newCapacity
      ensures fresh(t) && t.Length == newCapacity
      ensures Placement(t[..], newCapacity, Contents, slot) && AllPlaced(slot)
    {
      UnfoldPlaced();
      t := new int[newCapacity](h => -1);
      slot := seq(filled, e => -1);
      assert t[..] == seq(newCapacity, h => -1);
      ghost var T := table[..];
      for i := 0 to capacity
        invariant Placement(t[..], newCapacity, Contents, slot)
        invariant forall e :: 0 <= e < filled ==> (slot[e] >= 0 <==> Slot[e] < i)
      {
        ghost var before := slot;
        var h := 0;
        if table[i] >= 0 {
          var e := table[i];
          assert Slot[e] == i;
          var hv := HashOf(GetKey(e));
          h := ProbeInsert(t, Contents, slot, e, hv % newCapacity);
          slot := slot[e := h];
        }
        ReplacedUpTo(T, capacity, Contents, Slot, before, slot, i, h);
      }
    }

    /** Doubles the capacity: the key and value storage is copied into larger
        zero-initialised storage and every id is re-probed into a new table. */
    method Grow()
      requires Valid() && capacity > 0
      modifies this
      ensures Valid()
      ensures capacity == 2 * old(capacity) && filled == old(filled) && Contents == old(Contents)
      ensures fresh(keys) && fresh(table) && fresh(values)
      ensures forall e, c :: 0 <= e < old(values.Length0) && 0 <= c < valueSize ==> values[e, c] == old(values[e, c])
      ensures forall e, c :: old(values.Length0) <= e < values.Length0 && 0 <= c < valueSize ==> values[e, c] == 0.0
    {
      var newTable, newSlot := Rehash(2 * capacity);
      keys := EnlargedKeys(keys, capacity + 10);
      values := EnlargedValues(values, capacity + 10);
      capacity := 2 * capacity;
      table := newTable;
      Slot := newSlot;
      assert KeysValid();
      UnfoldPlaced();
    }

    /** Probes for `k` from its home slot until it meets the key or an empty
        slot; the empty slot is where `k` would be inserted. */
    method Locate(k: seq<int>) returns (id: int, h: nat)
      requires Valid() && |k| == keySize && 2 * filled < capacity
      ensures id == IndexOf(Contents, k)
      ensures id == -1 ==> h < capacity && table[h] == -1 && Clustered(table[..], capacity, Home(k, capacity), h)
    {
      UnfoldPlaced();
      var hv := HashOf(k);
      h := hv % capacity;
      ghost var j := 0;
      while true
        invariant 0 <= j <= filled && h == Probe(Home(k, capacity), j, capacity)
        invariant forall j' :: 0 <= j' < j ==>
                    var e := table[Probe(Home(k, capacity), j', capacity)]; 0 <= e < filled && Contents[e] != k
        decreases capacity - j
      {
        var e := table[h];
        if e == -1 {
          break;
        }
        var good := RowMatches(e, k);
        if good {
          IndexOfDistinct(Contents, e);
          return e, h;
        }
        h := if h == capacity - 1 then 0 else h + 1;
        j := j + 1;
        OccupiedRun(table[..], capacity, Contents, Slot, Home(k, capacity), j);
      }
      AbsentAtGap(table[..], capacity, Contents, Slot, k, j);
      id := -1;
    }

    /** Writes `k` into the key row of the next id, which it then counts. */
    method AppendRow(k: seq<int>)
      requires KeysValid() && |k| == keySize && 2 * filled < capacity && k !in Contents
      modifies this, keys
      ensures KeysValid() && Contents == old(Contents) + [k] && filled == old(filled) + 1
      ensures capacity == old(capacity) && keys == old(keys) && values == old(values)
      ensures table == old(table) && Slot == old(Slot)
    {
      WriteRow(keys, filled, k);
      IndexOfAppend(Contents, k, k);
      filled := filled + 1;
      Contents := Contents + [k];
    }

    /** Stores absent key `k` under the next id, in empty slot `h` found by
        probing. */
    method Insert(k: seq<int>, h: nat) returns (id: int)
      requires Valid() && |k| == keySize && 2 * filled < capacity && k !in Contents
      requires h < capacity && table[h] == -1 && Clustered(table[..], capacity, Home(k, capacity), h)
      modifies this, table, keys
      ensures Valid() && id == old(filled) && filled == old(filled) + 1
      ensures Contents == old(Contents) + [k] && id == IndexOf(Contents, k)
      ensures capacity == old(capacity) && table == old(table) && keys == old(keys) && values == old(values)
    {
      UnfoldPlaced();
      ghost var t0 := table[..];
      ghost var contents, slot := Contents + [k], Slot + [h];
      AddUnplaced(t0, capacity, Contents, Slot, k);
      PlaceId(t0, capacity, contents, Slot + [-1], filled, h);
      assert (Slot + [-1])[filled := h] == slot;
      IndexOfAppend(Contents, k, k);
      table[h] := filled;
      assert table[..] == t0[h := filled];
      Slot := slot;
      id := filled;
      AppendRow(k);
      UnfoldPlaced();
    }

    /** Looks `k` up by linear probing from its home slot, first doubling the
        capacity when the table is at least half full. An absent key is
        inserted with the next id when `create` is set, and reported as -1
        otherwise. */
    method Find(k: seq<int>, create: bool) returns (id: int)
      requires Valid() && |k| == keySize && capacity > 0
      modifies this, table, keys
      ensures Valid()
      ensures id == IndexOf(Contents, k)
      ensures Contents == if create && k !in old(Contents) then old(Contents) + [k] else old(Contents)
      ensures capacity == old(capacity) || capacity == 2 * old(capacity)
      ensures 2 * filled < capacity || (2 * filled == capacity && create && k !in old(Contents))
      ensures (table == old(table) && keys == old(keys) && values == old(values))
              || (fresh(table) && fresh(keys) && fresh(values))
      ensures values.Length0 >= old(values.Length0)
      ensures forall e, c :: 0 <= e < old(values.Length0) && 0 <= c < valueSize ==> values[e, c] == old(values[e, c])
      ensures forall e, c :: old(values.Length0) <= e < values.Length0 && 0 <= c < valueSize ==> values[e, c] == 0.0
    {
      if 2 * filled >= capacity {
        Grow();
      }
      var h;
      id, h := Locate(k);
      if id == -1 && create {
        id := Insert(k, h);
      }
    }
  }
}
