/** The hash map: a dense array of entries behind an open-addressed index. */
module HashMaps {
  import opened ProbePaths
  import opened Probing
  import opened HashIndexing
  import opened Entries

  /** A hash as stored in a slot: 0 and 1 are reserved. The hash function itself is arbitrary. */
  function Stored<K>(f: (K, nat) -> nat, seed: nat, k: K): (h: nat)
    ensures h >= 2
  {
    var h := f(k, seed);
    if h < 2 then h + 2 else h
  }

  /** A slot in use names an entry, under the hash of that entry's key. */
  ghost predicate LinkedAt<K, V>(t: seq<Slot>, es: seq<Entry<K, V>>, f: (K, nat) -> nat, seed: nat, s: nat)
    requires s < |t|
  {
    0 <= t[s].index < |es| ==> t[s].hash == Stored(f, seed, es[t[s].index].key)
  }

  ghost predicate Linked<K, V>(t: seq<Slot>, es: seq<Entry<K, V>>, f: (K, nat) -> nat, seed: nat) {
    && IndexOk(t)
    && InRange(t, |es|)
    && forall s: nat :: s < |t| ==> LinkedAt(t, es, f, seed, s)
  }

  /** An entry is named by a slot. With `Apart` it is exactly one. */
  ghost predicate NamedAt<K, V>(t: seq<Slot>, es: seq<Entry<K, V>>, f: (K, nat) -> nat, seed: nat, i: nat)
    requires i < |es|
  {
    Slot(Stored(f, seed, es[i].key), i) in t
  }

  ghost predicate Named<K, V>(t: seq<Slot>, es: seq<Entry<K, V>>, f: (K, nat) -> nat, seed: nat) {
    forall i: nat :: i < |es| ==> NamedAt(t, es, f, seed, i)
  }

  ghost predicate InRange(t: seq<Slot>, entryCount: nat) {
    forall s :: 0 <= s < |t| ==> SlotOk(t[s]) && t[s].index < entryCount
  }

  /** The first `j` probes for hash `h` met neither an empty slot nor key `k`. */
  ghost predicate Miss<K, V>(t: seq<Slot>, es: seq<Entry<K, V>>, k: K, h: nat, j: nat)
    requires TableSize(|t|) && InRange(t, |es|)
  {
    forall i: nat :: i < j ==>
      var x := t[Probe(h, |t|, i)];
      x != EMPTY && (x.index >= 0 && x.hash == h ==> es[x.index].key != k)
  }

  ghost predicate Holds<K, V>(x: Slot, es: seq<Entry<K, V>>, k: K) {
    0 <= x.index < |es| && es[x.index].key == k
  }

  /** Everything but the size bounds: links both ways, distinct keys, counters equal to counts. */
  ghost predicate Matches<K, V>(t: seq<Slot>, used: nat, tombs: nat, es: seq<Entry<K, V>>,
                                f: (K, nat) -> nat, seed: nat) {
    && Linked(t, es, f, seed)
    && Named(t, es, f, seed)
    && Distinct(es)
    && used == |es| == |Live(t)|
    && tombs == Tombstones(t)
  }

  /** A search that ends at an empty slot without a match proves the key absent. */
  lemma MissIsAbsent<K, V>(t: seq<Slot>, es: seq<Entry<K, V>>, f: (K, nat) -> nat, seed: nat, k: K, j: nat)
    requires Linked(t, es, f, seed) && Miss(t, es, k, Stored(f, seed, k), j)
    requires t[Probe(Stored(f, seed, k), |t|, j)] == EMPTY
    ensures forall s :: 0 <= s < |t| ==> !Holds(t[s], es, k)
  {
    forall s | 0 <= s < |t| ensures !Holds(t[s], es, k) {
      if Holds(t[s], es, k) {
        assert LinkedAt(t, es, f, seed, s);
        SearchComplete(t, Stored(f, seed, k), j, s);
      }
    }
  }

  /** Appending an entry and naming it in a slot that is not in use. */
  lemma AppendKeepsLinks<K, V>(t: seq<Slot>, es: seq<Entry<K, V>>, f: (K, nat) -> nat, seed: nat,
                               p: nat, e: Entry<K, V>)
    requires Linked(t, es, f, seed) && Named(t, es, f, seed) && p < |t| && t[p].index < 0
    requires var h := Stored(f, seed, e.key); PathFull(t, h, Rank(h, |t|, p))
    ensures var u := t[p := Slot(Stored(f, seed, e.key), |es|)];
            Linked(u, es + [e], f, seed) && Named(u, es + [e], f, seed)
  {
    var h := Stored(f, seed, e.key);
    var u := t[p := Slot(h, |es|)];
    InsertKeepsOk(t, p, h, |es|);
    forall s: nat | s < |u| ensures LinkedAt(u, es + [e], f, seed, s) {
      assert LinkedAt(t, es, f, seed, s);
    }
    forall i: nat | i < |es| + 1 ensures NamedAt(u, es + [e], f, seed, i) {
      if i < |es| {
        assert NamedAt(t, es, f, seed, i);
        StillThere(t, p, Slot(h, |es|), Slot(Stored(f, seed, es[i].key), i));
      } else {
        assert u[p] == Slot(h, i);
      }
    }
  }

  /** Overwriting one slot does not lose another value. */
  lemma StillThere(t: seq<Slot>, p: nat, y: Slot, x: Slot)
    requires p < |t| && x in t && x != t[p]
    ensures x in t[p := y]
  {
    var s :| 0 <= s < |t| && t[s] == x;
    assert t[p := y][s] == x;
  }

  /** First half of a delete: the slot becomes a tombstone and the last entry is copied over. */
  lemma UnlinkKeepsLinks<K, V>(t: seq<Slot>, es: seq<Entry<K, V>>, f: (K, nat) -> nat, seed: nat, slot: nat)
    requires Linked(t, es, f, seed) && Named(t, es, f, seed) && Distinct(es)
    requires slot < |t| && t[slot].index >= 0
    ensures var i, last := t[slot].index, |es| - 1;
            var u, es1 := t[slot := TOMBSTONE], es[i := es[last]];
            && Linked(u, es1, f, seed)
            && (i == last ==> Linked(u, es[..last], f, seed) && Named(u, es[..last], f, seed))
            && (i != last ==> Slot(Stored(f, seed, es1[i].key), last) in u)
            && (forall s: nat :: s < |u| ==> u[s].index != i)
            && (forall j: nat :: j < |es| && j != i ==> NamedAt(u, es, f, seed, j))
  {
    DeleteKeepsOk(t, slot);
    var i, last := t[slot].index, |es| - 1;
    var u := t[slot := TOMBSTONE];
    var es1 := es[i := es[last]];
    assert Apart(t, slot, slot);
    forall s: nat | s < |u| ensures LinkedAt(u, es1, f, seed, s) && u[s].index != i {
      assert LinkedAt(t, es, f, seed, s) && Apart(t, slot, s);
    }
    forall j: nat | j < |es| && j != i ensures NamedAt(u, es, f, seed, j) {
      assert NamedAt(t, es, f, seed, j);
      StillThere(t, slot, TOMBSTONE, Slot(Stored(f, seed, es[j].key), j));
    }
    if i == last {
      forall s: nat | s < |u| ensures LinkedAt(u, es[..last], f, seed, s) {
        assert LinkedAt(u, es1, f, seed, s);
      }
      forall j: nat | j < last ensures NamedAt(u, es[..last], f, seed, j) {
        assert NamedAt(u, es, f, seed, j);
      }
    } else {
      assert NamedAt(u, es, f, seed, last);
    }
  }

  /** Second half: the slot that still names the old last position gets the new one. */
  lemma FixUpKeepsLinks<K, V>(t: seq<Slot>, es: seq<Entry<K, V>>, f: (K, nat) -> nat, seed: nat, slot: nat, slot2: nat)
    requires Linked(t, es, f, seed) && Named(t, es, f, seed) && Distinct(es)
    requires slot < |t| && t[slot].index >= 0 && t[slot].index != |es| - 1
    requires var i, last := t[slot].index, |es| - 1;
             var u, es1 := t[slot := TOMBSTONE], es[i := es[last]];
             slot2 < |u| && Holds(u[slot2], es1, es[last].key)
    ensures var i, last := t[slot].index, |es| - 1;
            var u, es1 := t[slot := TOMBSTONE], es[i := es[last]];
            var w := u[slot2 := Slot(u[slot2].hash, i)];
            && u[slot2].index == last
            && Linked(w, es1[..last], f, seed) && Named(w, es1[..last], f, seed)
  {
    UnlinkKeepsLinks(t, es, f, seed, slot);
    var i, last := t[slot].index, |es| - 1;
    var u, es1 := t[slot := TOMBSTONE], es[i := es[last]];
    assert u[slot2] == t[slot2];
    RelabelKeepsOk(u, slot2, i);
    var w := u[slot2 := Slot(u[slot2].hash, i)];
    assert LinkedAt(u, es1, f, seed, slot2);
    forall s: nat | s < |w| ensures LinkedAt(w, es1[..last], f, seed, s) && w[s].index < last {
      assert LinkedAt(u, es1, f, seed, s) && Apart(u, slot2, s);
    }
    forall j: nat | j < last ensures NamedAt(w, es1[..last], f, seed, j) {
      if j == i {
        assert w[slot2] == Slot(Stored(f, seed, es1[j].key), j);
      } else {
        assert NamedAt(u, es, f, seed, j);
        StillThere(u, slot2, w[slot2], Slot(Stored(f, seed, es[j].key), j));
      }
    }
  }

  // ---------------------------------------------------------------- sizes and cost

  /** The bounds every reachable table keeps between operations. */
  predicate Sized(n: nat, used: nat, tombs: nat) {
    && used <= UsedThreshold(n)
    && tombs <= TombstoneThreshold(n)
    && (n > 8 ==> used >= ShrinkThreshold(n))
  }

  function Over(x: nat, y: nat): nat {
    if x > y then x - y else 0
  }

  /** Credit saved up for the next rebuild. */
  function Potential(n: nat, used: nat, tombs: nat): nat {
    3 * Over(used, n / 2) + (if n > 8 then 2 * Over(3 * n / 8, used) else 0) + 4 * tombs
  }

  /** At least one slot stays empty, so every probe loop ends. */
  lemma SizedLeavesRoom(n: nat, used: nat, tombs: nat)
    requires TableSize(n) && Sized(n, used, tombs)
    ensures used + tombs < n
  {
    TableSizeFacts(n);
  }

  lemma GrowPays(n: nat, used: nat, tombs: nat)
    requires TableSize(n) && Sized(n, used, tombs) && used >= UsedThreshold(n)
    ensures Sized(2 * n, used, 0) && used < UsedThreshold(2 * n)
    ensures used + Potential(2 * n, used, 0) <= Potential(n, used, tombs)
  {
    TableSizeFacts(n);
  }

  /** After a delete: whatever rebuild follows is paid for and restores the bounds. */
  lemma ShrinkPays(n: nat, used: nat, tombs: nat)
    requires TableSize(n) && n > 8 && used + 1 >= ShrinkThreshold(n) > used
    ensures Sized(n / 2, used, 0) && used < n / 2
    ensures used + Potential(n / 2, used, 0) <= Potential(n, used, tombs)
  {
    TableSizeFacts(n);
  }

  lemma RebuildPays(n: nat, used: nat, tombs: nat)
    requires TableSize(n) && used <= UsedThreshold(n) && used >= ShrinkThreshold(n)
    requires tombs > TombstoneThreshold(n)
    ensures Sized(n, used, 0) && used < n
    ensures used + Potential(n, used, 0) <= Potential(n, used, tombs)
  {
    TableSizeFacts(n);
  }

  lemma PutPays(n: nat, used: nat, tombs: nat)
    ensures Potential(n, used + 1, tombs) <= Potential(n, used, tombs) + 3
    ensures tombs > 0 ==> Potential(n, used + 1, tombs - 1) <= Potential(n, used, tombs) + 3
  {}

  lemma DeletePays(n: nat, used: nat, tombs: nat)
    ensures used > 0 ==> Potential(n, used - 1, tombs + 1) <= Potential(n, used, tombs) + 6
  {}

  /** What one probed bucket says: the key, an empty slot, or neither. */
  datatype Scan = Match(slot: nat) | Gap(slot: nat) | Continue

  class HashMap<K(==), V> {
    const hashFn: (K, nat) -> nat
    /** What a value reads as before it is assigned, and when its key is missing. */
    const defaultValue: V
    var entries: seq<Entry<K, V>>
    var table: HashIndex?
    /** Entries copied by rebuilds so far. */
    var moves: nat

    ghost function Frame(): set<object>
      reads this
    {
      if table == null then {this} else {this, table, table.storage}
    }

    /** Slots in use name entries: enough to look into a bucket. */
    ghost predicate Scannable()
      reads Frame()
    {
      && table != null
      && table.storage.Length == table.slotCount
      && TableSize(table.slotCount)
      && InRange(table.storage[..], |entries|)
    }

    /** The slots and the entries fit together and one slot is empty: enough to search. */
    ghost predicate Searchable()
      reads Frame()
    {
      && table != null
      && table.storage.Length == table.slotCount
      && Linked(table.storage[..], entries, hashFn, table.seed)
      && |Live(table.storage[..])| + Tombstones(table.storage[..]) < table.slotCount
    }

    /** Slots, entries and counters agree; the sizes may be out of bounds. */
    ghost predicate Consistent()
      reads Frame()
    {
      if table == null then entries == [] else
      && table.storage.Length == table.slotCount
      && Matches(table.storage[..], table.usedCount, table.tombstoneCount, entries, hashFn, table.seed)
    }

    ghost predicate Valid()
      reads Frame()
    {
      && Consistent()
      && (table != null ==> Sized(table.slotCount, table.usedCount, table.tombstoneCount))
    }

    ghost function Credit(): nat
      reads Frame()
    {
      if table == null then 0 else Potential(table.slotCount, table.usedCount, table.tombstoneCount)
    }

    constructor (hashFn: (K, nat) -> nat, defaultValue: V)
      ensures Valid() && table == null && entries == [] && moves == 0
    {
      this.hashFn := hashFn;
      this.defaultValue := defaultValue;
      this.entries := [];
      this.table := null;
      this.moves := 0;
    }

    /** Looks at one slot, number `j` on the probe path of the hash. */
    method ScanSlot(key: K, hash: nat, slot: nat, tombstone: int, ghost t: seq<Slot>, ghost j: nat)
      returns (result: Scan, tombstone': int, ghost next: nat)
      requires Scannable() && t == table.storage[..] && hash >= 2 && slot == Probe(hash, |t|, j)
      requires Miss(t, entries, key, hash, j) && tombstone == FirstTombstone(t, hash, j)
      ensures Scanned(result, t, entries, key, hash, j, j) && next == (if result.Continue? then j + 1 else j)
      ensures Miss(t, entries, key, hash, next) && tombstone' == FirstTombstone(t, hash, next)
    {
      var x := table.storage[slot];
      tombstone' := tombstone;
      if x.hash == hash {
        if entries[x.index].key == key {
          return Match(slot), tombstone', j;
        }
      } else if x.hash == 0 {
        return Gap(slot), tombstone', j;
      } else if tombstone < 0 && x.index == -2 {
        tombstone' := slot;
      }
      TombstoneStep(t, |entries|, hash, j, slot);
      result, next := Continue, j + 1;
    }

    /** Looks for a key in slots `lo..hi` of the bucket at `base`, remembering the first tombstone. */
    method ScanSlots(key: K, hash: nat, base: nat, lo: nat, hi: nat, tombstone: int, ghost r: nat, ghost j0: nat)
      returns (result: Scan, tombstone': int, ghost j: nat)
      requires Scannable() && hash >= 2
      requires HalfBucket(hash, table.slotCount, r, base, lo, hi, j0)
      requires Miss(table.storage[..], entries, key, hash, j0)
      requires tombstone == FirstTombstone(table.storage[..], hash, j0)
      ensures Miss(table.storage[..], entries, key, hash, j)
      ensures tombstone' == FirstTombstone(table.storage[..], hash, j)
      ensures Scanned(result, table.storage[..], entries, key, hash, j, j0 + (hi - lo))
    {
      ghost var t := table.storage[..];
      assert |t| == table.slotCount;
      j := j0;
      tombstone' := tombstone;
      var i := lo;
      while i < hi
        invariant lo <= i <= hi && j == j0 + (i - lo)
        invariant Miss(t, entries, key, hash, j) && tombstone' == FirstTombstone(t, hash, j)
      {
        HalfBucketProbe(hash, |t|, r, base, lo, hi, j0, i, j);
        result, tombstone', j := ScanSlot(key, hash, base + i, tombstone', t, j);
        if !result.Continue? {
          return;
        }
        i := i + 1;
      }
      result := Continue;
    }

    /** One round: the bucket of `pos`, from its offset up and then from its start. */
    method ScanBucket(key: K, hash: nat, pos: nat, tombstone: int, ghost r: nat)
      returns (result: Scan, tombstone': int, ghost j: nat)
      requires Scannable() && hash >= 2
      requires pos == Home(hash, table.slotCount, r)
      requires Miss(table.storage[..], entries, key, hash, 8 * r)
      requires tombstone == FirstTombstone(table.storage[..], hash, 8 * r)
      ensures Miss(table.storage[..], entries, key, hash, j)
      ensures tombstone' == FirstTombstone(table.storage[..], hash, j)
      ensures Scanned(result, table.storage[..], entries, key, hash, j, 8 * r + 8)
    {
      var base, limit := pos - pos % 8, pos % 8;
      result, tombstone', j := ScanSlots(key, hash, base, limit, 8, tombstone, r, 8 * r);
      if result.Continue? {
        result, tombstone', j := ScanSlots(key, hash, base, 0, limit, tombstone', r, j);
      }
    }

    /** The probe loop: stops at the key or at the first empty slot, whichever comes first. */
    method Search(key: K, hash: nat, ghost e: nat) returns (result: Scan, tombstone: int, ghost j: nat)
      requires Scannable() && hash >= 2 && e < table.slotCount && table.storage[e] == EMPTY
      ensures !result.Continue? && Scanned(result, table.storage[..], entries, key, hash, j, j)
      ensures Miss(table.storage[..], entries, key, hash, j)
      ensures tombstone == FirstTombstone(table.storage[..], hash, j)
    {
      ghost var r: nat := 0;
      var pos := Mask(hash, table.slotCount);
      var step := 8;
      tombstone := -1;
      while true
        invariant pos == Home(hash, table.slotCount, r) && step == 8 * (r + 1)
        invariant Miss(table.storage[..], entries, key, hash, 8 * r)
        invariant tombstone == FirstTombstone(table.storage[..], hash, 8 * r)
        decreases Rank(hash, table.slotCount, e) - 8 * r
      {
        result, tombstone, j := ScanBucket(key, hash, pos, tombstone, r);
        if !result.Continue? {
          return;
        }
        PathBound(table.storage[..], hash, j, e);
        pos := Mask(pos + step, table.slotCount);
        step := step + 8;
        r := r + 1;
      }
    }

    /** The slot that names a key, -1 exactly when no slot does. */
    method FindSlot(key: K) returns (slot: int)
      requires Searchable()
      ensures slot >= 0 ==> slot < table.slotCount && Holds(table.storage[slot], entries, key)
      ensures slot < 0 ==> forall s :: 0 <= s < table.slotCount ==> !Holds(table.storage[s], entries, key)
    {
      var hash := Stored(hashFn, table.seed, key);
      ghost var e := SomeEmptySlot(table.storage[..]);
      var result, _, j := Search(key, hash, e);
      match result
      case Match(s) => slot := s;
      case Gap(_) =>
        MissIsAbsent(table.storage[..], entries, hashFn, table.seed, key, j);
        slot := -1;
        assert forall s :: 0 <= s < table.slotCount ==> table.storage[..][s] == table.storage[s];
    }

    /** The slot of a key in any reachable state, also before the first put. */
    method SlotOf(key: K) returns (slot: int)
      requires Valid()
      ensures slot < 0 ==> IndexOf(entries, key) == -1
      ensures slot >= 0 ==> table != null && slot < table.slotCount && Holds(table.storage[slot], entries, key)
      ensures slot >= 0 ==> IndexOf(entries, key) == table.storage[slot].index
    {
      if table == null {
        return -1;
      }
      SizedLeavesRoom(table.slotCount, table.usedCount, table.tombstoneCount);
      slot := FindSlot(key);
      if slot < 0 {
        AbsentFromEntries(table.storage[..], entries, hashFn, table.seed, key);
      } else {
        LookupOf(entries, table.storage[slot].index, key);
      }
    }

    /** Position of a key in the dense array, -1 when it is not there. */
    method GetIndex(key: K) returns (i: int)
      requires Valid()
      ensures i == IndexOf(entries, key)
    {
      var slot := SlotOf(key);
      i := if slot < 0 then -1 else table.storage[slot].index;
    }

    /** The value of a key, the default value when it is missing. */
    method Get(key: K) returns (v: V)
      requires Valid()
      ensures v == (if key in AsMap(entries) then AsMap(entries)[key] else defaultValue)
    {
      var i := GetIndex(key);
      LookupIsMapLookup(entries, key);
      v := if i < 0 then defaultValue else entries[i].value;
    }

    /** Replaces the index by one of any sufficient size that names the same entries. */
    method Rebuild(slotCount: nat, freshSeed: nat)
      requires Consistent() && TableSize(slotCount) && |entries| < slotCount
      modifies this`table, this`moves
      ensures Consistent() && table != null && fresh(table) && fresh(table.storage)
      ensures Valid() <==> Sized(slotCount, |entries|, 0)
      ensures table.slotCount == slotCount && table.usedCount == |entries| && table.tombstoneCount == 0
      ensures old(table) != null ==> table.seed == old(table.seed)
      ensures moves == old(moves) + |entries|
    {
      var t, moved := HashIndex.Make(slotCount, table, freshSeed);
      if table != null {
        SameLiveKeepsLinks(table.storage[..], t.storage[..], entries, hashFn, table.seed);
      } else {
        NoneLive(t.storage[..]);
      }
      table := t;
      moves := moves + moved;
    }

    /** Makes the first index, or doubles a full one. */
    method EnsureRoom(freshSeed: nat)
      requires Valid()
      modifies this`table, this`moves
      ensures Valid() && table != null
      ensures table == old(table) || (fresh(table) && fresh(table.storage))
      ensures table.usedCount < UsedThreshold(table.slotCount)
      ensures moves + Credit() <= old(moves + Credit())
    {
      if table == null {
        Rebuild(8, freshSeed);
      } else if table.usedCount >= UsedThreshold(table.slotCount) {
        TableSizeFacts(table.slotCount);
        GrowPays(table.slotCount, table.usedCount, table.tombstoneCount);
        Rebuild(2 * table.slotCount, freshSeed);
      }
    }

    /** Where a key is, or the slot a new name for it goes to: the first tombstone of its path,
        otherwise the empty slot that ended the search. */
    method Locate(key: K, hash: nat) returns (i: int, pos: nat)
      requires Valid() && table != null && hash == Stored(hashFn, table.seed, key)
      ensures i == IndexOf(entries, key)
      ensures i < 0 ==> pos < table.slotCount && table.storage[pos].index < 0
                        && PathFull(table.storage[..], hash, Rank(hash, table.slotCount, pos))
    {
      ghost var t := table.storage[..];
      SizedLeavesRoom(table.slotCount, table.usedCount, table.tombstoneCount);
      ghost var e := SomeEmptySlot(t);
      var result, tombstone, j := Search(key, hash, e);
      match result
      case Match(slot) =>
        i, pos := table.storage[slot].index, slot;
        LookupOf(entries, i, key);
      case Gap(slot) =>
        MissIsAbsent(t, entries, hashFn, table.seed, key, j);
        AbsentFromEntries(t, entries, hashFn, table.seed, key);
        PutSlotOnPath(t, entries, key, hash, j, e);
        i := -1;
        pos := if tombstone >= 0 then tombstone else slot;
    }

    /** Names a new entry in slot `pos`. */
    method Name(hash: nat, index: nat, pos: nat, ghost t: seq<Slot>)
      requires table != null && t == table.storage[..] && pos < |t|
      requires t[pos] == TOMBSTONE ==> table.tombstoneCount > 0
      modifies table, table.storage
      ensures table.storage == old(table.storage)
      ensures table.slotCount == old(table.slotCount) && table.seed == old(table.seed)
      ensures table.storage[..] == t[pos := Slot(hash, index)]
      ensures table.usedCount == old(table.usedCount) + 1
      ensures table.tombstoneCount == old(table.tombstoneCount) - (if t[pos] == TOMBSTONE then 1 else 0)
    {
      if table.storage[pos] == TOMBSTONE {
        table.tombstoneCount := table.tombstoneCount - 1;
      }
      table.usedCount := table.usedCount + 1;
      table.storage[pos] := Slot(hash, index);
    }

    /** Appends an entry for a new key and names it in slot `pos`. */
    method Append(key: K, hash: nat, pos: nat)
      requires Valid() && table != null && table.usedCount < UsedThreshold(table.slotCount)
      requires IndexOf(entries, key) < 0 && hash == Stored(hashFn, table.seed, key)
      requires pos < table.slotCount && table.storage[pos].index < 0
      requires PathFull(table.storage[..], hash, Rank(hash, table.slotCount, pos))
      modifies this`entries, table, table.storage
      ensures Valid() && table.storage == old(table.storage)
      ensures entries == old(entries) + [Entry(key, defaultValue)]
      ensures Credit() <= old(Credit()) + 3
    {
      ghost var t := table.storage[..];
      AppendMatches(t, table.usedCount, table.tombstoneCount, entries, hashFn, table.seed, pos,
                    Entry(key, defaultValue));
      PutPays(table.slotCount, table.usedCount, table.tombstoneCount);
      Name(hash, |entries|, pos, t);
      entries := entries + [Entry(key, defaultValue)];
    }

    /** Finds the entry of a key, or appends one when there is room. */
    method FindOrAppend(key: K) returns (i: nat)
      requires Valid() && table != null && table.usedCount < UsedThreshold(table.slotCount)
      modifies this`entries, table, table.storage
      ensures Valid() && table.storage == old(table.storage)
      ensures entries == WithKey(old(entries), key, defaultValue) && i == IndexOf(entries, key)
      ensures Credit() <= old(Credit()) + 3
    {
      var hash := Stored(hashFn, table.seed, key);
      var found, pos := Locate(key, hash);
      if found >= 0 {
        i := found;
      } else {
        i := |entries|;
        Append(key, hash, pos);
      }
    }

    /** Finds the entry of a key or appends one. */
    method PutKey(key: K, freshSeed: nat) returns (i: nat)
      requires Valid()
      modifies Frame()
      ensures Valid() && table != null
      ensures table == old(table) || (fresh(table) && fresh(table.storage))
      ensures entries == WithKey(old(entries), key, defaultValue) && i == IndexOf(entries, key)
      ensures moves + Credit() <= old(moves + Credit()) + 3
    {
      EnsureRoom(freshSeed);
      i := FindOrAppend(key);
    }

    method Assign(i: nat, key: K, value: V, ghost es: seq<Entry<K, V>>)
      requires Valid() && table != null
      requires entries == WithKey(es, key, defaultValue) && i == IndexOf(entries, key)
      modifies this`entries
      ensures Valid() && entries == PutEntries(es, key, value)
      ensures Credit() == old(Credit())
    {
      AssignKeepsMatches(table.storage[..], table.usedCount, table.tombstoneCount, entries, hashFn, table.seed,
                         i, value);
      entries := entries[i := Entry(entries[i].key, value)];
    }

    /** Sets the value of a key. */
    method Put(key: K, value: V, freshSeed: nat)
      requires Valid()
      modifies Frame()
      ensures Valid() && table != null
      ensures table == old(table) || (fresh(table) && fresh(table.storage))
      ensures entries == PutEntries(old(entries), key, value)
      ensures moves + Credit() <= old(moves + Credit()) + 3
    {
      ghost var es := entries;
      var i := PutKey(key, freshSeed);
      Assign(i, key, value, es);
    }

    /** Turns a slot into a tombstone. */
    method Bury(slot: nat, ghost t: seq<Slot>)
      requires table != null && t == table.storage[..] && slot < |t| && table.usedCount > 0
      modifies table, table.storage
      ensures table.storage[..] == t[slot := TOMBSTONE]
      ensures table.usedCount == old(table.usedCount) - 1 && table.tombstoneCount == old(table.tombstoneCount) + 1
    {
      table.usedCount := table.usedCount - 1;
      table.tombstoneCount := table.tombstoneCount + 1;
      table.storage[slot] := TOMBSTONE;
    }

    /** The second lookup of a delete: finds the slot that names a key and corrects the position. */
    method Relabel(key: K, index: nat, ghost u: seq<Slot>) returns (ghost slot: nat)
      requires Searchable() && u == table.storage[..]
      requires exists s :: 0 <= s < |u| && Holds(u[s], entries, key)
      modifies table.storage
      ensures slot < |u| && Holds(u[slot], entries, key)
      ensures table.storage[..] == u[slot := Slot(u[slot].hash, index)]
    {
      var found := FindSlot(key);
      slot := found;
      table.storage[found] := table.storage[found].(index := index);
    }

    /** Takes the entry named by a slot out: the slot becomes a tombstone, the last entry moves into
        the hole and the slot that named the last position is found again and corrected. */
    method Unlink(slot: nat, ghost t: seq<Slot>, ghost es: seq<Entry<K, V>>)
      requires Valid() && table != null && t == table.storage[..] && es == entries
      requires slot < |t| && 0 <= t[slot].index
      modifies this`entries, table, table.storage
      ensures table.storage.Length == |t| && Renamed(t, es, slot, table.storage[..])
      ensures |es| > 0 && entries == es[t[slot].index := es[|es| - 1]][..|es| - 1]
      ensures table.usedCount == old(table.usedCount) - 1 && table.tombstoneCount == old(table.tombstoneCount) + 1
    {
      var oldIndex, finalIndex := table.storage[slot].index, |entries| - 1;
      SizedLeavesRoom(table.slotCount, table.usedCount, table.tombstoneCount);
      UnlinkMatches(t, table.usedCount, table.tombstoneCount, es, hashFn, table.seed, slot);
      Bury(slot, t);
      if oldIndex != finalIndex {
        entries := entries[oldIndex := entries[finalIndex]];
        var moved := entries[oldIndex].key;
        assert moved == es[finalIndex].key && entries == es[t[slot].index := es[|es| - 1]];
        ghost var u := t[slot := TOMBSTONE];
        FoundAgain(u, entries, finalIndex, moved, Stored(hashFn, table.seed, moved));
        ghost var slot2 := Relabel(moved, oldIndex, u);
        assert Renaming(t, es, slot, slot2, table.storage[..]);
      }
      entries := entries[..finalIndex];
    }

    /** One delete away from the size bounds. */
    ghost predicate Shrinkable()
      reads Frame()
    {
      && table != null
      && table.usedCount <= UsedThreshold(table.slotCount)
      && table.usedCount + 1 >= ShrinkThreshold(table.slotCount)
    }

    method Remove(key: K, slot: nat)
      requires Valid() && table != null && slot < table.slotCount && Holds(table.storage[slot], entries, key)
      modifies this`entries, table, table.storage
      ensures Consistent() && entries == DeleteEntries(old(entries), key)
      ensures Shrinkable() && Credit() <= old(Credit()) + 6
    {
      ghost var t, es, used, tombs := table.storage[..], entries, table.usedCount, table.tombstoneCount;
      Unlink(slot, t, es);
      DeletePays(table.slotCount, used, tombs);
      DeleteMatches(t, used, tombs, es, hashFn, table.seed, slot, table.storage[..]);
      DeleteEntriesAt(es, key, t[slot].index);
    }

    /** Deletes a key; shrinks the index when it got sparse, rebuilds it when tombstones pile up. */
    method Delete(key: K) returns (removed: bool)
      requires Valid()
      modifies Frame()
      ensures Valid() && (table == old(table) || (fresh(table) && fresh(table.storage)))
      ensures removed == (IndexOf(old(entries), key) >= 0)
      ensures entries == DeleteEntries(old(entries), key)
      ensures moves + Credit() <= old(moves + Credit()) + 6
    {
      var slot := SlotOf(key);
      removed := slot >= 0;
      if removed {
        Remove(key, slot);
        Resize();
      }
    }

    /** After a delete: back within the size bounds. */
    method Resize()
      requires Consistent() && Shrinkable()
      modifies this`table, this`moves
      ensures Valid() && table != null && (table == old(table) || (fresh(table) && fresh(table.storage)))
      ensures moves + Credit() <= old(moves + Credit())
    {
      TableSizeFacts(table.slotCount);
      if table.usedCount < ShrinkThreshold(table.slotCount) && table.slotCount > 8 {
        ShrinkPays(table.slotCount, table.usedCount, table.tombstoneCount);
        Rebuild(table.slotCount / 2, table.seed);
      } else if table.tombstoneCount > TombstoneThreshold(table.slotCount) {
        RebuildPays(table.slotCount, table.usedCount, table.tombstoneCount);
        Rebuild(table.slotCount, table.seed);
      }
    }
  }

  lemma AssignKeepsMatches<K, V>(t: seq<Slot>, used: nat, tombs: nat, es: seq<Entry<K, V>>,
                                 f: (K, nat) -> nat, seed: nat, i: nat, v: V)
    requires Matches(t, used, tombs, es, f, seed) && i < |es|
    ensures Matches(t, used, tombs, es[i := Entry(es[i].key, v)], f, seed)
  {
    var fs := es[i := Entry(es[i].key, v)];
    forall s: nat | s < |t| ensures LinkedAt(t, fs, f, seed, s) {
      assert LinkedAt(t, es, f, seed, s);
    }
    forall j: nat | j < |fs| ensures NamedAt(t, fs, f, seed, j) {
      assert NamedAt(t, es, f, seed, j);
    }
  }

  lemma UnlinkMatches<K, V>(t: seq<Slot>, used: nat, tombs: nat, es: seq<Entry<K, V>>,
                            f: (K, nat) -> nat, seed: nat, slot: nat)
    requires Matches(t, used, tombs, es, f, seed) && slot < |t| && t[slot].index >= 0
    ensures var i, last := t[slot].index, |es| - 1;
            var u, es1 := t[slot := TOMBSTONE], es[i := es[last]];
            && 0 <= i <= last
            && Linked(u, es1, f, seed) && |Live(u)| == used - 1 && Tombstones(u) == tombs + 1
            && (i == last ==> Matches(u, used - 1, tombs + 1, es[..last], f, seed))
            && (i != last ==> Slot(Stored(f, seed, es[last].key), last) in u)
  {
    UnlinkKeepsLinks(t, es, f, seed, slot);
  }

  /** Each entry is named by exactly one slot, under the stored hash of its key. */
  lemma OneSlotEach<K, V>(t: seq<Slot>, used: nat, tombs: nat, es: seq<Entry<K, V>>,
                          f: (K, nat) -> nat, seed: nat, i: nat)
    requires Matches(t, used, tombs, es, f, seed) && i < |es|
    ensures exists s: nat :: s < |t| && t[s] == Slot(Stored(f, seed, es[i].key), i)
                             && forall r: nat :: r < |t| && t[r].index == i ==> r == s
  {
    assert NamedAt(t, es, f, seed, i);
    var s: nat :| s < |t| && t[s] == Slot(Stored(f, seed, es[i].key), i);
    forall r: nat | r < |t| && t[r].index == i ensures r == s {
      assert Apart(t, r, s);
    }
  }

  lemma FoundAgain<K, V>(u: seq<Slot>, es: seq<Entry<K, V>>, last: nat, k: K, h: nat)
    requires last < |es| && es[last].key == k && Slot(h, last) in u
    ensures exists s :: 0 <= s < |u| && Holds(u[s], es, k)
  {
    var s :| 0 <= s < |u| && u[s] == Slot(h, last);
    assert Holds(u[s], es, k);
  }

  /** Slot `slot2`, which still named the last position, now names the hole. */
  ghost predicate Renaming<K, V>(t: seq<Slot>, es: seq<Entry<K, V>>, slot: nat, slot2: nat, w: seq<Slot>)
    requires slot < |t| && 0 <= t[slot].index < |es|
  {
    var u := t[slot := TOMBSTONE];
    && slot2 < |t|
    && Holds(u[slot2], es[t[slot].index := es[|es| - 1]], es[|es| - 1].key)
    && w == u[slot2 := Slot(u[slot2].hash, t[slot].index)]
  }

  /** What a delete leaves in the slots. */
  ghost predicate Renamed<K, V>(t: seq<Slot>, es: seq<Entry<K, V>>, slot: nat, w: seq<Slot>) {
    && slot < |t| && 0 <= t[slot].index < |es|
    && if t[slot].index == |es| - 1 then w == t[slot := TOMBSTONE] else exists slot2 :: Renaming(t, es, slot, slot2, w)
  }

  lemma FixUpMatches<K, V>(t: seq<Slot>, used: nat, tombs: nat, es: seq<Entry<K, V>>, f: (K, nat) -> nat, seed: nat,
                           slot: nat, slot2: nat, w: seq<Slot>)
    requires Matches(t, used, tombs, es, f, seed)
    requires slot < |t| && 0 <= t[slot].index < |es| - 1 && Renaming(t, es, slot, slot2, w)
    ensures Matches(w, used - 1, tombs + 1, es[t[slot].index := es[|es| - 1]][..|es| - 1], f, seed)
  {
    FixUpKeepsLinks(t, es, f, seed, slot, slot2);
  }

  lemma DeleteEntriesAt<K, V>(es: seq<Entry<K, V>>, k: K, i: nat)
    requires Distinct(es) && i < |es| && es[i].key == k
    ensures DeleteEntries(es, k) == es[i := es[|es| - 1]][..|es| - 1]
  {
    LookupOf(es, i, k);
  }

  /** A delete keeps everything in step. */
  lemma DeleteMatches<K, V>(t: seq<Slot>, used: nat, tombs: nat, es: seq<Entry<K, V>>, f: (K, nat) -> nat, seed: nat,
                            slot: nat, w: seq<Slot>)
    requires Matches(t, used, tombs, es, f, seed) && Renamed(t, es, slot, w)
    ensures used > 0 && Matches(w, used - 1, tombs + 1, es[t[slot].index := es[|es| - 1]][..|es| - 1], f, seed)
  {
    UnlinkMatches(t, used, tombs, es, f, seed, slot);
    var i, last := t[slot].index, |es| - 1;
    if i == last {
      assert es[i := es[last]][..last] == es[..last];
    } else {
      var slot2 :| Renaming(t, es, slot, slot2, w);
      FixUpMatches(t, used, tombs, es, f, seed, slot, slot2, w);
    }
  }

  /** Naming a new entry in a slot that is not in use keeps everything in step. */
  lemma AppendMatches<K, V>(t: seq<Slot>, used: nat, tombs: nat, es: seq<Entry<K, V>>, f: (K, nat) -> nat, seed: nat,
                            p: nat, e: Entry<K, V>)
    requires Matches(t, used, tombs, es, f, seed) && IndexOf(es, e.key) < 0
    requires p < |t| && t[p].index < 0
    requires var h := Stored(f, seed, e.key); PathFull(t, h, Rank(h, |t|, p))
    ensures t[p] == TOMBSTONE ==> tombs > 0
    ensures Matches(t[p := Slot(Stored(f, seed, e.key), |es|)], used + 1,
                    if t[p] == TOMBSTONE then tombs - 1 else tombs, es + [e], f, seed)
  {
    AppendKeepsLinks(t, es, f, seed, p, e);
    assert t[p] in multiset(t);
  }

  /** Both candidates for a new name, the ending empty slot and the first tombstone, are reachable. */
  lemma PutSlotOnPath<K, V>(t: seq<Slot>, es: seq<Entry<K, V>>, k: K, h: nat, j: nat, e: nat)
    requires IndexOk(t) && InRange(t, |es|) && Miss(t, es, k, h, j) && t[Probe(h, |t|, j)] == EMPTY
    requires e < |t| && t[e] == EMPTY
    ensures PathFull(t, h, Rank(h, |t|, Probe(h, |t|, j)))
    ensures FirstTombstone(t, h, j) >= 0 ==> PathFull(t, h, Rank(h, |t|, FirstTombstone(t, h, j)))
  {
    PathBound(t, h, j, e);
    RankOfProbe(h, |t|, j);
    if FirstTombstone(t, h, j) >= 0 {
      FirstTombstoneOnPath(t, h, j);
    }
  }

  lemma NoneLive(t: seq<Slot>)
    requires |Live(t)| == 0
    ensures forall s :: 0 <= s < |t| ==> t[s] == EMPTY || t[s] == TOMBSTONE
  {
    forall s | 0 <= s < |t| ensures t[s] == EMPTY || t[s] == TOMBSTONE {
      assert t[s] in multiset(t);
      assert t[s] !in Live(t);
    }
  }

  /** An entry whose key no slot holds would not be named. */
  lemma AbsentFromEntries<K, V>(t: seq<Slot>, es: seq<Entry<K, V>>, f: (K, nat) -> nat, seed: nat, k: K)
    requires Named(t, es, f, seed)
    requires forall s :: 0 <= s < |t| ==> !Holds(t[s], es, k)
    ensures IndexOf(es, k) == -1
  {
    var i := IndexOf(es, k);
    if i >= 0 {
      var x := Slot(Stored(f, seed, es[i].key), i);
      assert NamedAt(t, es, f, seed, i);
      var s :| 0 <= s < |t| && t[s] == x;
      assert Holds(t[s], es, k);
    }
  }

  /** A rebuild: another index with the same slots in use serves the same entries. */
  lemma SameLiveKeepsLinks<K, V>(t: seq<Slot>, u: seq<Slot>, es: seq<Entry<K, V>>, f: (K, nat) -> nat, seed: nat)
    requires Linked(t, es, f, seed) && Named(t, es, f, seed)
    requires IndexOk(u) && Live(u) == Live(t)
    ensures Linked(u, es, f, seed) && Named(u, es, f, seed)
  {
    forall s: nat | s < |u| ensures LinkedAt(u, es, f, seed, s) && u[s].index < |es| {
      if u[s].index >= 0 {
        assert u[s] in Live(u);
        assert u[s] in multiset(t);
        var r: nat :| r < |t| && t[r] == u[s];
        assert LinkedAt(t, es, f, seed, r);
      }
    }
    forall i: nat | i < |es| ensures NamedAt(u, es, f, seed, i) {
      assert NamedAt(t, es, f, seed, i);
      var x := Slot(Stored(f, seed, es[i].key), i);
      assert x in multiset(t);
      assert x in Live(u);
      assert x in multiset(u);
    }
  }

  /** What the outcome of a scan that stopped at probe `j` means; `end` is where a full scan stops. */
  ghost predicate Scanned<K, V>(result: Scan, t: seq<Slot>, es: seq<Entry<K, V>>, k: K, h: nat, j: nat, end: nat)
    requires TableSize(|t|)
  {
    match result
    case Match(slot) => slot < |t| && Holds(t[slot], es, k)
    case Gap(slot) => slot == Probe(h, |t|, j) && t[slot] == EMPTY
    case Continue => j == end
  }

  /** The first tombstone among the first `j` probes, -1 when there is none. */
  ghost function FirstTombstone(t: seq<Slot>, h: nat, j: nat): (s: int)
    requires TableSize(|t|)
    ensures s >= 0 ==> s < |t| && t[s] == TOMBSTONE
  {
    if j == 0 then -1
    else if FirstTombstone(t, h, j - 1) >= 0 then FirstTombstone(t, h, j - 1)
    else if t[Probe(h, |t|, j - 1)] == TOMBSTONE then Probe(h, |t|, j - 1)
    else -1
  }

  lemma TombstoneStep(t: seq<Slot>, n: nat, h: nat, j: nat, slot: nat)
    requires TableSize(|t|) && InRange(t, n) && slot == Probe(h, |t|, j) && t[slot].hash != 0
    ensures var s := FirstTombstone(t, h, j);
            FirstTombstone(t, h, j + 1) == if s < 0 && t[slot].index == -2 then slot else s
  {}

  /** The remembered tombstone lies on the path, with no empty slot before it. */
  lemma {:induction false} FirstTombstoneOnPath(t: seq<Slot>, h: nat, j: nat)
    requires TableSize(|t|) && j <= |t| && PathFull(t, h, j) && FirstTombstone(t, h, j) >= 0
    ensures PathFull(t, h, Rank(h, |t|, FirstTombstone(t, h, j)))
  {
    if FirstTombstone(t, h, j - 1) >= 0 {
      FirstTombstoneOnPath(t, h, j - 1);
    } else {
      RankOfProbe(h, |t|, j - 1);
    }
  }

  // ---------------------------------------------------------------- whole runs

  /** What the rebuilds may move on account of one operation. */
  function MovesFor<K, V>(op: Op<K, V>): nat {
    match op
    case Put(_, _) => 3
    case Get(_) => 0
    case Delete(_) => 6
  }

  /** Three for every put and six for every delete. */
  function MovesForAll<K, V>(ops: seq<Op<K, V>>): nat {
    if ops == [] then 0 else MovesForAll(ops[..|ops| - 1]) + MovesFor(ops[|ops| - 1])
  }

  /** One operation of a run. */
  method Apply<K(==), V>(m: HashMap<K, V>, op: Op<K, V>, seed: nat) returns (answer: Answer<V>)
    requires m.Valid()
    modifies m.Frame()
    ensures m.Valid() && (m.table == old(m.table) || (m.table != null && fresh(m.table) && fresh(m.table.storage)))
    ensures answer == MapAnswer(AsMap(old(m.entries)), op)
    ensures m.entries == StepEntries(old(m.entries), op)
    ensures m.moves + m.Credit() <= old(m.moves + m.Credit()) + MovesFor(op)
  {
    LookupIsMapLookup(m.entries, op.key);
    match op
    case Put(k, v) =>
      m.Put(k, v, seed);
      answer := Done;
    case Get(k) =>
      var i := m.GetIndex(k);
      answer := Looked(if i < 0 then None else Some(m.entries[i].value));
    case Delete(k) =>
      var removed := m.Delete(k);
      answer := Removed(removed);
  }

  /** Any run from an empty table answers like the plain finite map, whatever the hash function,
      and its rebuilds move at most three entries per put and six per delete. */
  method Replay<K(==), V>(ops: seq<Op<K, V>>, hashFn: (K, nat) -> nat, defaultValue: V, seed: nat)
    returns (answers: seq<Answer<V>>, moves: nat, entries: seq<Entry<K, V>>)
    ensures answers == RunAnswers(ops)
    ensures entries == EntriesAfter(ops) && AsMap(entries) == MapAfter(ops)
    ensures moves <= MovesForAll(ops)
  {
    var m := new HashMap(hashFn, defaultValue);
    answers := [];
    for n := 0 to |ops|
      invariant m.Valid() && fresh(m) && (m.table != null ==> fresh(m.table) && fresh(m.table.storage))
      invariant answers == RunAnswers(ops[..n]) && m.entries == EntriesAfter(ops[..n])
      invariant m.moves + m.Credit() <= MovesForAll(ops[..n])
    {
      RunIsMap(ops[..n]);
      assert ops[..n + 1][..n] == ops[..n];
      var answer := Apply(m, ops[n], seed);
      answers := answers + [answer];
    }
    assert ops[..|ops|] == ops;
    RunIsMap(ops);
    moves, entries := m.moves, m.entries;
  }
}
