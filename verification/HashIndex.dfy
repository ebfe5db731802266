/** The index part of the hash map: an open-addressed array of slots, each holding the
    stored hash of a key and the position of its entry in the dense array. */
module HashIndexing {
  import opened ProbePaths
  import opened Probing

  /** One slot of a bucket. Stored hashes 0 and 1 are reserved. */
  datatype Slot = Slot(hash: nat, index: int)

  const EMPTY := Slot(0, -1)
  const TOMBSTONE := Slot(1, -2)

  predicate SlotOk(s: Slot) {
    s == EMPTY || s == TOMBSTONE || (s.hash >= 2 && s.index >= 0)
  }

  /** The first `j` probes for hash `h` meet no empty slot. */
  ghost predicate PathFull(t: seq<Slot>, h: nat, j: nat)
    requires TableSize(|t|)
  {
    forall i: nat :: i < j ==> t[Probe(h, |t|, i)] != EMPTY
  }

  /** No empty slot earlier on the path of a slot in use. */
  ghost predicate Reachable(t: seq<Slot>, s: nat)
    requires TableSize(|t|) && s < |t|
  {
    t[s].index >= 0 ==> PathFull(t, t[s].hash, Rank(t[s].hash, |t|, s))
  }

  /** Two slots never name the same entry. */
  ghost predicate Apart(t: seq<Slot>, r: nat, s: nat)
    requires r < |t| && s < |t|
  {
    r != s && t[r].index >= 0 ==> t[r].index != t[s].index
  }

  ghost predicate IndexOk(t: seq<Slot>) {
    && TableSize(|t|)
    && (forall s: nat :: s < |t| ==> SlotOk(t[s]))
    && (forall s: nat :: s < |t| ==> Reachable(t, s))
    && (forall r: nat, s: nat :: r < |t| && s < |t| ==> Apart(t, r, s))
  }

  /** The slots in use, as a multiset: what a rebuild must not change. */
  ghost function Live(t: seq<Slot>): multiset<Slot> {
    multiset(t)[EMPTY := 0][TOMBSTONE := 0]
  }

  ghost function Empties(t: seq<Slot>): nat {
    multiset(t)[EMPTY]
  }

  ghost function Tombstones(t: seq<Slot>): nat {
    multiset(t)[TOMBSTONE]
  }

  lemma SlotCensus(t: seq<Slot>)
    ensures |t| == |Live(t)| + Empties(t) + Tombstones(t)
  {
    var m := multiset(t);
    assert |m| == |t|;
    assert m == m[EMPTY := 0] + multiset{}[EMPTY := m[EMPTY]];
    var m1 := m[EMPTY := 0];
    assert m1 == Live(t) + multiset{}[TOMBSTONE := m[TOMBSTONE]];
  }

  predicate Reserved(x: Slot) {
    x == EMPTY || x == TOMBSTONE
  }

  lemma SomeEmptySlot(t: seq<Slot>) returns (e: nat)
    requires |Live(t)| + Tombstones(t) < |t|
    ensures e < |t| && t[e] == EMPTY
  {
    SlotCensus(t);
    assert EMPTY in multiset(t);
    e :| e < |t| && t[e] == EMPTY;
  }

  /** A path that has met no empty slot is no longer than the way to any empty slot:
      why the search loops, which have no bound of their own, stop. */
  lemma PathBound(t: seq<Slot>, h: nat, j: nat, e: nat)
    requires TableSize(|t|) && e < |t| && t[e] == EMPTY && PathFull(t, h, j)
    ensures j <= Rank(h, |t|, e)
  {
    var k := Rank(h, |t|, e);
    assert t[Probe(h, |t|, k)] == EMPTY;
  }

  /** When a search meets an empty slot at probe `j`, all slots with that hash came earlier. */
  lemma SearchComplete(t: seq<Slot>, h: nat, j: nat, s: nat)
    requires IndexOk(t) && s < |t| && t[s].index >= 0 && t[s].hash == h
    requires t[Probe(h, |t|, j)] == EMPTY
    ensures Rank(h, |t|, s) < j
  {
    var k := Rank(h, |t|, s);
    assert Reachable(t, s);
    assert t[Probe(h, |t|, k)] == t[s];
  }

  /** Writing a new name into a slot that is not in use, with no empty slot before it. */
  lemma InsertKeepsOk(t: seq<Slot>, p: nat, h: nat, i: nat)
    requires IndexOk(t) && p < |t| && t[p].index < 0 && h >= 2
    requires PathFull(t, h, Rank(h, |t|, p))
    requires forall s: nat :: s < |t| ==> t[s].index != i
    ensures IndexOk(t[p := Slot(h, i)])
  {
    var u := t[p := Slot(h, i)];
    forall s: nat | s < |u| ensures Reachable(u, s) {
      assert Reachable(t, s);
    }
    forall r: nat, s: nat | r < |u| && s < |u| ensures Apart(u, r, s) {
      assert Apart(t, r, s);
    }
  }

  /** Turning a slot into a tombstone: it still blocks no search. */
  lemma DeleteKeepsOk(t: seq<Slot>, p: nat)
    requires IndexOk(t) && p < |t| && t[p].index >= 0
    ensures IndexOk(t[p := TOMBSTONE])
  {
    var u := t[p := TOMBSTONE];
    forall s: nat | s < |u| ensures Reachable(u, s) {
      assert Reachable(t, s);
    }
    forall r: nat, s: nat | r < |u| && s < |u| ensures Apart(u, r, s) {
      assert Apart(t, r, s);
    }
  }

  /** The back-pointer fix-up: a slot in use gets the new position of its entry. */
  lemma RelabelKeepsOk(t: seq<Slot>, p: nat, i: nat)
    requires IndexOk(t) && p < |t| && t[p].index >= 0
    requires forall s: nat :: s < |t| ==> t[s].index != i
    ensures IndexOk(t[p := Slot(t[p].hash, i)])
  {
    var u := t[p := Slot(t[p].hash, i)];
    forall s: nat | s < |u| ensures Reachable(u, s) {
      assert Reachable(t, s);
    }
    forall r: nat, s: nat | r < |u| && s < |u| ensures Apart(u, r, s) {
      assert Apart(t, r, s);
    }
  }

  /** The empty slot that ends a search is where the new name goes. */
  lemma PlaceKeepsOk(t: seq<Slot>, h: nat, i: nat, j: nat, e: nat)
    requires IndexOk(t) && h >= 2 && PathFull(t, h, j) && e < |t| && t[e] == EMPTY
    requires t[Probe(h, |t|, j)] == EMPTY
    requires forall s: nat :: s < |t| ==> t[s].index != i
    ensures var u := t[Probe(h, |t|, j) := Slot(h, i)];
            IndexOk(u) && Live(u) == Live(t) + multiset{Slot(h, i)} && Tombstones(u) == Tombstones(t)
  {
    PathBound(t, h, j, e);
    RankOfProbe(h, |t|, j);
    InsertKeepsOk(t, Probe(h, |t|, j), h, i);
  }

  // ---------------------------------------------------------------- thresholds

  function UsedThreshold(n: nat): nat { n - n / 4 }

  function TombstoneThreshold(n: nat): nat { n / 8 + n / 16 }

  function ShrinkThreshold(n: nat): nat { if n <= 8 then 0 else n / 4 }

  class HashIndex {
    const slotCount: nat
    const seed: nat
    const storage: array<Slot>
    var usedCount: nat
    var tombstoneCount: nat

    /** The counters are the real counts, the slots are well formed, one slot is empty. */
    ghost predicate Valid()
      reads this, storage
    {
      && storage.Length == slotCount
      && IndexOk(storage[..])
      && usedCount == |Live(storage[..])|
      && tombstoneCount == Tombstones(storage[..])
      && usedCount + tombstoneCount < slotCount
    }

    constructor (slotCount: nat, seed: nat)
      requires TableSize(slotCount)
      ensures Valid() && fresh(storage)
      ensures this.slotCount == slotCount && this.seed == seed
      ensures usedCount == 0 && tombstoneCount == 0
      ensures forall s :: 0 <= s < slotCount ==> storage[s] == EMPTY
    {
      this.slotCount := slotCount;
      this.seed := seed;
      this.usedCount := 0;
      this.tombstoneCount := 0;
      this.storage := new Slot[slotCount](_ => EMPTY);
      new;
      AllEmpty(storage[..]);
    }

    /** Looks for an empty slot among slots `lo..hi` of the bucket at `base`. */
    method EmptyInSlots(hash: nat, base: nat, lo: nat, hi: nat, ghost r: nat, ghost j0: nat)
      returns (slot: int, ghost j: nat)
      requires storage.Length == slotCount && IndexOk(storage[..])
      requires HalfBucket(hash, slotCount, r, base, lo, hi, j0) && PathFull(storage[..], hash, j0)
      ensures PathFull(storage[..], hash, j)
      ensures slot < 0 ==> j == j0 + (hi - lo)
      ensures slot >= 0 ==> slot < slotCount && storage[slot] == EMPTY && slot == Probe(hash, slotCount, j)
    {
      j := j0;
      var z := lo;
      while z < hi
        invariant lo <= z <= hi && j == j0 + (z - lo) && PathFull(storage[..], hash, j)
      {
        HalfBucketProbe(hash, slotCount, r, base, lo, hi, j0, z, j);
        if storage[base + z].hash == 0 {
          return base + z, j;
        }
        z, j := z + 1, j + 1;
      }
      slot := -1;
    }

    /** One round: the bucket of `pos`, from its offset up and then from its start. */
    method EmptyInBucket(hash: nat, pos: nat, ghost r: nat) returns (slot: int, ghost j: nat)
      requires storage.Length == slotCount && IndexOk(storage[..])
      requires pos == Home(hash, slotCount, r) && PathFull(storage[..], hash, 8 * r)
      ensures PathFull(storage[..], hash, j)
      ensures slot < 0 ==> j == 8 * r + 8
      ensures slot >= 0 ==> slot < slotCount && storage[slot] == EMPTY && slot == Probe(hash, slotCount, j)
    {
      var base, limit := pos - pos % 8, pos % 8;
      slot, j := EmptyInSlots(hash, base, limit, 8, r, 8 * r);
      if slot < 0 {
        slot, j := EmptyInSlots(hash, base, 0, limit, r, j);
      }
    }

    /** The first empty slot on the path of a hash: the probe loop of a rebuild. */
    method FirstEmpty(hash: nat) returns (slot: nat, ghost j: nat)
      requires storage.Length == slotCount && IndexOk(storage[..])
      requires |Live(storage[..])| + Tombstones(storage[..]) < slotCount
      ensures slot < slotCount && storage[slot] == EMPTY
      ensures slot == Probe(hash, slotCount, j) && PathFull(storage[..], hash, j)
    {
      ghost var e := SomeEmptySlot(storage[..]);
      ghost var r: nat := 0;
      var pos := Mask(hash, slotCount);
      var step := 8;
      while true
        invariant pos == Home(hash, slotCount, r) && step == 8 * (r + 1)
        invariant PathFull(storage[..], hash, 8 * r)
        decreases Rank(hash, slotCount, e) - 8 * r
      {
        var found;
        found, j := EmptyInBucket(hash, pos, r);
        if found >= 0 {
          return found, j;
        }
        PathBound(storage[..], hash, j, e);
        pos := Mask(pos + step, slotCount);
        step := step + 8;
        r := r + 1;
      }
    }

    /** Writes a stored hash and an entry position into the first empty slot of its path. */
    method Place(hash: nat, index: nat)
      requires storage.Length == slotCount && IndexOk(storage[..]) && hash >= 2
      requires |Live(storage[..])| + Tombstones(storage[..]) < slotCount
      requires forall s :: 0 <= s < slotCount ==> storage[s].index != index
      modifies storage
      ensures IndexOk(storage[..])
      ensures Live(storage[..]) == old(Live(storage[..])) + multiset{Slot(hash, index)}
      ensures Tombstones(storage[..]) == old(Tombstones(storage[..]))
    {
      ghost var t := storage[..];
      var slot, j := FirstEmpty(hash);
      PlaceKeepsOk(t, hash, index, j, slot);
      storage[slot] := Slot(hash, index);
      assert storage[..] == t[slot := Slot(hash, index)];
    }

    /** A new index; when there is an old one, its seed and its stored hashes are reused and its
        slots in use are copied out. `moved` counts the copied slots. */
    static method Make(slotCount: nat, ot: HashIndex?, freshSeed: nat) returns (t: HashIndex, moved: nat)
      requires TableSize(slotCount)
      requires ot != null ==> ot.storage.Length == ot.slotCount && IndexOk(ot.storage[..])
      requires ot != null ==> ot.usedCount == |Live(ot.storage[..])| < slotCount
      ensures t.Valid() && fresh(t) && fresh(t.storage) && t.slotCount == slotCount
      ensures t.tombstoneCount == 0
      ensures ot == null ==> t.usedCount == 0 && moved == 0 && t.seed == freshSeed
      ensures ot != null ==> t.usedCount == moved == ot.usedCount && t.seed == ot.seed
      ensures ot != null ==> Live(t.storage[..]) == Live(ot.storage[..])
    {
      moved := 0;
      if ot == null {
        t := new HashIndex(slotCount, freshSeed);
        return;
      }
      t := new HashIndex(slotCount, ot.seed);
      t.usedCount := ot.usedCount;
      moved := t.CopySlots(ot.storage);
      SlotCensus(t.storage[..]);
    }

    /** Copies the slots in use of an old storage into this empty one, without rehashing a key. */
    method CopySlots(from: array<Slot>) returns (moved: nat)
      requires storage != from && storage.Length == slotCount && TableSize(slotCount)
      requires IndexOk(from[..]) && |Live(from[..])| < slotCount
      requires forall s :: 0 <= s < slotCount ==> storage[s] == EMPTY
      modifies storage
      ensures IndexOk(storage[..]) && Tombstones(storage[..]) == 0
      ensures Live(storage[..]) == Live(from[..]) && moved == |Live(from[..])|
    {
      ghost var o := from[..];
      AllEmpty(storage[..]);
      moved := 0;
      for i := 0 to from.Length
        invariant from[..] == o
        invariant IndexOk(storage[..]) && Tombstones(storage[..]) == 0
        invariant Live(storage[..]) == Live(o[..i]) && |Live(o[..i])| == moved
      {
        LivePrefix(o, i);
        if from[i].index >= 0 {
          NotYetNamed(storage[..], o, i);
          Place(from[i].hash, from[i].index);
          moved := moved + 1;
        }
      }
      assert o[..from.Length] == o;
    }
  }

  /** One more slot of the old table: its live part grows by that slot, if it is in use. */
  lemma LivePrefix(o: seq<Slot>, i: nat)
    requires i < |o| && SlotOk(o[i])
    ensures Live(o[..i + 1]) == Live(o[..i]) + (if o[i].index >= 0 then multiset{o[i]} else multiset{})
    ensures o[i].index >= 0 ==> |Live(o[..i])| < |Live(o)|
  {
    assert o[..i + 1] == o[..i] + [o[i]];
    assert o == o[..i] + ([o[i]] + o[i + 1..]);
    assert multiset(o) == multiset(o[..i]) + multiset([o[i]] + o[i + 1..]);
    assert multiset([o[i]] + o[i + 1..]) == multiset{o[i]} + multiset(o[i + 1..]);
    var rest := Live([o[i]] + o[i + 1..]);
    assert Live(o) == Live(o[..i]) + rest;
    if o[i].index >= 0 {
      assert o[i] in rest;
    }
  }

  lemma NotYetNamed(t: seq<Slot>, o: seq<Slot>, i: nat)
    requires IndexOk(o) && i < |o| && o[i].index >= 0 && Live(t) == Live(o[..i])
    ensures forall s :: 0 <= s < |t| ==> t[s].index != o[i].index
  {
    forall s | 0 <= s < |t| ensures t[s].index != o[i].index {
      if t[s].index >= 0 {
        assert t[s] in Live(t);
        assert t[s] in multiset(o[..i]);
        var r: nat :| r < i && o[r] == t[s];
        assert Apart(o, r, i);
      }
    }
  }

  lemma AllEmpty(t: seq<Slot>)
    requires TableSize(|t|) && forall s :: 0 <= s < |t| ==> t[s] == EMPTY
    ensures IndexOk(t) && Live(t) == multiset{} && Tombstones(t) == 0
  {
    forall x | x in multiset(t) ensures x == EMPTY {
      assert x in t;
    }
  }
}
