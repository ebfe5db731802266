/** What the hash map must agree with: the dense entry array as a sequence, and the plain
    finite map it stands for. No slots, no hashes. */
module Entries {

  datatype Option<+T> = None | Some(value: T)

  datatype Entry<+K, +V> = Entry(key: K, value: V)

  ghost predicate Distinct<K, V>(es: seq<Entry<K, V>>) {
    forall i, j :: 0 <= i < j < |es| ==> es[i].key != es[j].key
  }

  /** Position of the entry of a key, -1 when there is none. */
  function IndexOf<K(==), V>(es: seq<Entry<K, V>>, k: K): (i: int)
    ensures -1 <= i < |es|
    ensures i >= 0 ==> es[i].key == k
    ensures i < 0 ==> forall j :: 0 <= j < |es| ==> es[j].key != k
  {
    if es == [] then -1
    else if es[|es| - 1].key == k then |es| - 1
    else IndexOf(es[..|es| - 1], k)
  }

  /** A put overwrites in place or appends; the key of an existing entry stays. */
  function PutEntries<K(==), V>(es: seq<Entry<K, V>>, k: K, v: V): seq<Entry<K, V>> {
    var i := IndexOf(es, k);
    if i < 0 then es + [Entry(k, v)] else es[i := Entry(es[i].key, v)]
  }

  /** The first half of a put: the key is there, with whatever value. */
  function WithKey<K(==), V>(es: seq<Entry<K, V>>, k: K, filler: V): seq<Entry<K, V>> {
    if IndexOf(es, k) >= 0 then es else es + [Entry(k, filler)]
  }

  /** A delete moves the last entry into the hole. */
  function DeleteEntries<K(==), V>(es: seq<Entry<K, V>>, k: K): seq<Entry<K, V>> {
    var i := IndexOf(es, k);
    if i < 0 then es else es[i := es[|es| - 1]][..|es| - 1]
  }

  ghost function AsMap<K, V>(es: seq<Entry<K, V>>): map<K, V> {
    if es == [] then map[] else AsMap(es[..|es| - 1])[es[|es| - 1].key := es[|es| - 1].value]
  }

  function Lookup<K(==), V>(es: seq<Entry<K, V>>, k: K): Option<V> {
    var i := IndexOf(es, k);
    if i < 0 then None else Some(es[i].value)
  }

  ghost function MapLookup<K, V>(m: map<K, V>, k: K): Option<V> {
    if k in m then Some(m[k]) else None
  }

  /** Reading through the index of a key is reading the map. */
  lemma {:induction false} LookupIsMapLookup<K, V>(es: seq<Entry<K, V>>, k: K)
    ensures Lookup(es, k) == MapLookup(AsMap(es), k)
  {
    if es != [] {
      LookupIsMapLookup(es[..|es| - 1], k);
    }
  }

  lemma LookupOf<K, V>(es: seq<Entry<K, V>>, i: nat, k: K)
    requires Distinct(es) && i < |es| && es[i].key == k
    ensures IndexOf(es, k) == i && Lookup(es, k) == Some(es[i].value)
  {}

  lemma PutKeepsDistinct<K, V>(es: seq<Entry<K, V>>, k: K, v: V)
    requires Distinct(es)
    ensures Distinct(PutEntries(es, k, v))
  {}

  lemma DeleteKeepsDistinct<K, V>(es: seq<Entry<K, V>>, k: K)
    requires Distinct(es)
    ensures Distinct(DeleteEntries(es, k))
  {}

  lemma LookupPut<K, V>(es: seq<Entry<K, V>>, k: K, v: V, x: K)
    requires Distinct(es)
    ensures Lookup(PutEntries(es, k, v), x) == if x == k then Some(v) else Lookup(es, x)
  {
    var fs, h, i := PutEntries(es, k, v), IndexOf(es, k), IndexOf(es, x);
    PutKeepsDistinct(es, k, v);
    if x == k {
      LookupOf(fs, if h < 0 then |es| else h, k);
    } else if i >= 0 {
      LookupOf(fs, i, x);
    }
  }

  lemma LookupDelete<K, V>(es: seq<Entry<K, V>>, k: K, x: K)
    requires Distinct(es)
    ensures Lookup(DeleteEntries(es, k), x) == if x == k then None else Lookup(es, x)
  {
    var fs, h, i := DeleteEntries(es, k), IndexOf(es, k), IndexOf(es, x);
    DeleteKeepsDistinct(es, k);
    if x != k && i >= 0 {
      LookupOf(fs, if h >= 0 && i == |es| - 1 then h else i, x);
    }
  }

  lemma PutIsMapUpdate<K, V>(es: seq<Entry<K, V>>, k: K, v: V)
    requires Distinct(es)
    ensures AsMap(PutEntries(es, k, v)) == AsMap(es)[k := v]
  {
    var m, n := AsMap(PutEntries(es, k, v)), AsMap(es)[k := v];
    forall x: K ensures MapLookup(m, x) == MapLookup(n, x) {
      LookupPut(es, k, v, x);
      LookupIsMapLookup(PutEntries(es, k, v), x);
      LookupIsMapLookup(es, x);
    }
    SameLookups(m, n);
  }

  lemma DeleteIsMapRemove<K, V>(es: seq<Entry<K, V>>, k: K)
    requires Distinct(es)
    ensures AsMap(DeleteEntries(es, k)) == AsMap(es) - {k}
  {
    var m, n := AsMap(DeleteEntries(es, k)), AsMap(es) - {k};
    forall x: K ensures MapLookup(m, x) == MapLookup(n, x) {
      LookupDelete(es, k, x);
      LookupIsMapLookup(DeleteEntries(es, k), x);
      LookupIsMapLookup(es, x);
    }
    SameLookups(m, n);
  }

  /** Two maps that answer every lookup alike are equal. */
  lemma SameLookups<K, V>(m: map<K, V>, n: map<K, V>)
    requires forall x: K :: MapLookup(m, x) == MapLookup(n, x)
    ensures m == n
  {
    forall x: K ensures x in m <==> x in n {
      assert MapLookup(m, x) == MapLookup(n, x);
    }
    forall x: K | x in m ensures m[x] == n[x] {
      assert MapLookup(m, x) == MapLookup(n, x);
    }
  }

  lemma SurvivorAt<K, V>(es: seq<Entry<K, V>>, k: K, i: nat) returns (at: nat)
    requires Distinct(es) && i < |es| && es[i].key != k
    ensures at == if IndexOf(es, k) >= 0 && i == |es| - 1 then IndexOf(es, k) else i
    ensures at < |DeleteEntries(es, k)| && DeleteEntries(es, k)[at] == es[i]
  {
    var h := IndexOf(es, k);
    at := if h >= 0 && i == |es| - 1 then h else i;
  }

  /** Only the last entry moves in a delete: every other surviving entry stays where it is. */
  lemma OnlyLastMoves<K, V>(es: seq<Entry<K, V>>, k: K, i: nat)
    requires Distinct(es) && i < |es| && es[i].key != k
    ensures IndexOf(DeleteEntries(es, k), es[i].key) ==
            if IndexOf(es, k) >= 0 && i == |es| - 1 then IndexOf(es, k) else i
  {
    var at := SurvivorAt(es, k, i);
    DeleteKeepsDistinct(es, k);
    LookupOf(DeleteEntries(es, k), at, es[i].key);
  }

  // ---------------------------------------------------------------- runs

  datatype Op<+K, +V> = Put(key: K, value: V) | Get(key: K) | Delete(key: K)

  /** What a caller sees: nothing for a put, the value if any for a get, "was there" for a delete. */
  datatype Answer<+V> = Done | Looked(found: Option<V>) | Removed(was: bool)

  ghost function StepMap<K, V>(m: map<K, V>, op: Op<K, V>): map<K, V> {
    match op
    case Put(k, v) => m[k := v]
    case Get(k) => m
    case Delete(k) => m - {k}
  }

  ghost function MapAnswer<K, V>(m: map<K, V>, op: Op<K, V>): Answer<V> {
    match op
    case Put(k, v) => Done
    case Get(k) => Looked(MapLookup(m, k))
    case Delete(k) => Removed(k in m)
  }

  function StepEntries<K(==), V>(es: seq<Entry<K, V>>, op: Op<K, V>): seq<Entry<K, V>> {
    match op
    case Put(k, v) => PutEntries(es, k, v)
    case Get(k) => es
    case Delete(k) => DeleteEntries(es, k)
  }

  /** The plain finite map after a run. */
  ghost function MapAfter<K, V>(ops: seq<Op<K, V>>): map<K, V> {
    if ops == [] then map[] else StepMap(MapAfter(ops[..|ops| - 1]), ops[|ops| - 1])
  }

  /** What the plain finite map answers along a run. */
  ghost function RunAnswers<K, V>(ops: seq<Op<K, V>>): seq<Answer<V>> {
    if ops == [] then [] else
    RunAnswers(ops[..|ops| - 1]) + [MapAnswer(MapAfter(ops[..|ops| - 1]), ops[|ops| - 1])]
  }

  /** The dense array after a run. */
  function EntriesAfter<K(==), V>(ops: seq<Op<K, V>>): seq<Entry<K, V>> {
    if ops == [] then [] else StepEntries(EntriesAfter(ops[..|ops| - 1]), ops[|ops| - 1])
  }

  lemma StepIsMapStep<K, V>(es: seq<Entry<K, V>>, op: Op<K, V>)
    requires Distinct(es)
    ensures Distinct(StepEntries(es, op)) && AsMap(StepEntries(es, op)) == StepMap(AsMap(es), op)
  {
    match op
    case Put(k, v) => PutKeepsDistinct(es, k, v); PutIsMapUpdate(es, k, v);
    case Get(k) =>
    case Delete(k) => DeleteKeepsDistinct(es, k); DeleteIsMapRemove(es, k);
  }

  /** After any run the dense array stands for the plain map. */
  lemma {:induction false} RunIsMap<K, V>(ops: seq<Op<K, V>>)
    ensures Distinct(EntriesAfter(ops)) && AsMap(EntriesAfter(ops)) == MapAfter(ops)
  {
    if ops != [] {
      RunIsMap(ops[..|ops| - 1]);
      StepIsMapStep(EntriesAfter(ops[..|ops| - 1]), ops[|ops| - 1]);
    }
  }

  ghost function Keys<K, V>(es: seq<Entry<K, V>>): seq<K> {
    seq(|es|, i requires 0 <= i < |es| => es[i].key)
  }

  /** The keys of a run in the order of their first put. */
  ghost function FirstPuts<K, V>(ops: seq<Op<K, V>>): seq<K> {
    if ops == [] then [] else
    var ks := FirstPuts(ops[..|ops| - 1]);
    var op := ops[|ops| - 1];
    if op.Put? && op.key !in ks then ks + [op.key] else ks
  }

  /** Without deletes, iteration order is insertion order. */
  lemma {:induction false} InsertionOrder<K, V>(ops: seq<Op<K, V>>)
    requires forall i :: 0 <= i < |ops| ==> !ops[i].Delete?
    ensures Keys(EntriesAfter(ops)) == FirstPuts(ops)
  {
    if ops != [] {
      InsertionOrder(ops[..|ops| - 1]);
      var es, op := EntriesAfter(ops[..|ops| - 1]), ops[|ops| - 1];
      if op.Put? {
        var i := IndexOf(es, op.key);
        if i >= 0 {
          assert Keys(es)[i] == op.key;
          assert Keys(PutEntries(es, op.key, op.value)) == Keys(es);
        } else {
          assert Keys(PutEntries(es, op.key, op.value)) == Keys(es) + [op.key];
        }
      }
    }
  }
}
