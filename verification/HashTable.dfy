/** kernel/hash.c: the generic open-addressing hash table with tombstones.

    TableSpec holds the slot table as a sequence, the invariant on it and what the table means;
    HashTable is the mutable structure with the operations of the source. */
module TableSpec {
  import opened Options
  import opened Arith
  import opened HashCycle

  /** SL_EMPTY, SL_ACTIVE and SL_DELETED; only active slots carry a pair. */
  datatype Slot<K, V> = Empty | Active(key: K, value: V, hash: nat) | Deleted

  /** What hash_init demands of its two arguments: cmp is an equivalence and hfunc respects it. */
  ghost predicate Lawful<K(!new)>(hfunc: K -> nat, cmp: (K, K) -> bool) {
    && (forall a :: hfunc(a) < WORD)
    && (forall a :: cmp(a, a))
    && (forall a, b :: cmp(a, b) ==> cmp(b, a) && hfunc(a) == hfunc(b))
    && (forall a, b, c :: cmp(a, b) && cmp(b, c) ==> cmp(a, c))
  }

  predicate Matches<K, V>(s: Slot<K, V>, cmp: (K, K) -> bool, key: K) {
    s.Active? && cmp(s.key, key)
  }

  ghost predicate Present<K, V>(t: seq<Slot<K, V>>, cmp: (K, K) -> bool, key: K) {
    exists i :: 0 <= i < |t| && Matches(t[i], cmp, key)
  }

  /** The value the table associates with key: the meaning of the table as a finite map. */
  ghost function Find<K, V>(t: seq<Slot<K, V>>, cmp: (K, K) -> bool, key: K): Option<V> {
    if Present(t, cmp, key) then
      var i :| 0 <= i < |t| && Matches(t[i], cmp, key);
      Some(t[i].value)
    else
      None
  }

  /** Slot i is examined at probe n of this hash code, and no probe before it meets an empty slot. */
  ghost predicate Reach<K, V>(t: seq<Slot<K, V>>, hash: nat, i: nat, n: nat)
    requires |t| > 0
  {
    && Probe(hash, |t|, n) == i
    && forall m: nat :: m < n ==> t[Probe(hash, |t|, m)] != Empty
  }

  ghost predicate Reachable<K, V>(t: seq<Slot<K, V>>, hash: nat, i: nat)
    requires |t| > 0
  {
    exists n :: Reach(t, hash, i, n)
  }

  /** Slot i is the first slot on the probe path that is not active. */
  ghost predicate FirstReusable<K, V>(t: seq<Slot<K, V>>, hash: nat, i: nat)
    requires |t| > 0
  {
    exists n :: Reach(t, hash, i, n) && OnlyActive(t, hash, n)
  }

  ghost predicate OnlyActive<K, V>(t: seq<Slot<K, V>>, hash: nat, n: nat)
    requires |t| > 0
  {
    forall m: nat :: m < n ==> t[Probe(hash, |t|, m)].Active?
  }

  ghost predicate HashesRight<K, V>(t: seq<Slot<K, V>>, hfunc: K -> nat)
    requires |t| > 0
  {
    forall i :: 0 <= i < |t| && t[i].Active? ==>
      t[i].hash == hfunc(t[i].key) && Reachable(t, t[i].hash, i)
  }

  ghost predicate NoDuplicates<K, V>(t: seq<Slot<K, V>>, cmp: (K, K) -> bool) {
    forall i, j :: 0 <= i < |t| && 0 <= j < |t| && i != j && t[i].Active? && t[j].Active? ==>
      !cmp(t[i].key, t[j].key)
  }

  ghost predicate TableOk<K, V>(t: seq<Slot<K, V>>, hfunc: K -> nat, cmp: (K, K) -> bool) {
    |t| > 0 && HashesRight(t, hfunc) && NoDuplicates(t, cmp)
  }

  function NonEmpty<K, V>(t: seq<Slot<K, V>>): (n: nat)
    ensures n <= |t|
  {
    if t == [] then 0 else NonEmpty(t[..|t| - 1]) + (if t[|t| - 1].Empty? then 0 else 1)
  }

  function ActiveCount<K, V>(t: seq<Slot<K, V>>): (n: nat)
    ensures n <= NonEmpty(t)
  {
    if t == [] then 0 else ActiveCount(t[..|t| - 1]) + (if t[|t| - 1].Active? then 1 else 0)
  }

  function Weight(b: bool): nat {
    if b then 1 else 0
  }

  lemma {:induction false} CountsAfterUpdate<K, V>(t: seq<Slot<K, V>>, i: nat, s: Slot<K, V>)
    requires i < |t|
    ensures NonEmpty(t[i := s]) == NonEmpty(t) - Weight(!t[i].Empty?) + Weight(!s.Empty?)
    ensures ActiveCount(t[i := s]) == ActiveCount(t) - Weight(t[i].Active?) + Weight(s.Active?)
  {
    var init, u := t[..|t| - 1], t[i := s];
    if i == |t| - 1 {
      assert u[..|u| - 1] == init;
    } else {
      assert u[..|u| - 1] == init[i := s];
      CountsAfterUpdate(init, i, s);
    }
  }

  /** fill < size guarantees an SL_EMPTY slot. */
  lemma {:induction false} EmptySlotExists<K, V>(t: seq<Slot<K, V>>) returns (i: nat)
    requires NonEmpty(t) < |t|
    ensures i < |t| && t[i].Empty?
  {
    if t[|t| - 1].Empty? {
      i := |t| - 1;
    } else {
      i := EmptySlotExists(t[..|t| - 1]);
    }
  }

  lemma {:induction false} CountsOfFresh<K, V>(t: seq<Slot<K, V>>)
    requires forall i :: 0 <= i < |t| ==> t[i].Empty?
    ensures NonEmpty(t) == 0 && ActiveCount(t) == 0
  {
    if t != [] {
      CountsOfFresh(t[..|t| - 1]);
    }
  }

  lemma FoundIs<K(!new), V>(t: seq<Slot<K, V>>, hfunc: K -> nat, cmp: (K, K) -> bool, key: K, i: nat)
    requires Lawful(hfunc, cmp) && NoDuplicates(t, cmp)
    requires i < |t| && Matches(t[i], cmp, key)
    ensures Find(t, cmp, key) == Some(t[i].value)
  {
    var j := FindWitness(t, cmp, key);
    assert cmp(key, t[i].key);
    assert cmp(t[j].key, t[i].key);
  }

  lemma FindWitness<K, V>(t: seq<Slot<K, V>>, cmp: (K, K) -> bool, key: K) returns (j: nat)
    requires Present(t, cmp, key)
    ensures j < |t| && Matches(t[j], cmp, key) && Find(t, cmp, key) == Some(t[j].value)
  {
    var s := Find(t, cmp, key);
    j :| 0 <= j < |t| && Matches(t[j], cmp, key) && t[j].value == s.value;
  }

  /** The lookup loop stops at a slot that is empty or holds the key. */
  predicate Stops<K, V>(s: Slot<K, V>, cmp: (K, K) -> bool, key: K) {
    s.Empty? || Matches(s, cmp, key)
  }

  /** hash_lookup ends exactly when some slot stops it, and then within 7 + size probes. */
  lemma LookupEndsIff<K, V>(t: seq<Slot<K, V>>, k: nat, cmp: (K, K) -> bool, key: K, hash: nat)
    requires |t| == Pow2(k) && k <= 32 && hash < WORD
    ensures (exists n: nat :: Stops(t[Probe(hash, |t|, n)], cmp, key)) <==>
            (exists v :: 0 <= v < |t| && Stops(t[v], cmp, key))
    ensures (exists v :: 0 <= v < |t| && Stops(t[v], cmp, key)) ==>
            (exists n: nat :: n < 7 + |t| && Stops(t[Probe(hash, |t|, n)], cmp, key))
  {
    if v: nat :| 0 <= v < |t| && Stops(t[v], cmp, key) {
      var n := ProbeVisitsAll(hash, k, v);
      assert Stops(t[Probe(hash, |t|, n)], cmp, key);
    }
  }

  /** Probes 0..n met neither an empty slot nor the key. */
  ghost predicate Passed<K, V>(t: seq<Slot<K, V>>, cmp: (K, K) -> bool, key: K, hash: nat, n: nat)
    requires |t| > 0
  {
    forall m: nat :: m < n ==> !Stops(t[Probe(hash, |t|, m)], cmp, key)
  }

  /** An empty slot met after unsuccessful probes proves the key absent. */
  lemma AbsentAtEmpty<K(!new), V>(t: seq<Slot<K, V>>, hfunc: K -> nat, cmp: (K, K) -> bool, key: K, n: nat)
    requires Lawful(hfunc, cmp) && TableOk(t, hfunc, cmp)
    requires Passed(t, cmp, key, hfunc(key), n) && t[Probe(hfunc(key), |t|, n)].Empty?
    ensures !Present(t, cmp, key)
  {
    forall i: nat | i < |t| && t[i].Active?
      ensures !Matches(t[i], cmp, key)
    {
      if t[i].hash == hfunc(key) {
        var d :| Reach(t, t[i].hash, i, d);
        PathStopsBefore(t, hfunc(key), i, d, n);
        assert !Stops(t[Probe(hfunc(key), |t|, d)], cmp, key);
      }
    }
  }

  /** The test of hash_lookup fails only on slots that do not hold the key: equal keys have equal hash codes. */
  lemma PassedBy<K(!new), V>(t: seq<Slot<K, V>>, hfunc: K -> nat, cmp: (K, K) -> bool, key: K, i: nat)
    requires Lawful(hfunc, cmp) && TableOk(t, hfunc, cmp) && i < |t| && !t[i].Empty?
    requires t[i].Active? ==> t[i].hash != hfunc(key) || !cmp(t[i].key, key)
    ensures !Stops(t[i], cmp, key)
  {
  }

  lemma OneMorePassed<K, V>(t: seq<Slot<K, V>>, cmp: (K, K) -> bool, key: K, hash: nat, n: nat)
    requires |t| > 0 && Passed(t, cmp, key, hash, n) && !Stops(t[Probe(hash, |t|, n)], cmp, key)
    ensures Passed(t, cmp, key, hash, n + 1)
    ensures OnlyActive(t, hash, n) && t[Probe(hash, |t|, n)].Active? ==> OnlyActive(t, hash, n + 1)
  {
    hide Stops, Probe;
  }

  /** The probe that meets an empty slot is the last one. */
  lemma NotPastEmpty<K, V>(t: seq<Slot<K, V>>, cmp: (K, K) -> bool, key: K, hash: nat, n: nat, last: nat)
    requires |t| > 0 && Passed(t, cmp, key, hash, n) && t[Probe(hash, |t|, last)].Empty?
    ensures n <= last
  {
    var p := Probe(hash, |t|, last);
    assert Stops(t[p], cmp, key);
  }

  lemma NothingPassed<K, V>(t: seq<Slot<K, V>>, cmp: (K, K) -> bool, key: K, hash: nat)
    requires |t| > 0
    ensures Passed(t, cmp, key, hash, 0) && OnlyActive(t, hash, 0)
  {
  }

  lemma ReachedNow<K, V>(t: seq<Slot<K, V>>, cmp: (K, K) -> bool, key: K, hash: nat, i: nat, n: nat)
    requires |t| > 0 && Passed(t, cmp, key, hash, n) && i == Probe(hash, |t|, n)
    ensures Reach(t, hash, i, n)
  {
    forall m: nat | m < n ensures t[Probe(hash, |t|, m)] != Empty {
      assert !Stops(t[Probe(hash, |t|, m)], cmp, key);
    }
  }

  /** The test of hash_lookup, which looks at the address of the key first. */
  lemma FoundIt<K(!new), V>(s: Slot<K, V>, hfunc: K -> nat, cmp: (K, K) -> bool, key: K)
    requires Lawful(hfunc, cmp) && s.Active? && (s.key == key || cmp(s.key, key))
    ensures Matches(s, cmp, key)
  {
  }

  lemma ReusableNow<K, V>(t: seq<Slot<K, V>>, hash: nat, i: nat, n: nat)
    requires |t| > 0 && Reach(t, hash, i, n) && OnlyActive(t, hash, n)
    ensures FirstReusable(t, hash, i) && Reachable(t, hash, i)
  {
  }

  lemma PathStopsBefore<K, V>(t: seq<Slot<K, V>>, hash: nat, i: nat, d: nat, n: nat)
    requires i < |t| && Reach(t, hash, i, d)
    requires t[i].Active? && t[Probe(hash, |t|, n)].Empty?
    ensures d < n
  {
  }

  /** Filling a slot never breaks a probe path. */
  lemma PathsSurvive<K, V>(t: seq<Slot<K, V>>, i: nat, s: Slot<K, V>, hash: nat, j: nat)
    requires i < |t| && j < |t| && s != Empty && Reachable(t, hash, j)
    ensures Reachable(t[i := s], hash, j)
  {
    var n :| Reach(t, hash, j, n);
    assert Reach(t[i := s], hash, j, n);
  }

  /** Storing a pair in the slot a lookup returned keeps the invariant and sets exactly that key. */
  lemma StoreKeepsTable<K(!new), V>(t: seq<Slot<K, V>>, hfunc: K -> nat, cmp: (K, K) -> bool,
                                   key: K, value: V, i: nat)
    requires Lawful(hfunc, cmp) && TableOk(t, hfunc, cmp) && i < |t|
    requires !Present(t, cmp, key) && !t[i].Active? && Reachable(t, hfunc(key), i)
    ensures TableOk(t[i := Active(key, value, hfunc(key))], hfunc, cmp)
  {
    var u := t[i := Active(key, value, hfunc(key))];
    forall j | 0 <= j < |u| && u[j].Active?
      ensures u[j].hash == hfunc(u[j].key) && Reachable(u, u[j].hash, j)
    {
      assert Reachable(t, u[j].hash, j);
      PathsSurvive(t, i, u[i], u[j].hash, j);
    }
    forall a, b | 0 <= a < |u| && 0 <= b < |u| && a != b && u[a].Active? && u[b].Active?
      ensures !cmp(u[a].key, u[b].key)
    {
      if a == i {
        assert !Matches(t[b], cmp, key);
      } else if b == i {
        assert !Matches(t[a], cmp, key);
      }
    }
  }

  /** Overwriting the value of an active slot, or turning it into a tombstone. */
  lemma RewriteKeepsTable<K(!new), V>(t: seq<Slot<K, V>>, hfunc: K -> nat, cmp: (K, K) -> bool,
                                     i: nat, s: Slot<K, V>)
    requires TableOk(t, hfunc, cmp) && i < |t| && t[i].Active?
    requires s.Deleted? || (s.Active? && s.key == t[i].key && s.hash == t[i].hash)
    ensures TableOk(t[i := s], hfunc, cmp)
  {
    var u := t[i := s];
    forall j | 0 <= j < |u| && u[j].Active?
      ensures u[j].hash == hfunc(u[j].key) && Reachable(u, u[j].hash, j)
    {
      assert t[j].Active?;
      PathsSurvive(t, i, s, t[j].hash, j);
    }
  }

  lemma Separate<K(!new)>(hfunc: K -> nat, cmp: (K, K) -> bool, a: K, b: K, k: K)
    requires Lawful(hfunc, cmp) && !cmp(a, b) && cmp(b, k)
    ensures !cmp(a, k)
  {
    assert cmp(k, b);
  }

  lemma FindAbsent<K, V>(t: seq<Slot<K, V>>, cmp: (K, K) -> bool, k: K)
    requires forall j :: 0 <= j < |t| ==> !Matches(t[j], cmp, k)
    ensures Find(t, cmp, k) == None
  {
  }

  /** Writing slot i leaves the keys that neither its old nor its new pair matches. */
  lemma FindElsewhere<K(!new), V>(t: seq<Slot<K, V>>, u: seq<Slot<K, V>>, hfunc: K -> nat,
                                 cmp: (K, K) -> bool, i: nat, k: K)
    requires Lawful(hfunc, cmp) && i < |t| == |u| && u == t[i := u[i]]
    requires NoDuplicates(t, cmp) && NoDuplicates(u, cmp)
    requires !Matches(t[i], cmp, k) && !Matches(u[i], cmp, k)
    ensures Find(u, cmp, k) == Find(t, cmp, k)
  {
    if j: nat :| 0 <= j < |t| && Matches(t[j], cmp, k) {
      FoundIs(t, hfunc, cmp, k, j);
      FoundIs(u, hfunc, cmp, k, j);
    } else {
      assert forall j :: 0 <= j < |u| && j != i ==> u[j] == t[j];
    }
  }

  /** Effect on every key of writing slot i, when the key concerned is held by no other slot. */
  lemma FindAfterWrite<K(!new), V>(t: seq<Slot<K, V>>, u: seq<Slot<K, V>>, hfunc: K -> nat,
                                  cmp: (K, K) -> bool, i: nat, key: K, k: K)
    requires Lawful(hfunc, cmp) && i < |t| == |u| && u == t[i := u[i]]
    requires NoDuplicates(t, cmp) && NoDuplicates(u, cmp)
    requires t[i].Active? ==> cmp(t[i].key, key)
    requires !t[i].Active? ==> !Present(t, cmp, key)
    requires u[i].Active? ==> cmp(u[i].key, key)
    ensures Find(u, cmp, k) ==
            if cmp(key, k) then (if u[i].Active? then Some(u[i].value) else None)
            else Find(t, cmp, k)
  {
    if !cmp(key, k) {
      if t[i].Active? {
        Separate(hfunc, cmp, k, key, t[i].key) by { assert !cmp(k, key); }
      }
      if u[i].Active? {
        Separate(hfunc, cmp, k, key, u[i].key) by { assert !cmp(k, key); }
      }
      FindElsewhere(t, u, hfunc, cmp, i, k);
    } else if u[i].Active? {
      FoundIs(u, hfunc, cmp, k, i);
    } else {
      forall j | 0 <= j < |u|
        ensures !Matches(u[j], cmp, k)
      {
        if j != i && t[j].Active? {
          if t[i].Active? {
            Separate(hfunc, cmp, t[j].key, t[i].key, k);
          } else {
            assert !Matches(t[j], cmp, key);
            Separate(hfunc, cmp, t[j].key, key, k);
          }
        }
      }
      FindAbsent(u, cmp, k);
    }
  }

  lemma {:induction false} PrefixHasFewer<K, V>(t: seq<Slot<K, V>>, i: nat)
    requires i <= |t|
    ensures ActiveCount(t[..i]) <= ActiveCount(t)
  {
    if i < |t| {
      PrefixHasFewer(t[..|t| - 1], i);
      assert t[..|t| - 1][..i] == t[..i];
    } else {
      assert t[..i] == t;
    }
  }

  lemma CountOfPrefix<K, V>(t: seq<Slot<K, V>>, i: nat)
    requires i < |t|
    ensures ActiveCount(t[..i + 1]) == ActiveCount(t[..i]) + Weight(t[i].Active?)
  {
    assert t[..i + 1][..i] == t[..i];
  }

  /** What copying slot i of the old table adds to the copied prefix. */
  lemma FindInPrefix<K(!new), V>(t: seq<Slot<K, V>>, hfunc: K -> nat, cmp: (K, K) -> bool, i: nat, k: K)
    requires Lawful(hfunc, cmp) && NoDuplicates(t, cmp) && i < |t|
    ensures Find(t[..i + 1], cmp, k) ==
            if Matches(t[i], cmp, k) then Some(t[i].value) else Find(t[..i], cmp, k)
    ensures t[i].Active? ==> !Present(t[..i], cmp, t[i].key)
  {
    var p, u := t[..i], t[..i + 1];
    if Matches(t[i], cmp, k) {
      assert Matches(u[i], cmp, k);
      FoundIs(u, hfunc, cmp, k, i);
    } else if j: nat :| j < i && Matches(p[j], cmp, k) {
      assert Matches(u[j], cmp, k);
      FoundIs(p, hfunc, cmp, k, j);
      FoundIs(u, hfunc, cmp, k, j);
    } else {
      assert forall j :: 0 <= j < i ==> u[j] == p[j];
    }
    if t[i].Active? {
      assert forall j :: 0 <= j < i && t[j].Active? ==> !cmp(t[j].key, t[i].key);
    }
  }

  lemma FindNone<K, V>(t: seq<Slot<K, V>>, cmp: (K, K) -> bool, k: K)
    ensures Find(t, cmp, k) == None <==> !Present(t, cmp, k)
  {
  }

  lemma FindInFresh<K, V>(t: seq<Slot<K, V>>, cmp: (K, K) -> bool, k: K)
    requires forall i :: 0 <= i < |t| ==> t[i].Empty?
    ensures Find(t, cmp, k) == None
  {
  }

  // ---- runs

  datatype Op<K, V> = SetOp(key: K, value: V) | DelOp(key: K)

  /** The finite-map reading of a run: the last operation on a key decides. */
  ghost function Replay<K, V>(init: Option<V>, ops: seq<Op<K, V>>, cmp: (K, K) -> bool, k: K): Option<V> {
    if ops == [] then init
    else
      var op := ops[|ops| - 1];
      if cmp(op.key, k) then (if op.SetOp? then Some(op.value) else None)
      else Replay(init, ops[..|ops| - 1], cmp, k)
  }

  lemma ReplayOneMore<K(!new), V(!new)>(ops: seq<Op<K, V>>, n: nat, cmp: (K, K) -> bool)
    requires n < |ops|
    ensures forall init: Option<V>, k: K {:trigger Replay(init, ops[..n + 1], cmp, k)} ::
      Replay(init, ops[..n + 1], cmp, k) == Replay(Replay(init, ops[..n], cmp, k), [ops[n]], cmp, k)
  {
    assert ops[..n + 1][..n] == ops[..n];
    assert [ops[n]][..0] == [];
  }
}

module HashTable {
  import opened Options
  import opened Arith
  import opened HashCycle
  import opened TableSpec

  const HASH_MINSIZE: nat := 8
  const LOG_MAX: nat := 27     // of the largest table that can be allocated
  const SLOT_BYTES: nat := 16  // sizeof(hash_slot_t)

  /** A 32-bit pattern read as a signed long. */
  function ToLong(x: nat): int
    requires x < WORD
  {
    if x < 0x8000_0000 then x else x - WORD
  }

  /** size * sizeof(hash_slot_t), in an unsigned long. */
  function ByteCount(size: nat): nat {
    size * SLOT_BYTES % WORD
  }

  /** mem_alloc refuses a length of zero, whatever memory there is. */
  predicate Allocates(bytes: nat, allocOk: bool) {
    bytes != 0 && allocOk
  }

  /** The byte count first wraps at 2^28 slots, and then to zero: every smaller table gets all its bytes. */
  lemma ByteCountWrapsIff(log: nat)
    requires log <= LOG_MAX + 1
    ensures ByteCount(Pow2(log)) == 0 <==> log == LOG_MAX + 1
    ensures log <= LOG_MAX ==> ByteCount(Pow2(log)) == SLOT_BYTES * Pow2(log)
  {
    Pow32();
    Pow2Add(LOG_MAX + 1, 4);
    assert Pow2(4) == 16;
    hide Pow2;
    var p := Pow2(LOG_MAX + 1);
    assert p == 0x1000_0000;
    if log <= LOG_MAX {
      Pow2Monotone(log, LOG_MAX + 1);
      ModUnique(Pow2(log) * SLOT_BYTES, WORD, 0, Pow2(log) * SLOT_BYTES);
    } else {
      ModUnique(p * SLOT_BYTES, WORD, 1, 0);
    }
  }

  /** So doubling the size of a table never overflows a long, and hash_update never takes that exit. */
  lemma DoublingFits(log: nat)
    requires log <= LOG_MAX
    ensures 2 * Pow2(log) < WORD && ToLong(2 * Pow2(log)) == Pow2(log + 1) > Pow2(log)
  {
    Pow32();
    assert Pow2(log + 1) == 2 * Pow2(log);
    hide Pow2;
    Pow2Monotone(log, 31);
    Pow2Monotone(log + 1, 31);
    Pow2Monotone(log + 2, 31);
    Pow2Add(1, log + 1);
    LogTwo(log);
  }

  lemma LogTwo(log: nat)
    ensures Pow2(log + 2) == 2 * Pow2(log + 1)
  {
  }

  lemma HalvingKeepsPower(log: nat)
    requires 3 <= log && Pow2(log) > HASH_MINSIZE
    ensures log > 3 && Pow2(log) / 2 == Pow2(log - 1)
  {
    assert Pow2(3) == 8;
  }

  /** hash_t. A slot index masked with (number of slots - 1) is its remainder modulo the
      number of slots, which is how `& mask` is written here. */
  class Hash<K(==,!new), V(!new)> {
    var fill: nat
    var count: nat
    var mask: nat
    var table: array<Slot<K, V>>
    const hfunc: K -> nat
    const cmp: (K, K) -> bool
    ghost var logSize: nat

    ghost predicate Valid()
      reads this, table
    {
      && Lawful(hfunc, cmp)
      && 3 <= logSize <= LOG_MAX
      && table.Length == Pow2(logSize) == mask + 1
      && TableOk(table[..], hfunc, cmp)
      && fill == NonEmpty(table[..])
      && count == ActiveCount(table[..])
    }

    /** Some slot is SL_EMPTY: what hash_lookup needs to end on an absent key. */
    ghost predicate HasRoom()
      reads this, table
    {
      fill < table.Length
    }

    /** The load bound that every successful operation re-establishes. */
    ghost predicate LoadOk()
      reads this, table
    {
      3 * fill < 2 * table.Length
    }

    /** The finite map the table stands for, one key at a time. */
    ghost function Get(k: K): Option<V>
      reads this, table
    {
      Find(table[..], cmp, k)
    }

    /** hash_init. */
    constructor (hfunc: K -> nat, cmp: (K, K) -> bool)
      requires Lawful(hfunc, cmp)
      ensures Valid() && LoadOk() && fresh(table)
      ensures this.hfunc == hfunc && this.cmp == cmp
      ensures forall k :: Get(k) == None
      ensures fill == count == 0
    {
      this.hfunc, this.cmp := hfunc, cmp;
      table := new Slot<K, V>[HASH_MINSIZE](_ => Empty);
      fill, count, mask := 0, 0, HASH_MINSIZE - 1;
      logSize := 3;
      new;
      CountsOfFresh(table[..]);
    }

    /** hash_lookup: the slot of the key if present, else the first reusable slot on its probe path. */
    method Lookup(key: K, hash: nat) returns (slot: nat, ghost probes: nat)
      requires Valid() && HasRoom() && hash == hfunc(key)
      ensures slot < table.Length
      ensures Matches(table[slot], cmp, key) || !table[slot].Active?
      ensures !table[slot].Active? ==> !Present(table[..], cmp, key) && Reachable(table[..], hash, slot)
      ensures !table[slot].Active? ==> FirstReusable(table[..], hash, slot)
      ensures probes < 7 + table.Length
    {
      ghost var t, size := table[..], table.Length;
      ghost var e := EmptySlotExists(t);
      ghost var last := ProbeVisitsAll(hash, logSize, e);
      hide NonEmpty, ActiveCount, TableOk, Present, Lawful, Index, Probe, Perturb, Reachable, FirstReusable, Reach,
        Passed, OnlyActive, Stops, Matches;
      probes := 0;
      FirstProbe(hash, size);
      NothingPassed(t, cmp, key, hash);
      var index := hash % (mask + 1);
      var perturb := hash;
      slot := index;
      var freeslot: Option<nat> := None;
      while true
        invariant index == Index(hash, size, probes) && perturb == Perturb(hash, probes)
        invariant slot == Probe(hash, size, probes) && slot < size
        invariant Passed(t, cmp, key, hash, probes)
        invariant probes <= last
        invariant freeslot.Some? ==>
          freeslot.value < size && t[freeslot.value].Deleted? && Reachable(t, hash, freeslot.value) &&
            FirstReusable(t, hash, freeslot.value)
        invariant freeslot.None? ==> OnlyActive(t, hash, probes)
        decreases last - probes
      {
        assert table[..] == t && Reach(t, hash, slot, probes) by { ReachedNow(t, cmp, key, hash, slot, probes); }
        if table[slot].Empty? {
          AbsentAtEmpty(t, hfunc, cmp, key, probes);
          if freeslot.None? { ReusableNow(t, hash, slot, probes); }
          slot := if freeslot.None? then slot else freeslot.value;
          return;
        }
        if table[slot].Active? && (table[slot].key == key || (table[slot].hash == hash && cmp(table[slot].key, key))) {
          FoundIt(table[slot], hfunc, cmp, key);
          return;
        }
        if table[slot].Deleted? && freeslot.None? {
          ReusableNow(t, hash, slot, probes);
          freeslot := Some(slot);
        }
        PassedBy(t, hfunc, cmp, key, slot);
        OneMorePassed(t, cmp, key, hash, probes);
        NextProbe(hash, size, probes);
        index := (5 * index + perturb + 1) % WORD;
        slot := index % (mask + 1);
        perturb := perturb / 32;
        probes := probes + 1;
        NotPastEmpty(t, cmp, key, hash, probes, last);
      }
    }

    /** hash_initialize: a fresh table of the given size, or -1 and no change; allocOk says whether there is memory. */
    method Initialize(size: nat, ghost log: nat, allocOk: bool) returns (rc: int)
      requires Lawful(hfunc, cmp) && size == Pow2(log) && 3 <= log <= LOG_MAX + 1
      modifies this
      ensures rc == if allocOk && log <= LOG_MAX then 0 else -1
      ensures rc == -1 ==> table == old(table) && fill == old(fill) && count == old(count)
                           && mask == old(mask) && logSize == old(logSize)
      ensures rc == 0 ==> fresh(table) && table.Length == size && logSize == log && Valid() && fill == count == 0
      ensures rc == 0 ==> forall i :: 0 <= i < size ==> table[i].Empty?
    {
      ByteCountWrapsIff(log);
      if !Allocates(ByteCount(size), allocOk) {
        return -1;
      }
      fill, count, mask, logSize := 0, 0, size - 1, log;
      table := new Slot<K, V>[size](_ => Empty);
      CountsOfFresh(table[..]);
      return 0;
    }

    /** Writes a slot the lookup returned: the new pair, value or tombstone takes effect on its key only. */
    method Store(slot: nat, s: Slot<K, V>, ghost key: K)
      requires Valid() && slot < table.Length && !s.Empty?
      requires table[slot].Active? ==>
        s.Deleted? || (s.Active? && s.key == table[slot].key && s.hash == table[slot].hash)
      requires table[slot].Active? ==> cmp(table[slot].key, key)
      requires !table[slot].Active? ==>
        s.Active? && s.key == key && s.hash == hfunc(key) &&
        !Present(table[..], cmp, key) && Reachable(table[..], s.hash, slot)
      modifies this`fill, this`count, table
      ensures Valid() && table[..] == old(table[..])[slot := s]
      ensures fill == old(fill) + (if old(table[slot]).Empty? then 1 else 0)
      ensures count == old(count) - Weight(old(table[slot]).Active?) + Weight(s.Active?)
      ensures forall k :: Get(k) == if cmp(key, k) then (if s.Active? then Some(s.value) else None) else old(Get(k))
    {
      ghost var t := table[..];
      CountsAfterUpdate(t, slot, s);
      if table[slot].Empty? {
        fill := fill + 1;
      }
      if table[slot].Active? {
        RewriteKeepsTable(t, hfunc, cmp, slot, s) by { assert t[slot] == table[slot]; }
        count := if s.Active? then count else count - 1;
      } else {
        StoreKeepsTable(t, hfunc, cmp, key, s.value, slot);
        count := count + 1;
      }
      table[slot] := s;
      assert table[..] == t[slot := s];
      forall k ensures Get(k) == if cmp(key, k) then (if s.Active? then Some(s.value) else None) else old(Get(k)) {
        FindAfterWrite(t, table[..], hfunc, cmp, slot, key, k);
      }
    }

    /** hash_copy: re-inserts the active slots of the old table into a fresh one. */
    method Copy(src: array<Slot<K, V>>)
      requires Valid() && src != table
      requires forall i :: 0 <= i < table.Length ==> table[i].Empty?
      requires fill == count == 0
      requires TableOk(src[..], hfunc, cmp) && ActiveCount(src[..]) < table.Length
      modifies this`fill, this`count, table
      ensures Valid() && fill == count == ActiveCount(src[..])
      ensures forall k :: Get(k) == Find(src[..], cmp, k)
    {
      ghost var t := src[..];
      FreshFindsNothing();
      assert ActiveCount(t[..0]) == 0;
      hide Find, TableOk, NonEmpty, ActiveCount, Lawful;
      for i := 0 to src.Length
        invariant Valid() && src[..] == t
        invariant fill == count == ActiveCount(t[..i])
        invariant forall k :: Get(k) == Find(t[..i], cmp, k)
        invariant forall j :: 0 <= j < table.Length ==> !table[j].Deleted?
      {
        CopySlot(src[i], t, i);
      }
      assert t[..src.Length] == t;
    }

    lemma PrefixFinds(t: seq<Slot<K, V>>, i: nat)
      requires Lawful(hfunc, cmp) && TableOk(t, hfunc, cmp) && i < |t|
      ensures forall k ::
        Find(t[..i + 1], cmp, k) == if Matches(t[i], cmp, k) then Some(t[i].value) else Find(t[..i], cmp, k)
    {
      forall k
        ensures Find(t[..i + 1], cmp, k) == if Matches(t[i], cmp, k) then Some(t[i].value) else Find(t[..i], cmp, k)
      {
        FindInPrefix(t, hfunc, cmp, i, k);
      }
    }

    lemma NotCopiedYet(t: seq<Slot<K, V>>, i: nat)
      requires Valid() && TableOk(t, hfunc, cmp) && i < |t| && t[i].Active? &&
        forall k :: Get(k) == Find(t[..i], cmp, k)
      ensures !Present(table[..], cmp, t[i].key) && t[i].hash == hfunc(t[i].key)
    {
      FindInPrefix(t, hfunc, cmp, i, t[i].key);
      FindNone(t[..i], cmp, t[i].key);
      FindNone(table[..], cmp, t[i].key);
    }

    /** One slot of the old table t. */
    method CopySlot(from: Slot<K, V>, ghost t: seq<Slot<K, V>>, ghost i: nat)
      requires Valid() && TableOk(t, hfunc, cmp) && i < |t| && from == t[i] && ActiveCount(t) < table.Length
      requires fill == count == ActiveCount(t[..i])
      requires forall k :: Get(k) == Find(t[..i], cmp, k)
      requires forall j :: 0 <= j < table.Length ==> !table[j].Deleted?
      modifies this`fill, this`count, table
      ensures forall j :: 0 <= j < table.Length ==> !table[j].Deleted?
      ensures Valid() && fill == count == ActiveCount(t[..i + 1])
      ensures forall k :: Get(k) == Find(t[..i + 1], cmp, k)
    {
      PrefixFinds(t, i);
      CountOfPrefix(t, i);
      PrefixHasFewer(t, i);
      if from.Active? {
        NotCopiedYet(t, i);
        hide Find, NonEmpty, ActiveCount, TableOk, Present, Reachable, FirstReusable, Lawful, HashesRight, Reach;
        var slot, probes := Lookup(from.key, hfunc(from.key));
        Store(slot, Active(from.key, from.value, from.hash), from.key);
      }
    }

    lemma FreshFindsNothing()
      requires forall i :: 0 <= i < table.Length ==> table[i].Empty?
      ensures forall k :: Get(k) == Find([], cmp, k)
    {
      forall k ensures Get(k) == Find([], cmp, k) {
        FindInFresh(table[..], cmp, k);
      }
    }

    /** What hash_update finds: too many slots in use, or too few. */
    ghost predicate Crowded()
      reads this, table
    {
      3 * fill >= 2 * table.Length
    }

    ghost predicate Sparse()
      reads this, table
    {
      table.Length > HASH_MINSIZE && 4 * count <= table.Length
    }

    /** hash_update: doubles the table when two thirds full, halves it when a quarter is in use. It fails exactly when
        the allocation does, or the table to double is the largest that can be allocated. */
    method Update(allocOk: bool) returns (rc: int)
      requires Valid()
      modifies this
      ensures Valid() && (table == old(table) || fresh(table))
      ensures forall k :: Get(k) == old(Get(k))
      ensures count == old(count)
      ensures rc == 0 || rc == -1
      ensures rc == -1 <==>
        (old(Crowded()) && (!allocOk || old(logSize) == LOG_MAX)) || (!old(Crowded()) && old(Sparse()) && !allocOk)
      ensures rc == 0 ==> LoadOk()
      ensures rc == 0 ==>
        if old(Crowded()) then logSize == old(logSize) + 1 && fill == count
        else if old(Sparse()) then logSize == old(logSize) - 1 && fill == count
        else table == old(table) && fill == old(fill) && logSize == old(logSize)
      ensures rc == -1 ==> table == old(table) && fill == old(fill) && logSize == old(logSize)
    {
      hide TableOk, Find, NonEmpty, ActiveCount, Pow2, ByteCount;
      var oldSize := mask + 1;
      var newSize: int := oldSize;
      ghost var newLog := logSize;
      DoublingFits(logSize);
      if 3 * fill >= 2 * oldSize {
        newSize := ToLong(2 * oldSize);
        if newSize < oldSize {
          assert false;
        }
        newLog := logSize + 1;
      } else if oldSize > HASH_MINSIZE && 4 * count <= oldSize {
        HalvingKeepsPower(logSize);
        newSize := oldSize / 2;
        newLog := logSize - 1;
      } else {
        return 0;
      }
      rc := Resize(newSize, newLog, allocOk);
    }

    /** The second half of hash_update: the active slots move to a table of another size, which holds them loosely. */
    method Resize(newSize: nat, ghost newLog: nat, allocOk: bool) returns (rc: int)
      requires Valid() && newSize == Pow2(newLog) && 3 <= newLog <= LOG_MAX + 1
      requires 3 * count < 2 * newSize
      modifies this
      ensures Valid() && (table == old(table) || fresh(table))
      ensures forall k :: Get(k) == old(Get(k))
      ensures count == old(count) && rc == if allocOk && newLog <= LOG_MAX then 0 else -1
      ensures rc == 0 ==> LoadOk() && logSize == newLog && fill == count
      ensures rc == -1 ==> table == old(table) && fill == old(fill) && logSize == old(logSize)
    {
      hide TableOk, Find, NonEmpty, ActiveCount, Pow2, Lawful;
      var oldTable := table;
      rc := Initialize(newSize, newLog, allocOk);
      if rc == -1 {
        return;
      }
      Copy(oldTable);
    }

    /** hash_isset. */
    method IsSet(key: K) returns (r: bool)
      requires Valid() && HasRoom()
      ensures r <==> Get(key).Some?
    {
      var slot, probes := Lookup(key, hfunc(key));
      r := table[slot].Active?;
      LookupFinds(key, slot);
    }

    /** hash_get. */
    method GetOr(key: K, default: V) returns (v: V)
      requires Valid() && HasRoom()
      ensures v == if Get(key).Some? then Get(key).value else default
    {
      var slot, probes := Lookup(key, hfunc(key));
      LookupFinds(key, slot);
      v := if table[slot].Active? then table[slot].value else default;
    }

    lemma LookupFinds(key: K, slot: nat)
      requires Valid() && slot < table.Length
      requires Matches(table[slot], cmp, key) || !Present(table[..], cmp, key)
      ensures Get(key) == if Matches(table[slot], cmp, key) then Some(table[slot].value) else None
    {
      if Matches(table[slot], cmp, key) {
        assert table[..][slot] == table[slot];
        FoundIs(table[..], hfunc, cmp, key, slot);
      }
    }

    /** hash_set. The pair is stored even when -1 reports a failed resize. */
    method Set(key: K, value: V, allocOk: bool) returns (rc: int)
      requires Valid() && HasRoom()
      modifies this, table
      ensures Valid() && (table == old(table) || fresh(table))
      ensures forall k :: Get(k) == if cmp(key, k) then Some(value) else old(Get(k))
      ensures rc == 0 || rc == -1
      ensures rc == 0 && old(LoadOk()) ==> LoadOk()
      ensures rc == -1 ==> !allocOk || (logSize == LOG_MAX && Crowded())
      ensures count == old(count) + (if old(Get(key)).Some? then 0 else 1)
    {
      var hash := hfunc(key);
      var slot, probes := Lookup(key, hash);
      LookupFinds(key, slot);
      if table[slot].Active? {
        Store(slot, table[slot].(value := value), key);
        return 0;
      }
      Store(slot, Active(key, value, hash), key);
      rc := Update(allocOk);
    }

    /** hash_del. */
    method Del(key: K, allocOk: bool) returns (rc: int)
      requires Valid() && HasRoom()
      modifies this, table
      ensures Valid() && (table == old(table) || fresh(table))
      ensures forall k :: Get(k) == if cmp(key, k) then None else old(Get(k))
      ensures rc == 0 || rc == -1
      ensures old(LoadOk()) ==> LoadOk()
      ensures rc == -1 && old(LoadOk()) ==> !allocOk
      ensures count == old(count) - (if old(Get(key)).Some? then 1 else 0)
      ensures old(LoadOk()) && rc == 0 && old(Get(key)).Some? ==>
        logSize == old(logSize) - if old(table.Length) > HASH_MINSIZE && 4 * count <= old(table.Length) then 1 else 0
      ensures old(Get(key)).None? ==> table == old(table) && fill == old(fill) && logSize == old(logSize)
    {
      var slot, probes := Lookup(key, hfunc(key));
      LookupFinds(key, slot);
      if !table[slot].Active? {
        AbsentClass(key);
        return 0;
      }
      Store(slot, Deleted, key);
      rc := Update(allocOk);
    }

    /** A key that is absent is absent under every name. */
    lemma AbsentClass(key: K)
      requires Valid() && !Present(table[..], cmp, key)
      ensures forall k :: cmp(key, k) ==> Get(k) == None
    {
      forall k | cmp(key, k) ensures Get(k) == None {
        forall j | 0 <= j < table.Length && table[j].Active?
          ensures !cmp(table[j].key, k)
        {
          assert !Matches(table[..][j], cmp, key);
          Separate(hfunc, cmp, table[j].key, key, k);
        }
      }
    }

    /** One call of hash_set or hash_del. */
    method Perform(op: Op<K, V>, allocOk: bool) returns (rc: int)
      requires Valid() && LoadOk()
      modifies this, table
      ensures Valid() && (table == old(table) || fresh(table))
      ensures forall k :: Get(k) == Replay(old(Get(k)), [op], cmp, k)
      ensures rc == 0 ==> LoadOk()
      ensures rc != 0 ==> !allocOk || (logSize == LOG_MAX && Crowded())
    {
      match op {
        case SetOp(key, value) => rc := Set(key, value, allocOk);
        case DelOp(key) => rc := Del(key, allocOk);
      }
    }

    /** Any run of insertions and deletions on a table in good order behaves as a finite map;
        the run ends early only when a resize fails, and no call meets a table without room. */
    method Run(ops: seq<Op<K, V>>, allocOk: nat -> bool) returns (done: nat, rc: int)
      requires Valid() && LoadOk()
      modifies this, table
      ensures Valid() && done <= |ops|
      ensures forall k :: Get(k) == Replay(old(Get(k)), ops[..done], cmp, k)
      ensures rc == 0 ==> done == |ops| && LoadOk()
      ensures rc != 0 ==> done > 0 && (!allocOk(done - 1) || (logSize == LOG_MAX && Crowded()))
    {
      done, rc := 0, 0;
      while done < |ops| && rc == 0
        invariant done <= |ops| && Valid()
        invariant table == old(table) || fresh(table)
        invariant rc == 0 ==> LoadOk()
        invariant rc != 0 ==> done > 0 && (!allocOk(done - 1) || (logSize == LOG_MAX && Crowded()))
        invariant forall k :: Get(k) == Replay(old(Get(k)), ops[..done], cmp, k)
      {
        ReplayOneMore(ops, done, cmp);
        rc := Perform(ops[done], allocOk(done));
        done := done + 1;
      }
    }
  }
}
