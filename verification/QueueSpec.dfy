/** shared/queue.h on values. A queue is the sequence of its elements from head->next to head->prev,
    in ascending priority; queue_out takes the last one. */
module QueueSpec {
  import opened Lists

  /** An element is known by its address. */
  type Ptr = int

  /** An integer field of the elements: priority, or date of entry. */
  type Field = map<Ptr, int>

  function Of(f: Field, e: Ptr): int {
    if e in f then f[e] else 0
  }

  ghost predicate Sorted(q: seq<Ptr>, prio: Field) {
    forall i, j :: 0 <= i < j < |q| ==> Of(prio, q[i]) <= Of(prio, q[j])
  }

  /** queue_add: in front of the first element that is not of lower priority. */
  function Insert(q: seq<Ptr>, prio: Field, e: Ptr): (r: seq<Ptr>)
    ensures |r| == |q| + 1
  {
    if q == [] || Of(prio, q[0]) >= Of(prio, e) then [e] + q
    else [q[0]] + Insert(q[1..], prio, e)
  }

  /** Number of elements passed over by queue_add. */
  function Skip(q: seq<Ptr>, prio: Field, e: Ptr): (k: nat)
    ensures k <= |q|
    ensures forall i :: 0 <= i < k ==> Of(prio, q[i]) < Of(prio, e)
    ensures k < |q| ==> Of(prio, q[k]) >= Of(prio, e)
  {
    if q == [] || Of(prio, q[0]) >= Of(prio, e) then 0 else 1 + Skip(q[1..], prio, e)
  }

  lemma {:induction false} InsertAtSkip(q: seq<Ptr>, prio: Field, e: Ptr)
    ensures Insert(q, prio, e) == q[..Skip(q, prio, e)] + [e] + q[Skip(q, prio, e)..]
  {
    if q != [] && Of(prio, q[0]) < Of(prio, e) {
      InsertAtSkip(q[1..], prio, e);
      var k := Skip(q[1..], prio, e);
      assert q[1..][..k] == q[1..k + 1] && q[1..][k..] == q[k + 1..];
    }
  }

  lemma SkipIs(q: seq<Ptr>, prio: Field, e: Ptr, k: nat)
    requires k <= |q|
    requires forall i :: 0 <= i < k ==> Of(prio, q[i]) < Of(prio, e)
    requires k < |q| ==> Of(prio, q[k]) >= Of(prio, e)
    ensures Skip(q, prio, e) == k
  {
  }

  lemma InsertMembers(q: seq<Ptr>, prio: Field, e: Ptr)
    ensures forall x :: x in Insert(q, prio, e) <==> x in q || x == e
  {
    InsertAtSkip(q, prio, e);
    var k := Skip(q, prio, e);
    assert q == q[..k] + q[k..];
  }

  lemma InsertKeepsOrder(q: seq<Ptr>, prio: Field, e: Ptr)
    requires Sorted(q, prio)
    ensures Sorted(Insert(q, prio, e), prio)
  {
    hide Insert, Skip;
    InsertAtSkip(q, prio, e);
  }

  lemma InsertKeepsDistinct(q: seq<Ptr>, prio: Field, e: Ptr)
    requires NoRepeats(q) && e !in q
    ensures NoRepeats(Insert(q, prio, e))
  {
    InsertAtSkip(q, prio, e);
  }

  lemma RemoveKeepsOrder(q: seq<Ptr>, prio: Field, e: Ptr)
    requires NoRepeats(q) && Sorted(q, prio)
    ensures Sorted(Remove(q, e), prio)
  {
    RemoveIsCut(q, e);
  }

  lemma RemoveIsCut(q: seq<Ptr>, e: Ptr)
    requires NoRepeats(q)
    ensures e !in q ==> Remove(q, e) == q
    ensures e in q ==> exists k :: 0 <= k < |q| && q[k] == e && Remove(q, e) == q[..k] + q[k + 1..]
  {
    if e in q {
      var k :| 0 <= k < |q| && q[k] == e;
      RemoveAt(q, k);
    } else {
      RemoveAbsent(q, e);
    }
  }

  // ---- age: the queue is a stable priority queue

  /** Ascending priority and, within one priority, from youngest to oldest. */
  ghost predicate Stable(q: seq<Ptr>, prio: Field, since: Field) {
    forall i, j :: 0 <= i < j < |q| ==> Behind(q[i], q[j], prio, since)
  }

  predicate Behind(x: Ptr, y: Ptr, prio: Field, since: Field) {
    Of(prio, x) < Of(prio, y) || (Of(prio, x) == Of(prio, y) && Of(since, x) > Of(since, y))
  }

  lemma InsertedBehind(q: seq<Ptr>, prio: Field, since: Field, e: Ptr, now: int, i: nat, j: nat)
    requires Stable(q, prio, since) && e !in q && i < j < |Insert(q, prio, e)|
    requires forall i :: 0 <= i < |q| ==> Of(since, q[i]) < now
    ensures Behind(Insert(q, prio, e)[i], Insert(q, prio, e)[j], prio, since[e := now])
  {
    hide Insert, Skip;
    InsertAtSkip(q, prio, e);
    var k, r := Skip(q, prio, e), Insert(q, prio, e);
    var x, y := if i < k then i else i - 1, if j < k then j else j - 1;
    if i == k {
      assert r[j] == q[y] && y >= k;
      assert y > k ==> Behind(q[k], q[y], prio, since);
    } else if j == k {
      assert r[i] == q[x];
    } else {
      assert r[i] == q[x] && r[j] == q[y];
      assert Behind(q[x], q[y], prio, since);
    }
  }

  /** queue_add makes the newcomer the youngest of its priority. */
  lemma InsertStable(q: seq<Ptr>, prio: Field, since: Field, e: Ptr, now: int)
    requires Stable(q, prio, since) && e !in q
    requires forall i :: 0 <= i < |q| ==> Of(since, q[i]) < now
    ensures Stable(Insert(q, prio, e), prio, since[e := now])
  {
    hide Insert, Behind;
    forall i, j | 0 <= i < j < |Insert(q, prio, e)|
      ensures Behind(Insert(q, prio, e)[i], Insert(q, prio, e)[j], prio, since[e := now])
    {
      InsertedBehind(q, prio, since, e, now, i, j);
    }
  }

  lemma RemoveStable(q: seq<Ptr>, prio: Field, since: Field, e: Ptr)
    requires NoRepeats(q) && Stable(q, prio, since)
    ensures Stable(Remove(q, e), prio, since)
  {
    hide Remove, Behind;
    RemoveIsCut(q, e);
  }

  /** chprio on a queued element: deleted and added again with its new priority, it is the youngest
      of that priority, and the order of all others is untouched. */
  lemma UpdateStable(q: seq<Ptr>, prio: Field, since: Field, e: Ptr, p: int, now: int)
    requires NoRepeats(q) && Stable(q, prio, since)
    requires forall x :: x in q ==> Of(since, x) < now
    ensures Stable(Insert(Remove(q, e), prio[e := p], e), prio[e := p], since[e := now])
    ensures Remove(Insert(Remove(q, e), prio[e := p], e), e) == Remove(q, e)
  {
    var r := Remove(q, e);
    RemoveMembers(q, e);
    RemoveStable(q, prio, since, e);
    assert forall i :: 0 <= i < |r| ==> r[i] in r;
    assert Stable(r, prio[e := p], since) by {
      forall i, j | 0 <= i < j < |r| ensures Behind(r[i], r[j], prio[e := p], since) {
        assert Behind(r[i], r[j], prio, since);
      }
    }
    InsertStable(r, prio[e := p], since, e, now);
    RemoveInserted(r, prio[e := p], e);
  }

  lemma {:induction false} RemoveInserted(q: seq<Ptr>, prio: Field, e: Ptr)
    requires e !in q
    ensures Remove(Insert(q, prio, e), e) == q
  {
    if q != [] && Of(prio, q[0]) < Of(prio, e) {
      RemoveInserted(q[1..], prio, e);
    }
  }

  function Last(q: seq<Ptr>): Ptr
    requires q != []
  {
    q[|q| - 1]
  }

  function AllButLast(q: seq<Ptr>): seq<Ptr>
    requires q != []
  {
    q[..|q| - 1]
  }

  /** The element queue_out takes has maximal priority and is the oldest of that priority. */
  lemma OutIsOldestOfHighest(q: seq<Ptr>, prio: Field, since: Field)
    requires Stable(q, prio, since) && q != []
    ensures forall x :: x in q && x != Last(q) ==> Behind(x, Last(q), prio, since)
    ensures Stable(AllButLast(q), prio, since)
  {
    forall x | x in q && x != Last(q) ensures Behind(x, Last(q), prio, since) {
      var i :| 0 <= i < |q| && q[i] == x;
      assert Behind(q[i], q[|q| - 1], prio, since);
    }
  }
}
