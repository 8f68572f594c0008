/** shared/queue.h as it stands: intrusive circular doubly linked lists. Every element and every list
    head owns a link, a pair of words (prev, next); an element in no list has both words zero. */
module Queue {
  import opened Lists
  import opened QueueSpec

  type Words = map<Ptr, Ptr>

  /** The i-th link met going round from head: the head itself, the elements, the head again. */
  function Around(head: Ptr, q: seq<Ptr>, i: nat): Ptr
    requires i <= |q| + 1
  {
    if i == 0 || i == |q| + 1 then head else q[i - 1]
  }

  ghost predicate Ring(prev: Words, next: Words, head: Ptr, q: seq<Ptr>) {
    && NoRepeats(q) && head !in q && head != 0 && 0 !in q
    && forall i: nat :: i <= |q| ==> Joined(prev, next, Around(head, q, i), Around(head, q, i + 1))
  }

  predicate Joined(prev: Words, next: Words, a: Ptr, b: Ptr) {
    a in next && next[a] == b && b in prev && prev[b] == a
  }

  predicate NullLink(prev: Words, next: Words, e: Ptr) {
    e in prev && e in next && prev[e] == 0 && next[e] == 0
  }

  lemma RingMembers(prev: Words, next: Words, head: Ptr, q: seq<Ptr>, i: nat)
    requires Ring(prev, next, head, q) && i <= |q| + 1
    ensures var x := Around(head, q, i);
      x in prev && x in next && prev[x] != 0 && next[x] != 0 &&
      (i > 0 ==> prev[x] == Around(head, q, i - 1)) && (i <= |q| ==> next[x] == Around(head, q, i + 1))
  {
    assert Joined(prev, next, Around(head, q, 0), Around(head, q, 1));
    assert Joined(prev, next, Around(head, q, |q|), Around(head, q, |q| + 1));
    if 0 < i <= |q| {
      assert Joined(prev, next, Around(head, q, i - 1), Around(head, q, i));
      assert Joined(prev, next, Around(head, q, i), Around(head, q, i + 1));
    }
  }

  lemma RingPosition(q: seq<Ptr>, e: Ptr) returns (k: nat)
    requires e in q
    ensures k < |q| && q[k] == e
  {
    k :| 0 <= k < |q| && q[k] == e;
  }

  /** Writes to links outside a ring leave it alone. */
  lemma RingFrame(prev: Words, next: Words, prev': Words, next': Words, head: Ptr, q: seq<Ptr>)
    requires Ring(prev, next, head, q)
    requires forall x :: (x == head || x in q) && x in prev ==> x in prev' && prev'[x] == prev[x]
    requires forall x :: (x == head || x in q) && x in next ==> x in next' && next'[x] == next[x]
    ensures Ring(prev', next', head, q)
  {
    forall i: nat | i <= |q| ensures Joined(prev', next', Around(head, q, i), Around(head, q, i + 1)) {
      assert Joined(prev, next, Around(head, q, i), Around(head, q, i + 1));
    }
  }

  /** The four writes of queue_add put e between two neighbours. */
  lemma RingAdd(prev: Words, next: Words, head: Ptr, q: seq<Ptr>, e: Ptr, k: nat)
    requires Ring(prev, next, head, q) && k <= |q| && e !in q && e != head && e != 0
    ensures var a, b := Around(head, q, k), Around(head, q, k + 1);
      Ring(prev[e := a][b := e], next[e := b][a := e], head, q[..k] + [e] + q[k..])
  {
    var a, b := Around(head, q, k), Around(head, q, k + 1);
    var prev', next', q' := prev[e := a][b := e], next[e := b][a := e], q[..k] + [e] + q[k..];
    forall i: nat | i <= |q'| ensures Joined(prev', next', Around(head, q', i), Around(head, q', i + 1)) {
      if i < k {
        assert Joined(prev, next, Around(head, q, i), Around(head, q, i + 1));
        assert Around(head, q', i) == Around(head, q, i) != a by { AroundDistinct(head, q, i, k); }
        assert Around(head, q', i + 1) == Around(head, q, i + 1) != b by { AroundDistinct'(head, q, i + 1, k + 1); }
      } else if i > k + 1 {
        assert Joined(prev, next, Around(head, q, i - 1), Around(head, q, i));
        assert Around(head, q', i) == Around(head, q, i - 1) != a by { AroundDistinct(head, q, k, i - 1); }
        assert Around(head, q', i + 1) == Around(head, q, i) != b by { AroundDistinct'(head, q, k + 1, i); }
      }
    }
  }

  lemma AroundDistinct(head: Ptr, q: seq<Ptr>, i: nat, j: nat)
    requires NoRepeats(q) && head !in q && i < j <= |q|
    ensures Around(head, q, i) != Around(head, q, j)
  {
  }

  lemma AroundDistinct'(head: Ptr, q: seq<Ptr>, i: nat, j: nat)
    requires NoRepeats(q) && head !in q && 0 < i < j <= |q| + 1
    ensures Around(head, q, i) != Around(head, q, j)
  {
  }

  /** The writes of queue_del and queue_out close the ring around e. */
  lemma RingDel(prev: Words, next: Words, head: Ptr, q: seq<Ptr>, k: nat)
    requires Ring(prev, next, head, q) && k < |q|
    ensures var e, a, b := q[k], Around(head, q, k), Around(head, q, k + 2);
      Ring(prev[b := a][e := 0], next[a := b][e := 0], head, q[..k] + q[k + 1..])
  {
    var e, a, b := q[k], Around(head, q, k), Around(head, q, k + 2);
    var prev', next', q' := prev[b := a][e := 0], next[a := b][e := 0], q[..k] + q[k + 1..];
    forall i: nat | i <= |q'| ensures Joined(prev', next', Around(head, q', i), Around(head, q', i + 1)) {
      if i < k {
        assert Joined(prev, next, Around(head, q, i), Around(head, q, i + 1));
        AroundDistinct(head, q, i, k);
        AroundDistinct(head, q, i, k + 1);
        AroundDistinct'(head, q, i + 1, k + 2);
        AroundDistinct'(head, q, i + 1, k + 1);
      } else if i > k {
        assert Joined(prev, next, Around(head, q, i + 1), Around(head, q, i + 2));
        AroundDistinct(head, q, k, i + 1);
        AroundDistinct(head, q, k + 1, i + 1);
        AroundDistinct'(head, q, k + 2, i + 2);
        AroundDistinct'(head, q, k + 1, i + 2);
      }
    }
  }

  /** Links other than those of the ring and of e keep their words. */
  ghost predicate OnlyRing(prev: Words, next: Words, prev': Words, next': Words, head: Ptr, q: seq<Ptr>, e: Ptr) {
    forall x :: x != head && x != e && x !in q ==> SameLink(prev, next, prev', next', x)
  }

  predicate SameLink(prev: Words, next: Words, prev': Words, next': Words, x: Ptr) {
    && (x in prev <==> x in prev') && (x in prev ==> prev[x] == prev'[x])
    && (x in next <==> x in next') && (x in next ==> next[x] == next'[x])
  }

  lemma UnlinkedIsOutside(prev: Words, next: Words, head: Ptr, q: seq<Ptr>, e: Ptr)
    requires Ring(prev, next, head, q) && NullLink(prev, next, e)
    ensures e != head && e !in q
  {
    RingMembers(prev, next, head, q, 0);
    forall i | 0 <= i < |q| ensures q[i] != e {
      RingMembers(prev, next, head, q, i + 1);
    }
  }

  lemma AroundIn(head: Ptr, q: seq<Ptr>, i: nat)
    requires i <= |q| + 1
    ensures Around(head, q, i) == head || Around(head, q, i) in q
  {
  }

  /** A ring that shares no link with the one operated on is untouched. */
  lemma OtherRingKept(prev: Words, next: Words, prev': Words, next': Words, head: Ptr, q: seq<Ptr>, e: Ptr,
                      head2: Ptr, q2: seq<Ptr>)
    requires OnlyRing(prev, next, prev', next', head, q, e) && Ring(prev, next, head2, q2)
    requires head2 != head && head2 != e && head2 !in q && head !in q2 && e !in q2
    requires forall x :: x in q ==> x !in q2
    ensures Ring(prev', next', head2, q2)
  {
    assert SameLink(prev, next, prev', next', head2);
    assert forall x :: x in q2 ==> SameLink(prev, next, prev', next', x);
    RingFrame(prev, next, prev', next', head2, q2);
  }

  /** All links and priorities of the system. */
  class Links {
    var prev: Words
    var next: Words
    var prio: Field

    /** LIST_HEAD_INIT of every static list head. */
    constructor (heads: set<Ptr>)
      requires 0 !in heads
      ensures forall h :: h in heads ==> Ring(prev, next, h, [])
      ensures prio == map[]
    {
      prev, next, prio := map h | h in heads :: h, map h | h in heads :: h, map[];
    }

    /** INIT_LIST_HEAD. */
    method InitHead(head: Ptr)
      requires head != 0
      modifies this`prev, this`next
      ensures Ring(prev, next, head, [])
      ensures OnlyRing(old(prev), old(next), prev, next, head, [], head)
    {
      next := next[head := head];
      prev := prev[head := head];
    }

    /** INIT_LINK. */
    method InitLink(e: Ptr)
      modifies this`prev, this`next
      ensures NullLink(prev, next, e)
      ensures OnlyRing(old(prev), old(next), prev, next, e, [], e)
    {
      next := next[e := 0];
      prev := prev[e := 0];
    }

    /** RESET_LINK, on a link that queue_del has just cleared. */
    method ResetLink(e: Ptr)
      requires NullLink(prev, next, e)
      modifies this`prev, this`next
      ensures prev == old(prev) && next == old(next)
    {
      next := next[e := 0];
      prev := prev[e := 0];
    }

    /** queue_empty. */
    method Empty(head: Ptr, ghost q: seq<Ptr>) returns (r: bool)
      requires Ring(prev, next, head, q)
      ensures r <==> q == []
    {
      RingMembers(prev, next, head, q, 0);
      r := next[head] == head;
    }

    /** queue_add. Its assertion is the precondition on elem's link. */
    method Add(elem: Ptr, head: Ptr, ghost q: seq<Ptr>)
      requires Ring(prev, next, head, q) && NullLink(prev, next, elem) && elem != 0
      modifies this`prev, this`next
      ensures Ring(prev, next, head, Insert(q, prio, elem))
      ensures OnlyRing(old(prev), old(next), prev, next, head, q, elem)
    {
      UnlinkedIsOutside(prev, next, head, q, elem);
      RingMembers(prev, next, head, q, 0);
      var cur := next[head];
      ghost var k: nat := 0;
      while cur != head && Of(prio, cur) < Of(prio, elem)
        invariant prev == old(prev) && next == old(next)
        invariant k <= |q| && cur == Around(head, q, k + 1)
        invariant forall i :: 0 <= i < k ==> Of(prio, q[i]) < Of(prio, elem)
        decreases |q| - k
      {
        RingMembers(prev, next, head, q, k + 1);
        cur := next[cur];
        k := k + 1;
      }
      SkipIs(q, prio, elem, k);
      InsertAtSkip(q, prio, elem);
      RingAdd(prev, next, head, q, elem, k);
      RingMembers(prev, next, head, q, k + 1);
      AroundIn(head, q, k);
      AroundIn(head, q, k + 1);
      var before := prev[cur];
      next := next[elem := cur];
      prev := prev[elem := before];
      next := next[before := elem];
      prev := prev[cur := elem];
    }

    /** queue_del. Its assertion, a link that is not null, holds of every member of a ring. */
    method Del(elem: Ptr, ghost head: Ptr, ghost q: seq<Ptr>)
      requires Ring(prev, next, head, q) && elem in q
      modifies this`prev, this`next
      ensures Ring(prev, next, head, Remove(q, elem)) && NullLink(prev, next, elem)
      ensures OnlyRing(old(prev), old(next), prev, next, head, q, elem)
    {
      ghost var k := RingPosition(q, elem);
      RingMembers(prev, next, head, q, k + 1);
      assert prev[elem] != 0 && next[elem] != 0;
      RingDel(prev, next, head, q, k);
      RemoveAt(q, k);
      AroundIn(head, q, k);
      AroundIn(head, q, k + 2);
      var before, after := prev[elem], next[elem];
      next := next[before := after];
      prev := prev[after := before];
      next := next[elem := 0];
      prev := prev[elem := 0];
    }

    /** queue_top: the element of highest priority, or null. */
    method Top(head: Ptr, ghost q: seq<Ptr>) returns (r: Ptr)
      requires Ring(prev, next, head, q)
      ensures r == if q == [] then 0 else Last(q)
    {
      RingMembers(prev, next, head, q, 0);
      RingMembers(prev, next, head, q, |q| + 1);
      r := if next[head] == head then 0 else prev[head];
    }

    /** queue_out: removes the element of highest priority and returns it, or null. */
    method Out(head: Ptr, ghost q: seq<Ptr>) returns (r: Ptr)
      requires Ring(prev, next, head, q)
      modifies this`prev, this`next
      ensures q == [] ==> r == 0 && prev == old(prev) && next == old(next)
      ensures q != [] ==> r == Last(q) && Ring(prev, next, head, AllButLast(q)) && NullLink(prev, next, r)
      ensures OnlyRing(old(prev), old(next), prev, next, head, q, r)
    {
      RingMembers(prev, next, head, q, |q| + 1);
      RingMembers(prev, next, head, q, |q|);
      r := prev[head];
      var empty := Empty(head, q);
      if empty {
        return 0;
      }
      RingDel(prev, next, head, q, |q| - 1);
      AroundIn(head, q, |q| - 1);
      assert q[..|q| - 1] + q[|q| - 1 + 1..] == AllButLast(q);
      var before := prev[r];
      prev := prev[head := before];
      next := next[before := head];
      prev := prev[r := 0];
      next := next[r := 0];
    }

    /** queue_update: delete and add again, after the priority field of elem was changed. */
    method Update(elem: Ptr, head: Ptr, ghost q: seq<Ptr>)
      requires Ring(prev, next, head, q) && elem in q
      modifies this`prev, this`next
      ensures Ring(prev, next, head, Insert(Remove(q, elem), prio, elem))
      ensures OnlyRing(old(prev), old(next), prev, next, head, q, elem)
    {
      Del(elem, head, q);
      label Deleted:
      Add(elem, head, Remove(q, elem));
      forall x | x != head && x != elem && x !in q
        ensures SameLink(old(prev), old(next), prev, next, x)
      {
        assert SameLink(old(prev), old(next), old@Deleted(prev), old@Deleted(next), x);
        assert SameLink(old@Deleted(prev), old@Deleted(next), prev, next, x);
      }
    }
  }
}
