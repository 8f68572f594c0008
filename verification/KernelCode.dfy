/** The kernel as it stands: system calls that update tasks, links and queues in place. Each is proved to
    do what its specification on values says, on links as queue.h keeps them. */
module KernelCode {
  import opened Options
  import opened Lists
  import opened QueueSpec
  import opened KernelSpec
  import opened KernelInv
  import opened KernelSteps
  import opened KernelMsg
  import opened KernelRuns
  import opened KernelLookup
  import Messages
  import Queue

  /** List heads lie below the tasks. */
  function HeadAt(h: Head): (a: Ptr)
    ensures (IsMsgQueue(h) ==> h.id >= 0) ==> a < 0
  {
    match h
    case ReadyQueue => -1
    case SleepingQueue => -2
    case ZombieQueue => -3
    case ChildQueue => -4
    case Senders(id) => -5 - 2 * id
    case Receivers(id) => -6 - 2 * id
  }

  lemma HeadsDiffer(g: Head, h: Head)
    requires (IsMsgQueue(g) ==> g.id >= 0) && (IsMsgQueue(h) ==> h.id >= 0) && g != h
    ensures HeadAt(g) != HeadAt(h)
  {
  }

  // ---- links in memory

  /** The heads of the state queues are static; those of a message queue exist while it is in use. */
  predicate Headed(k: Kernel, h: Head) {
    IsMsgQueue(h) ==> h.id in k.mqs
  }

  /** Every list head heads the ring of its queue. */
  ghost predicate Ringed(k: Kernel, prev: Queue.Words, next: Queue.Words) {
    forall h: Head :: Headed(k, h) ==> Queue.Ring(prev, next, HeadAt(h), QueueAt(k, h))
  }

  /** The link of a task names the queue that holds it. */
  ghost predicate Named(k: Kernel) {
    && (forall h: Head, e: Ptr :: e in QueueAt(k, h) <==> LinkOf(k, e) == Some(h))
    && (forall e: Ptr :: e in k.link ==> e in k.state && Headed(k, k.link[e]))
    && (forall e: Ptr :: e in k.state ==> e > 0)
    && (forall id :: id in k.mqs ==> 0 <= id < NBQUEUE)
  }

  /** A task in no queue has a null link. */
  ghost predicate Nulled(k: Kernel, prev: Queue.Words, next: Queue.Words) {
    forall e: Ptr :: e in k.state && e !in k.link ==> Queue.NullLink(prev, next, e)
  }

  ghost predicate Rings(k: Kernel, prev: Queue.Words, next: Queue.Words) {
    Ringed(k, prev, next) && Named(k) && Nulled(k, prev, next)
  }

  /** k' threads the links as k does, but for t and the queue h. */
  ghost predicate SameOthers(k: Kernel, k': Kernel, h: Head, t: Ptr) {
    && k'.mqs == k.mqs && k'.state == k.state
    && (forall g: Head :: g != h ==> QueueAt(k', g) == QueueAt(k, g))
    && (forall e: Ptr :: e != t ==> LinkOf(k', e) == LinkOf(k, e))
  }

  /** A change of one ring leaves all the others, and the links in no ring. */
  lemma OthersKept(k: Kernel, k': Kernel, h: Head, t: Ptr, prev: Queue.Words, next: Queue.Words,
                   prev': Queue.Words, next': Queue.Words)
    requires Rings(k, prev, next) && Headed(k, h) && t in k.state && (t in k.link ==> k.link[t] == h)
    requires Queue.OnlyRing(prev, next, prev', next', HeadAt(h), QueueAt(k, h), t)
    requires SameOthers(k, k', h, t)
    requires Queue.Ring(prev', next', HeadAt(h), QueueAt(k', h)) && Named(k')
    requires t !in k'.link ==> Queue.NullLink(prev', next', t)
    ensures Rings(k', prev', next')
  {
    var q := QueueAt(k, h);
    assert forall x :: x in q ==> LinkOf(k, x) == Some(h);
    forall g: Head | g != h && Headed(k', g) ensures Queue.Ring(prev', next', HeadAt(g), QueueAt(k', g)) {
      HeadsDiffer(g, h);
      assert Headed(k, g);
      assert forall x :: x in QueueAt(k, g) ==> LinkOf(k, x) == Some(g);
      Queue.OtherRingKept(prev, next, prev', next', HeadAt(h), q, t, HeadAt(g), QueueAt(k, g));
    }
    forall e: Ptr | e in k'.state && e !in k'.link && e != t ensures Queue.NullLink(prev', next', e) {
      assert LinkOf(k, e) == LinkOf(k', e) == None;
      assert Queue.SameLink(prev, next, prev', next', e);
    }
  }

  lemma AddNamed(k: Kernel, t: Ptr, h: Head)
    requires Named(k) && Headed(k, h) && t in k.state && t !in k.link
    ensures Named(KernelSpec.QueueAdd(k, t, h)) && SameOthers(k, KernelSpec.QueueAdd(k, t, h), h, t)
  {
    var k' := KernelSpec.QueueAdd(k, t, h);
    InsertMembers(QueueAt(k, h), k.prio, t);
    forall g: Head, e: Ptr ensures e in QueueAt(k', g) <==> LinkOf(k', e) == Some(g) {
      assert e in QueueAt(k, g) <==> LinkOf(k, e) == Some(g);
    }
    forall e: Ptr | e in k'.link ensures e in k'.state && Headed(k', k'.link[e]) {
      assert e != t ==> e in k.link;
    }
  }

  lemma DelNamed(k: Kernel, t: Ptr)
    requires Named(k) && t in k.link && NoRepeats(QueueAt(k, k.link[t]))
    ensures Named(KernelSpec.QueueDel(k, t)) && SameOthers(k, KernelSpec.QueueDel(k, t), k.link[t], t)
  {
    var k' := KernelSpec.QueueDel(k, t);
    RemoveMembers(QueueAt(k, k.link[t]), t);
    forall g: Head, e: Ptr ensures e in QueueAt(k', g) <==> LinkOf(k', e) == Some(g) {
      assert e in QueueAt(k, g) <==> LinkOf(k, e) == Some(g);
    }
  }

  /** queue_out is queue_del of the last element. */
  lemma OutDels(k: Kernel, h: Head)
    requires Named(k) && QueueAt(k, h) != [] && NoRepeats(QueueAt(k, h))
    ensures Last(QueueAt(k, h)) in k.link && k.link[Last(QueueAt(k, h))] == h && Last(QueueAt(k, h)) > 0
    ensures KernelSpec.QueueOut(k, h) == KernelSpec.QueueDel(k, Last(QueueAt(k, h)))
  {
    var q := QueueAt(k, h);
    assert Last(q) in q;
    assert LinkOf(k, Last(q)) == Some(h);
    RemoveAt(q, |q| - 1);
    assert q[..|q| - 1] + q[|q| - 1 + 1..] == AllButLast(q);
  }

  /** Only the queues, the links and the sets of tasks and message queues matter to the words. */
  lemma SameRings(k: Kernel, k': Kernel, prev: Queue.Words, next: Queue.Words)
    requires Rings(k, prev, next) && k'.queues == k.queues && k'.link == k.link
    requires k'.state.Keys == k.state.Keys && k'.mqs.Keys == k.mqs.Keys
    ensures Rings(k', prev, next)
  {
    assert forall h: Head :: QueueAt(k', h) == QueueAt(k, h);
    assert forall e: Ptr :: LinkOf(k', e) == LinkOf(k, e);
    assert forall h: Head :: Headed(k', h) <==> Headed(k, h);
    assert forall e: Ptr :: e in k'.state <==> e in k.state;
    assert forall id :: id in k'.mqs <==> id in k.mqs;
  }

  /** Whether __set_task_state takes the task off a queue first. */
  predicate Detaches(k: Kernel, t: Ptr) {
    t != k.running && StateOf(k, t) != Startup && StateOf(k, t) != InterruptedMsg
  }

  /** The assertions of __set_task_state. */
  ghost predicate MaySet(k: Kernel, t: Ptr, s: State) {
    StateOf(k, t) == s || if Detaches(k, t) then t in k.link && NoRepeats(QueueAt(k, k.link[t])) else t !in k.link
  }

  /** A sleeper that is woken leaves its place in the sleeping queue. */
  lemma WokenQueue(k: Kernel, t: Ptr, i: nat)
    requires Base(k) && t != k.running && i < |QueueAt(k, SleepingQueue)| && QueueAt(k, SleepingQueue)[i] == t
    requires Due(k, t)
    ensures var q := QueueAt(k, SleepingQueue); QueueAt(WakeOne(k, t), SleepingQueue) == q[..i] + q[i + 1..]
  {
    var q := QueueAt(k, SleepingQueue);
    assert t in q;
    assert LinkOf(k, t) == Some(SleepingQueue) && LinkOf(k, t) == Place(k, t);
    RemoveAt(q, i);
    assert q[..i] + q[i + 1..] == Remove(q, t);
  }

  lemma SleeperMaySet(k: Kernel, t: Ptr)
    requires Base(k) && t != k.running && t in QueueAt(k, SleepingQueue)
    ensures StateOf(k, t) == Sleeping && MaySet(k, t, Ready) && t in k.state
  {
    assert LinkOf(k, t) == Some(SleepingQueue) && LinkOf(k, t) == Place(k, t);
  }

  lemma SleepingNow(k: Kernel, t: Ptr)
    requires Base(k) && t in QueueAt(k, SleepingQueue)
    ensures StateOf(k, t) == Sleeping
  {
    assert LinkOf(k, t) == Some(SleepingQueue) && LinkOf(k, t) == Place(k, t);
  }

  /** What one turn of the loop of try_wakeup_tasks leaves in the sleeping queue. */
  lemma WakeStep(k: Kernel, t: Ptr, kept: seq<Ptr>, rest: seq<Ptr>)
    requires Base(k) && (StateOf(k, k.running) == Sleeping ==> !Due(k, k.running))
    requires QueueAt(k, SleepingQueue) == kept + rest && rest != [] && rest[0] == t
    ensures Base(WakeOne(k, t)) && WakeOne(k, t).running == k.running
    ensures StateOf(WakeOne(k, t), k.running) == Sleeping ==> !Due(WakeOne(k, t), k.running)
    ensures QueueAt(WakeOne(k, t), SleepingQueue) == (if Due(k, t) then kept else kept + [t]) + rest[1..]
  {
    var q := kept + rest;
    assert q[|kept|] == t && t in q;
    SleepingNow(k, t);
    WakeOneKeeps(k, t);
    if Due(k, t) {
      WokenQueue(k, t, |kept|);
      assert q[..|kept|] + q[|kept| + 1..] == kept + rest[1..];
    } else {
      assert kept + rest == (kept + [t]) + rest[1..];
    }
  }

  /** The loop of try_wakeup_tasks has passed the sleepers kept; cur and tmp are the next two elements of the ring. */
  ghost predicate WalkAt(head: Ptr, kept: seq<Ptr>, rest: seq<Ptr>, cur: Ptr, tmp: Ptr) {
    && head !in kept + rest && cur == Queue.Around(head, kept + rest, |kept| + 1)
    && (rest != [] ==> tmp == Queue.Around(head, kept + rest, |kept| + 2))
  }

  lemma WalkStarts(k: Kernel, prev: Queue.Words, next: Queue.Words)
    requires Rings(k, prev, next)
    ensures var head := HeadAt(SleepingQueue);
      head in next && next[head] in next && WalkAt(head, [], QueueAt(k, SleepingQueue), next[head], next[next[head]])
    ensures [] + QueueAt(k, SleepingQueue) == QueueAt(k, SleepingQueue)
  {
    assert Headed(k, SleepingQueue);
    var head, q := HeadAt(SleepingQueue), QueueAt(k, SleepingQueue);
    Queue.RingMembers(prev, next, head, q, 0);
    Queue.RingMembers(prev, next, head, q, 1);
    assert [] + q == q;
  }

  lemma WalkedTo(head: Ptr, kept: seq<Ptr>, rest: seq<Ptr>, cur: Ptr, tmp: Ptr)
    requires WalkAt(head, kept, rest, cur, tmp)
    ensures cur == head <==> rest == []
    ensures cur != head ==> rest[0] == cur && cur in kept + rest
  {
    assert rest != [] ==> (kept + rest)[|kept|] == rest[0];
  }

  /** tmp was read before the element left, if it left. */
  lemma WalkMoves(k: Kernel, prev: Queue.Words, next: Queue.Words, kept: seq<Ptr>, rest: seq<Ptr>, kept': seq<Ptr>,
      cur: Ptr, tmp: Ptr)
    requires WalkAt(HeadAt(SleepingQueue), kept, rest, cur, tmp) && rest != [] &&
      (kept' == kept || kept' == kept + [rest[0]])
    requires Rings(k, prev, next) && QueueAt(k, SleepingQueue) == kept' + rest[1..]
    ensures tmp in next && WalkAt(HeadAt(SleepingQueue), kept', rest[1..], tmp, next[tmp])
  {
    assert Headed(k, SleepingQueue);
    Queue.RingMembers(prev, next, HeadAt(SleepingQueue), kept' + rest[1..], |kept'| + 1);
  }

  lemma BootRings(idle: Ptr, pid: int, prev: Queue.Words, next: Queue.Words, prev': Queue.Words, next': Queue.Words)
    requires idle > 0 && Queue.NullLink(prev', next', idle)
    requires forall h: Head :: !IsMsgQueue(h) ==> Queue.Ring(prev, next, HeadAt(h), [])
    requires Queue.OnlyRing(prev, next, prev', next', idle, [], idle)
    ensures Rings(Boot(idle, pid), prev', next')
  {
    var k := Boot(idle, pid);
    forall h: Head | Headed(k, h) ensures Queue.Ring(prev', next', HeadAt(h), QueueAt(k, h)) {
      assert Queue.SameLink(prev, next, prev', next', HeadAt(h));
      Queue.RingFrame(prev, next, prev', next', HeadAt(h), []);
    }
  }

  lemma AfterWakeUp(k: Kernel)
    requires Base(k) && (StateOf(k, k.running) == Sleeping ==> !Due(k, k.running))
    ensures Base(WakeAll(k, QueueAt(k, SleepingQueue)))
  {
    SleepersPending(k);
    WakeAllKeeps(k, QueueAt(k, SleepingQueue));
  }

  lemma RingsName(k: Kernel, prev: Queue.Words, next: Queue.Words)
    requires Rings(k, prev, next)
    ensures Named(k)
  {
  }

  /** No task lies at the null address. */
  lemma TopIsTask(k: Kernel)
    requires Named(k)
    ensures QueueAt(k, ReadyQueue) != [] ==> Last(QueueAt(k, ReadyQueue)) > 0
  {
    if QueueAt(k, ReadyQueue) != [] {
      assert Last(QueueAt(k, ReadyQueue)) in QueueAt(k, ReadyQueue);
      assert LinkOf(k, Last(QueueAt(k, ReadyQueue))) == Some(ReadyQueue);
    }
  }

  /** The assertions met when the processor changes hands. */
  lemma SwitchIsSafe(k: Kernel)
    requires Base(k) && Named(k) && QueueAt(k, ReadyQueue) != []
    ensures k.running in k.state && Last(QueueAt(k, ReadyQueue)) in k.state && Last(QueueAt(k, ReadyQueue)) > 0
    ensures StateOf(k, k.running) == Running ==> MaySet(k, k.running, Ready)
    ensures var n := Last(QueueAt(k, ReadyQueue)); StateOf(Preempt(k), n) == Ready && n in Preempt(k).state
    ensures var n := Last(QueueAt(k, ReadyQueue));
      n in Preempt(k).link && NoRepeats(QueueAt(Preempt(k), Preempt(k).link[n]))
  {
    TopIsTask(k);
    TopOfReady(k);
    PreemptKeeps(k);
    var n := Last(QueueAt(k, ReadyQueue));
    assert LinkOf(k, k.running) == Place(k, k.running);
    assert LinkOf(Preempt(k), n) == Place(Preempt(k), n);
  }

  /** The running task is in no queue. */
  lemma RunningMayLeave(k: Kernel, s: State, prev: Queue.Words, next: Queue.Words)
    requires Inv(k) && Rings(k, prev, next)
    ensures k.running in k.state && k.running !in k.link && k.running > 0 && MaySet(k, k.running, s)
  {
    assert LinkOf(k, k.running) == Place(k, k.running);
  }

  lemma SleepIsSafe(k: Kernel, c: int)
    requires Inv(k) && UserCode(k) && c > k.clock
    ensures var k' := SetTaskState(k.(wake := k.wake[k.running := c]), k.running, Sleeping, SleepingQueue);
      Base(k') && !Due(k', k'.running)
  {
    TimeKept(k, k.wake[k.running := c], k.clock);
    SleepKeeps(k.(wake := k.wake[k.running := c]));
  }

  lemma ChildIsSafe(k: Kernel)
    requires Inv(k) && UserCode(k)
    ensures Base(SetTaskState(k, k.running, InterruptedChild, ChildQueue))
    ensures var k' := SetTaskState(k, k.running, InterruptedChild, ChildQueue);
      StateOf(k', k'.running) == InterruptedChild
  {
    LeaveKeeps(k, SetState(k, k.running, InterruptedChild), ChildQueue);
  }

  lemma HeadRing(k: Kernel, h: Head, prev: Queue.Words, next: Queue.Words)
    requires Rings(k, prev, next) && Headed(k, h)
    ensures Queue.Ring(prev, next, HeadAt(h), QueueAt(k, h))
  {
  }

  /** A newly allocated task is in no queue. */
  lemma NewTaskRings(k: Kernel, k': Kernel, t: Ptr, prev: Queue.Words, next: Queue.Words,
                     prev': Queue.Words, next': Queue.Words)
    requires Rings(k, prev, next) && t > 0 && t !in k.state && Queue.NullLink(prev', next', t)
    requires Queue.OnlyRing(prev, next, prev', next', t, [], t)
    requires k'.queues == k.queues && k'.link == k.link && k'.mqs == k.mqs && k'.state.Keys == k.state.Keys + {t}
    ensures Rings(k', prev', next') && t !in k'.link && t in k'.state
  {
    forall h: Head | Headed(k', h) ensures Queue.Ring(prev', next', HeadAt(h), QueueAt(k', h)) {
      assert Headed(k, h);
      assert forall x :: x in QueueAt(k, h) ==> LinkOf(k, x) == Some(h);
      assert forall x :: x == HeadAt(h) || x in QueueAt(k, h) ==> Queue.SameLink(prev, next, prev', next', x);
      Queue.RingFrame(prev, next, prev', next', HeadAt(h), QueueAt(k, h));
    }
    forall e: Ptr | e in k'.state && e !in k'.link ensures Queue.NullLink(prev', next', e) {
      assert e != t ==> e in k.state && Queue.SameLink(prev, next, prev', next', e);
    }
    forall h: Head, e: Ptr ensures e in QueueAt(k', h) <==> LinkOf(k', e) == Some(h) {
      assert e in QueueAt(k, h) <==> LinkOf(k, e) == Some(h);
    }
    assert forall e: Ptr :: e in k'.link ==> e in k.state;
    assert forall e: Ptr :: e in k'.state ==> e == t || e in k.state;
  }

  /** A new message queue has two empty waiting lists. */
  lemma NewQueueRings(k: Kernel, k': Kernel, id: int, prev: Queue.Words, next: Queue.Words, prev1: Queue.Words,
                      next1: Queue.Words, prev2: Queue.Words, next2: Queue.Words)
    requires Rings(k, prev, next) && 0 <= id < NBQUEUE && id !in k.mqs
    requires Queue.OnlyRing(prev, next, prev1, next1, HeadAt(Senders(id)), [], HeadAt(Senders(id)))
    requires Queue.OnlyRing(prev1, next1, prev2, next2, HeadAt(Receivers(id)), [], HeadAt(Receivers(id)))
    requires Queue.Ring(prev1, next1, HeadAt(Senders(id)), []) && Queue.Ring(prev2, next2, HeadAt(Receivers(id)), [])
    requires k' == k.(mqs := k'.mqs) && k'.mqs.Keys == k.mqs.Keys + {id}
    ensures Rings(k', prev2, next2)
  {
    assert QueueAt(k, Senders(id)) == [] by { UnusedIsEmpty(k, Senders(id)); }
    assert QueueAt(k, Receivers(id)) == [] by { UnusedIsEmpty(k, Receivers(id)); }
    Queue.OtherRingKept(prev1, next1, prev2, next2, HeadAt(Receivers(id)), [], HeadAt(Receivers(id)),
      HeadAt(Senders(id)), []);
    forall h: Head | Headed(k', h) && h != Senders(id) && h != Receivers(id)
      ensures Queue.Ring(prev2, next2, HeadAt(h), QueueAt(k', h))
    {
      assert Headed(k, h);
      HeadsDiffer(h, Senders(id));
      HeadsDiffer(h, Receivers(id));
      assert forall x :: x in QueueAt(k, h) ==> LinkOf(k, x) == Some(h);
      Queue.OtherRingKept(prev, next, prev1, next1, HeadAt(Senders(id)), [], HeadAt(Senders(id)),
        HeadAt(h), QueueAt(k, h));
      Queue.OtherRingKept(prev1, next1, prev2, next2, HeadAt(Receivers(id)), [], HeadAt(Receivers(id)),
        HeadAt(h), QueueAt(k, h));
    }
    forall e: Ptr | e in k'.state && e !in k'.link ensures Queue.NullLink(prev2, next2, e) {
      assert Queue.SameLink(prev, next, prev1, next1, e) && Queue.SameLink(prev1, next1, prev2, next2, e);
    }
    assert Named(k') by { SameNames(k, k', id); }
  }

  lemma UnusedIsEmpty(k: Kernel, h: Head)
    requires Named(k) && !Headed(k, h)
    ensures QueueAt(k, h) == []
  {
    var q := QueueAt(k, h);
    assert q == [] || q[0] in q;
    forall e: Ptr ensures e !in q {
      assert e in q <==> LinkOf(k, e) == Some(h);
    }
  }

  lemma SameNames(k: Kernel, k': Kernel, id: int)
    requires Named(k) && 0 <= id < NBQUEUE && k' == k.(mqs := k'.mqs) && k'.mqs.Keys == k.mqs.Keys + {id}
    ensures Named(k')
  {
    forall h: Head, e: Ptr ensures e in QueueAt(k', h) <==> LinkOf(k', e) == Some(h) {
      assert e in QueueAt(k, h) <==> LinkOf(k, e) == Some(h);
    }
    assert forall i :: i in k'.mqs <==> i == id || i in k.mqs;
    assert forall e: Ptr :: e in k.link ==> Headed(k', k.link[e]);
  }

  lemma BlockedIsSafe(k: Kernel, h: Head, c: Call)
    requires Inv(k) && k.running != k.idle && MayBlock(k, h, c)
    ensures var k' := SetState(SetCall(KernelSpec.QueueAdd(k, k.running, h), c), k.running, InterruptedMsg);
      Base(k') && StateOf(k', k'.running) == InterruptedMsg
  {
    BlockedBase(k, h, c);
    AddFrame(k, k.running, h);
    assert SetState(SetCall(KernelSpec.QueueAdd(k, k.running, h), c), k.running, InterruptedMsg) == Blocked(k, h, c);
  }

  lemma FullOrWaiting(k: Kernel, id: int)
    requires Inv(k) && Used(k, id)
    ensures QueueAt(k, Receivers(id)) != [] ==> !Full(k, id)
  {
    WaitersSeeExtremes(k, id);
    assert Bounded(k);
  }

  /** A waiter just taken off a message queue may become ready. */
  lemma WaiterIsSafe(k: Kernel, h: Head, t: Ptr, v: int, prev: Queue.Words, next: Queue.Words)
    requires Inv(k) && Rings(k, prev, next) && IsMsgQueue(h) && QueueAt(k, h) != [] && t == Last(QueueAt(k, h))
    requires h.Senders? ==> v == NONE
    ensures t in k.state && t !in KernelSpec.QueueOut(k, h).link
    ensures Inv(KernelSpec.QueueAdd(SetState(SetMsgVal(KernelSpec.QueueOut(k, h), t, v), t, Ready), t, ReadyQueue))
  {
    UnblockKeeps(k, t, v, h);
    OutDels(k, h);
  }

  /** The state of preceive when it makes the refilling sender ready. */
  function Refilled(k: Kernel, id: int): Kernel
    requires Used(k, id) && MsgsOf(k, id) != [] && QueueAt(k, Senders(id)) != []
  {
    var last := Last(QueueAt(k, Senders(id)));
    SetMsgVal(SetMsgs(KernelSpec.QueueOut(k, Senders(id)), id, MsgsOf(k, id)[1..] + [Of(k.msgVal, last)]), last, NONE)
  }

  lemma SenderRefills(k: Kernel, id: int, prev: Queue.Words, next: Queue.Words)
    requires Inv(k) && Rings(k, prev, next) && Used(k, id)
    ensures QueueAt(k, Senders(id)) != [] ==>
      var t := Last(QueueAt(k, Senders(id))); t > 0 && t in k.state && Full(k, id) && Of(k.msgVal, t) != NONE
    ensures QueueAt(k, Senders(id)) != [] && MsgsOf(k, id) != [] ==>
      var t := Last(QueueAt(k, Senders(id)));
      t !in Refilled(k, id).link && Inv(KernelSpec.QueueAdd(SetState(Refilled(k, id), t, Ready), t, ReadyQueue))
  {
    if QueueAt(k, Senders(id)) != [] {
      var t := Last(QueueAt(k, Senders(id)));
      OutDels(k, Senders(id));
      WaitersSeeExtremes(k, id);
      SenderHoldsMessage(k, t, id);
      if MsgsOf(k, id) != [] {
        var rotated := MsgsOf(k, id)[1..] + [Of(k.msgVal, t)];
        RotateKeeps(k, id, rotated);
        UnblockKeeps(SetMsgs(k, id, rotated), t, NONE, Senders(id));
        RefillCommutes(k, id, rotated);
      }
    }
  }

  lemma ResumedCall(k: Kernel)
    requires Inv(k)
    ensures CallOf(k, k.running) != User ==> Used(k, CallOf(k, k.running).id)
    ensures CallOf(k, k.running).Sending? ==> Of(k.msgVal, k.running) == NONE
  {
    assert MailOf(k, k.running);
  }

  /** The search by pid that __exit_task makes after it has changed the priority. */
  lemma ExitSearch(k: Kernel, t: Ptr)
    requires Inv(k) && DistinctPids(k) && Live(k, t)
    ensures QueueFromMsg(k.(prio := k.prio[t := DeathRank(k.clock)]), Of(k.pid, t), 0) ==
            if t in k.link && IsMsgQueue(k.link[t]) then Some(k.link[t]) else None
  {
    SearchAgrees(k, k.(prio := k.prio[t := DeathRank(k.clock)]), Of(k.pid, t), 0);
    SearchFindsLink(k, t);
    assert LinkOf(k, t) == Place(k, t);
  }

  lemma {:induction false} SearchAgrees(k: Kernel, k': Kernel, p: int, i: nat)
    requires k'.queues == k.queues && k'.pid == k.pid && k'.mqs == k.mqs
    ensures QueueFromMsg(k', p, i) == QueueFromMsg(k, p, i)
    decreases NBQUEUE - i
  {
    assert forall h: Head :: QueueAt(k', h) == QueueAt(k, h);
    if i < NBQUEUE {
      SearchAgrees(k, k', p, i + 1);
    }
  }

  lemma DelUnlinks(k: Kernel, t: Ptr)
    ensures t !in KernelSpec.QueueDel(k, t).link
  {
    hide Remove, QueueAt;
    if t in k.link {
      assert KernelSpec.QueueDel(k, t).link == k.link - {t};
    }
  }

  lemma DyingMaySet(k: Kernel, t: Ptr)
    requires Inv(k) && t != k.idle && Live(k, t)
    ensures MaySet(Dying(k, t), t, Zombie)
  {
    hide Inv, KernelSpec.QueueDel, NoRepeats;
    ExitIsSafe(k, t);
    var k1 := k.(prio := k.prio[t := DeathRank(k.clock)]);
    DelFrame(k1, t);
    DelUnlinks(k1, t);
    assert t in k.link ==> QueueAt(k1, k.link[t]) == QueueAt(k, k.link[t]);
  }

  /** The assertions met when its parent is released. */
  lemma ReleaseIsSafe(k: Kernel, t: Ptr)
    requires Inv(k) && t != k.idle && Live(k, t) && t in k.parent
    requires StateOf(Dead(k, t), k.parent[t]) == InterruptedChild
    ensures MaySet(Dead(k, t), k.parent[t], Ready)
  {
    hide Dead, Linked, Who, Mail, MaySet;
    DeadKeeps(k, t);
    assert StateOf(Dead(k, t), k.running) == if t == k.running then Zombie else Running;
    WaiterMaySet(Dead(k, t), k.parent[t]);
  }

  lemma WaiterMaySet(k: Kernel, t: Ptr)
    requires Base(k) && t != k.running && StateOf(k, t) == InterruptedChild
    ensures MaySet(k, t, Ready)
  {
    assert LinkOf(k, t) == Place(k, t);
  }

  lemma DeadParent(k: Kernel, t: Ptr)
    requires Inv(k) && t != k.idle
    ensures Dead(k, t).parent == k.parent
  {
    DeadKeeps(k, t);
  }

  lemma LinkIsHeaded(k: Kernel, t: Ptr, prev: Queue.Words, next: Queue.Words)
    requires Rings(k, prev, next) && t in k.link
    ensures t in k.state && Headed(k, k.link[t])
  {
  }

  lemma NotRequeued(k: Kernel, t: Ptr)
    requires LinkOf(k, t) == None
    ensures Reinsert(k, t) == k
  {
  }

  /** queue_from_state, called after the priority was changed, finds the queue of the task. */
  lemma FoundAfterChange(k: Kernel, t: Ptr, p: int)
    requires Inv(k) && DistinctPids(k) && Live(k, t)
    ensures QueueFromState(k.(prio := k.prio[t := p]), t) == LinkOf(k, t) && t in k.state
    ensures LinkOf(k, t).Some? ==> NoRepeats(QueueAt(k, LinkOf(k, t).value))
  {
    StateFindsLink(k, t);
    SearchAgrees(k, k.(prio := k.prio[t := p]), Of(k.pid, t), 0);
  }

  /** msg_reinsert finds it again, and chprio may call schedule. */
  lemma FoundAgain(k: Kernel, t: Ptr, p: int)
    requires Inv(k) && DistinctPids(k) && Live(k, t) && t != k.idle
    ensures var k1 := Reinsert(k.(prio := k.prio[t := p]), t);
      Inv(k1) && k1 == k.(prio := k.prio[t := p], queues := k1.queues, link := k1.link) &&
      (StateOf(k1, t) == InterruptedMsg ==>
        QueueFromMsg(k1, Of(k1.pid, t), 0) == LinkOf(k1, t) && LinkOf(k1, t).Some? &&
          NoRepeats(QueueAt(k1, LinkOf(k1, t).value))) &&
      (t == k1.running ==> QueueAt(k1, ReadyQueue) != [])
  {
    var k0 := k.(prio := k.prio[t := p]);
    ReinsertKeeps(k, k0, t);
    var k1 := Reinsert(k0, t);
    assert forall u: Ptr :: StateOf(k1, u) == StateOf(k, u);
    assert DistinctPids(k1) by { PidsKept(k, k1); }
    if StateOf(k1, t) == InterruptedMsg {
      SearchFindsLink(k1, t);
      assert LinkOf(k1, t) == Place(k1, t);
      assert MailOf(k1, t);
    }
    if t == k1.running {
      IdleIsReady(k1);
    }
  }

  /** Enabled, with new tasks at fresh addresses. */
  ghost predicate Feasible(k: Kernel, step: Step) {
    Enabled(k, step) && (step.DoStart? ==> step.task > 0 && step.task !in k.state)
  }

  ghost predicate AllFeasible(k: Kernel, steps: seq<Step>)
    decreases |steps|
  {
    steps == [] || (Feasible(k, steps[0]) && AllFeasible(Apply(k, steps[0]).kernel, steps[1..]))
  }

  lemma LiveIsFeasible(k: Kernel, step: Step)
    requires Feasible(k, step)
    ensures Enabled(k, step)
  {
  }

  lemma FeasibleKeeps(k: Kernel, step: Step)
    requires Inv(k) && DistinctPids(k) && Feasible(k, step)
    ensures Inv(Apply(k, step).kernel) && DistinctPids(Apply(k, step).kernel)
  {
    hide Inv, DistinctPids, Apply;
    StepKeeps(k, step);
    StepKeepsPids(k, step);
  }

  class System {
    const links: Queue.Links  // the `tasks` link of every task, every list head, and the priorities
    const boxes: Messages.Boxes  // the message queues, without their waiting lists
    var running: Ptr
    var idle: Ptr
    var clock: int
    var state: map<Ptr, State>
    var wake: Field
    var msgVal: Field
    var pid: Field
    var parent: map<Ptr, Ptr>
    ghost var queues: map<Head, seq<Ptr>>
    ghost var link: map<Ptr, Head>
    var call: map<Ptr, Call>  // where a task that is not running stands: its saved program counter

    ghost function Snap(): Kernel
      reads this, links, boxes
    {
      Kernel(running, idle, clock, true, queues, link, state, links.prio, wake, msgVal, pid, parent, call, boxes.mqs)
    }

    /** The words in memory thread the queues and the messages. */
    ghost predicate Valid()
      reads this, links, boxes
    {
      Rings(Snap(), links.prev, links.next) && boxes.Valid()
    }

    /** start_idle, on statically initialised list heads. */
    constructor (idleTask: Ptr, idlePid: int, place: nat -> int, next: Messages.Words, data: Messages.Words)
      requires idleTask > 0 && Messages.Injective(place)
      ensures Valid() && Snap() == Boot(idleTask, idlePid) && fresh(links) && fresh(boxes)
    {
      running, idle, clock := idleTask, idleTask, 0;
      state, wake, msgVal, pid := map[idleTask := Running], map[], map[], map[idleTask := idlePid];
      parent, queues, link, call := map[], map[], map[], map[];
      links := new Queue.Links({HeadAt(ReadyQueue), HeadAt(SleepingQueue), HeadAt(ZombieQueue), HeadAt(ChildQueue)});
      boxes := new Messages.Boxes(place, next, data);
      new;
      ghost var prev1, next1 := links.prev, links.next;
      links.InitLink(idleTask);
      links.prio := map[idleTask := MIN_PRIO];
      BootRings(idleTask, idlePid, prev1, next1, links.prev, links.next);
    }

    // ---- the macros of queue.h on the `tasks` link

    /** queue_add. Its assertion is the precondition. */
    method QueueAdd(t: Ptr, h: Head)
      requires Valid() && Headed(Snap(), h) && t in state && t !in link
      modifies this`queues, this`link, links`prev, links`next
      ensures Valid() && Snap() == KernelSpec.QueueAdd(old(Snap()), t, h)
    {
      ghost var q := QueueAt(Snap(), h);
      AddNamed(Snap(), t, h);
      links.Add(t, HeadAt(h), q);
      queues := queues[h := Insert(q, links.prio, t)];
      link := link[t := h];
      OthersKept(old(Snap()), Snap(), h, t, old(links.prev), old(links.next), links.prev, links.next);
    }

    /** queue_del. Its assertion is the precondition. */
    method QueueDel(t: Ptr)
      requires Valid() && t in link && NoRepeats(QueueAt(Snap(), link[t]))
      modifies this`queues, this`link, links`prev, links`next
      ensures Valid() && Snap() == KernelSpec.QueueDel(old(Snap()), t)
    {
      ghost var h := link[t];
      ghost var q := QueueAt(Snap(), h);
      assert LinkOf(Snap(), t) == Some(h);
      DelNamed(Snap(), t);
      links.Del(t, HeadAt(h), q);
      queues := queues[h := Remove(q, t)];
      link := link - {t};
      OthersKept(old(Snap()), Snap(), h, t, old(links.prev), old(links.next), links.prev, links.next);
    }

    /** queue_top. */
    method QueueTop(h: Head) returns (t: Ptr)
      requires Valid() && Headed(Snap(), h)
      ensures t == if QueueAt(Snap(), h) == [] then 0 else Last(QueueAt(Snap(), h))
    {
      t := links.Top(HeadAt(h), QueueAt(Snap(), h));
    }

    /** queue_out. */
    method QueueOut(h: Head) returns (t: Ptr)
      requires Valid() && Headed(Snap(), h)
      modifies this`queues, this`link, links`prev, links`next
      ensures Valid()
      ensures old(QueueAt(Snap(), h)) == [] ==> t == 0 && Snap() == old(Snap())
      ensures old(QueueAt(Snap(), h)) != [] ==>
        t == Last(old(QueueAt(Snap(), h))) && Snap() == KernelSpec.QueueOut(old(Snap()), h)
    {
      ghost var q := QueueAt(Snap(), h);
      if q != [] {
        OutDels(Snap(), h);
        DelNamed(Snap(), Last(q));
      }
      t := links.Out(HeadAt(h), q);
      if t != 0 {
        queues := queues[h := AllButLast(q)];
        link := link - {t};
        OthersKept(old(Snap()), Snap(), h, t, old(links.prev), old(links.next), links.prev, links.next);
      }
    }

    // ---- kernel/task.c

    /** The common end of __set_task_state and set_task_ready_or_running. */
    method EnterState(t: Ptr, s: State, h: Head)
      requires Valid() && Headed(Snap(), h) && t in state && t !in link
      modifies this`queues, this`link, this`state, links`prev, links`next
      ensures Valid() && Snap() == KernelSpec.QueueAdd(SetState(old(Snap()), t, s), t, h)
    {
      hide Rings;
      state := state[t := s];
      SameRings(old(Snap()), Snap(), links.prev, links.next);
      QueueAdd(t, h);
    }

    /** __set_task_state. Its assertions are the precondition. */
    method SetTaskState(t: Ptr, s: State, h: Head)
      requires Valid() && Headed(Snap(), h) && t in state && MaySet(Snap(), t, s)
      modifies this`queues, this`link, this`state, links`prev, links`next
      ensures Valid() && Snap() == KernelSpec.SetTaskState(old(Snap()), t, s, h)
    {
      hide Rings, KernelSpec.QueueAdd, NoRepeats, Messages.Boxes.Valid;
      if state[t] == s {
        return;
      }
      if t != running && state[t] != Startup && state[t] != InterruptedMsg {
        QueueDel(t);
      }
      EnterState(t, s, h);
    }

    /** set_task_running. */
    method SetTaskRunning(t: Ptr)
      requires Valid() && t in state
      requires state[t] != Startup && state[t] != Running ==> t in link && NoRepeats(QueueAt(Snap(), link[t]))
      modifies this`queues, this`link, this`state, this`running, links`prev, links`next
      ensures Valid() && Snap() == KernelSpec.SetTaskRunning(old(Snap()), t)
    {
      if state[t] != Startup && state[t] != Running {
        QueueDel(t);
        assert Queue.NullLink(links.prev, links.next, t) by { assert t in state && t !in link; }
        links.ResetLink(t);
      }
      ghost var k := Snap();
      state := state[t := Running];
      running := t;
      SameRings(k, Snap(), links.prev, links.next);
    }

    /** The body of the loop of try_wakeup_tasks. */
    method TryWakeup(cur: Ptr)
      requires Valid() && Base(Snap()) && cur in QueueAt(Snap(), SleepingQueue)
      requires StateOf(Snap(), running) == Sleeping ==> !Due(Snap(), running)
      modifies this`queues, this`link, this`state, this`wake, links`prev, links`next
      ensures Valid() && Snap() == WakeOne(old(Snap()), cur)
    {
      hide Rings, Base, KernelSpec.SetTaskState;
      SleepingNow(Snap(), cur);
      if clock >= Of(wake, cur) {
        SleeperMaySet(Snap(), cur);
        wake := wake[cur := 0];
        SameRings(old(Snap()), Snap(), links.prev, links.next);
        SetTaskState(cur, Ready, ReadyQueue);
      }
    }

    /** try_wakeup_tasks: the next sleeper is read before the current one moves to the ready queue. */
    method TryWakeupTasks()
      requires Valid() && Base(Snap()) && (StateOf(Snap(), running) == Sleeping ==> !Due(Snap(), running))
      modifies this`queues, this`link, this`state, this`wake, links`prev, links`next
      ensures Valid() && Snap() == WakeAll(old(Snap()), old(QueueAt(Snap(), SleepingQueue)))
    {
      hide Base, Rings, WakeOne, WalkAt, Messages.Boxes.Valid;
      ghost var rest, kept: seq<Ptr> := QueueAt(Snap(), SleepingQueue), [];
      var head := HeadAt(SleepingQueue);
      WalkStarts(Snap(), links.prev, links.next);
      var cur := links.next[head];
      var tmp := links.next[cur];
      while cur != head
        invariant Valid() && Base(Snap()) && (StateOf(Snap(), running) == Sleeping ==> !Due(Snap(), running))
        invariant QueueAt(Snap(), SleepingQueue) == kept + rest && WalkAt(head, kept, rest, cur, tmp)
        invariant WakeAll(Snap(), rest) == WakeAll(old(Snap()), old(QueueAt(Snap(), SleepingQueue)))
        decreases |rest|
      {
        ghost var k := Snap();
        WalkedTo(head, kept, rest, cur, tmp);
        TryWakeup(cur);
        WakeStep(k, cur, kept, rest);
        WalkMoves(Snap(), links.prev, links.next, kept, rest, if Due(k, cur) then kept else kept + [cur], cur, tmp);
        kept, rest := if Due(k, cur) then kept else kept + [cur], rest[1..];
        cur := tmp;
        tmp := links.next[tmp];
      }
      WalkedTo(head, kept, rest, cur, tmp);
    }

    /** schedule, when the caller has left the running task in a consistent place. */
    method Schedule()
      requires Valid() && Base(Snap()) && (StateOf(Snap(), running) == Sleeping ==> !Due(Snap(), running))
      modifies this`queues, this`link, this`state, this`wake, this`running, links`prev, links`next
      ensures Valid() && Snap() == KernelSpec.Schedule(old(Snap()))
    {
      hide Rings, Named, KernelSpec.SetTaskState, KernelSpec.SetTaskRunning, WakeAll;
      AfterWakeUp(Snap());
      TryWakeupTasks();
      ghost var k := Snap();
      RingsName(k, links.prev, links.next);
      var newTask := QueueTop(ReadyQueue);
      var oldTask := running;
      if newTask == 0 || oldTask == newTask {
        TopIsTask(k);
        return;
      }
      SwitchIsSafe(k);
      if state[oldTask] == Running && Of(links.prio, oldTask) > Of(links.prio, newTask) {
        return;
      }
      if state[oldTask] == Running {
        SetTaskState(oldTask, Ready, ReadyQueue);
      }
      SetTaskRunning(newTask);
    }

    /** set_task_ready_or_running, for a task just taken off a message queue. */
    method SetTaskReadyOrRunning(t: Ptr)
      requires Valid() && t in state && t !in link &&
        Inv(KernelSpec.QueueAdd(SetState(Snap(), t, Ready), t, ReadyQueue))
      modifies this`queues, this`link, this`state, this`wake, this`running, links`prev, links`next
      ensures Valid() && Snap() == SetReadyOrRunning(old(Snap()), t)
    {
      hide Rings, Linked, Mail, KernelSpec.QueueAdd, KernelSpec.Schedule;
      EnterState(t, Ready, ReadyQueue);
      if Of(links.prio, t) > Of(links.prio, running) {
        Schedule();
      }
    }

    /** clock_handler. */
    method Tick()
      requires Valid() && Inv(Snap())
      modifies this`queues, this`link, this`state, this`wake, this`running, this`clock, links`prev, links`next
      ensures Valid() && Snap() == KernelSpec.Tick(old(Snap()))
    {
      hide Rings, KernelSpec.Schedule;
      TimeKept(Snap(), wake, (clock + 1) % CLOCK_MODULUS);
      clock := (clock + 1) % CLOCK_MODULUS;
      SameRings(old(Snap()), Snap(), links.prev, links.next);
      Schedule();
    }

    /** wait_clock with a time in the future. */
    method WaitClock(c: int)
      requires Valid() && Inv(Snap()) && UserCode(Snap()) && c > clock
      modifies this`queues, this`link, this`state, this`wake, this`running, links`prev, links`next
      ensures Valid() && Snap() == KernelSpec.WaitClock(old(Snap()), c)
    {
      hide Rings, Named, KernelSpec.Schedule, KernelSpec.SetTaskState, Base;
      ghost var k := Snap();
      RunningMayLeave(k, Sleeping, links.prev, links.next);
      SleepIsSafe(k, c);
      wake := wake[running := c];
      SameRings(k, Snap(), links.prev, links.next);
      SetTaskState(running, Sleeping, SleepingQueue);
      Schedule();
    }

    /** The blocking step of waitpid. */
    method WaitChild()
      requires Valid() && Inv(Snap()) && UserCode(Snap())
      modifies this`queues, this`link, this`state, this`wake, this`running, links`prev, links`next
      ensures Valid() && Snap() == KernelSpec.WaitChild(old(Snap()))
    {
      hide Rings, Named, KernelSpec.Schedule, KernelSpec.SetTaskState, Base;
      RunningMayLeave(Snap(), InterruptedChild, links.prev, links.next);
      ChildIsSafe(Snap());
      SetTaskState(running, InterruptedChild, ChildQueue);
      Schedule();
    }

    // ---- queue_for_each

    /** Whether a task with this pid is in the queue. */
    method HoldsPid(h: Head, p: int) returns (found: bool)
      requires Valid() && Headed(Snap(), h)
      ensures found <==> HasPid(QueueAt(Snap(), h), pid, p)
    {
      hide Rings;
      ghost var q, i := QueueAt(Snap(), h), 0;
      var head := HeadAt(h);
      HeadRing(Snap(), h, links.prev, links.next);
      Queue.RingMembers(links.prev, links.next, head, q, 0);
      var cur := links.next[head];
      while cur != head
        invariant 0 <= i <= |q| && cur == Queue.Around(head, q, i + 1)
        invariant HasPid(q, pid, p) <==> HasPid(q[i..], pid, p)
        decreases |q| - i
      {
        if Of(pid, cur) == p {
          return true;
        }
        Queue.RingMembers(links.prev, links.next, head, q, i + 1);
        cur := links.next[cur];
        i := i + 1;
      }
      assert i == |q|;
      return false;
    }

    /** The length of a queue. */
    method Length(h: Head) returns (n: nat)
      requires Valid() && Headed(Snap(), h)
      ensures n == |QueueAt(Snap(), h)|
    {
      hide Rings;
      ghost var q := QueueAt(Snap(), h);
      var head := HeadAt(h);
      HeadRing(Snap(), h, links.prev, links.next);
      Queue.RingMembers(links.prev, links.next, head, q, 0);
      var cur := links.next[head];
      n := 0;
      while cur != head
        invariant n <= |q| && cur == Queue.Around(head, q, n + 1)
        decreases |q| - n
      {
        Queue.RingMembers(links.prev, links.next, head, q, n + 1);
        cur := links.next[cur];
        n := n + 1;
      }
    }

    /** queue_from_msg. */
    method FindMsgQueue(p: int) returns (r: Option<Head>)
      requires Valid()
      ensures r == QueueFromMsg(Snap(), p, 0)
    {
      hide Rings;
      var i := 0;
      while i < NBQUEUE
        invariant 0 <= i <= NBQUEUE && QueueFromMsg(Snap(), p, i) == QueueFromMsg(Snap(), p, 0)
      {
        var used := boxes.IsUsed(i);
        if used {
          var sends := HoldsPid(Senders(i), p);
          if sends {
            return Some(Senders(i));
          }
          var receives := HoldsPid(Receivers(i), p);
          if receives {
            return Some(Receivers(i));
          }
        }
        i := i + 1;
      }
      return None;
    }

    /** queue_from_state. */
    method FindQueue(t: Ptr) returns (r: Option<Head>)
      requires Valid() && t in state
      ensures r == QueueFromState(Snap(), t)
    {
      match state[t] {
        case Ready => r := Some(ReadyQueue);
        case Zombie => r := Some(ZombieQueue);
        case Sleeping => r := Some(SleepingQueue);
        case InterruptedChild => r := Some(ChildQueue);
        case InterruptedMsg => r := FindMsgQueue(Of(pid, t));
        case _ => r := None;
      }
    }

    // ---- start

    /** The fields of a task that start has just allocated. */
    method InitTask(t: Ptr, newPid: int, prio: int)
      requires Valid() && t > 0 && t !in state
      modifies this`state, this`pid, this`parent, this`msgVal, this`call, links
      ensures Valid() && t in state && state[t] == Startup && t !in link
      ensures var k := old(Snap());
        Snap() == k.(state := k.state[t := Startup], pid := k.pid[t := newPid], prio := k.prio[t := prio],
                     parent := k.parent[t := k.running], msgVal := k.msgVal[t := NONE], call := k.call[t := User])
    {
      hide Rings, Messages.Boxes.Valid, Queue.OnlyRing, Queue.NullLink;
      links.InitLink(t);
      state := state[t := Startup];
      assert state.Keys == old(state).Keys + {t};
      pid := pid[t := newPid];
      links.prio := links.prio[t := prio];
      parent := parent[t := running];
      msgVal := msgVal[t := NONE];
      call := call[t := User];
      NewTaskRings(old(Snap()), Snap(), t, old(links.prev), old(links.next), links.prev, links.next);
    }

    /** start, once alloc_empty_task has returned a new task at t and alloc_pid a pid. */
    method Start(t: Ptr, newPid: int, prio: int) returns (code: int)
      requires Valid() && Inv(Snap()) && t > 0 && t !in state
      modifies this, links
      ensures Valid() && Snap() == KernelSpec.Start(old(Snap()), t, newPid, prio) && code == newPid
    {
      hide Rings, KernelSpec.Schedule, KernelSpec.SetTaskState, Base, Linked, Mail, Messages.Boxes.Valid;
      ghost var k := Snap();
      SpawnKeeps(k, t, newPid, prio);
      InitTask(t, newPid, prio);
      SetTaskState(t, Ready, ReadyQueue);
      assert Snap() == Spawn(k, t, newPid, prio);
      if prio >= Of(links.prio, running) {
        Schedule();
      }
      code := Of(pid, t);
    }

    // ---- kernel/msg.c

    /** first_available_queue. */
    method FirstUnused() returns (id: int)
      requires Valid()
      ensures id == FirstAvailable(Snap(), 0)
    {
      id := 0;
      while id < NBQUEUE
        invariant 0 <= id <= NBQUEUE && FirstAvailable(Snap(), id) == FirstAvailable(Snap(), 0)
      {
        var used := boxes.IsUsed(id);
        if !used {
          return;
        }
        id := id + 1;
      }
      return -1;
    }

    /** alloc_mqueue, whose block holds junk where tail is, with its two waiting lists. */
    method OpenQueue(id: int, count: int, junk: int)
      requires Valid() && 0 <= id < NBQUEUE && !Used(Snap(), id)
      modifies boxes, links`prev, links`next
      ensures Valid() && Snap() == old(Snap()).(mqs := old(Snap()).mqs[id := MQueue(count, [])])
    {
      hide Rings, Messages.Boxes.Valid;
      boxes.Open(id, count, junk);
      links.InitHead(HeadAt(Senders(id)));
      label FirstHead:
      links.InitHead(HeadAt(Receivers(id)));
      NewQueueRings(old(Snap()), Snap(), id, old(links.prev), old(links.next),
                    old@FirstHead(links.prev), old@FirstHead(links.next), links.prev, links.next);
    }

    /** pcreate. */
    method Pcreate(count: int, junk: int) returns (id: int)
      requires Valid()
      modifies boxes, links`prev, links`next
      ensures Valid() && Snap() == KernelSpec.Pcreate(old(Snap()), count) && id == PcreateResult(old(Snap()), count)
    {
      if count > INT16_MAX {
        return -3;
      }
      if count <= 0 {
        return -2;
      }
      id := FirstUnused();
      if id >= 0 {
        OpenQueue(id, count, junk);
      }
    }

    /** pcount, which stores the count unless its pointer is null. */
    method Pcount(id: int, wanted: bool) returns (code: int, n: Option<int>)
      requires Valid() && 0 <= id < NBQUEUE
      ensures code == if Used(Snap(), id) then 0 else -1
      ensures n == if wanted then KernelSpec.Pcount(Snap(), id) else None
    {
      var used := boxes.IsUsed(id);
      if !used {
        return -1, None;
      }
      if !wanted {
        return 0, None;
      }
      var empty := boxes.IsEmpty(id);
      if empty {
        var receivers: int := Length(Receivers(id));
        return 0, Some(-receivers);
      }
      var senders := Length(Senders(id));
      var count := boxes.Count(id);
      return 0, Some(senders + count);
    }

    /** queue_add of the running task and set_task_interrupted_msg, in the loops of psend and preceive. */
    method BlockOnMsg(h: Head, c: Call)
      requires Valid() && Inv(Snap()) && running != idle && MayBlock(Snap(), h, c)
      modifies this`queues, this`link, this`state, this`wake, this`running, this`call, links`prev, links`next
      ensures Valid() && Snap() == KernelSpec.BlockOnMsg(old(Snap()), h, c)
    {
      hide Rings, KernelSpec.Schedule, KernelSpec.QueueAdd, Base;
      ghost var k := Snap();
      RunningMayLeave(k, InterruptedMsg, links.prev, links.next);
      BlockedIsSafe(k, h, c);
      AddFrame(k, running, h);
      QueueAdd(running, h);
      ghost var k1 := Snap();
      call := call[running := c];
      state := state[running := InterruptedMsg];
      SameRings(k1, Snap(), links.prev, links.next);
      Schedule();
    }

    /** psend from its while condition on. No receiver waits when the loop ends with a message to add. */
    method SendLoop(id: int, msg: int) returns (ret: Answer)
      requires Valid() && Inv(Snap()) && running != idle && Used(Snap(), id)
      requires Of(msgVal, running) == NONE || (Of(msgVal, running) == msg && QueueAt(Snap(), Receivers(id)) == [])
      modifies this`queues, this`link, this`state, this`wake, this`running, this`call, boxes, links`prev, links`next
      ensures Valid() && Snap() == KernelSpec.SendLoop(old(Snap()), id, msg).kernel
      ensures ret == if old(Full(Snap(), id) && Of(msgVal, running) != NONE) then Waiting else Returned(0)
    {
      hide Rings, KernelSpec.Schedule, KernelSpec.QueueAdd, KernelSpec.BlockOnMsg, SetReadyOrRunning;
      var full := boxes.IsFull(id);
      if full && Of(msgVal, running) != NONE {
        BlockOnMsg(Senders(id), Sending(id, msg));
        return Waiting;
      }
      ghost var k := Snap();
      call := call[running := User];
      SameRings(k, Snap(), links.prev, links.next);
      if Of(msgVal, running) == NONE {
        return Returned(0);
      }
      var last := QueueOut(Receivers(id));
      assert last == 0;
      AddMsg(id, msg);
      return Returned(0);
    }

    /** queue_empty. */
    method IsEmpty(h: Head) returns (r: bool)
      requires Valid() && Headed(Snap(), h)
      ensures r <==> QueueAt(Snap(), h) == []
    {
      HeadRing(Snap(), h, links.prev, links.next);
      r := links.Empty(HeadAt(h), QueueAt(Snap(), h));
    }

    /** A waiter is taken off a message queue, given v in its msg_val, and made ready. */
    method Wake(h: Head, v: int)
      requires Valid() && Inv(Snap()) && IsMsgQueue(h) && Headed(Snap(), h) && QueueAt(Snap(), h) != []
      requires h.Senders? ==> v == NONE
      modifies this`queues, this`link, this`state, this`wake, this`running, this`msgVal, links`prev, links`next
      ensures var t := Last(old(QueueAt(Snap(), h)));
        Valid() && Snap() == SetReadyOrRunning(SetMsgVal(KernelSpec.QueueOut(old(Snap()), h), t, v), t)
    {
      hide Rings, SetReadyOrRunning, Base, KernelSpec.QueueOut;
      ghost var k := Snap();
      var last := QueueOut(h);
      WaiterIsSafe(k, h, last, v, old(links.prev), old(links.next));
      ghost var k1 := Snap();
      assert k1 == KernelSpec.QueueOut(k, h);
      msgVal := msgVal[last := v];
      SameRings(k1, Snap(), links.prev, links.next);
      SetTaskReadyOrRunning(last);
    }

    /** psend, up to its end or its first context switch. */
    method Psend(id: int, msg: int) returns (ret: Answer)
      requires Valid() && Inv(Snap()) && UserCode(Snap()) && 0 <= id < NBQUEUE
      modifies this, links, boxes
      ensures Valid() && Snap() == KernelSpec.Psend(old(Snap()), id, msg).kernel
      ensures ret == PsendAnswer(old(Snap()), id, msg)
    {
      hide Rings, KernelSpec.SendLoop, SetReadyOrRunning, Base, KernelSpec.QueueOut;
      ghost var k := Snap();
      var used := boxes.IsUsed(id);
      if !used {
        return Returned(-1);
      }
      var nobody := IsEmpty(Receivers(id));
      FullOrWaiting(k, id);
      if !nobody {
        Wake(Receivers(id), msg);
        return Returned(0);
      }
      msgVal := msgVal[running := msg];
      SameRings(k, Snap(), links.prev, links.next);
      OwnMsgValKeeps(k, msg);
      ret := SendLoop(id, msg);
    }

    // ---- preceive

    /** __pop_msg: its caller has tested count. */
    method PopMsg(id: int) returns (msg: int)
      requires Valid() && id in boxes.mqs && boxes.mqs[id].msgs != []
      modifies boxes
      ensures Valid() && Snap() == SetMsgs(old(Snap()), id, old(boxes.mqs[id].msgs)[1..]) &&
        msg == old(boxes.mqs[id].msgs)[0]
    {
      hide Rings;
      msg := boxes.Pop(id);
      SameRings(old(Snap()), Snap(), links.prev, links.next);
    }

    /** __add_msg. */
    method AddMsg(id: int, msg: int)
      requires Valid() && id in boxes.mqs
      modifies boxes
      ensures Valid() && Snap() == SetMsgs(old(Snap()), id, old(boxes.mqs[id].msgs) + [msg])
    {
      hide Rings;
      boxes.Add(id, msg);
      SameRings(old(Snap()), Snap(), links.prev, links.next);
    }

    /** The oldest message goes out, and that of the sender t goes in. */
    method Refill(id: int, t: Ptr) returns (msg: int)
      requires Valid() && Used(Snap(), id) && boxes.mqs[id].msgs != []
      modifies this`msgVal, boxes
      ensures Valid() && msg == old(boxes.mqs[id].msgs)[0]
      ensures var k := old(Snap()); Snap() == SetMsgVal(SetMsgs(k, id, MsgsOf(k, id)[1..] + [Of(k.msgVal, t)]), t, NONE)
    {
      hide Rings, Messages.Boxes.Valid;
      msg := PopMsg(id);
      AddMsg(id, Of(msgVal, t));
      ghost var k := Snap();
      msgVal := msgVal[t := NONE];
      SameRings(k, Snap(), links.prev, links.next);
    }

    /** preceive after its loop, with a message in the queue. A sender waits only on a full queue, with its
        message pending, so the other two branches for a woken sender are never taken. */
    method ReceiveFromQueue(id: int) returns (msg: int)
      requires Valid() && Inv(Snap()) && Used(Snap(), id) && boxes.mqs[id].msgs != []
      modifies this`queues, this`link, this`state, this`wake, this`running, this`msgVal, boxes
      modifies links`prev, links`next
      ensures Valid() && Snap() == KernelSpec.ReceiveFromQueue(old(Snap()), id).kernel
      ensures KernelSpec.ReceiveFromQueue(old(Snap()), id).got == Some(msg)
    {
      hide Rings, SetReadyOrRunning, Inv, KernelSpec.QueueOut, KernelSpec.QueueAdd, Messages.Boxes.Valid;
      ghost var k := Snap();
      SenderRefills(k, id, links.prev, links.next);
      var last := QueueOut(Senders(id));
      if last == 0 {
        msg := PopMsg(id);
        return;
      }
      var full := boxes.IsFull(id);
      if full && Of(msgVal, last) != NONE {
        msg := Refill(id, last);
      } else {
        assert false;
      }
      assert Snap() == Refilled(k, id);
      SetTaskReadyOrRunning(last);
    }

    /** preceive from its while condition on. */
    method ReceiveLoop(id: int) returns (got: Option<int>)
      requires Valid() && Inv(Snap()) && running != idle && Used(Snap(), id)
      modifies this`queues, this`link, this`state, this`wake, this`running, this`call, this`msgVal, boxes
      modifies links`prev, links`next
      ensures Valid() && Snap() == KernelSpec.ReceiveLoop(old(Snap()), id).kernel
      ensures got == KernelSpec.ReceiveLoop(old(Snap()), id).got
    {
      hide Rings, KernelSpec.ReceiveFromQueue, KernelSpec.BlockOnMsg, Base;
      var empty := boxes.IsEmpty(id);
      if empty && Of(msgVal, running) == NONE {
        BlockOnMsg(Receivers(id), Receiving(id));
        return None;
      }
      ghost var k := Snap();
      EndCallKeeps(k);
      call := call[running := User];
      SameRings(k, Snap(), links.prev, links.next);
      if Of(msgVal, running) != NONE {
        got := Some(Of(msgVal, running));
        ghost var k1 := Snap();
        msgVal := msgVal[running := NONE];
        SameRings(k1, Snap(), links.prev, links.next);
        return;
      }
      var msg := ReceiveFromQueue(id);
      return Some(msg);
    }

    /** preceive, up to its end or its first context switch. */
    method Preceive(id: int) returns (ret: Answer)
      requires Valid() && Inv(Snap()) && UserCode(Snap()) && 0 <= id < NBQUEUE
      modifies this, links, boxes
      ensures Valid() && Snap() == KernelSpec.Preceive(old(Snap()), id).kernel
      ensures ret == PreceiveAnswer(old(Snap()), id)
    {
      hide Rings, KernelSpec.ReceiveLoop, Base;
      var used := boxes.IsUsed(id);
      if !used {
        return Returned(-1);
      }
      OwnMsgValKeeps(Snap(), NONE);
      msgVal := msgVal[running := NONE];
      SameRings(old(Snap()), Snap(), links.prev, links.next);
      var got := ReceiveLoop(id);
      ret := if got.Some? then Received(got.value) else Waiting;
    }

    /** The running task goes on after a context switch inside psend or preceive. */
    method Resume() returns (ret: Answer)
      requires Valid() && Inv(Snap()) && running != idle
      modifies this, links, boxes
      ensures Valid() && Snap() == KernelSpec.Resume(old(Snap())).kernel && ret == ResumeAnswer(old(Snap()))
    {
      hide Rings, KernelSpec.SendLoop, KernelSpec.ReceiveLoop, Base;
      ResumedCall(Snap());
      if CallOf(Snap(), running).Sending? {
        ResumedSenderEnds(Snap());
      }
      var at := if running in call then call[running] else User;
      match at {
        case User => ret := Nothing;
        case Sending(id, msg) => ret := SendLoop(id, msg);
        case Receiving(id) =>
          var got := ReceiveLoop(id);
          ret := if got.Some? then Received(got.value) else Waiting;
      }
    }

    // ---- exit, kill, chprio

    /** __exit_task past its error checks, up to the release of the parent. */
    method Bury(t: Ptr)
      requires Valid() && Inv(Snap()) && DistinctPids(Snap()) && t != idle && Live(Snap(), t)
      modifies this`queues, this`link, this`state, links
      ensures Valid() && Snap() == Dead(old(Snap()), t)
    {
      hide Rings, QueueFromMsg, Inv, DistinctPids, KernelSpec.SetTaskState, Dead, KernelSpec.QueueDel,
        Messages.Boxes.Valid;
      ghost var k := Snap();
      ExitSearch(k, t);
      ExitIsSafe(k, t);
      DyingIsDead(k, t);
      DyingMaySet(k, t);
      links.prio := links.prio[t := DeathRank(clock)];
      SameRings(k, Snap(), links.prev, links.next);
      var queue := FindMsgQueue(Of(pid, t));
      if queue != None {
        QueueDel(t);
      }
      assert Snap() == Dying(k, t);
      SetTaskState(t, Zombie, ZombieQueue);
    }

    /** __exit_task past its error checks. */
    method ExitTask(t: Ptr)
      requires Valid() && Inv(Snap()) && DistinctPids(Snap()) && t != idle && Live(Snap(), t)
      modifies this`queues, this`link, this`state, links
      ensures Valid() && Snap() == KernelSpec.ExitTask(old(Snap()), t)
    {
      hide Rings, KernelSpec.SetTaskState, Dead, KernelSpec.ExitTask, Inv, DistinctPids;
      ghost var k := Snap();
      ExitIsDead(k, t);
      DeadParent(k, t);
      Bury(t);
      if t in parent && parent[t] in state && state[parent[t]] == InterruptedChild {
        ReleaseIsSafe(k, t);
        SetTaskState(parent[t], Ready, ReadyQueue);
      }
    }

    /** exit. */
    method Exit()
      requires Valid() && Inv(Snap()) && DistinctPids(Snap()) && running != idle
      modifies this, links, boxes
      ensures Valid() && Snap() == KernelSpec.Exit(old(Snap()))
    {
      hide Rings, KernelSpec.ExitTask, KernelSpec.Schedule, Base, DistinctPids;
      ExitTaskKeeps(Snap(), running);
      ExitTask(running);
      Schedule();
    }

    /** kill of the task found for a pid. */
    method Kill(t: Ptr) returns (code: int)
      requires Valid() && Inv(Snap()) && DistinctPids(Snap()) && Live(Snap(), t)
      modifies this, links, boxes
      ensures Valid() && Snap() == KernelSpec.Kill(old(Snap()), t) && code == KillResult(old(Snap()), t)
    {
      hide Rings, KernelSpec.ExitTask, KernelSpec.Schedule, Base, DistinctPids;
      if t == idle {
        return -EINVAL;
      }
      ExitTaskKeeps(Snap(), t);
      ExitTask(t);
      if t == running {
        Schedule();
      }
      return 0;
    }

    // ---- chprio

    /** queue_update. */
    method QueueUpdate(t: Ptr, h: Head)
      requires Valid() && LinkOf(Snap(), t) == Some(h) && NoRepeats(QueueAt(Snap(), h))
      modifies this`queues, this`link, links`prev, links`next
      ensures Valid() && Snap() == Reinsert(old(Snap()), t)
    {
      hide Rings;
      LinkIsHeaded(Snap(), t, links.prev, links.next);
      QueueDel(t);
      QueueAdd(t, h);
    }

    /** chprio of the task found for a pid. */
    method Chprio(t: Ptr, p: int) returns (code: int)
      requires Valid() && Inv(Snap()) && DistinctPids(Snap()) && Live(Snap(), t)
      modifies this, links, boxes
      ensures Valid() && Snap() == KernelSpec.Chprio(old(Snap()), t, p)
      ensures code == ChprioResult(old(Snap()), t, p)
    {
      hide Rings, KernelSpec.Schedule, Reinsert, Linked, Mail, DistinctPids, QueueFromMsg;
      if t == idle || p > MAX_PRIO || p < MIN_PRIO {
        return -EINVAL;
      }
      ghost var k := Snap();
      code := Of(links.prio, t);
      FoundAfterChange(k, t, p);
      links.prio := links.prio[t := p];
      SameRings(k, Snap(), links.prev, links.next);
      var queue := FindQueue(t);
      if queue.Some? {
        QueueUpdate(t, queue.value);
      } else {
        NotRequeued(Snap(), t);
      }
      FoundAgain(k, t, p);
      if state[t] == InterruptedMsg {
        var waiting := FindMsgQueue(Of(pid, t));
        QueueUpdate(t, waiting.value);
        return;
      }
      var top := QueueTop(ReadyQueue);
      if t != running && state[t] == Ready && p > Of(links.prio, running) {
        Schedule();
      } else if t == running && Of(links.prio, top) > p {
        Schedule();
      }
    }

    // ---- runs

    /** One system call, clock tick or resumption, and what it returns. */
    method Perform(step: Step) returns (ret: Answer)
      requires Valid() && Inv(Snap()) && DistinctPids(Snap()) && Feasible(Snap(), step)
      modifies this, links, boxes
      ensures Valid() && Snap() == Apply(old(Snap()), step).kernel && ret == AnswerOf(old(Snap()), step)
    {
      hide Rings, Inv, DistinctPids, PsendAnswer, PreceiveAnswer, ResumeAnswer;
      LiveIsFeasible(Snap(), step);
      ret := Nothing;
      match step {
        case DoTick => Tick();
        case DoWaitClock(until) => WaitClock(until);
        case DoWaitChild => WaitChild();
        case DoStart(t, newPid, prio) => var code := Start(t, newPid, prio); ret := Returned(code);
        case DoChprio(t, p) => var code := Chprio(t, p); ret := Returned(code);
        case DoExit => Exit();
        case DoKill(t) =>
          var self := t == running != idle;
          var code := Kill(t);
          ret := if self then Nothing else Returned(code);
        case DoPsend(id, msg) => ret := Psend(id, msg);
        case DoPreceive(id) => ret := Preceive(id);
        case DoPcreate(count, junk) => var id := Pcreate(count, junk); ret := Returned(id);
        case DoResume => ret := Resume();
      }
    }

    /** Any run of the kernel: every assertion of queue.h holds along it, every call returns what the specification
        says, and it ends where the specification says. */
    method Execute(steps: seq<Step>) returns (answers: seq<Answer>)
      requires Valid() && Inv(Snap()) && DistinctPids(Snap()) && AllFeasible(Snap(), steps)
      modifies this, links, boxes
      ensures Valid() && Snap() == Run(old(Snap()), steps) && Inv(Snap()) && DistinctPids(Snap())
      ensures answers == AnswersOf(old(Snap()), steps)
    {
      hide Rings, Inv, DistinctPids, Apply, Feasible, AnswerOf;
      var i := 0;
      answers := [];
      assert steps[0..] == steps;
      while i < |steps|
        invariant 0 <= i <= |steps| && Valid() && Inv(Snap()) && DistinctPids(Snap())
        invariant AllFeasible(Snap(), steps[i..]) && Run(Snap(), steps[i..]) == Run(old(Snap()), steps)
        invariant answers + AnswersOf(Snap(), steps[i..]) == AnswersOf(old(Snap()), steps)
      {
        ghost var k := Snap();
        assert steps[i..][0] == steps[i] && steps[i..][1..] == steps[i + 1..];
        FeasibleKeeps(k, steps[i]);
        var answer := Perform(steps[i]);
        answers := answers + [answer];
        i := i + 1;
      }
    }
  }
}
