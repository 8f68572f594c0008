/** What every step of the kernel keeps: the single `tasks` link of each task is threaded into exactly
    the queue its state names, and no assertion of queue_add or queue_del fails. */
module KernelInv {
  import opened Options
  import opened Lists
  import opened QueueSpec
  import opened KernelSpec

  // ---- links

  /** Queue contents and links agree; queues are in ascending priority. */
  ghost predicate Threads(k: Kernel) {
    && (forall h: Head, e: Ptr :: e in QueueAt(k, h) <==> LinkOf(k, e) == Some(h))
    && (forall h: Head :: NoRepeats(QueueAt(k, h)) && Sorted(QueueAt(k, h), k.prio))
  }

  /** The queue named by the state of a task. */
  function Place(k: Kernel, t: Ptr): Option<Head> {
    match StateOf(k, t)
    case Startup => None
    case Running => None
    case Ready => Some(ReadyQueue)
    case Sleeping => Some(SleepingQueue)
    case Zombie => Some(ZombieQueue)
    case InterruptedChild => Some(ChildQueue)
    case InterruptedMsg =>
      match CallOf(k, t)
      case User => None
      case Sending(id, _) => Some(Senders(id))
      case Receiving(id) => Some(Receivers(id))
  }

  /** Every task is in exactly the queue its state names. */
  ghost predicate Linked(k: Kernel) {
    Threads(k) && forall u: Ptr :: LinkOf(k, u) == Place(k, u)
  }

  /** The same, but for one task that is in no queue. */
  ghost predicate LinkedBut(k: Kernel, t: Ptr) {
    Threads(k) && t !in k.link && forall u: Ptr :: u != t ==> LinkOf(k, u) == Place(k, u)
  }

  lemma DelThreads(k: Kernel, t: Ptr)
    requires Threads(k) && t in k.link
    ensures Threads(QueueDel(k, t)) && t !in QueueDel(k, t).link
  {
    var k', g := QueueDel(k, t), k.link[t];
    RemoveMembers(QueueAt(k, g), t);
    RemoveKeepsOrder(QueueAt(k, g), k.prio, t);
    forall h: Head, e: Ptr ensures e in QueueAt(k', h) <==> LinkOf(k', e) == Some(h) {
      assert e in QueueAt(k, h) <==> LinkOf(k, e) == Some(h);
      assert QueueAt(k', h) == if h == g then Remove(QueueAt(k, g), t) else QueueAt(k, h);
    }
    forall h: Head ensures NoRepeats(QueueAt(k', h)) && Sorted(QueueAt(k', h), k'.prio) {
      assert QueueAt(k', h) == if h == g then Remove(QueueAt(k, g), t) else QueueAt(k, h);
    }
  }

  lemma AddThreads(k: Kernel, t: Ptr, g: Head)
    requires Threads(k) && t !in k.link
    ensures Threads(QueueAdd(k, t, g)) && QueueAdd(k, t, g).ok == k.ok
  {
    var k' := QueueAdd(k, t, g);
    assert LinkOf(k, t) == None;
    assert t !in QueueAt(k, g);
    InsertMembers(QueueAt(k, g), k.prio, t);
    InsertKeepsOrder(QueueAt(k, g), k.prio, t);
    InsertKeepsDistinct(QueueAt(k, g), k.prio, t);
    forall h: Head, e: Ptr ensures e in QueueAt(k', h) <==> LinkOf(k', e) == Some(h) {
      assert e in QueueAt(k, h) <==> LinkOf(k, e) == Some(h);
      assert QueueAt(k', h) == if h == g then Insert(QueueAt(k, g), k.prio, t) else QueueAt(k, h);
    }
    forall h: Head ensures NoRepeats(QueueAt(k', h)) && Sorted(QueueAt(k', h), k'.prio) {
      assert QueueAt(k', h) == if h == g then Insert(QueueAt(k, g), k.prio, t) else QueueAt(k, h);
    }
  }

  lemma TakeOff(k: Kernel, t: Ptr)
    requires Linked(k) && t in k.link
    ensures LinkedBut(QueueDel(k, t), t) && QueueDel(k, t).ok == k.ok
  {
    DelThreads(k, t);
    var k' := QueueDel(k, t);
    forall u: Ptr | u != t ensures LinkOf(k', u) == Place(k', u) {
      assert LinkOf(k, u) == Place(k, u);
      SamePlace(k, k', u);
    }
  }

  lemma PutOn(k: Kernel, t: Ptr, h: Head)
    requires LinkedBut(k, t) && Place(k, t) == Some(h)
    ensures Linked(QueueAdd(k, t, h)) && QueueAdd(k, t, h).ok == k.ok
  {
    AddThreads(k, t, h);
    var k' := QueueAdd(k, t, h);
    forall u: Ptr ensures LinkOf(k', u) == Place(k', u) {
      assert u != t ==> LinkOf(k, u) == Place(k, u);
      SamePlace(k, k', u);
    }
  }

  lemma SamePlace(k: Kernel, k': Kernel, u: Ptr)
    requires StateOf(k', u) == StateOf(k, u) && CallOf(k', u) == CallOf(k, u)
    ensures Place(k', u) == Place(k, u)
  {
  }

  /** k' differs from k at most in what concerns t, outside the links. */
  ghost predicate OnlyTask(k: Kernel, k': Kernel, t: Ptr) {
    && k'.queues == k.queues && k'.link == k.link
    && forall u: Ptr :: u != t ==>
      StateOf(k', u) == StateOf(k, u) && CallOf(k', u) == CallOf(k, u) && Of(k'.prio, u) == Of(k.prio, u)
  }

  lemma EditLinkedBut(k: Kernel, k': Kernel, t: Ptr)
    requires LinkedBut(k, t) && OnlyTask(k, k', t)
    ensures LinkedBut(k', t)
  {
    assert forall h: Head :: QueueAt(k', h) == QueueAt(k, h);
    assert forall e: Ptr :: LinkOf(k', e) == LinkOf(k, e);
    forall h: Head ensures Sorted(QueueAt(k', h), k'.prio) {
      assert LinkOf(k, t) == None;
      assert t !in QueueAt(k, h);
      assert forall i :: 0 <= i < |QueueAt(k, h)| ==> QueueAt(k, h)[i] in QueueAt(k, h);
      assert Sorted(QueueAt(k, h), k.prio);
    }
    forall u: Ptr | u != t ensures LinkOf(k', u) == Place(k', u) {
      assert LinkOf(k, u) == Place(k, u);
      SamePlace(k, k', u);
    }
  }

  /** queue_out is queue_del of the last element. */
  lemma OutIsDel(k: Kernel, h: Head)
    requires Threads(k) && QueueAt(k, h) != []
    ensures Last(QueueAt(k, h)) in k.link && k.link[Last(QueueAt(k, h))] == h
    ensures QueueOut(k, h) == QueueDel(k, Last(QueueAt(k, h)))
  {
    var q := QueueAt(k, h);
    assert Last(q) in q;
    assert LinkOf(k, Last(q)) == Some(h);
    RemoveAt(q, |q| - 1);
    assert q[..|q| - 1] + q[|q| - 1 + 1..] == AllButLast(q);
  }

  // ---- who runs, and what the blocked tasks wait for

  ghost predicate Who(k: Kernel) {
    && (StateOf(k, k.idle) == Ready || StateOf(k, k.idle) == Running)
    && StateOf(k, k.running) != Ready && StateOf(k, k.running) != Startup
    && forall t: Ptr :: StateOf(k, t) == Running ==> t == k.running
  }

  /** The part of a task that belongs to the message protocol. */
  ghost predicate MailOf(k: Kernel, t: Ptr) {
    match CallOf(k, t)
    case User => StateOf(k, t) != InterruptedMsg
    case Sending(id, msg) =>
      Used(k, id) &&
      (StateOf(k, t) == InterruptedMsg ==> Full(k, id) && Of(k.msgVal, t) == msg != NONE) &&
      (StateOf(k, t) == Ready || StateOf(k, t) == Running ==> Of(k.msgVal, t) == NONE) &&
      StateOf(k, t) != Sleeping && StateOf(k, t) != InterruptedChild
    case Receiving(id) =>
      Used(k, id) &&
      (StateOf(k, t) == InterruptedMsg ==> Empty(k, id) && Of(k.msgVal, t) == NONE) &&
      StateOf(k, t) != Sleeping && StateOf(k, t) != InterruptedChild
  }

  ghost predicate Bounded(k: Kernel) {
    forall id :: id in k.mqs ==> 0 <= id < NBQUEUE && 0 < k.mqs[id].size && |k.mqs[id].msgs| <= k.mqs[id].size
  }

  ghost predicate Mail(k: Kernel) {
    Bounded(k) && forall t: Ptr :: MailOf(k, t)
  }

  /** What holds at every point where the kernel may switch tasks. */
  ghost predicate Base(k: Kernel) {
    k.ok && Linked(k) && Who(k) && Mail(k)
  }

  /** What holds whenever a task runs. */
  ghost predicate Inv(k: Kernel) {
    Base(k) && StateOf(k, k.running) == Running
  }

  /** k' agrees with k on everything the invariant speaks of, but for one task. */
  ghost predicate SameBut(k: Kernel, k': Kernel, t: Ptr) {
    && k'.idle == k.idle && k'.mqs == k.mqs
    && forall u: Ptr :: u != t ==>
      StateOf(k', u) == StateOf(k, u) && CallOf(k', u) == CallOf(k, u) && Of(k'.msgVal, u) == Of(k.msgVal, u)
  }

  lemma MailKept(k: Kernel, k': Kernel, t: Ptr)
    requires Mail(k) && SameBut(k, k', t) && MailOf(k', t)
    ensures Mail(k')
  {
    forall u: Ptr ensures MailOf(k', u) {
      assert MailOf(k, u);
    }
  }

  /** Clock and wake times are free. */
  lemma TimeKept(k: Kernel, wake: Field, clock: int)
    requires Base(k)
    ensures Base(k.(wake := wake, clock := clock))
  {
    var k' := k.(wake := wake, clock := clock);
    ThreadsKept(k, k');
    forall u: Ptr ensures LinkOf(k', u) == Place(k', u) {
      assert LinkOf(k, u) == Place(k, u);
    }
    MailKept(k, k', k.running) by { assert MailOf(k, k.running); }
    assert forall t: Ptr :: StateOf(k', t) == StateOf(k, t);
  }

  lemma ThreadsKept(k: Kernel, k': Kernel)
    requires Threads(k) && k'.queues == k.queues && k'.link == k.link && k'.prio == k.prio
    ensures Threads(k')
  {
    assert forall h: Head :: QueueAt(k', h) == QueueAt(k, h);
    assert forall e: Ptr :: LinkOf(k', e) == LinkOf(k, e);
  }

  // ---- the moves of one task

  lemma AddFrame(k: Kernel, t: Ptr, h: Head)
    ensures var r := QueueAdd(k, t, h); r == k.(queues := r.queues, link := r.link, ok := r.ok)
  {
    hide Insert, Remove;
  }

  lemma DelFrame(k: Kernel, t: Ptr)
    ensures var r := QueueDel(k, t); r == k.(queues := r.queues, link := r.link, ok := r.ok)
  {
    hide Remove, QueueAt;
    if t in k.link {
      var q := Remove(QueueAt(k, k.link[t]), t);
      assert QueueDel(k, t) == k.(queues := k.queues[k.link[t] := q], link := k.link - {t});
    }
  }

  /** A sleeping task, or one waiting for a child, becomes ready. */
  lemma ToReady(k: Kernel, t: Ptr)
    requires Base(k) && t != k.running && (StateOf(k, t) == Sleeping || StateOf(k, t) == InterruptedChild)
    ensures var k' := SetTaskState(k, t, Ready, ReadyQueue);
      Base(k') && k'.state == k.state[t := Ready] && k' == k.(state := k'.state, queues := k'.queues, link := k'.link)
  {
    hide QueueAdd, QueueDel, LinkedBut, Threads;
    assert LinkOf(k, t) == Place(k, t);
    TakeOff(k, t);
    DelFrame(k, t);
    var k1 := QueueDel(k, t);
    var k2 := SetState(k1, t, Ready);
    EditLinkedBut(k1, k2, t);
    PutOn(k2, t, ReadyQueue);
    AddFrame(k2, t, ReadyQueue);
    var k' := SetTaskState(k, t, Ready, ReadyQueue);
    assert MailOf(k, t);
    MailKept(k, k', t);
    assert Who(k') by { WhoKept(k, k', t); }
  }

  lemma WhoKept(k: Kernel, k': Kernel, t: Ptr)
    requires Who(k) && k'.idle == k.idle && k'.running == k.running && k'.state == k.state[t := Ready] && t != k.running
    ensures Who(k')
  {
    assert forall u: Ptr :: u != t ==> StateOf(k', u) == StateOf(k, u);
  }

  /** A task blocked on a message queue is taken off it and becomes ready. */
  lemma UnblockKeeps(k: Kernel, t: Ptr, v: int, h: Head)
    requires Inv(k) && IsMsgQueue(h) && QueueAt(k, h) != [] && t == Last(QueueAt(k, h))
    requires h.Senders? ==> v == NONE
    ensures var k' := QueueAdd(SetState(SetMsgVal(QueueOut(k, h), t, v), t, Ready), t, ReadyQueue);
      Inv(k') && k'.state == k.state[t := Ready] && t != k.running
  {
    OutIsDel(k, h);
    BlockedTask(k, t, h);
    TakeOff(k, t);
    var k1 := QueueDel(k, t);
    var k2 := SetState(SetMsgVal(k1, t, v), t, Ready);
    EditLinkedBut(k1, k2, t);
    PutOn(k2, t, ReadyQueue);
    var k' := QueueAdd(k2, t, ReadyQueue);
    assert MailOf(k, t);
    MailKept(k, k', t);
    WhoKept(k, k', t);
  }

  /** What is known of a task waiting on a message queue. */
  lemma BlockedTask(k: Kernel, t: Ptr, h: Head)
    requires Linked(k) && IsMsgQueue(h) && t in QueueAt(k, h)
    ensures LinkOf(k, t) == Some(h) && StateOf(k, t) == InterruptedMsg
    ensures h.Senders? ==> CallOf(k, t).Sending? && CallOf(k, t).id == h.id
    ensures h.Receivers? ==> CallOf(k, t) == Receiving(h.id)
  {
    assert LinkOf(k, t) == Place(k, t);
  }

  /** The running task leaves the processor for the queue of its new state. */
  lemma BlockKeeps(k: Kernel, k1: Kernel, h: Head)
    requires Inv(k) && k.running != k.idle && k1.ok && k1.running == k.running
    requires OnlyTask(k, k1, k.running) && SameBut(k, k1, k.running)
    requires MailOf(k1, k.running) && Place(k1, k.running) == Some(h)
    requires StateOf(k1, k.running) != Ready
    ensures Base(QueueAdd(k1, k.running, h))
  {
    var t := k.running;
    var k' := QueueAdd(k1, t, h);
    assert Linked(k') && k'.ok by {
      assert LinkOf(k, t) == Place(k, t);
      assert LinkedBut(k, t);
      EditLinkedBut(k, k1, t);
      PutOn(k1, t, h);
    }
    MovedTaskKept(k, k1, k', t);
  }

  /** Who and Mail after one task changed hands. */
  lemma MovedTaskKept(k: Kernel, k1: Kernel, k': Kernel, t: Ptr)
    requires Inv(k) && SameBut(k, k1, t) && MailOf(k1, t) && t == k.running && t != k.idle
    requires StateOf(k1, t) != Ready && StateOf(k1, t) != Startup && k1.running == k.running
    requires k' == k1.(queues := k'.queues, link := k'.link)
    ensures Who(k') && Mail(k')
  {
    assert MailOf(k', t);
    MailKept(k, k', t);
    assert forall u: Ptr :: u != t ==> StateOf(k', u) == StateOf(k, u);
  }

  // ---- schedule

  /** The same tasks are alive. */
  ghost predicate LiveKept(k: Kernel, k': Kernel) {
    forall u: Ptr :: Live(k', u) <==> Live(k, u)
  }

  /** No task sleeps past its wake time, and none that is ready outranks the running one. */
  ghost predicate Settled(k: Kernel) {
    && (forall t: Ptr :: StateOf(k, t) == Sleeping ==> !Due(k, t))
    && (forall t: Ptr :: StateOf(k, t) == Ready ==> Of(k.prio, t) <= Of(k.prio, k.running))
  }

  /** What a wake-up pass leaves as it was. */
  ghost predicate Woken(k: Kernel, k': Kernel) {
    && k'.running == k.running && k'.idle == k.idle && k'.clock == k.clock && k'.mqs == k.mqs && k'.call == k.call
    && k'.msgVal == k.msgVal && k'.prio == k.prio && k'.pid == k.pid && k'.parent == k.parent
    && forall t: Ptr :: StateOf(k', t) == StateOf(k, t) || (StateOf(k, t) == Sleeping && StateOf(k', t) == Ready)
  }

  /** The state of a task after a wake-up pass: a sleeper whose time has come is ready, and nothing else changes. */
  function AfterWake(k: Kernel, t: Ptr): State {
    if StateOf(k, t) == Sleeping && Due(k, t) then Ready else StateOf(k, t)
  }

  /** Sleepers outside the list are not due. */
  ghost predicate Pending(k: Kernel, sleepers: seq<Ptr>) {
    && NoRepeats(sleepers)
    && (forall t: Ptr :: t in sleepers ==> StateOf(k, t) == Sleeping)
    && (forall t: Ptr :: StateOf(k, t) == Sleeping && t !in sleepers ==> !Due(k, t))
  }

  lemma WakeOneKeeps(k: Kernel, t: Ptr)
    requires Base(k) && StateOf(k, t) == Sleeping && (t == k.running ==> !Due(k, t))
    ensures Base(WakeOne(k, t)) && Woken(k, WakeOne(k, t))
    ensures WakeOne(k, t).state == if Due(k, t) then k.state[t := Ready] else k.state
    ensures WakeOne(k, t).wake == if Due(k, t) then k.wake[t := 0] else k.wake
    ensures forall u: Ptr ::
      u != t ==> StateOf(WakeOne(k, t), u) == StateOf(k, u) && (Due(WakeOne(k, t), u) <==> Due(k, u))
    ensures StateOf(WakeOne(k, t), t) == Sleeping ==> !Due(WakeOne(k, t), t)
  {
    hide Linked, Who, Mail, SetTaskState;
    if Due(k, t) {
      var k1 := k.(wake := k.wake[t := 0]);
      TimeKept(k, k1.wake, k.clock);
      ToReady(k1, t);
    }
  }

  lemma PendingTail(k: Kernel, sleepers: seq<Ptr>)
    requires sleepers != [] && Base(k) && Pending(k, sleepers)
    requires StateOf(k, k.running) == Sleeping ==> !Due(k, k.running)
    ensures var t, k1 := sleepers[0], WakeOne(k, sleepers[0]);
      && Base(k1) && Pending(k1, sleepers[1..]) && (StateOf(k1, k1.running) == Sleeping ==> !Due(k1, k1.running))
      && k1.state == (if Due(k, t) then k.state[t := Ready] else k.state) && k1.clock == k.clock
      && k1.wake == (if Due(k, t) then k.wake[t := 0] else k.wake) && StateOf(k, t) == Sleeping
  {
    hide Base;
    var t, k1 := sleepers[0], WakeOne(k, sleepers[0]);
    WakeOneKeeps(k, t);
    assert t !in sleepers[1..];
    forall u: Ptr | StateOf(k1, u) == Sleeping && u !in sleepers[1..] ensures !Due(k1, u) {
      assert u != t ==> u !in sleepers;
    }
  }

  lemma {:induction false} WakeAllKeeps(k: Kernel, sleepers: seq<Ptr>)
    requires Base(k) && Pending(k, sleepers)
    requires StateOf(k, k.running) == Sleeping ==> !Due(k, k.running)
    ensures Base(WakeAll(k, sleepers)) && Woken(k, WakeAll(k, sleepers))
    ensures Pending(WakeAll(k, sleepers), [])
    decreases |sleepers|
  {
    hide Base, WakeOne;
    if sleepers != [] {
      PendingTail(k, sleepers);
      WakeOneKeeps(k, sleepers[0]);
      WakeAllKeeps(WakeOne(k, sleepers[0]), sleepers[1..]);
    }
  }

  /** It wakes exactly the sleepers whose time has come. */
  lemma {:induction false} WakeAllWakes(k: Kernel, sleepers: seq<Ptr>)
    requires Base(k) && Pending(k, sleepers)
    requires StateOf(k, k.running) == Sleeping ==> !Due(k, k.running)
    ensures forall t: Ptr :: StateOf(WakeAll(k, sleepers), t) == AfterWake(k, t)
    ensures forall t: Ptr :: AfterWake(k, t) == StateOf(k, t) ==> Of(WakeAll(k, sleepers).wake, t) == Of(k.wake, t)
    decreases |sleepers|
  {
    hide Base, WakeOne;
    if sleepers != [] {
      var k1 := WakeOne(k, sleepers[0]);
      PendingTail(k, sleepers);
      hide Pending;
      WakeAllWakes(k1, sleepers[1..]);
      forall t: Ptr ensures AfterWake(k1, t) == AfterWake(k, t) {
      }
    }
  }

  lemma SleepersPending(k: Kernel)
    requires Linked(k)
    ensures Pending(k, QueueAt(k, SleepingQueue))
  {
    forall t: Ptr ensures StateOf(k, t) == Sleeping <==> t in QueueAt(k, SleepingQueue) {
      assert LinkOf(k, t) == Place(k, t);
    }
  }

  /** The ready task of highest priority, oldest first. */
  lemma TopOfReady(k: Kernel)
    requires Linked(k) && QueueAt(k, ReadyQueue) != []
    ensures var n := Last(QueueAt(k, ReadyQueue)); StateOf(k, n) == Ready && LinkOf(k, n) == Some(ReadyQueue)
    ensures forall t: Ptr :: StateOf(k, t) == Ready ==> Of(k.prio, t) <= Of(k.prio, Last(QueueAt(k, ReadyQueue)))
  {
    var q := QueueAt(k, ReadyQueue);
    assert Last(q) in q;
    assert LinkOf(k, Last(q)) == Place(k, Last(q));
    forall t: Ptr | StateOf(k, t) == Ready ensures Of(k.prio, t) <= Of(k.prio, Last(q)) {
      assert LinkOf(k, t) == Place(k, t);
      assert t in q;
      var i :| 0 <= i < |q| && q[i] == t;
    }
  }

  /** k' is k with t in state s, as far as states, priorities and wake times go. */
  ghost predicate StateSet(k: Kernel, k': Kernel, t: Ptr, s: State) {
    && k'.idle == k.idle && k'.prio == k.prio && k'.wake == k.wake && k'.clock == k.clock
    && StateOf(k', t) == s && forall u: Ptr :: u != t ==> StateOf(k', u) == StateOf(k, u)
  }

  lemma PreemptKeeps(k: Kernel)
    requires Base(k) && QueueAt(k, ReadyQueue) != []
    ensures Preempt(k).ok && Linked(Preempt(k)) && Mail(Preempt(k))
    ensures StateOf(Preempt(k), k.idle) == Ready && forall u: Ptr :: StateOf(Preempt(k), u) != Running
    ensures StateSet(k, Preempt(k), k.running,
      if StateOf(k, k.running) == Running then Ready else StateOf(k, k.running))
  {
    var t := k.running;
    if StateOf(k, t) == Running {
      assert LinkOf(k, t) == Place(k, t);
      var k1 := SetState(k, t, Ready);
      EditLinkedBut(k, k1, t);
      PutOn(k1, t, ReadyQueue);
      assert MailOf(k, t);
      MailKept(k, QueueAdd(k1, t, ReadyQueue), t);
    } else {
      IdleIsReady(k);
    }
  }

  /** A ready task takes the processor nobody holds. */
  lemma TakeOver(k: Kernel, t: Ptr)
    requires k.ok && Linked(k) && Mail(k) && StateOf(k, t) == Ready
    requires StateOf(k, k.idle) == Ready && forall u: Ptr :: StateOf(k, u) != Running
    ensures Inv(SetTaskRunning(k, t)) && SetTaskRunning(k, t).running == t
    ensures StateSet(k, SetTaskRunning(k, t), t, Running)
  {
    assert LinkOf(k, t) == Place(k, t);
    TakeOff(k, t);
    var k1 := QueueDel(k, t);
    var k2 := SetTaskRunning(k, t);
    EditLinkedBut(k1, k2, t);
    assert LinkOf(k2, t) == Place(k2, t);
    assert MailOf(k, t);
    MailKept(k, k2, t);
    assert forall u: Ptr :: u != t ==> StateOf(k2, u) == StateOf(k, u);
  }

  lemma IdleIsReady(k: Kernel)
    requires Base(k) && (StateOf(k, k.running) != Running || k.running != k.idle)
    ensures StateOf(k, k.idle) == Ready && QueueAt(k, ReadyQueue) != []
  {
    assert LinkOf(k, k.idle) == Place(k, k.idle);
    assert k.idle in QueueAt(k, ReadyQueue);
  }

  lemma ReadyIsListed(k: Kernel)
    requires Linked(k)
    ensures forall t: Ptr :: StateOf(k, t) == Ready <==> t in QueueAt(k, ReadyQueue)
  {
    forall t: Ptr ensures StateOf(k, t) == Ready <==> t in QueueAt(k, ReadyQueue) {
      assert LinkOf(k, t) == Place(k, t);
    }
  }

  lemma SwitchSettles(k: Kernel, k1: Kernel, k': Kernel, n: Ptr)
    requires StateOf(k, n) == Ready && n != k.running && k'.running == n && Pending(k, [])
    requires forall t: Ptr :: StateOf(k, t) == Ready ==> Of(k.prio, t) <= Of(k.prio, n)
    requires StateOf(k, k.running) == Running ==> Of(k.prio, k.running) <= Of(k.prio, n)
    requires StateSet(k, k1, k.running, if StateOf(k, k.running) == Running then Ready else StateOf(k, k.running))
    requires StateSet(k1, k', n, Running)
    ensures Settled(k') && LiveKept(k, k')
  {
    forall u: Ptr ensures Live(k', u) <==> Live(k, u) {
      assert u != n ==> StateOf(k', u) == StateOf(k1, u);
    }
    forall t: Ptr
      ensures StateOf(k', t) == Ready ==> StateOf(k, t) == Ready || (t == k.running && StateOf(k, t) == Running)
    {
      assert t != n ==> StateOf(k', t) == StateOf(k1, t);
    }
    forall t: Ptr ensures StateOf(k', t) == Sleeping ==> StateOf(k, t) == Sleeping {
      assert t != n ==> StateOf(k', t) == StateOf(k1, t);
    }
  }

  lemma StaySettles(k: Kernel)
    requires Base(k) && Pending(k, [])
    requires QueueAt(k, ReadyQueue) == [] ||
      (StateOf(k, k.running) == Running && Of(k.prio, k.running) > Of(k.prio, Last(QueueAt(k, ReadyQueue))))
    ensures Inv(k) && Settled(k)
  {
    if QueueAt(k, ReadyQueue) == [] {
      ReadyIsListed(k);
      if StateOf(k, k.running) != Running {
        IdleIsReady(k);
      }
    } else {
      TopOfReady(k);
    }
  }

  lemma DispatchKeeps(k: Kernel)
    requires Base(k) && Pending(k, [])
    ensures Inv(Dispatch(k)) && Settled(Dispatch(k)) && LiveKept(k, Dispatch(k))
  {
    var ready, r := QueueAt(k, ReadyQueue), k.running;
    if ready == [] || (StateOf(k, r) == Running && Of(k.prio, r) > Of(k.prio, Last(ready))) {
      StaySettles(k);
    } else {
      TopOfReady(k);
      PreemptKeeps(k);
      TakeOver(Preempt(k), Last(ready));
      SwitchSettles(k, Preempt(k), Dispatch(k), Last(ready));
    }
  }

  /** schedule ends with a task running that no ready task outranks, and no overslept task. */
  lemma ScheduleKeeps(k: Kernel)
    requires Base(k) && (StateOf(k, k.running) == Sleeping ==> !Due(k, k.running))
    ensures Inv(Schedule(k)) && Settled(Schedule(k)) && LiveKept(k, Schedule(k))
  {
    SleepersPending(k);
    WakeAllKeeps(k, QueueAt(k, SleepingQueue));
    var k1 := WakeAll(k, QueueAt(k, SleepingQueue));
    DispatchKeeps(k1);
    forall u: Ptr ensures Live(Schedule(k), u) <==> Live(k, u) {
      assert Live(k1, u) <==> Live(k, u);
    }
  }
}
