/** Order of arrival: over every run each queue of the kernel is in order of priority and, within one priority, of
    arrival, and the processor goes to the ready task of highest priority that has waited longest. */
module KernelAges {
  import opened Options
  import opened Lists
  import opened QueueSpec
  import opened KernelSpec
  import opened KernelInv
  import opened KernelSteps
  import opened KernelMsg
  import opened KernelRuns
  import opened KernelMoves

  /** When each task entered the queue it is in, and a date later than all of these. */
  datatype Book = Book(since: Field, now: int)

  /** t enters a queue. */
  function Stamp(b: Book, t: Ptr): Book {
    Book(b.since[t := b.now], b.now + 1)
  }

  ghost predicate Past(q: seq<Ptr>, b: Book) {
    forall x :: x in q ==> Of(b.since, x) < b.now
  }

  /** Every queue is in order of priority and, within one priority, of arrival. */
  ghost predicate Aged(k: Kernel, b: Book) {
    forall h: Head :: Stable(QueueAt(k, h), k.prio, b.since) && Past(QueueAt(k, h), b)
  }

  lemma OtherQueueAged(q: seq<Ptr>, prio: Field, prio': Field, b: Book, t: Ptr)
    requires Stable(q, prio, b.since) && Past(q, b) && t !in q
    requires forall x: Ptr :: x != t ==> Of(prio', x) == Of(prio, x)
    ensures Stable(q, prio', Stamp(b, t).since) && Past(q, Stamp(b, t)) && Stable(q, prio', b.since)
  {
    hide Behind;
    assert forall i :: 0 <= i < |q| ==> q[i] in q;
    forall i, j | 0 <= i < j < |q|
      ensures Behind(q[i], q[j], prio', Stamp(b, t).since) && Behind(q[i], q[j], prio', b.since)
    {
      assert Behind(q[i], q[j], prio, b.since);
      SameBehind(q[i], q[j], prio, prio', b.since, b.since);
      SameBehind(q[i], q[j], prio, prio', b.since, Stamp(b, t).since);
    }
  }

  lemma SameBehind(x: Ptr, y: Ptr, prio: Field, prio': Field, since: Field, since': Field)
    requires Of(prio', x) == Of(prio, x) && Of(prio', y) == Of(prio, y)
    requires Of(since', x) == Of(since, x) && Of(since', y) == Of(since, y)
    ensures Behind(x, y, prio', since') == Behind(x, y, prio, since)
  {
  }

  // ---- the moves of one task

  /** queue_add: the newcomer is the youngest of its priority. */
  lemma AddAges(k: Kernel, t: Ptr, h: Head, b: Book)
    requires Threads(k) && t !in k.link && Aged(k, b)
    ensures Aged(QueueAdd(k, t, h), Stamp(b, t))
  {
    hide Stable, Insert;
    var k' := QueueAdd(k, t, h);
    assert LinkOf(k, t) == None;
    forall g: Head
      ensures Stable(QueueAt(k', g), k'.prio, Stamp(b, t).since) && Past(QueueAt(k', g), Stamp(b, t))
    {
      assert t !in QueueAt(k, g);
      assert QueueAt(k', g) == if g == h then Insert(QueueAt(k, h), k.prio, t) else QueueAt(k, g);
      OtherQueueAged(QueueAt(k, g), k.prio, k.prio, b, t);
      if g == h {
        var q := QueueAt(k, h);
        assert forall i :: 0 <= i < |q| ==> q[i] in q;
        InsertStable(q, k.prio, b.since, t, b.now);
        InsertMembers(q, k.prio, t);
      }
    }
  }

  lemma DelAges(k: Kernel, t: Ptr, b: Book)
    requires Threads(k) && t in k.link && Aged(k, b)
    ensures Aged(QueueDel(k, t), b)
  {
    hide Stable, Remove;
    var k', h := QueueDel(k, t), k.link[t];
    RemoveStable(QueueAt(k, h), k.prio, b.since, t);
    RemoveMembers(QueueAt(k, h), t);
    forall g: Head ensures Stable(QueueAt(k', g), k'.prio, b.since) && Past(QueueAt(k', g), b) {
      assert QueueAt(k', g) == if g == h then Remove(QueueAt(k, h), t) else QueueAt(k, g);
    }
  }

  /** A task in no queue may change. */
  lemma EditAges(k: Kernel, k': Kernel, t: Ptr, b: Book)
    requires Threads(k) && t !in k.link && Aged(k, b) && k'.queues == k.queues
    requires forall x: Ptr :: x != t ==> Of(k'.prio, x) == Of(k.prio, x)
    ensures Aged(k', b)
  {
    hide Stable;
    assert LinkOf(k, t) == None;
    forall g: Head ensures Stable(QueueAt(k', g), k'.prio, b.since) && Past(QueueAt(k', g), b) {
      assert t !in QueueAt(k, g) && QueueAt(k', g) == QueueAt(k, g);
      OtherQueueAged(QueueAt(k, g), k.prio, k'.prio, b, t);
    }
  }

  /** b' dates anew only tasks of a set, and every task that has entered a queue, later than all dates of b. */
  ghost predicate Dated(k: Kernel, b: Book, k': Kernel, b': Book, moved: iset<Ptr>) {
    && b'.now >= b.now
    && (forall t: Ptr :: Of(b'.since, t) == Of(b.since, t) || (t in moved && Of(b'.since, t) >= b.now))
    && (forall t: Ptr :: t in k'.link && LinkOf(k', t) != LinkOf(k, t) ==> Of(b'.since, t) >= b.now)
  }

  lemma DatedThrough(k: Kernel, b: Book, k1: Kernel, b1: Book, k2: Kernel, b2: Book, m1: iset<Ptr>, m2: iset<Ptr>)
    requires Dated(k, b, k1, b1, m1) && Dated(k1, b1, k2, b2, m2)
    ensures Dated(k, b, k2, b2, m1 + m2)
  {
    forall t: Ptr | t in k2.link && LinkOf(k2, t) != LinkOf(k, t) ensures Of(b2.since, t) >= b.now {
      if LinkOf(k2, t) == LinkOf(k1, t) {
        assert t in k1.link;
      }
    }
  }

  lemma AddDates(k: Kernel, b: Book, k': Kernel, t: Ptr)
    requires forall u: Ptr :: u != t ==> LinkOf(k', u) == LinkOf(k, u)
    ensures Dated(k, b, k', Stamp(b, t), iset{t})
  {
  }

  lemma NoDates(k: Kernel, b: Book, k': Kernel)
    requires forall u: Ptr :: u in k'.link ==> LinkOf(k', u) == LinkOf(k, u)
    ensures Dated(k, b, k', b, iset{})
  {
  }

  // ---- schedule

  lemma WakeOneAges(k: Kernel, t: Ptr, b: Book)
    requires Base(k) && StateOf(k, t) == Sleeping && (t == k.running ==> !Due(k, t)) && Aged(k, b)
    ensures Aged(WakeOne(k, t), if Due(k, t) then Stamp(b, t) else b)
    ensures forall u: Ptr :: u != t || !Due(k, t) ==> LinkOf(WakeOne(k, t), u) == LinkOf(k, u)
  {
    hide Aged, Mail;
    if Due(k, t) {
      var k1 := k.(wake := k.wake[t := 0]);
      assert LinkOf(k, t) == Place(k, t);
      TakeOffAges(k, k1, t, b);
      var k2 := SetState(QueueDel(k1, t), t, Ready);
      ReadyAges(QueueDel(k1, t), k2, t, b);
    }
  }

  lemma TakeOffAges(k: Kernel, k1: Kernel, t: Ptr, b: Book)
    requires Threads(k) && t in k.link && Aged(k, b) && k1.queues == k.queues && k1.link == k.link && k1.prio == k.prio
    ensures Aged(QueueDel(k1, t), b) && Threads(QueueDel(k1, t)) && t !in QueueDel(k1, t).link
  {
    hide Stable, Past, Remove;
    ThreadsKept(k, k1);
    assert forall h: Head :: QueueAt(k1, h) == QueueAt(k, h);
    DelAges(k1, t, b);
    DelThreads(k1, t);
  }

  /** A task off all queues changes, and enters one. */
  lemma EnterAges(k: Kernel, k1: Kernel, t: Ptr, h: Head, b: Book)
    requires Threads(k) && t !in k.link && Aged(k, b) && k1.queues == k.queues && k1.link == k.link
    requires forall x: Ptr :: x != t ==> Of(k1.prio, x) == Of(k.prio, x)
    requires Threads(k1)
    ensures Aged(QueueAdd(k1, t, h), Stamp(b, t))
  {
    hide Aged, Threads, QueueAdd;
    EditAges(k, k1, t, b);
    AddAges(k1, t, h, b);
  }

  lemma ReadyAges(k: Kernel, k1: Kernel, t: Ptr, b: Book)
    requires Threads(k) && t !in k.link && Aged(k, b) && k1 == SetState(k, t, Ready)
    ensures Aged(QueueAdd(k1, t, ReadyQueue), Stamp(b, t))
  {
    hide Aged, QueueAdd;
    ThreadsKept(k, k1);
    EnterAges(k, k1, t, ReadyQueue, b);
  }

  /** The tasks that a wake-up pass makes ready. */
  ghost function Woken(k: Kernel): iset<Ptr> {
    iset t: Ptr | AfterWake(k, t) != StateOf(k, t)
  }

  lemma {:induction false} WakeAllAges(k: Kernel, sleepers: seq<Ptr>, b: Book) returns (b': Book)
    requires Base(k) && Pending(k, sleepers) && Aged(k, b)
    requires StateOf(k, k.running) == Sleeping ==> !Due(k, k.running)
    ensures Aged(WakeAll(k, sleepers), b') && Dated(k, b, WakeAll(k, sleepers), b', Woken(k))
    decreases |sleepers|
  {
    hide Base, WakeOne, Aged, Dated;
    b' := b;
    if sleepers == [] {
      NoDates(k, b, k);
      FewerDates(k, b, k, b, iset{}, Woken(k));
    } else {
      var t, k1 := sleepers[0], WakeOne(k, sleepers[0]);
      PendingTail(k, sleepers);
      WakeOneAges(k, t, b);
      var b1 := if Due(k, t) then Stamp(b, t) else b;
      var m := if Due(k, t) then iset{t} else iset{};
      if Due(k, t) {
        AddDates(k, b, k1, t);
      } else {
        NoDates(k, b, k1);
      }
      hide Pending;
      b' := WakeAllAges(k1, sleepers[1..], b1);
      DatedThrough(k, b, k1, b1, WakeAll(k, sleepers), b', m, Woken(k1));
      forall u: Ptr | u in m + Woken(k1) ensures u in Woken(k) {
        assert AfterWake(k1, u) == AfterWake(k, u);
      }
      FewerDates(k, b, WakeAll(k, sleepers), b', m + Woken(k1), Woken(k));
    }
  }

  lemma FewerDates(k: Kernel, b: Book, k': Kernel, b': Book, m: iset<Ptr>, more: iset<Ptr>)
    requires Dated(k, b, k', b', m) && m <= more
    ensures Dated(k, b, k', b', more)
  {
  }

  /** Among the ready tasks none is of higher priority than r, and none of the same has waited longer. */
  ghost predicate Oldest(k: Kernel, b: Book, r: Ptr) {
    forall x: Ptr :: x in QueueAt(k, ReadyQueue) ==> Behind(x, r, k.prio, b.since)
  }

  lemma PreemptAges(k: Kernel, b: Book)
    requires Base(k) && Aged(k, b)
    ensures Aged(Preempt(k), if StateOf(k, k.running) == Running then Stamp(b, k.running) else b)
  {
    hide Aged, QueueAdd, Threads, Mail;
    if StateOf(k, k.running) == Running {
      assert LinkOf(k, k.running) == Place(k, k.running);
      ReadyAges(k, SetState(k, k.running, Ready), k.running, b);
    }
  }

  lemma TakeOverAges(k: Kernel, t: Ptr, b: Book)
    requires Linked(k) && StateOf(k, t) == Ready && Aged(k, b)
    ensures Aged(SetTaskRunning(k, t), b) && t in k.link && k.link[t] == ReadyQueue
    ensures QueueAt(SetTaskRunning(k, t), ReadyQueue) == Remove(QueueAt(k, ReadyQueue), t)
  {
    hide Stable, Past, Remove;
    assert LinkOf(k, t) == Place(k, t);
    DelAges(k, t, b);
    var k' := SetTaskRunning(k, t);
    assert forall h: Head :: QueueAt(k', h) == QueueAt(QueueDel(k, t), h);
  }

  /** The running task, if it can go on, becomes the youngest of its priority, and the oldest of the highest priority
      runs. */
  lemma SwitchOldest(k: Kernel, b: Book)
    requires Base(k) && Aged(k, b) && QueueAt(k, ReadyQueue) != []
    requires StateOf(k, k.running) == Running ==> Of(k.prio, k.running) <= Of(k.prio, Last(QueueAt(k, ReadyQueue)))
    ensures var n := Last(QueueAt(k, ReadyQueue));
      var b' := if StateOf(k, k.running) == Running then Stamp(b, k.running) else b;
      Aged(SetTaskRunning(Preempt(k), n), b') && Oldest(SetTaskRunning(Preempt(k), n), b', n) &&
      SetTaskRunning(Preempt(k), n).running == n
  {
    hide Stable, Insert, Remove, Mail, SetTaskRunning, Aged;
    var q, r := QueueAt(k, ReadyQueue), k.running;
    var n, b' := Last(q), if StateOf(k, r) == Running then Stamp(b, r) else b;
    TopOfReady(k);
    PreemptKeeps(k);
    PreemptAges(k, b);
    var k1 := Preempt(k);
    TakeOverAges(k1, n, b');
    ReadyAfterPreempt(k);
    RemoveMembers(QueueAt(k1, ReadyQueue), n);
    ReadyPast(k, b);
    OutIsOldestOfHighest(q, k.prio, b.since);
    hide Linked, Preempt;
    RunningFrame(k1, n);
    forall x: Ptr | x in QueueAt(SetTaskRunning(k1, n), ReadyQueue) ensures Behind(x, n, k.prio, b'.since) {
      assert x != n;
      if x in q {
        SameBehind(x, n, k.prio, k.prio, b.since, b'.since);
      }
    }
  }

  lemma ReadyPast(k: Kernel, b: Book)
    requires Linked(k) && Aged(k, b) && QueueAt(k, ReadyQueue) != [] && StateOf(k, k.running) != Ready
    ensures Stable(QueueAt(k, ReadyQueue), k.prio, b.since) && Past(QueueAt(k, ReadyQueue), b)
    ensures k.running !in QueueAt(k, ReadyQueue) && Of(b.since, Last(QueueAt(k, ReadyQueue))) < b.now
  {
    ReadyIsListed(k);
    assert Last(QueueAt(k, ReadyQueue)) in QueueAt(k, ReadyQueue);
  }

  lemma ReadyAfterPreempt(k: Kernel)
    requires Base(k) && QueueAt(k, ReadyQueue) != []
    ensures forall x: Ptr :: x in QueueAt(Preempt(k), ReadyQueue) <==>
      x in QueueAt(k, ReadyQueue) || (x == k.running && StateOf(k, k.running) == Running)
  {
    PreemptKeeps(k);
    ReadyIsListed(k);
    ReadyIsListed(Preempt(k));
  }

  lemma PreemptLinks(k: Kernel)
    requires StateOf(k, k.running) == Running ==> k.running !in k.link
    ensures forall u: Ptr ::
      u != k.running || StateOf(k, k.running) != Running ==> LinkOf(Preempt(k), u) == LinkOf(k, u)
  {
    hide Insert, QueueAt, QueueDel;
  }

  lemma TakeLinks(k: Kernel, n: Ptr)
    requires StateOf(k, n) == Ready
    ensures forall u: Ptr :: u in SetTaskRunning(k, n).link ==> LinkOf(SetTaskRunning(k, n), u) == LinkOf(k, u)
  {
    assert QueueDel(k, n).link == if n in k.link then k.link - {n} else k.link;
    assert SetTaskRunning(k, n).link == QueueDel(k, n).link;
    hide QueueDel, SetTaskRunning;
    forall u: Ptr | u in SetTaskRunning(k, n).link ensures LinkOf(SetTaskRunning(k, n), u) == LinkOf(k, u) {
    }
  }

  /** Who enters a queue when the processor changes hands. */
  lemma SwitchLinks(k: Kernel, n: Ptr)
    requires Base(k) && StateOf(Preempt(k), n) == Ready
    ensures var k' := SetTaskRunning(Preempt(k), n);
      forall u: Ptr :: u in k'.link && (u != k.running || StateOf(k, k.running) != Running) ==>
        LinkOf(k', u) == LinkOf(k, u)
  {
    hide Threads, Mail, SetTaskRunning, Preempt;
    assert LinkOf(k, k.running) == Place(k, k.running);
    PreemptLinks(k);
    TakeLinks(Preempt(k), n);
  }

  lemma SwitchDates(k: Kernel, b: Book, k': Kernel, r: Ptr, entered: bool)
    requires forall u: Ptr :: u in k'.link && (u != r || !entered) ==> LinkOf(k', u) == LinkOf(k, u)
    ensures Dated(k, b, k', if entered then Stamp(b, r) else b, iset{r})
  {
  }

  lemma DispatchAges(k: Kernel, b: Book) returns (b': Book)
    requires Base(k) && Aged(k, b)
    ensures Aged(Dispatch(k), b') && (Dispatch(k).running != k.running ==> Oldest(Dispatch(k), b', Dispatch(k).running))
    ensures Dated(k, b, Dispatch(k), b', iset{k.running})
  {
    hide Aged, Oldest, SetTaskRunning, Preempt, Linked, Mail, Dated;
    b' := b;
    if Dispatch(k) == k {
      SwitchDates(k, b, k, k.running, false);
    } else {
      SwitchOldest(k, b);
      var n, entered := Last(QueueAt(k, ReadyQueue)), StateOf(k, k.running) == Running;
      b' := if entered then Stamp(b, k.running) else b;
      TopOfReady(k);
      PreemptKeeps(k);
      SwitchLinks(k, n);
      SwitchDates(k, b, Dispatch(k), k.running, entered);
    }
  }

  /** What a step of the kernel does to the order of arrival when it ends with schedule. */
  lemma ScheduleAges(k: Kernel, b: Book) returns (b': Book)
    requires Base(k) && (StateOf(k, k.running) == Sleeping ==> !Due(k, k.running)) && Aged(k, b)
    ensures Aged(Schedule(k), b') && Dated(k, b, Schedule(k), b', Woken(k) + iset{k.running})
    ensures Schedule(k).running != k.running ==> Oldest(Schedule(k), b', Schedule(k).running)
  {
    hide Aged, Oldest, Dispatch, WakeAll, Linked, Mail, Dated;
    SleepersPending(k);
    hide Base;
    var sleepers := QueueAt(k, SleepingQueue);
    WakeAllKeeps(k, sleepers);
    var b1 := WakeAllAges(k, sleepers, b);
    var k1 := WakeAll(k, sleepers);
    b' := DispatchAges(k1, b1);
    DatedThrough(k, b, k1, b1, Schedule(k), b', Woken(k), iset{k.running});
  }

  // ---- the steps

  /** Dates after a step: every queue is in order of arrival; a task that has entered a queue is dated anew, one that
      has stayed in its queue keeps its date unless chprio named it; and a task that takes the processor is, of the
      ready tasks of highest priority, the one that has waited longest. */
  ghost predicate Arrives(k: Kernel, b: Book, k': Kernel, b': Book, moved: iset<Ptr>) {
    Aged(k', b') && Dated(k, b, k', b', moved) && (k'.running != k.running ==> Oldest(k', b', k'.running))
  }

  /** The task that runs, those that a step puts in another state, and the one that chprio names. */
  ghost function Movers(k: Kernel, step: Step): iset<Ptr> {
    iset t: Ptr | t == k.running || Fate(k, step, t) != StateOf(k, t) || (step.DoChprio? && t == step.target)
  }

  lemma ScheduleArrives(k: Kernel, step: Step, b: Book, k1: Kernel, b1: Book, m: iset<Ptr>) returns (b': Book)
    requires Base(k1) && (StateOf(k1, k1.running) == Sleeping ==> !Due(k1, k1.running)) && k1.running == k.running
    requires Aged(k1, b1) && Dated(k, b, k1, b1, m) && m + Woken(k1) + iset{k.running} <= Movers(k, step)
    ensures Arrives(k, b, Schedule(k1), b', Movers(k, step))
  {
    hide Aged, Dated, Oldest, Base, Schedule;
    b' := ScheduleAges(k1, b1);
    var m' := Woken(k1) + iset{k1.running};
    DatedThrough(k, b, k1, b1, Schedule(k1), b', m, m');
    FewerDates(k, b, Schedule(k1), b', m + m', Movers(k, step));
  }

  lemma StayArrives(k: Kernel, step: Step, b: Book, k1: Kernel, b1: Book, m: iset<Ptr>)
    requires Aged(k1, b1) && Dated(k, b, k1, b1, m) && m <= Movers(k, step) && k1.running == k.running
    ensures Arrives(k, b, k1, b1, Movers(k, step))
  {
    hide Aged, Dated;
    FewerDates(k, b, k1, b1, m, Movers(k, step));
  }

  /** Nobody but the tasks it names wakes where a step stands before schedule. */
  lemma PoisedMovers(k: Kernel, step: Step, k1: Kernel, m: iset<Ptr>)
    requires Poised(k, step, k1) && m <= Movers(k, step)
    requires forall t: Ptr :: t !in m ==> StateOf(k1, t) == StateOf(k, t)
    ensures m + Woken(k1) + iset{k.running} <= Movers(k, step)
  {
    hide Fate;
    forall t: Ptr | t in Woken(k1) && t !in m ensures t in Movers(k, step) {
      assert AfterWake(k1, t) == Fate(k, step, t);
    }
  }

  lemma TickArrives(k: Kernel, b: Book) returns (b': Book)
    requires Inv(k) && Pending(k, []) && Aged(k, b)
    ensures Arrives(k, b, Tick(k), b', Movers(k, DoTick))
  {
    hide Schedule, Stable, Past;
    var k1 := k.(clock := (k.clock + 1) % CLOCK_MODULUS);
    TimeKept(k, k.wake, k1.clock);
    assert Aged(k1, b) by { assert forall h: Head :: QueueAt(k1, h) == QueueAt(k, h); }
    NoDates(k, b, k1);
    assert Poised(k, DoTick, k1);
    PoisedMovers(k, DoTick, k1, iset{});
    hide Aged, Dated, Base, Movers, Arrives;
    b' := ScheduleArrives(k, DoTick, b, k1, b, iset{});
  }

  /** The running task enters a queue and gives the processor up. */
  lemma LeaveAges(k: Kernel, k0: Kernel, h: Head, b: Book)
    requires Inv(k) && Aged(k, b) && k0.queues == k.queues && k0.link == k.link
    requires forall x: Ptr :: x != k.running ==> Of(k0.prio, x) == Of(k.prio, x)
    ensures Aged(QueueAdd(k0, k.running, h), Stamp(b, k.running))
    ensures Dated(k, b, QueueAdd(k0, k.running, h), Stamp(b, k.running), iset{k.running})
  {
    assert LinkOf(k, k.running) == Place(k, k.running);
    EnterQueue(k, k0, k.running, h, b);
  }

  /** A task in no queue enters one. */
  lemma EnterQueue(k: Kernel, k0: Kernel, t: Ptr, h: Head, b: Book)
    requires Threads(k) && t !in k.link && Aged(k, b) && k0.queues == k.queues && k0.link == k.link
    requires forall x: Ptr :: x != t ==> Of(k0.prio, x) == Of(k.prio, x)
    ensures Aged(QueueAdd(k0, t, h), Stamp(b, t)) && Dated(k, b, QueueAdd(k0, t, h), Stamp(b, t), iset{t})
  {
    hide Aged, Insert, Sorted, Dated;
    assert Threads(k0) by { EditThreads(k, k0, t); }
    EnterAges(k, k0, t, h, b);
    AddDates(k, b, QueueAdd(k0, t, h), t);
  }

  lemma EditThreads(k: Kernel, k0: Kernel, t: Ptr)
    requires Threads(k) && t !in k.link && k0.queues == k.queues && k0.link == k.link
    requires forall x: Ptr :: x != t ==> Of(k0.prio, x) == Of(k.prio, x)
    ensures Threads(k0)
  {
    assert LinkOf(k, t) == None;
    assert forall e: Ptr :: LinkOf(k0, e) == LinkOf(k, e);
    forall h: Head ensures QueueAt(k0, h) == QueueAt(k, h) && Sorted(QueueAt(k0, h), k0.prio) {
      assert t !in QueueAt(k, h) && Sorted(QueueAt(k, h), k.prio);
      assert forall i :: 0 <= i < |QueueAt(k, h)| ==> QueueAt(k, h)[i] in QueueAt(k, h);
    }
  }

  lemma WaitClockArrives(k: Kernel, c: int, b: Book) returns (b': Book)
    requires Inv(k) && Pending(k, []) && Enabled(k, DoWaitClock(c)) && Aged(k, b)
    ensures Arrives(k, b, WaitClock(k, c), b', Movers(k, DoWaitClock(c)))
  {
    hide Schedule, Aged, Dated, Arrives, Linked, Mail, Pending, Poised, WaitClock;
    var k0 := SetState(k.(wake := k.wake[k.running := c]), k.running, Sleeping);
    var k1 := QueueAdd(k0, k.running, SleepingQueue);
    WaitClockPoised(k, c, k1);
    assert k0 == k.(wake := k0.wake, state := k0.state);
    LeaveAges(k, k0, SleepingQueue, b);
    hide QueueAdd, Base;
    PoisedMovers(k, DoWaitClock(c), k1, iset{k.running});
    b' := ScheduleArrives(k, DoWaitClock(c), b, k1, Stamp(b, k.running), iset{k.running});
  }

  lemma WaitChildArrives(k: Kernel, b: Book) returns (b': Book)
    requires Inv(k) && Pending(k, []) && Enabled(k, DoWaitChild) && Aged(k, b)
    ensures Arrives(k, b, WaitChild(k), b', Movers(k, DoWaitChild))
  {
    hide Schedule, Aged, Dated, Arrives, Linked, Mail, Pending, Poised, WaitChild;
    var k0 := SetState(k, k.running, InterruptedChild);
    var k1 := QueueAdd(k0, k.running, ChildQueue);
    WaitChildPoised(k, k1);
    LeaveAges(k, k0, ChildQueue, b);
    hide QueueAdd, Base;
    PoisedMovers(k, DoWaitChild, k1, iset{k.running});
    b' := ScheduleArrives(k, DoWaitChild, b, k1, Stamp(b, k.running), iset{k.running});
  }

  lemma StartArrives(k: Kernel, t: Ptr, pid: int, prio: int, b: Book) returns (b': Book)
    requires Inv(k) && Pending(k, []) && Enabled(k, DoStart(t, pid, prio)) && Aged(k, b)
    ensures Arrives(k, b, Start(k, t, pid, prio), b', Movers(k, DoStart(t, pid, prio)))
  {
    hide Schedule, Aged, Dated, Arrives, Poised, Mail;
    assert LinkOf(k, t) == Place(k, t);
    var step := DoStart(t, pid, prio);
    var k0 := k.(state := k.state[t := Ready], pid := k.pid[t := pid], prio := k.prio[t := prio],
                 parent := k.parent[t := k.running], msgVal := k.msgVal[t := NONE], call := k.call[t := User]);
    var k1 := QueueAdd(k0, t, ReadyQueue);
    SpawnKeeps(k, t, pid, prio);
    SpawnPoised(k, t, pid, prio);
    SpawnIs(k, t, pid, prio, k0);
    EnterQueue(k, k0, t, ReadyQueue, b);
    AddFrame(k0, t, ReadyQueue);
    RunningIsRunning(k1);
    assert Start(k, t, pid, prio) == if prio >= Of(k1.prio, k1.running) then Schedule(k1) else k1;
    hide QueueAdd, Base, Linked, Spawn, Inv, Pending, Start, Threads;
    PoisedMovers(k, step, k1, iset{t});
    if prio >= Of(k1.prio, k1.running) {
      b' := ScheduleArrives(k, step, b, k1, Stamp(b, t), iset{t});
    } else {
      b' := Stamp(b, t);
      StayArrives(k, step, b, k1, b', iset{t});
    }
  }

  /** queue_update: the task is the youngest of its priority again. */
  lemma ReinsertAges(k: Kernel, k0: Kernel, t: Ptr, b: Book) returns (b': Book)
    requires Inv(k) && Aged(k, b) && k0 == k.(prio := k0.prio)
    requires forall u: Ptr :: u != t ==> Of(k0.prio, u) == Of(k.prio, u)
    ensures Aged(Reinsert(k0, t), b') && Dated(k, b, Reinsert(k0, t), b', iset{t})
  {
    hide Aged, Insert, Remove, Mail, Stable;
    assert LinkOf(k, t) == Place(k, t);
    if t in k.link {
      var d, d0 := QueueDel(k, t), QueueDel(k0, t);
      DelAges(k, t, b);
      DelThreads(k, t);
      DelPrio(k, t, k0.prio);
      b' := Stamp(b, t);
      EnterQueue(d, d0, t, k.link[t], b);
      SameLinks(k, Reinsert(k0, t));
      AddDates(k, b, Reinsert(k0, t), t);
    } else {
      b' := b;
      EditAges(k, k0, t, b);
      NoDates(k, b, k0);
      FewerDates(k, b, k0, b, iset{}, iset{t});
    }
  }

  lemma SameLinks(k: Kernel, k': Kernel)
    requires k'.link == k.link
    ensures forall u: Ptr :: LinkOf(k', u) == LinkOf(k, u)
  {
  }

  lemma ChprioArrives(k: Kernel, t: Ptr, p: int, b: Book) returns (b': Book)
    requires Inv(k) && Pending(k, []) && Enabled(k, DoChprio(t, p)) && Aged(k, b)
    ensures Arrives(k, b, Chprio(k, t, p), b', Movers(k, DoChprio(t, p)))
  {
    hide Schedule, Aged, Dated, Arrives, Poised, Linked, Mail, Reinsert, Pending;
    var step := DoChprio(t, p);
    if t == k.idle || !Legal(p) {
      b' := b;
      NoDates(k, b, k);
      StayArrives(k, step, b, k, b, iset{});
    } else {
      ReinsertPoised(k, t, p);
      var k1 := Reinsert(k.(prio := k.prio[t := p]), t);
      var b1 := ReinsertAges(k, k.(prio := k.prio[t := p]), t, b);
      PoisedMovers(k, step, k1, iset{t});
      if StateOf(k1, t) == InterruptedMsg {
        b' := ReinsertAges(k1, k1, t, b1);
        DatedThrough(k, b, k1, b1, Reinsert(k1, t), b', iset{t}, iset{t});
        StayArrives(k, step, b, Reinsert(k1, t), b', iset{t} + iset{t});
      } else if Chprio(k, t, p) == Schedule(k1) {
        b' := ScheduleArrives(k, step, b, k1, b1, iset{t});
      } else {
        b' := b1;
        if t == k1.running {
          IdleIsReady(k1);
        }
        StayArrives(k, step, b, k1, b1, iset{t});
      }
    }
  }

  // ---- dying

  /** A task off its queue changes, and enters another. */
  lemma MoveAges(k: Kernel, k1: Kernel, t: Ptr, h: Head, b: Book)
    requires Threads(k) && t in k.link && Aged(k, b)
    requires k1.queues == QueueDel(k, t).queues && k1.link == QueueDel(k, t).link
    requires forall x: Ptr :: x != t ==> Of(k1.prio, x) == Of(k.prio, x)
    ensures Aged(QueueAdd(k1, t, h), Stamp(b, t)) && Dated(k, b, QueueAdd(k1, t, h), Stamp(b, t), iset{t})
  {
    hide Aged, Dated, QueueAt, Threads, Insert, Remove;
    DelAges(k, t, b);
    DelThreads(k, t);
    EnterQueue(QueueDel(k, t), k1, t, h, b);
    AddDates(k, b, QueueAdd(k1, t, h), t);
  }

  lemma DeadAges(k: Kernel, t: Ptr, b: Book)
    requires Inv(k) && Aged(k, b)
    ensures Aged(Dead(k, t), Stamp(b, t)) && Dated(k, b, Dead(k, t), Stamp(b, t), iset{t})
  {
    hide Aged, Dated, QueueAdd, QueueDel, Mail;
    if t in k.link {
      MoveAges(k, Corpse(k, t), t, ZombieQueue, b);
    } else {
      EnterQueue(k, Corpse(k, t), t, ZombieQueue, b);
    }
  }

  lemma ParentAges(d: Kernel, p: Ptr, b: Book)
    requires Base(d) && p != d.running && StateOf(d, p) == InterruptedChild && Aged(d, b)
    ensures var k' := SetTaskState(d, p, Ready, ReadyQueue);
      Aged(k', Stamp(b, p)) && Dated(d, b, k', Stamp(b, p), iset{p})
  {
    hide Aged, Dated, QueueAdd, QueueDel, Mail;
    assert LinkOf(d, p) == Place(d, p);
    DelFrame(d, p);
    MoveAges(d, SetState(QueueDel(d, p), p, Ready), p, ReadyQueue, b);
  }

  lemma ExitTaskAges(k: Kernel, t: Ptr, b: Book) returns (b': Book, m: iset<Ptr>)
    requires Inv(k) && t != k.idle && Live(k, t) && Aged(k, b)
    ensures Aged(ExitTask(k, t), b') && Dated(k, b, ExitTask(k, t), b', m)
    ensures forall u: Ptr :: u in m <==> StateAfterExit(k, t, u) != StateOf(k, u)
  {
    hide Aged, Dated, Dead, SetTaskState, Linked, Mail;
    ExitIsDead(k, t);
    DeadKeeps(k, t);
    DeadAges(k, t, b);
    b', m := Stamp(b, t), iset{t};
    var d := Dead(k, t);
    assert forall u: Ptr :: u != t ==> StateOf(d, u) == StateOf(k, u);
    if t in k.parent && StateOf(d, k.parent[t]) == InterruptedChild {
      var p := k.parent[t];
      ParentAges(d, p, b');
      DatedThrough(k, b, d, b', SetTaskState(d, p, Ready, ReadyQueue), Stamp(b', p), iset{t}, iset{p});
      b', m := Stamp(b', p), iset{t} + iset{p};
    }
  }

  lemma ExitArrives(k: Kernel, b: Book) returns (b': Book)
    requires Inv(k) && Pending(k, []) && Enabled(k, DoExit) && Aged(k, b)
    ensures Arrives(k, b, Exit(k), b', Movers(k, DoExit))
  {
    hide Schedule, Aged, Dated, Arrives, Poised, Linked, Mail, ExitTask, Pending;
    ExitTaskPoised(k, DoExit, k.running);
    var b1, m := ExitTaskAges(k, k.running, b);
    ExitTaskKeeps(k, k.running);
    PoisedMovers(k, DoExit, ExitTask(k, k.running), m);
    b' := ScheduleArrives(k, DoExit, b, ExitTask(k, k.running), b1, m);
  }

  lemma KillArrives(k: Kernel, t: Ptr, b: Book) returns (b': Book)
    requires Inv(k) && Pending(k, []) && Enabled(k, DoKill(t)) && Aged(k, b)
    ensures Arrives(k, b, Kill(k, t), b', Movers(k, DoKill(t)))
  {
    hide Schedule, Aged, Dated, Arrives, Poised, Linked, Mail, ExitTask, Pending;
    var step := DoKill(t);
    if t == k.idle {
      b' := b;
      NoDates(k, b, k);
      StayArrives(k, step, b, k, b, iset{});
    } else {
      ExitTaskPoised(k, step, t);
      var b1, m := ExitTaskAges(k, t, b);
      ExitTaskKeeps(k, t);
      PoisedMovers(k, step, ExitTask(k, t), m);
      if t == k.running {
        b' := ScheduleArrives(k, step, b, ExitTask(k, t), b1, m);
      } else {
        b' := b1;
        StayArrives(k, step, b, ExitTask(k, t), b1, m);
      }
    }
  }

  // ---- messages

  lemma QuietArrives(k: Kernel, step: Step, k1: Kernel, b: Book)
    requires Aged(k, b) && SameTasks(k, k1)
    ensures Arrives(k, b, k1, b, Movers(k, step))
  {
    hide Stable, Past;
    assert forall h: Head :: QueueAt(k1, h) == QueueAt(k, h);
    SameLinks(k, k1);
    hide Aged, Dated;
    NoDates(k, b, k1);
    StayArrives(k, step, b, k1, b, iset{});
  }

  lemma SameAged(k: Kernel, k1: Kernel, b: Book)
    requires Aged(k, b) && SameTasks(k, k1)
    ensures Aged(k1, b) && forall u: Ptr :: LinkOf(k1, u) == LinkOf(k, u)
  {
    hide Stable, Past;
    assert forall h: Head :: QueueAt(k1, h) == QueueAt(k, h);
  }

  /** Dates do not depend on messages and calls. */
  lemma DatedAlike(k: Kernel, kb: Kernel, b: Book, k': Kernel, b': Book, m: iset<Ptr>)
    requires Dated(kb, b, k', b', m) && forall u: Ptr :: LinkOf(kb, u) == LinkOf(k, u)
    ensures Dated(k, b, k', b', m)
  {
  }

  lemma BlockArrives(k: Kernel, step: Step, kb: Kernel, h: Head, c: Call, b: Book) returns (b': Book)
    requires Inv(k) && Pending(k, []) && Inv(kb) && SameTasks(k, kb) && OfMessages(step) && Aged(k, b)
    requires kb.running != kb.idle && MayBlock(kb, h, c)
    requires forall t: Ptr :: Fate(k, step, t) == if t == k.running then InterruptedMsg else StateOf(k, t)
    ensures Arrives(k, b, BlockOnMsg(kb, h, c), b', Movers(k, step))
  {
    hide Fate, Schedule, MayBlock, BlockOnMsg, Aged, Dated, Arrives, Poised, Pending, Linked, Mail;
    BlockedBase(kb, h, c);
    BlockCommutes(kb, h, c);
    SameAged(k, kb, b);
    var k0, t := kb.(call := kb.call[kb.running := c], state := kb.state[kb.running := InterruptedMsg]), kb.running;
    LeaveAges(kb, k0, h, b);
    AddFrame(k0, t, h);
    var k1 := Blocked(kb, h, c);
    BlockedPoised(k, step, k1);
    DatedAlike(k, kb, b, k1, Stamp(b, t), iset{t});
    hide Base, Inv, QueueAdd;
    PoisedMovers(k, step, k1, iset{t});
    b' := ScheduleArrives(k, step, b, k1, Stamp(b, t), iset{t});
  }

  lemma OutAges(kb: Kernel, h: Head, v: int, b: Book)
    requires Threads(kb) && Aged(kb, b) && QueueAt(kb, h) != []
    ensures var t := Last(QueueAt(kb, h));
      var k1 := QueueAdd(SetState(SetMsgVal(QueueOut(kb, h), t, v), t, Ready), t, ReadyQueue);
      Aged(k1, Stamp(b, t)) && Dated(kb, b, k1, Stamp(b, t), iset{t})
  {
    hide Aged, Dated, QueueAdd, QueueDel, Threads;
    OutIsDel(kb, h);
    var t := Last(QueueAt(kb, h));
    MoveAges(kb, SetState(SetMsgVal(QueueOut(kb, h), t, v), t, Ready), t, ReadyQueue, b) by { DelFrame(kb, t); }
  }

  lemma ReleaseArrives(k: Kernel, step: Step, kb: Kernel, h: Head, v: int, b: Book) returns (b': Book)
    requires Inv(k) && Pending(k, []) && Inv(kb) && SameTasks(k, kb) && OfMessages(step) && Aged(k, b)
    requires IsMsgQueue(h) && QueueAt(k, h) != [] && (h.Senders? ==> v == NONE)
    requires forall t: Ptr :: Fate(k, step, t) == if t == Last(QueueAt(k, h)) then Ready else StateOf(k, t)
    ensures QueueAt(kb, h) != []
    ensures var t := Last(QueueAt(kb, h));
      Arrives(k, b, SetReadyOrRunning(SetMsgVal(QueueOut(kb, h), t, v), t), b', Movers(k, step))
  {
    hide Fate, Schedule, Aged, Dated, Arrives, Poised, Pending;
    var t := Last(QueueAt(kb, h));
    var k0 := SetState(SetMsgVal(QueueOut(kb, h), t, v), t, Ready);
    var k1 := QueueAdd(k0, t, ReadyQueue);
    UnblockKeeps(kb, t, v, h);
    BlockedTask(kb, t, h);
    SameAged(k, kb, b);
    OutAges(kb, h, v, b);
    AddFrame(k0, t, ReadyQueue);
    hide QueueAdd, QueueOut, Linked, Mail;
    ReleasePoised(k, step, k1, t);
    ReleasedMovers(k, step, k1, t);
    DatedAlike(k, kb, b, k1, Stamp(b, t), iset{t});
    if Of(k1.prio, t) > Of(k1.prio, k1.running) {
      b' := ScheduleArrives(k, step, b, k1, Stamp(b, t), iset{t});
    } else {
      b' := Stamp(b, t);
      StayArrives(k, step, b, k1, b', iset{t});
    }
  }

  lemma ReleasedMovers(k: Kernel, step: Step, k1: Kernel, t: Ptr)
    requires Poised(k, step, k1) && k1.state == k.state[t := Ready] && StateOf(k, t) != Ready
    requires forall u: Ptr :: Fate(k, step, u) == if u == t then Ready else StateOf(k, u)
    ensures iset{t} + Woken(k1) + iset{k.running} <= Movers(k, step) && iset{t} <= Movers(k, step)
  {
    hide Fate, Poised;
    PoisedMovers(k, step, k1, iset{t});
  }

  lemma EndingArrives(k: Kernel, step: Step, e: Ending, k': Kernel, b: Book) returns (b': Book)
    requires Inv(k) && Pending(k, []) && OfMessages(step) && Ends(k, step, e, k') && Aged(k, b)
    ensures Arrives(k, b, k', b', Movers(k, step))
  {
    hide Inv, Pending, Fate, MayBlock, BlockOnMsg, SetReadyOrRunning, Arrives, Aged;
    match e {
      case Quietly(k1) =>
        b' := b;
        QuietArrives(k, step, k1, b);
      case Blocking(kb, h, c) => b' := BlockArrives(k, step, kb, h, c, b);
      case Releasing(kb, h, v) => b' := ReleaseArrives(k, step, kb, h, v, b);
    }
  }

  // ---- every step, and every run

  lemma StepArrives(k: Kernel, step: Step, b: Book) returns (b': Book)
    requires Inv(k) && Pending(k, []) && Enabled(k, step) && Aged(k, b)
    ensures Arrives(k, b, Apply(k, step).kernel, b', Movers(k, step))
  {
    hide Inv, Arrives, Movers, Pending, Psend, Preceive, Resume, Enabled, Ends, Aged;
    match step {
      case DoTick => b' := TickArrives(k, b);
      case DoWaitClock(until) => b' := WaitClockArrives(k, until, b);
      case DoWaitChild => b' := WaitChildArrives(k, b);
      case DoStart(t, pid, prio) => b' := StartArrives(k, t, pid, prio, b);
      case DoChprio(t, prio) => b' := ChprioArrives(k, t, prio, b);
      case DoExit => b' := ExitArrives(k, b);
      case DoKill(t) => b' := KillArrives(k, t, b);
      case _ =>
        var e := MessageEnds(k, step);
        b' := EndingArrives(k, step, e, Apply(k, step).kernel, b);
    }
  }

  /** What a step does to the order of arrival. */
  ghost predicate InTurn(k: Kernel, step: Step, b: Book, k': Kernel, b': Book) {
    && Aged(k', b') && b'.now >= b.now
    && (forall t: Ptr :: t in k'.link && LinkOf(k', t) != LinkOf(k, t) ==> Of(b'.since, t) >= b.now)
    && (forall t: Ptr :: t in k'.link && LinkOf(k', t) == LinkOf(k, t) && !(step.DoChprio? && t == step.target) ==>
         Of(b'.since, t) == Of(b.since, t))
    && (k'.running != k.running ==> Oldest(k', b', k'.running))
  }

  lemma NobodyTakesOver(k: Kernel, step: Step, t: Ptr)
    ensures Fate(k, step, t) == Running ==> StateOf(k, t) == Running
  {
  }

  /** A task that a step moves, and that is in a queue afterwards, is in another queue than before. */
  lemma MoverChangesQueue(k: Kernel, step: Step, k': Kernel, t: Ptr)
    requires Inv(k) && Inv(k') && Moved(k, step, k') && t in k'.link && LinkOf(k', t) == LinkOf(k, t)
    ensures t in Movers(k, step) ==> step.DoChprio? && t == step.target
  {
    hide Fate, Mail, Threads;
    NobodyTakesOver(k, step, t);
    assert LinkOf(k, t) == Place(k, t) && LinkOf(k', t) == Place(k', t);
    assert StateOf(k, t) == StateOf(k', t);
    assert StateOf(k', t) == Parked(Fate(k, step, t));
  }

  /** Every step takes the tasks in turn: each queue stays in order of priority and, within one priority, of arrival; a
      task that enters a queue is younger than all that were in one; no other task but the one that chprio names
      changes its place in the order; and the task that gets the processor is the oldest of the highest priority. */
  lemma StepInTurn(k: Kernel, step: Step, b: Book) returns (b': Book)
    requires Inv(k) && Pending(k, []) && Enabled(k, step) && Aged(k, b)
    ensures InTurn(k, step, b, Apply(k, step).kernel, b')
  {
    hide Inv, Pending, Enabled, Aged, Oldest, Movers, Moved, Apply;
    b' := StepArrives(k, step, b);
    StepMoves(k, step);
    StepKeeps(k, step);
    var k' := Apply(k, step).kernel;
    forall t: Ptr | t in k'.link && LinkOf(k', t) == LinkOf(k, t) && !(step.DoChprio? && t == step.target)
      ensures Of(b'.since, t) == Of(b.since, t)
    {
      MoverChangesQueue(k, step, k', t);
    }
  }

  /** A record for every point of a run, each following from the one before. */
  ghost predicate InTurnAlong(k: Kernel, steps: seq<Step>, books: seq<Book>)
    decreases |steps|
  {
    && |books| == |steps| + 1 && Aged(k, books[0])
    && (steps != [] ==>
         InTurn(k, steps[0], books[0], Apply(k, steps[0]).kernel, books[1]) &&
         InTurnAlong(Apply(k, steps[0]).kernel, steps[1..], books[1..]))
  }

  /** So it is over every run. */
  lemma {:induction false} RunsInTurn(k: Kernel, steps: seq<Step>, b: Book) returns (books: seq<Book>)
    requires Inv(k) && Pending(k, []) && Allowed(k, steps) && Aged(k, b)
    ensures InTurnAlong(k, steps, books) && books[0] == b
    decreases |steps|
  {
    hide Inv, Pending, Enabled, Aged;
    books := [b];
    if steps != [] {
      var k1 := Apply(k, steps[0]).kernel;
      StepKeeps(k, steps[0]);
      StepMoves(k, steps[0]);
      var b1 := StepInTurn(k, steps[0], b);
      var later := RunsInTurn(k1, steps[1..], b1);
      books := [b] + later;
      assert books[1..] == later;
    }
  }

  lemma BootInTurn(idle: Ptr, pid: int, steps: seq<Step>) returns (books: seq<Book>)
    requires Allowed(Boot(idle, pid), steps)
    ensures InTurnAlong(Boot(idle, pid), steps, books)
  {
    var k := Boot(idle, pid);
    BootIsGood(idle, pid);
    assert forall h: Head :: QueueAt(k, h) == [];
    assert forall t: Ptr :: StateOf(k, t) != Sleeping;
    books := RunsInTurn(k, steps, Book(map[], 0));
  }

  // ---- the same without dates

  function IndexOf(q: seq<Ptr>, t: Ptr): (i: int)
    ensures 0 <= i
    ensures t in q ==> i < |q| && q[i] == t
  {
    if q == [] || q[0] == t then 0 else 1 + IndexOf(q[1..], t)
  }

  /** The dates that the places in the queues suggest. */
  lemma SomeBook(k: Kernel) returns (b: Book)
    requires Linked(k)
    ensures Aged(k, b)
  {
    b := Book(map t | t in k.link :: -IndexOf(QueueAt(k, k.link[t]), t), 1);
    forall h: Head ensures Stable(QueueAt(k, h), k.prio, b.since) && Past(QueueAt(k, h), b) {
      var q := QueueAt(k, h);
      forall i | 0 <= i < |q| ensures Of(b.since, q[i]) == -i {
        assert q[i] in q;
        assert LinkOf(k, q[i]) == Some(h);
      }
      assert Sorted(q, k.prio);
      hide IndexOf;
    }
  }

  /** Whether y is nearer to the top than x. */
  predicate Ahead(q: seq<Ptr>, x: Ptr, y: Ptr) {
    exists i, j :: 0 <= i < j < |q| && q[i] == x && q[j] == y
  }

  lemma AheadIsBehind(q: seq<Ptr>, x: Ptr, y: Ptr, prio: Field, since: Field)
    requires Stable(q, prio, since) && x in q && y in q && x != y
    ensures Ahead(q, x, y) <==> Behind(x, y, prio, since)
  {
    var i, j := IndexOf(q, x), IndexOf(q, y);
    if i < j {
      assert Behind(q[i], q[j], prio, since);
    } else {
      assert Behind(q[j], q[i], prio, since);
    }
    if Ahead(q, x, y) {
      var i', j' :| 0 <= i' < j' < |q| && q[i'] == x && q[j'] == y;
      assert Behind(q[i'], q[j'], prio, since);
    }
  }

  /** Nobody is overtaken: of two tasks that stay in a queue, the one nearer to the top stays nearer to the top, unless
      chprio names one of them. */
  lemma NobodyOvertakes(k: Kernel, step: Step, h: Head, x: Ptr, y: Ptr)
    requires Inv(k) && Pending(k, []) && Enabled(k, step) && x != y
    requires x in QueueAt(k, h) && y in QueueAt(k, h)
    requires x in QueueAt(Apply(k, step).kernel, h) && y in QueueAt(Apply(k, step).kernel, h)
    requires !(step.DoChprio? && (step.target == x || step.target == y))
    ensures Ahead(QueueAt(Apply(k, step).kernel, h), x, y) <==> Ahead(QueueAt(k, h), x, y)
  {
    var k' := Apply(k, step).kernel;
    var b := SomeBook(k);
    var b' := StepInTurn(k, step, b);
    StepMoves(k, step);
    StepKeeps(k, step);
    hide Apply, Enabled, Stable, Behind, Past;
    StaysWithPrio(k, step, k', h, x);
    StaysWithPrio(k, step, k', h, y);
    hide Inv, Moved;
    AheadIsBehind(QueueAt(k, h), x, y, k.prio, b.since);
    AheadIsBehind(QueueAt(k', h), x, y, k'.prio, b'.since);
    SameBehind(x, y, k.prio, k'.prio, b.since, b'.since);
  }

  /** A step changes the priority of a queued task that chprio does not name only if it dies. */
  lemma PrioKept(k: Kernel, step: Step, h: Head, x: Ptr)
    requires Inv(k) && Enabled(k, step) && x in QueueAt(k, h) && !(step.DoChprio? && step.target == x)
    ensures PrioAfter(k, step, x) == Of(k.prio, x) || (Fate(k, step, x) == Zombie && StateOf(k, x) != Zombie)
  {
    hide Mail, MailOf, SendFate, ReceiveFate, AfterWake;
    assert LinkOf(k, x) == Some(h);
    assert LinkOf(k, x) == Place(k, x);
  }

  lemma StaysWithPrio(k: Kernel, step: Step, k': Kernel, h: Head, x: Ptr)
    requires Inv(k) && Inv(k') && Moved(k, step, k') && x in QueueAt(k, h) && x in QueueAt(k', h) && Enabled(k, step)
    requires !(step.DoChprio? && step.target == x)
    ensures LinkOf(k, x) == LinkOf(k', x) == Some(h) && Of(k'.prio, x) == Of(k.prio, x)
  {
    hide Mail, MailOf, Fate, PrioAfter, Enabled, Sorted, Pending;
    assert LinkOf(k, x) == Some(h) && LinkOf(k', x) == Some(h);
    assert LinkOf(k, x) == Place(k, x) && LinkOf(k', x) == Place(k', x);
    PrioKept(k, step, h, x);
    hide Base;
    assert x != k'.running;
    assert StateOf(k', x) == Parked(Fate(k, step, x));
    assert Of(k'.prio, x) == PrioAfter(k, step, x);
  }

  /** A task that enters a queue comes in behind all of its priority that stay in it. */
  lemma NewcomersWait(k: Kernel, step: Step, h: Head, x: Ptr, z: Ptr)
    requires Inv(k) && Pending(k, []) && Enabled(k, step)
    requires x in QueueAt(k, h) && x in QueueAt(Apply(k, step).kernel, h) && !(step.DoChprio? && step.target == x)
    requires z !in QueueAt(k, h) && z in QueueAt(Apply(k, step).kernel, h)
    requires Of(Apply(k, step).kernel.prio, z) == Of(Apply(k, step).kernel.prio, x)
    ensures Ahead(QueueAt(Apply(k, step).kernel, h), z, x)
  {
    var k' := Apply(k, step).kernel;
    var b := SomeBook(k);
    var b' := StepInTurn(k, step, b);
    StepMoves(k, step);
    StepKeeps(k, step);
    hide Apply, Enabled, Stable;
    StaysWithPrio(k, step, k', h, x);
    assert LinkOf(k', z) == Some(h) && LinkOf(k, z) != Some(h);
    hide Inv, Moved;
    AheadIsBehind(QueueAt(k', h), z, x, k'.prio, b'.since);
  }
}
