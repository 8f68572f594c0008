/** Each step of the kernel keeps the invariant; steps that end in schedule leave it settled. */
module KernelSteps {
  import opened Options
  import opened Lists
  import opened QueueSpec
  import opened KernelSpec
  import opened KernelInv

  // ---- clock

  lemma TickKeeps(k: Kernel)
    requires Inv(k)
    ensures Inv(Tick(k)) && Settled(Tick(k))
  {
    TimeKept(k, k.wake, (k.clock + 1) % CLOCK_MODULUS);
    ScheduleKeeps(k.(clock := (k.clock + 1) % CLOCK_MODULUS));
  }

  /** The running task, in no call, blocks on something other than messages, or dies. */
  lemma LeaveKeeps(k: Kernel, k1: Kernel, h: Head)
    requires Inv(k) && k.running != k.idle && CallOf(k, k.running) == User
    requires k.running in k1.state && k1 == k.(state := k.state[k.running := k1.state[k.running]], prio := k1.prio)
    requires (forall u: Ptr :: u != k.running ==> Of(k1.prio, u) == Of(k.prio, u))
    requires Place(k1, k.running) == Some(h) && k1.state[k.running] != Ready && k1.state[k.running] != InterruptedMsg
    ensures Base(QueueAdd(k1, k.running, h))
  {
    BlockKeeps(k, k1, h);
  }

  lemma SleepKeeps(k: Kernel)
    requires Inv(k) && k.running != k.idle && CallOf(k, k.running) == User
    ensures Base(SetTaskState(k, k.running, Sleeping, SleepingQueue))
    ensures StateOf(SetTaskState(k, k.running, Sleeping, SleepingQueue), k.running) == Sleeping
  {
    LeaveKeeps(k, SetState(k, k.running, Sleeping), SleepingQueue);
  }

  lemma WaitClockKeeps(k: Kernel, c: int)
    requires Inv(k) && k.running != k.idle && CallOf(k, k.running) == User && c > k.clock
    ensures Inv(WaitClock(k, c)) && Settled(WaitClock(k, c))
  {
    var k1 := k.(wake := k.wake[k.running := c]);
    TimeKept(k, k1.wake, k.clock);
    SleepKeeps(k1);
    ScheduleKeeps(SetTaskState(k1, k1.running, Sleeping, SleepingQueue));
  }

  lemma WaitChildKeeps(k: Kernel)
    requires Inv(k) && k.running != k.idle && CallOf(k, k.running) == User
    ensures Inv(WaitChild(k)) && Settled(WaitChild(k))
  {
    LeaveKeeps(k, SetState(k, k.running, InterruptedChild), ChildQueue);
    ScheduleKeeps(SetTaskState(k, k.running, InterruptedChild, ChildQueue));
  }

  // ---- a wake time that is not in the future

  lemma WakingCurrentFailsNow(k: Kernel)
    requires LinkOf(k, k.running) != None && StateOf(k, k.running) == Sleeping && Due(k, k.running)
    ensures !WakeOne(k, k.running).ok
  {
  }

  /** Waking the task that still counts as running adds a link that is already threaded. */
  lemma {:induction false} WakingCurrentFails(k: Kernel, sleepers: seq<Ptr>)
    requires Base(k) && NoRepeats(sleepers) && forall t: Ptr :: t in sleepers ==> StateOf(k, t) == Sleeping
    requires k.running in sleepers && Due(k, k.running)
    ensures !WakeAll(k, sleepers).ok
    decreases |sleepers|
  {
    var t := sleepers[0];
    assert t !in sleepers[1..];
    if t == k.running {
      assert LinkOf(k, t) == Place(k, t);
      WakingCurrentFailsNow(k);
    } else {
      WakeOneKeeps(k, t);
      WakingCurrentFails(WakeOne(k, t), sleepers[1..]);
    }
  }

  /** wait_clock with a time already reached panics on the assertion of queue_add; otherwise it works. */
  lemma WaitClockFailsIff(k: Kernel, c: int)
    requires Inv(k) && k.running != k.idle && CallOf(k, k.running) == User
    ensures WaitClock(k, c).ok <==> c > k.clock
  {
    hide Schedule, SetTaskState, Linked, Mail;
    if c > k.clock {
      WaitClockKeeps(k, c);
    } else {
      var k1 := k.(wake := k.wake[k.running := c]);
      TimeKept(k, k1.wake, k.clock);
      SleepKeeps(k1);
      SleepFrame(k1);
      OversleepingFails(SetTaskState(k1, k1.running, Sleeping, SleepingQueue));
    }
  }

  lemma SleepFrame(k: Kernel)
    ensures var k' := SetTaskState(k, k.running, Sleeping, SleepingQueue);
      k'.wake == k.wake && k'.clock == k.clock && k'.running == k.running
  {
    hide QueueAdd, QueueDel;
    DelFrame(k, k.running);
    AddFrame(SetState(k, k.running, Sleeping), k.running, SleepingQueue);
  }

  lemma OversleepingFails(k: Kernel)
    requires Base(k) && StateOf(k, k.running) == Sleeping && Due(k, k.running)
    ensures !Schedule(k).ok
  {
    hide Dispatch, WakeOne;
    assert LinkOf(k, k.running) == Place(k, k.running);
    assert k.running in QueueAt(k, SleepingQueue);
    SleepersPending(k);
    WakingCurrentFails(k, QueueAt(k, SleepingQueue));
  }

  // ---- start

  /** A task that was in no queue arrives in the ready queue. */
  lemma ArriveKeeps(k: Kernel, k1: Kernel, t: Ptr)
    requires Inv(k) && StateOf(k, t) == Startup && StateOf(k1, t) == Ready && MailOf(k1, t)
    requires k1.ok && k1.running == k.running && OnlyTask(k, k1, t) && SameBut(k, k1, t)
    ensures Inv(QueueAdd(k1, t, ReadyQueue))
  {
    assert LinkOf(k, t) == Place(k, t);
    assert LinkedBut(k, t);
    EditLinkedBut(k, k1, t);
    PutOn(k1, t, ReadyQueue);
    var k2 := QueueAdd(k1, t, ReadyQueue);
    assert MailOf(k2, t);
    MailKept(k, k2, t);
  }

  lemma SpawnKeeps(k: Kernel, t: Ptr, pid: int, prio: int)
    requires Inv(k) && StateOf(k, t) == Startup
    ensures Inv(Spawn(k, t, pid, prio))
  {
    hide Spawn, Threads, QueueAdd;
    assert LinkOf(k, t) == Place(k, t);
    var k1 := k.(state := k.state[t := Ready], pid := k.pid[t := pid], prio := k.prio[t := prio],
                 parent := k.parent[t := k.running], msgVal := k.msgVal[t := NONE], call := k.call[t := User]);
    SpawnIs(k, t, pid, prio, k1);
    ArriveKeeps(k, k1, t);
  }

  lemma SpawnIs(k: Kernel, t: Ptr, pid: int, prio: int, k1: Kernel)
    requires t !in k.link
    requires k1 == k.(state := k.state[t := Ready], pid := k.pid[t := pid], prio := k.prio[t := prio],
                      parent := k.parent[t := k.running], msgVal := k.msgVal[t := NONE], call := k.call[t := User])
    ensures Spawn(k, t, pid, prio) == QueueAdd(k1, t, ReadyQueue)
  {
    assert k.state[t := Startup][t := Ready] == k.state[t := Ready];
  }

  lemma SpawnLeaves(k: Kernel, t: Ptr, pid: int, prio: int)
    requires Inv(k) && StateOf(k, t) == Startup
    ensures var k' := Spawn(k, t, pid, prio);
      k' == k.(queues := k'.queues, link := k'.link, state := k.state[t := Ready], pid := k.pid[t := pid],
               prio := k.prio[t := prio], parent := k'.parent, msgVal := k'.msgVal, call := k'.call, ok := k'.ok)
  {
    assert LinkOf(k, t) == Place(k, t);
    var k1 := k.(state := k.state[t := Ready], pid := k.pid[t := pid], prio := k.prio[t := prio],
                 parent := k.parent[t := k.running], msgVal := k.msgVal[t := NONE], call := k.call[t := User]);
    SpawnIs(k, t, pid, prio, k1);
    AddFrame(k1, t, ReadyQueue);
  }

  /** start keeps the invariant, and leaves no ready task above the running one. */
  lemma StartKeeps(k: Kernel, t: Ptr, pid: int, prio: int)
    requires Inv(k) && StateOf(k, t) == Startup
    ensures Inv(Start(k, t, pid, prio))
    ensures Settled(k) ==> Settled(Start(k, t, pid, prio))
    ensures forall u: Ptr :: u != t && Live(Start(k, t, pid, prio), u) ==> Live(k, u)
  {
    SpawnKeeps(k, t, pid, prio);
    SpawnLeaves(k, t, pid, prio);
    StartFromSpawn(k, Spawn(k, t, pid, prio), t, prio);
  }

  lemma StartFromSpawn(k: Kernel, k1: Kernel, t: Ptr, prio: int)
    requires Inv(k) && Inv(k1) && t != k.running && k1.running == k.running
    requires k1.state == k.state[t := Ready] && k1.prio == k.prio[t := prio] && k1.wake == k.wake && k1.clock == k.clock
    ensures var k' := if prio >= Of(k1.prio, k1.running) then Schedule(k1) else k1;
      Inv(k') && (Settled(k) ==> Settled(k')) && forall u: Ptr :: u != t && Live(k', u) ==> Live(k, u)
  {
    assert forall u: Ptr :: u != t ==> StateOf(k1, u) == StateOf(k, u);
    if prio >= Of(k1.prio, k1.running) {
      ScheduleKeeps(k1);
      assert forall u: Ptr :: Live(Schedule(k1), u) <==> Live(k1, u);
    } else if Settled(k) {
      assert forall u: Ptr :: Due(k1, u) <==> Due(k, u);
    }
  }

  // ---- priorities

  /** queue_update after a change of priority: the task is threaded into the same queue again. */
  lemma ReinsertKeeps(k: Kernel, k0: Kernel, t: Ptr)
    requires Inv(k) && k0 == k.(prio := k0.prio) && forall u: Ptr :: u != t ==> Of(k0.prio, u) == Of(k.prio, u)
    ensures Inv(Reinsert(k0, t))
    ensures Reinsert(k0, t) == k0.(queues := Reinsert(k0, t).queues, link := Reinsert(k0, t).link)
  {
    assert LinkOf(k, t) == Place(k, t);
    if t in k.link {
      var d := QueueDel(k, t);
      TakeOff(k, t);
      EditLinkedBut(d, QueueDel(k0, t), t);
      assert Place(QueueDel(k0, t), t) == Some(k.link[t]);
      PutOn(QueueDel(k0, t), t, k.link[t]);
    } else {
      assert LinkedBut(k, t);
      EditLinkedBut(k, k0, t);
      assert Linked(k0);
    }
    SameTasksKept(k, Reinsert(k0, t));
  }

  /** Who and Mail speak only of states, calls and messages. */
  lemma SameTasksKept(k: Kernel, k': Kernel)
    requires k'.running == k.running && k'.idle == k.idle && k'.state == k.state
    requires k'.call == k.call && k'.msgVal == k.msgVal && k'.mqs == k.mqs
    ensures Who(k) ==> Who(k')
    ensures Mail(k) ==> Mail(k')
  {
    assert forall u: Ptr :: StateOf(k', u) == StateOf(k, u) && CallOf(k', u) == CallOf(k, u);
    if Mail(k) {
      forall u: Ptr ensures MailOf(k', u) {
        assert MailOf(k, u);
      }
    }
  }

  /** chprio keeps the invariant, and leaves no ready task above the running one. */
  lemma ChprioKeeps(k: Kernel, t: Ptr, p: int)
    requires Inv(k) && StateOf(k, t) != Startup
    ensures Inv(Chprio(k, t, p))
    ensures Settled(k) ==> Settled(Chprio(k, t, p))
  {
    hide Schedule, Reinsert, Settled, Linked, Mail;
    if t != k.idle && StateOf(k, t) != Zombie && MIN_PRIO <= p <= MAX_PRIO {
      var k0 := k.(prio := k.prio[t := p]);
      ReinsertKeeps(k, k0, t);
      var k1 := Reinsert(k0, t);
      if StateOf(k1, t) == InterruptedMsg {
        ReinsertKeeps(k1, k1, t);
        ChprioSettled(k, Reinsert(k1, t), t, p);
      } else if t == k1.running {
        IdleIsReady(k1);
        ChprioOfRunning(k, k1, p);
      } else if StateOf(k1, t) == Ready && p > Of(k1.prio, k1.running) {
        ScheduleKeeps(k1);
      } else {
        ChprioSettled(k, k1, t, p);
      }
    }
  }

  lemma ChprioSettled(k: Kernel, k': Kernel, t: Ptr, p: int)
    requires k'.state == k.state && k'.running == k.running && k'.wake == k.wake && k'.clock == k.clock
    requires k'.prio == k.prio[t := p] && t != k.running
    requires StateOf(k, t) == Ready ==> p <= Of(k'.prio, k.running)
    ensures Settled(k) ==> Settled(k')
  {
    assert forall u: Ptr :: StateOf(k', u) == StateOf(k, u) && (Due(k', u) <==> Due(k, u));
  }

  lemma ChprioOfRunning(k: Kernel, k1: Kernel, p: int)
    requires Inv(k) && Inv(k1) && QueueAt(k1, ReadyQueue) != [] && k1.running == k.running
    requires k1.state == k.state && k1.wake == k.wake && k1.clock == k.clock && k1.prio == k.prio[k.running := p]
    ensures var k' := if Of(k1.prio, Last(QueueAt(k1, ReadyQueue))) > p then Schedule(k1) else k1;
      Inv(k') && (Settled(k) ==> Settled(k'))
  {
    TopOfReady(k1);
    if Of(k1.prio, Last(QueueAt(k1, ReadyQueue))) > p {
      ScheduleKeeps(k1);
    }
  }

  // ---- exit and kill

  /** A task off its queue, if it was in one, and dead. */
  function Corpse(k: Kernel, t: Ptr): Kernel {
    SetState(if t in k.link then QueueDel(k, t) else k, t, Zombie).(prio := k.prio[t := DeathRank(k.clock)])
  }

  function Dead(k: Kernel, t: Ptr): Kernel {
    QueueAdd(Corpse(k, t), t, ZombieQueue)
  }

  lemma CorpseKeeps(k: Kernel, t: Ptr)
    requires Inv(k)
    ensures LinkedBut(Corpse(k, t), t) && Corpse(k, t).ok
  {
    assert LinkOf(k, t) == Place(k, t);
    if t in k.link {
      TakeOff(k, t);
      EditLinkedBut(QueueDel(k, t), Corpse(k, t), t);
    } else {
      assert LinkedBut(k, t);
      EditLinkedBut(k, Corpse(k, t), t);
    }
  }

  lemma CorpseFrame(k: Kernel, t: Ptr)
    ensures var c := Corpse(k, t);
      c == k.(queues := c.queues, link := c.link, ok := c.ok,
              state := k.state[t := Zombie], prio := k.prio[t := DeathRank(k.clock)])
    ensures SameBut(k, Corpse(k, t), t) && StateOf(Corpse(k, t), t) == Zombie
  {
    if t in k.link {
      assert QueueDel(k, t) == k.(queues := QueueDel(k, t).queues, link := QueueDel(k, t).link);
    }
  }

  lemma DeadFromCorpse(k: Kernel, c: Kernel, t: Ptr)
    requires Inv(k) && t != k.idle && LinkedBut(c, t) && c.ok && StateOf(c, t) == Zombie
    requires c.running == k.running && SameBut(k, c, t) && CallOf(c, t) == CallOf(k, t)
    ensures Base(QueueAdd(c, t, ZombieQueue))
  {
    PutOn(c, t, ZombieQueue);
    var k' := QueueAdd(c, t, ZombieQueue);
    assert MailOf(k, t);
    MailKept(k, k', t);
  }

  /** A task dies wherever it is: its link ends up in the zombie queue. */
  lemma DeadKeeps(k: Kernel, t: Ptr)
    requires Inv(k) && t != k.idle
    ensures Base(Dead(k, t)) && StateSet(k.(prio := Dead(k, t).prio), Dead(k, t), t, Zombie)
    ensures Dead(k, t).running == k.running && Dead(k, t).parent == k.parent
    ensures Dead(k, t).prio == k.prio[t := DeathRank(k.clock)]
  {
    CorpseKeeps(k, t);
    CorpseFrame(k, t);
    DeadFromCorpse(k, Corpse(k, t), t);
    assert StateOf(Corpse(k, t), k.idle) == StateOf(k, k.idle);
    AddFrame(Corpse(k, t), t, ZombieQueue);
  }

  /** The state in which __exit_task calls set_task_zombie. */
  function Dying(k: Kernel, t: Ptr): Kernel {
    var k1 := k.(prio := k.prio[t := DeathRank(k.clock)]);
    if t in k.link && IsMsgQueue(k.link[t]) then QueueDel(k1, t) else k1
  }

  /** Where a live task is. */
  lemma ExitIsSafe(k: Kernel, t: Ptr)
    requires Inv(k) && t != k.idle && Live(k, t)
    ensures t in k.state && (t in k.link ==> NoRepeats(QueueAt(k, k.link[t])))
    ensures t !in k.link <==> StateOf(k, t) == Running
    ensures t in k.link && IsMsgQueue(k.link[t]) <==> StateOf(k, t) == InterruptedMsg
    ensures StateOf(k, t) == Running <==> t == k.running
  {
    assert LinkOf(k, t) == Place(k, t);
    assert MailOf(k, t);
  }

  lemma DelPrio(k: Kernel, t: Ptr, prio: Field)
    ensures QueueDel(k.(prio := prio), t) == QueueDel(k, t).(prio := prio)
  {
    hide Remove;
    assert t in k.link ==> QueueAt(k.(prio := prio), k.link[t]) == QueueAt(k, k.link[t]);
  }

  lemma DyingIsDead(k: Kernel, t: Ptr)
    requires Inv(k) && t != k.idle && Live(k, t)
    ensures SetTaskState(Dying(k, t), t, Zombie, ZombieQueue) == Dead(k, t)
  {
    hide Inv, QueueAdd, QueueDel;
    ExitIsSafe(k, t);
    DelFrame(k, t);
    DelPrio(k, t, k.prio[t := DeathRank(k.clock)]);
    assert StateOf(Dying(k, t), t) == StateOf(k, t);
  }

  /** __exit_task does exactly that before it looks at the parent. */
  lemma ExitIsDead(k: Kernel, t: Ptr)
    requires Inv(k) && t != k.idle && StateOf(k, t) != Startup && StateOf(k, t) != Zombie
    ensures ExitTask(k, t) == if t in k.parent && StateOf(Dead(k, t), k.parent[t]) == InterruptedChild
                              then SetTaskState(Dead(k, t), k.parent[t], Ready, ReadyQueue) else Dead(k, t)
  {
    hide Inv, SetTaskState, Dead;
    DyingIsDead(k, t);
  }

  /** The parent of a dying task, when it waits for a child. */
  predicate WakesParent(k: Kernel, t: Ptr) {
    t in k.parent && StateOf(k, k.parent[t]) == InterruptedChild && k.parent[t] != t
  }

  function StateAfterExit(k: Kernel, t: Ptr, u: Ptr): State {
    if u == t then Zombie else if WakesParent(k, t) && u == k.parent[t] then Ready else StateOf(k, u)
  }

  lemma ExitTaskKeeps(k: Kernel, t: Ptr)
    requires Inv(k) && t != k.idle && StateOf(k, t) != Startup && StateOf(k, t) != Zombie
    ensures Base(ExitTask(k, t)) && ExitTask(k, t).running == k.running
    ensures forall u: Ptr :: StateOf(ExitTask(k, t), u) == StateAfterExit(k, t, u)
    ensures ExitTask(k, t).prio == k.prio[t := DeathRank(k.clock)]
    ensures ExitTask(k, t).wake == k.wake && ExitTask(k, t).clock == k.clock
  {
    ExitIsDead(k, t);
    DeadKeeps(k, t);
    ParentReleased(k, Dead(k, t), t);
  }

  lemma ParentReleased(k: Kernel, d: Kernel, t: Ptr)
    requires Inv(k) && Base(d) && StateSet(k.(prio := d.prio), d, t, Zombie)
    requires d.running == k.running && d.parent == k.parent && t != k.idle
    ensures var k' := if t in k.parent && StateOf(d, k.parent[t]) == InterruptedChild
                      then SetTaskState(d, k.parent[t], Ready, ReadyQueue) else d;
      Base(k') && k'.running == k.running && k'.prio == d.prio && k'.wake == k.wake && k'.clock == k.clock &&
      forall u: Ptr :: StateOf(k', u) == StateAfterExit(k, t, u)
  {
    assert forall u: Ptr :: u != t ==> StateOf(d, u) == StateOf(k, u);
    if WakesParent(k, t) {
      ToReady(d, k.parent[t]);
    }
  }

  lemma ExitKeeps(k: Kernel)
    requires Inv(k) && k.running != k.idle
    ensures Inv(Exit(k)) && Settled(Exit(k))
  {
    ExitTaskKeeps(k, k.running);
    ScheduleKeeps(ExitTask(k, k.running));
  }

  /** kill keeps the invariant. The running task stays unrivalled exactly when killing another task
      does not release a waiting parent of higher priority: kill does not call schedule for it. */
  lemma KillKeeps(k: Kernel, t: Ptr)
    requires Inv(k) && StateOf(k, t) != Startup
    ensures Inv(Kill(k, t))
    ensures t == k.running && t != k.idle ==> Settled(Kill(k, t))
    ensures t != k.running && t != k.idle && StateOf(k, t) != Zombie && Settled(k) ==>
      (Settled(Kill(k, t)) <==> !(WakesParent(k, t) && Of(k.prio, k.parent[t]) > Of(k.prio, k.running)))
  {
    if t != k.idle && StateOf(k, t) != Zombie {
      ExitTaskKeeps(k, t);
      if t == k.running {
        ScheduleKeeps(ExitTask(k, t));
      } else if Settled(k) {
        KillSettled(k, t);
      }
    }
  }

  lemma KillSettled(k: Kernel, t: Ptr)
    requires Inv(k) && Settled(k) && t != k.running && t != k.idle && StateOf(k, t) != Startup &&
      StateOf(k, t) != Zombie
    ensures Settled(ExitTask(k, t)) <==> !(WakesParent(k, t) && Of(k.prio, k.parent[t]) > Of(k.prio, k.running))
  {
    hide ExitTask, Base;
    ExitTaskKeeps(k, t);
    var k' := ExitTask(k, t);
    if WakesParent(k, t) {
      assert StateOf(k', k.parent[t]) == Ready;
    }
    forall u: Ptr ensures StateOf(k', u) == Sleeping ==> !Due(k', u) {
      assert StateOf(k', u) == Sleeping ==> StateOf(k, u) == Sleeping;
    }
  }
}
