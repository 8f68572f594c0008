/** Runs from boot that end where a call does not do what it promises. */
module KernelExamples {
  import opened QueueSpec
  import opened KernelSpec
  import opened KernelInv
  import opened KernelSteps
  import opened KernelMsg
  import opened KernelRuns

  /** Fields that neither a wake-up pass without sleepers nor a switch changes. */
  predicate SameFields(k: Kernel, k': Kernel) {
    && k'.idle == k.idle && k'.clock == k.clock && k'.prio == k.prio && k'.pid == k.pid
    && k'.parent == k.parent && k'.call == k.call && k'.mqs == k.mqs
  }

  /** A settled state in which nobody sleeps. */
  ghost predicate Awake(k: Kernel) {
    Inv(k) && Settled(k) && forall t: Ptr :: StateOf(k, t) != Sleeping
  }

  lemma FirstSleeps(k: Kernel)
    requires Linked(k) && QueueAt(k, SleepingQueue) != []
    ensures StateOf(k, QueueAt(k, SleepingQueue)[0]) == Sleeping
  {
    var t := QueueAt(k, SleepingQueue)[0];
    assert t in QueueAt(k, SleepingQueue);
    assert LinkOf(k, t) == Place(k, t);
  }

  lemma NoSleeper(k: Kernel)
    requires Linked(k) && forall t: Ptr :: StateOf(k, t) != Sleeping
    ensures Schedule(k) == Dispatch(k)
  {
    hide Dispatch, Linked;
    if QueueAt(k, SleepingQueue) != [] {
      FirstSleeps(k);
    }
  }

  lemma EnterFrame(k: Kernel, t: Ptr, s: State, h: Head)
    ensures SameFields(k, SetTaskState(k, t, s, h)) && SetTaskState(k, t, s, h).running == k.running
    ensures SetTaskState(k, t, s, h).state == if StateOf(k, t) == s then k.state else k.state[t := s]
  {
    hide QueueAdd, QueueDel;
    DelFrame(k, t);
    AddFrame(SetState(k, t, s), t, h);
    AddFrame(SetState(QueueDel(k, t), t, s), t, h);
  }

  lemma RunFrame(k: Kernel, t: Ptr)
    ensures SameFields(k, SetTaskRunning(k, t)) && SetTaskRunning(k, t).running == t
    ensures SetTaskRunning(k, t).state == k.state[t := Running]
  {
    hide QueueDel;
    DelFrame(k, t);
  }

  /** The processor goes to the oldest ready task of the highest priority. */
  lemma SwitchesTo(k: Kernel, n: Ptr)
    requires Linked(k) && StateOf(k, n) == Ready && n != k.running
    requires forall t: Ptr :: StateOf(k, t) == Ready && t != n ==> Of(k.prio, t) < Of(k.prio, n)
    requires StateOf(k, k.running) == Running ==> Of(k.prio, k.running) < Of(k.prio, n)
    ensures Dispatch(k).running == n && SameFields(k, Dispatch(k))
    ensures Dispatch(k).state ==
      (if StateOf(k, k.running) == Running then k.state[k.running := Ready] else k.state)[n := Running]
  {
    hide SetTaskState, SetTaskRunning, Threads;
    ReadyIsListed(k);
    TopOfReady(k);
    assert Last(QueueAt(k, ReadyQueue)) == n;
    EnterFrame(k, k.running, Ready, ReadyQueue);
    RunFrame(Preempt(k), n);
  }

  /** What start leaves, given the state before its call of schedule. */
  lemma StartSwitches(k: Kernel, k1: Kernel, t: Ptr, prio: int)
    requires Awake(k) && StateOf(k, t) == Startup && prio != Of(k.prio, k.running) && Linked(k1)
    requires k1.running == k.running && k1.state == k.state[t := Ready] && k1.prio == k.prio[t := prio]
    ensures var k' := if prio >= Of(k1.prio, k1.running) then Schedule(k1) else k1;
      && SameFields(k1, k')
      && k'.running == (if prio > Of(k.prio, k.running) then t else k.running)
      && k'.state == (if prio > Of(k.prio, k.running) then k.state[t := Ready][k.running := Ready][t := Running]
                      else k.state[t := Ready])
    ensures Of(k1.prio, k1.running) == Of(k.prio, k.running)
  {
    hide Linked, Mail, Schedule, Dispatch;
    assert forall u: Ptr :: u != t ==> StateOf(k1, u) == StateOf(k, u) && Of(k1.prio, u) == Of(k.prio, u);
    if prio > Of(k.prio, k.running) {
      NoSleeper(k1);
      SwitchesTo(k1, t);
    }
  }

  /** A new task of higher priority runs at once; one of lower priority becomes ready. */
  lemma Starts(k: Kernel, t: Ptr, pid: int, prio: int)
    requires Awake(k) && StateOf(k, t) == Startup && prio != Of(k.prio, k.running)
    ensures var k' := Start(k, t, pid, prio);
      && Awake(k')
      && k'.running == (if prio > Of(k.prio, k.running) then t else k.running)
      && k'.state == (if prio > Of(k.prio, k.running) then k.state[t := Ready][k.running := Ready][t := Running]
                      else k.state[t := Ready])
      && SameFields(k.(prio := k.prio[t := prio], pid := k.pid[t := pid], parent := k.parent[t := k.running],
                       call := k.call[t := User]), k')
  {
    hide Linked, Who, Mail, Schedule, SetTaskState, Settled;
    StartKeeps(k, t, pid, prio);
    SpawnKeeps(k, t, pid, prio);
    var k0 := k.(state := k.state[t := Startup], pid := k.pid[t := pid], prio := k.prio[t := prio],
                 parent := k.parent[t := k.running], msgVal := k.msgVal[t := NONE], call := k.call[t := User]);
    EnterFrame(k0, t, Ready, ReadyQueue);
    assert k0.state[t := Ready] == k.state[t := Ready];
    StartSwitches(k, Spawn(k, t, pid, prio), t, prio);
    assert forall u: Ptr :: u != t && u != k.running ==> StateOf(Start(k, t, pid, prio), u) == StateOf(k, u);
  }

  /** The running task waits for a child while n is the ready task of highest priority. */
  lemma Waits(k: Kernel, n: Ptr)
    requires Awake(k) && UserCode(k) && StateOf(k, n) == Ready
    requires forall t: Ptr :: StateOf(k, t) == Ready && t != n ==> Of(k.prio, t) < Of(k.prio, n)
    ensures Awake(WaitChild(k)) && WaitChild(k).running == n && SameFields(k, WaitChild(k))
    ensures WaitChild(k).state == k.state[k.running := InterruptedChild][n := Running]
  {
    hide Linked, Mail, Schedule, SetTaskState, Dispatch, Settled;
    WaitChildKeeps(k);
    var k1 := SetTaskState(k, k.running, InterruptedChild, ChildQueue);
    assert Linked(k1) by { WaitingIsLinked(k); }
    EnterFrame(k, k.running, InterruptedChild, ChildQueue);
    assert forall u: Ptr :: u != k.running ==> StateOf(k1, u) == StateOf(k, u);
    NoSleeper(k1);
    SwitchesTo(k1, n);
    assert forall u: Ptr :: u != n && u != k.running ==> StateOf(WaitChild(k), u) == StateOf(k, u);
  }

  lemma WaitingIsLinked(k: Kernel)
    requires Inv(k) && UserCode(k)
    ensures Linked(SetTaskState(k, k.running, InterruptedChild, ChildQueue))
  {
    LeaveKeeps(k, SetState(k, k.running, InterruptedChild), ChildQueue);
  }

  lemma {:induction false} RunStep(k: Kernel, steps: seq<Step>, step: Step)
    requires Allowed(k, steps) && Enabled(Run(k, steps), step)
    ensures Allowed(k, steps + [step]) && Run(k, steps + [step]) == Apply(Run(k, steps), step).kernel
    decreases |steps|
  {
    hide Enabled, Apply;
    if steps == [] {
      assert [] + [step] == [step];
    } else {
      assert (steps + [step])[1..] == steps[1..] + [step];
      RunStep(Apply(k, steps[0]).kernel, steps[1..], step);
    }
  }

  /** The idle task starts task 2, of priority 5. */
  const FirstTask: seq<Step> := [DoStart(2, 2, 5)]

  lemma FirstTaskRuns()
    ensures Allowed(Boot(1, 1), FirstTask)
    ensures var k := Run(Boot(1, 1), FirstTask);
      && Awake(k) && UserCode(k) && k.running == 2 && k.clock == 0 && k.mqs == map[]
      && k.state == map[1 := Ready, 2 := Running] && k.prio == map[1 := MIN_PRIO, 2 := 5]
      && k.pid == map[1 := 1, 2 := 2] && k.parent == map[2 := 1] && k.call == map[2 := User] && k.idle == 1
  {
    hide Inv, Settled, Start;
    var k0 := Boot(1, 1);
    BootIsGood(1, 1);
    assert forall u: Ptr :: StateOf(k0, u) == if u == 1 then Running else Startup;
    Starts(k0, 2, 2, 5);
    RunStep(k0, [], DoStart(2, 2, 5));
    assert [] + FirstTask == FirstTask;
    assert map[1 := Running][2 := Ready][1 := Ready][2 := Running] == map[1 := Ready, 2 := Running];
  }

  /** wait_clock with the time now reached panics, already in a task that has just been started. */
  lemma WaitClockPanics()
    ensures Allowed(Boot(1, 1), FirstTask)
    ensures var k := Run(Boot(1, 1), FirstTask); Inv(k) && UserCode(k) && !WaitClock(k, 0).ok
  {
    FirstTaskRuns();
    WaitClockFailsIff(Run(Boot(1, 1), FirstTask), 0);
  }

  /** An empty queue with room accepts every message but -1, which psend drops. */
  lemma PsendDrops(msg: int)
    ensures Allowed(Boot(1, 1), FirstTask + [DoPcreate(1, 0)])
    ensures var k := Run(Boot(1, 1), FirstTask + [DoPcreate(1, 0)]);
      && UserCode(k) && Empty(k, 0) && !Full(k, 0)
      && AcceptedOf(Psend(k, 0, msg).events, 0) == (if msg == -1 then [] else [msg])
  {
    hide Inv, Settled, Psend, Run, Allowed;
    FirstTaskRuns();
    var k := Run(Boot(1, 1), FirstTask);
    RunStep(Boot(1, 1), FirstTask, DoPcreate(1, 0));
    PcreateKeeps(k, 1);
    PsendSound(Pcreate(k, 1), 0, msg);
  }

  /** Task 2 starts tasks 3 and 4, of lower priorities. */
  const FirstChild: seq<Step> := FirstTask + [DoStart(3, 3, 3)]
  const Children: seq<Step> := FirstChild + [DoStart(4, 4, 4)]

  lemma FirstChildIsReady()
    ensures Allowed(Boot(1, 1), FirstChild)
    ensures var k := Run(Boot(1, 1), FirstChild);
      && Awake(k) && UserCode(k) && k.running == 2 && k.idle == 1 && k.parent == map[2 := 1, 3 := 2]
      && k.state == map[1 := Ready, 2 := Running, 3 := Ready] && k.prio == map[1 := MIN_PRIO, 2 := 5, 3 := 3]
      && k.pid == map[1 := 1, 2 := 2, 3 := 3]
  {
    hide Inv, Settled, Start, Run, Allowed;
    FirstTaskRuns();
    var k := Run(Boot(1, 1), FirstTask);
    Starts(k, 3, 3, 3);
    RunStep(Boot(1, 1), FirstTask, DoStart(3, 3, 3));
  }

  lemma ChildrenAreReady()
    ensures Allowed(Boot(1, 1), Children)
    ensures var k := Run(Boot(1, 1), Children);
      && Awake(k) && UserCode(k) && k.running == 2 && k.idle == 1 && k.parent == map[2 := 1, 3 := 2, 4 := 2]
      && k.state == map[1 := Ready, 2 := Running, 3 := Ready, 4 := Ready]
      && k.prio == map[1 := MIN_PRIO, 2 := 5, 3 := 3, 4 := 4]
  {
    hide Inv, Settled, Start, Run, Allowed;
    FirstChildIsReady();
    var k := Run(Boot(1, 1), FirstChild);
    Starts(k, 4, 4, 4);
    RunStep(Boot(1, 1), FirstChild, DoStart(4, 4, 4));
  }

  /** Task 2 waits for a child, task 4 runs and kills task 3: task 2 is ready, outranks task 4, and does not run. */
  lemma KillUnsettles()
    ensures Allowed(Boot(1, 1), Children + [DoWaitChild] + [DoKill(3)])
    ensures var k := Run(Boot(1, 1), Children + [DoWaitChild]);
      Inv(k) && Settled(k) && k.running == 4 && !Settled(Kill(k, 3)) && Kill(k, 3).running == 4 &&
        StateOf(Kill(k, 3), 2) == Ready
  {
    hide Inv, Settled, WaitChild, ExitTask, Run, Allowed;
    ChildrenAreReady();
    var k := Run(Boot(1, 1), Children);
    Waits(k, 4);
    RunStep(Boot(1, 1), Children, DoWaitChild);
    var k1 := WaitChild(k);
    RunStep(Boot(1, 1), Children + [DoWaitChild], DoKill(3));
    ExitTaskKeeps(k1, 3);
    KillKeeps(k1, 3);
  }
}
