/** What every step of the kernel does to every task: the state each is in afterwards, its priority and its wake
    time, and which task runs. */
module KernelMoves {
  import opened Lists
  import opened QueueSpec
  import opened KernelSpec
  import opened KernelInv
  import opened KernelSteps
  import opened KernelMsg
  import opened KernelRuns
  import Rotation = KernelRotation

  // ---- schedule

  /** A task that has to leave the processor goes back to the ready queue. */
  function Parked(s: State): State {
    if s == Running then Ready else s
  }

  /** r outranks every task that is ready after a wake-up pass. */
  ghost predicate Outranks(k: Kernel, r: Ptr) {
    forall t: Ptr :: AfterWake(k, t) == Ready ==> Of(k.prio, t) < Of(k.prio, r)
  }

  /** What schedule does: it wakes the sleepers whose time has come and no other; the running task keeps the processor
      exactly when it can run and outranks every ready task; otherwise a ready task gets it; all others stay. */
  ghost predicate Scheduled(k: Kernel, k': Kernel) {
    && k'.clock == k.clock && k'.prio == k.prio && k'.parent == k.parent
    && StateOf(k', k'.running) == Running && Parked(AfterWake(k, k'.running)) == Ready
    && (forall t: Ptr :: t != k'.running ==> StateOf(k', t) == Parked(AfterWake(k, t)))
    && (forall t: Ptr :: StateOf(k', t) == Sleeping ==> Of(k'.wake, t) == Of(k.wake, t))
    && (k'.running == k.running <==> AfterWake(k, k.running) == Running && Outranks(k, k.running))
  }

  lemma SetTaskStateFrame(k: Kernel, t: Ptr, s: State, h: Head)
    ensures var r := SetTaskState(k, t, s, h);
      r == k.(queues := r.queues, link := r.link, ok := r.ok, state := r.state)
  {
    hide QueueAdd, QueueDel;
    DelFrame(k, t);
    AddFrame(SetState(k, t, s), t, h);
    AddFrame(SetState(QueueDel(k, t), t, s), t, h);
  }

  lemma RunningFrame(k: Kernel, t: Ptr)
    ensures var r := SetTaskRunning(k, t);
      r == k.(queues := r.queues, link := r.link, ok := r.ok, state := r.state, running := t)
  {
    hide QueueDel;
    DelFrame(k, t);
  }

  lemma {:induction false} WakeAllFrame(k: Kernel, sleepers: seq<Ptr>)
    ensures var r := WakeAll(k, sleepers);
      r == k.(queues := r.queues, link := r.link, ok := r.ok, state := r.state, wake := r.wake)
    decreases |sleepers|
  {
    hide SetTaskState;
    if sleepers != [] {
      SetTaskStateFrame(k.(wake := k.wake[sleepers[0] := 0]), sleepers[0], Ready, ReadyQueue);
      WakeAllFrame(WakeOne(k, sleepers[0]), sleepers[1..]);
    }
  }

  /** schedule touches nothing but states, wake times, links and who runs. */
  lemma ScheduleFrame(k: Kernel)
    ensures var r := Schedule(k);
      r == k.(queues := r.queues, link := r.link, ok := r.ok, state := r.state, wake := r.wake, running := r.running)
  {
    hide SetTaskState, SetTaskRunning, WakeAll;
    var k1 := WakeAll(k, QueueAt(k, SleepingQueue));
    WakeAllFrame(k, QueueAt(k, SleepingQueue));
    SetTaskStateFrame(k1, k1.running, Ready, ReadyQueue);
    if QueueAt(k1, ReadyQueue) != [] {
      RunningFrame(Preempt(k1), Last(QueueAt(k1, ReadyQueue)));
    }
  }

  lemma DispatchMoves(k: Kernel)
    requires Base(k) && Pending(k, [])
    ensures var k' := Dispatch(k);
      && k'.clock == k.clock && k'.prio == k.prio && k'.wake == k.wake
      && StateOf(k', k'.running) == Running && Parked(StateOf(k, k'.running)) == Ready
      && (forall t: Ptr :: t != k'.running ==> StateOf(k', t) == Parked(StateOf(k, t)))
      && (k'.running == k.running <==> StateOf(k, k.running) == Running && Outranks(k, k.running))
  {
    hide Linked, Mail, SetTaskRunning, Preempt;
    var ready, r := QueueAt(k, ReadyQueue), k.running;
    if ready == [] || (StateOf(k, r) == Running && Of(k.prio, r) > Of(k.prio, Last(ready))) {
      StaySettles(k);
      if ready == [] {
        ReadyIsListed(k);
      } else {
        TopOfReady(k);
      }
    } else {
      TopOfReady(k);
      PreemptKeeps(k);
      TakeOver(Preempt(k), Last(ready));
    }
  }

  lemma ScheduleMoves(k: Kernel)
    requires Base(k) && (StateOf(k, k.running) == Sleeping ==> !Due(k, k.running))
    ensures Scheduled(k, Schedule(k)) && Inv(Schedule(k)) && Pending(Schedule(k), [])
  {
    hide Dispatch, Linked, Who, Mail, WakeAll;
    SleepersPending(k);
    hide Base;
    var sleepers := QueueAt(k, SleepingQueue);
    WakeAllKeeps(k, sleepers);
    WakeAllWakes(k, sleepers);
    WakeAllFrame(k, sleepers);
    DispatchMoves(WakeAll(k, sleepers));
    ScheduleFrame(k);
    ScheduleKeeps(k);
  }

  // ---- what a step names

  /** A call of psend: a receiver is released, or the caller blocks. */
  function SendFate(k: Kernel, id: int, msg: int, t: Ptr): State {
    if !Used(k, id) then StateOf(k, t)
    else if QueueAt(k, Receivers(id)) != [] then
      if t == Last(QueueAt(k, Receivers(id))) then Ready else StateOf(k, t)
    else if Full(k, id) && msg != NONE && t == k.running then InterruptedMsg
    else StateOf(k, t)
  }

  /** A call of preceive: the caller blocks, or a sender is released. */
  function ReceiveFate(k: Kernel, id: int, t: Ptr): State {
    if !Used(k, id) then StateOf(k, t)
    else if Empty(k, id) then if t == k.running then InterruptedMsg else StateOf(k, t)
    else if QueueAt(k, Senders(id)) != [] && t == Last(QueueAt(k, Senders(id))) then Ready
    else StateOf(k, t)
  }

  /** The state that a step puts task t in, apart from who runs. */
  function Fate(k: Kernel, step: Step, t: Ptr): State {
    match step
    case DoTick => AfterWake(k.(clock := (k.clock + 1) % CLOCK_MODULUS), t)
    case DoWaitClock(_) => if t == k.running then Sleeping else StateOf(k, t)
    case DoWaitChild => if t == k.running then InterruptedChild else StateOf(k, t)
    case DoStart(newcomer, _, _) => if t == newcomer then Ready else StateOf(k, t)
    case DoExit => StateAfterExit(k, k.running, t)
    case DoKill(target) => if target == k.idle then StateOf(k, t) else StateAfterExit(k, target, t)
    case DoPsend(id, msg) => SendFate(k, id, msg, t)
    case DoPreceive(id) => ReceiveFate(k, id, t)
    case DoResume =>
      if CallOf(k, k.running).Receiving? && Of(k.msgVal, k.running) == NONE then
        ReceiveFate(k, CallOf(k, k.running).id, t)
      else StateOf(k, t)
    case _ => StateOf(k, t)
  }

  predicate Legal(p: int) {
    MIN_PRIO <= p <= MAX_PRIO
  }

  function PrioAfter(k: Kernel, step: Step, t: Ptr): int {
    match step
    case DoStart(newcomer, _, p) => if t == newcomer then p else Of(k.prio, t)
    case DoChprio(target, p) => if t == target != k.idle && Legal(p) then p else Of(k.prio, t)
    case DoExit => if t == k.running then DeathRank(k.clock) else Of(k.prio, t)
    case DoKill(target) => if t == target != k.idle then DeathRank(k.clock) else Of(k.prio, t)
    case _ => Of(k.prio, t)
  }

  function WakeAfter(k: Kernel, step: Step, t: Ptr): int {
    if step.DoWaitClock? && t == k.running then step.until else Of(k.wake, t)
  }

  /** Whether the processor goes round among equals: at a tick, and when a task of the same priority starts. */
  predicate Rotates(k: Kernel, step: Step) {
    step.DoTick? || (step.DoStart? && step.prio == Of(k.prio, k.running))
  }

  /** The running task is that much above every task that is ready after the step. */
  ghost predicate Leads(k: Kernel, step: Step, margin: nat) {
    forall t: Ptr :: Fate(k, step, t) == Ready ==> PrioAfter(k, step, t) + margin <= PrioAfter(k, step, k.running)
  }

  /** Whether the running task keeps the processor. kill does not ask whether a task that it releases has a higher
      priority. */
  ghost predicate StaysOn(k: Kernel, step: Step) {
    && Fate(k, step, k.running) == Running
    && (step.DoKill? || Leads(k, step, if Rotates(k, step) then 1 else 0))
  }

  /** k' is k after the step: every task but the one that runs is in the state that the step names, or ready if it
      had to leave the processor; the one that runs was ready, or went on. */
  ghost predicate Moved(k: Kernel, step: Step, k': Kernel) {
    && StateOf(k', k'.running) == Running && Parked(Fate(k, step, k'.running)) == Ready
    && (forall t: Ptr :: t != k'.running ==> StateOf(k', t) == Parked(Fate(k, step, t)))
    && (forall t: Ptr :: Of(k'.prio, t) == PrioAfter(k, step, t))
    && (forall t: Ptr :: StateOf(k', t) == Sleeping ==> Of(k'.wake, t) == WakeAfter(k, step, t))
    && k'.clock == (if step.DoTick? then (k.clock + 1) % CLOCK_MODULUS else k.clock)
    && k'.parent == (if step.DoStart? then k.parent[step.task := k.running] else k.parent)
    && Pending(k', [])
  }

  /** The same, with who runs. */
  ghost predicate MovedOn(k: Kernel, step: Step, k': Kernel) {
    Moved(k, step, k') && (Settled(k) ==> (k'.running == k.running <==> StaysOn(k, step)))
  }

  /** Where a step stands before it looks for another task to run. */
  ghost predicate Poised(k: Kernel, step: Step, k1: Kernel) {
    && k1.running == k.running && k1.clock == (if step.DoTick? then (k.clock + 1) % CLOCK_MODULUS else k.clock)
    && k1.parent == (if step.DoStart? then k.parent[step.task := k.running] else k.parent)
    && (forall t: Ptr :: AfterWake(k1, t) == Fate(k, step, t))
    && (forall t: Ptr :: Of(k1.prio, t) == PrioAfter(k, step, t))
    && (forall t: Ptr :: Fate(k, step, t) == Sleeping ==> Of(k1.wake, t) == WakeAfter(k, step, t))
  }

  /** It calls schedule. */
  lemma BySchedule(k: Kernel, step: Step, k1: Kernel)
    requires Base(k1) && (StateOf(k1, k1.running) == Sleeping ==> !Due(k1, k1.running)) && Poised(k, step, k1)
    ensures Moved(k, step, Schedule(k1))
    ensures Schedule(k1).running == k.running <==> Fate(k, step, k.running) == Running && Leads(k, step, 1)
  {
    hide Fate, PrioAfter, WakeAfter, Base, Inv, Schedule, Due, Moved;
    ScheduleMoves(k1);
    ScheduledMoves(k, step, k1, Schedule(k1));
    hide Pending;
    forall t: Ptr ensures AfterWake(k1, t) == Fate(k, step, t) && Of(k1.prio, t) == PrioAfter(k, step, t) {
    }
  }

  lemma ScheduledMoves(k: Kernel, step: Step, k1: Kernel, k': Kernel)
    requires Poised(k, step, k1) && Scheduled(k1, k') && Pending(k', [])
    ensures Moved(k, step, k')
  {
    hide Fate, PrioAfter, WakeAfter, Due, Pending, Outranks;
    forall t: Ptr ensures StateOf(k', t) == Sleeping ==> Of(k'.wake, t) == WakeAfter(k, step, t) {
      if t != k'.running && StateOf(k', t) == Sleeping {
        assert AfterWake(k1, t) == Sleeping;
      }
    }
    assert forall t: Ptr :: Of(k1.prio, t) == PrioAfter(k, step, t);
  }

  /** It does not: the running task goes on. */
  lemma ByStaying(k: Kernel, step: Step, k1: Kernel)
    requires Inv(k1) && Pending(k1, []) && Poised(k, step, k1)
    ensures Moved(k, step, k1) && Fate(k, step, k.running) == Running
  {
    hide Fate, PrioAfter, WakeAfter, Linked, Mail;
    assert forall t: Ptr :: AfterWake(k1, t) == StateOf(k1, t);
  }

  // ---- the steps

  lemma TickMoves(k: Kernel)
    requires Inv(k) && Pending(k, [])
    ensures MovedOn(k, DoTick, Tick(k))
  {
    hide Schedule;
    var k1 := k.(clock := (k.clock + 1) % CLOCK_MODULUS);
    TimeKept(k, k.wake, k1.clock);
    BySchedule(k, DoTick, k1);
  }

  lemma WaitClockPoised(k: Kernel, c: int, k1: Kernel)
    requires Inv(k) && Pending(k, []) && Enabled(k, DoWaitClock(c))
    requires k1 == QueueAdd(SetState(k.(wake := k.wake[k.running := c]), k.running, Sleeping), k.running, SleepingQueue)
    ensures WaitClock(k, c) == Schedule(k1) && Base(k1) && Poised(k, DoWaitClock(c), k1) && k1.running == k.running
    ensures StateOf(k1, k1.running) == Sleeping && !Due(k1, k1.running) && k1.state == k.state[k.running := Sleeping]
  {
    hide Schedule, Linked, Mail, Poised, Pending;
    var k0 := k.(wake := k.wake[k.running := c]);
    TimeKept(k, k0.wake, k.clock);
    SleepKeeps(k0);
    AddFrame(SetState(k0, k0.running, Sleeping), k0.running, SleepingQueue);
    hide Base, QueueAdd;
    SleeperPoised(k, c, k1);
  }

  lemma SleeperPoised(k: Kernel, c: int, k1: Kernel)
    requires Pending(k, []) && c > k.clock && k1.running == k.running && k1.parent == k.parent
    requires k1.clock == k.clock && k1.prio == k.prio && k1.wake == k.wake[k.running := c]
    requires k1.state == k.state[k.running := Sleeping]
    ensures Poised(k, DoWaitClock(c), k1)
  {
  }

  lemma WaitClockMoves(k: Kernel, c: int)
    requires Inv(k) && Pending(k, []) && Enabled(k, DoWaitClock(c))
    ensures MovedOn(k, DoWaitClock(c), WaitClock(k, c))
  {
    hide Inv, Base, QueueAdd, Poised, Moved, Pending, WaitClock;
    var k1 := QueueAdd(SetState(k.(wake := k.wake[k.running := c]), k.running, Sleeping), k.running, SleepingQueue);
    WaitClockPoised(k, c, k1);
    BySchedule(k, DoWaitClock(c), k1);
  }

  lemma WaitChildPoised(k: Kernel, k1: Kernel)
    requires Inv(k) && Pending(k, []) && Enabled(k, DoWaitChild)
    requires k1 == QueueAdd(SetState(k, k.running, InterruptedChild), k.running, ChildQueue)
    ensures WaitChild(k) == Schedule(k1) && Base(k1) && Poised(k, DoWaitChild, k1)
    ensures k1.running == k.running && k1.state == k.state[k.running := InterruptedChild]
  {
    hide Schedule;
    LeaveKeeps(k, SetState(k, k.running, InterruptedChild), ChildQueue);
    AddFrame(SetState(k, k.running, InterruptedChild), k.running, ChildQueue);
    hide Base, QueueAdd;
  }

  lemma WaitChildMoves(k: Kernel)
    requires Inv(k) && Pending(k, []) && Enabled(k, DoWaitChild)
    ensures MovedOn(k, DoWaitChild, WaitChild(k))
  {
    hide Inv, Base, QueueAdd, Poised, Moved, Pending, WaitChild;
    var k1 := QueueAdd(SetState(k, k.running, InterruptedChild), k.running, ChildQueue);
    WaitChildPoised(k, k1);
    BySchedule(k, DoWaitChild, k1);
  }

  lemma StartMoves(k: Kernel, t: Ptr, pid: int, prio: int)
    requires Inv(k) && Pending(k, []) && Enabled(k, DoStart(t, pid, prio))
    ensures MovedOn(k, DoStart(t, pid, prio), Start(k, t, pid, prio))
  {
    hide Schedule, Base, Moved, Poised, Pending, Due, StaysOn, Leads, Fate, PrioAfter, Spawn, Inv, Settled;
    var step, k1 := DoStart(t, pid, prio), Spawn(k, t, pid, prio);
    SpawnKeeps(k, t, pid, prio);
    SpawnPoised(k, t, pid, prio);
    RunningIsRunning(k);
    RunningIsRunning(k1);
    NewcomerStays(k, t, pid, prio);
    if prio >= Of(k.prio, k.running) {
      BySchedule(k, step, k1);
    } else {
      ByStaying(k, step, k1);
    }
  }

  /** A newcomer that is not below the running task takes the processor from it, or an equal that waited longer does. */
  lemma NewcomerStays(k: Kernel, t: Ptr, pid: int, prio: int)
    requires t != k.running
    ensures prio >= Of(k.prio, k.running) ==>
      !StaysOn(k, DoStart(t, pid, prio)) && !Leads(k, DoStart(t, pid, prio), 1)
    ensures prio < Of(k.prio, k.running) && Settled(k) && StateOf(k, k.running) == Running ==>
      StaysOn(k, DoStart(t, pid, prio))
    ensures Fate(k, DoStart(t, pid, prio), k.running) == StateOf(k, k.running)
  {
    var step := DoStart(t, pid, prio);
    assert Fate(k, step, t) == Ready && PrioAfter(k, step, t) == prio;
    assert PrioAfter(k, step, k.running) == Of(k.prio, k.running);
  }

  lemma RunningIsRunning(k: Kernel)
    requires Inv(k)
    ensures Base(k) && Linked(k) && StateOf(k, k.running) == Running
  {
  }

  lemma SpawnPoised(k: Kernel, t: Ptr, pid: int, prio: int)
    requires Inv(k) && Pending(k, []) && StateOf(k, t) == Startup
    ensures Poised(k, DoStart(t, pid, prio), Spawn(k, t, pid, prio)) && Pending(Spawn(k, t, pid, prio), [])
    ensures Spawn(k, t, pid, prio).prio == k.prio[t := prio] && t != k.running
    ensures Spawn(k, t, pid, prio).running == k.running
  {
    hide Poised, Pending;
    assert LinkOf(k, t) == Place(k, t);
    var k1 := k.(state := k.state[t := Ready], pid := k.pid[t := pid], prio := k.prio[t := prio],
                 parent := k.parent[t := k.running], msgVal := k.msgVal[t := NONE], call := k.call[t := User]);
    SpawnIs(k, t, pid, prio, k1);
    AddFrame(k1, t, ReadyQueue);
    hide Inv, Spawn, QueueAdd;
    NewcomerPoised(k, t, pid, prio, Spawn(k, t, pid, prio));
  }

  lemma NewcomerPoised(k: Kernel, t: Ptr, pid: int, prio: int, k1: Kernel)
    requires Pending(k, []) && StateOf(k, t) == Startup && k1.running == k.running && k1.clock == k.clock
    requires k1.state == k.state[t := Ready] && k1.prio == k.prio[t := prio] && k1.wake == k.wake
    requires k1.parent == k.parent[t := k.running]
    ensures Poised(k, DoStart(t, pid, prio), k1) && Pending(k1, [])
  {
  }

  /** Dying changes states, links and one priority. */
  lemma ExitTaskFrame(k: Kernel, t: Ptr)
    ensures var r := ExitTask(k, t);
      r == k.(queues := r.queues, link := r.link, ok := r.ok, state := r.state, prio := r.prio)
  {
    hide QueueDel, SetTaskState;
    var k1 := k.(prio := k.prio[t := DeathRank(k.clock)]);
    DelFrame(k1, t);
    var k2 := if t in k.link && IsMsgQueue(k.link[t]) then QueueDel(k1, t) else k1;
    SetTaskStateFrame(k2, t, Zombie, ZombieQueue);
    var k3 := SetTaskState(k2, t, Zombie, ZombieQueue);
    if t in k.parent {
      SetTaskStateFrame(k3, k.parent[t], Ready, ReadyQueue);
    }
  }

  lemma ExitTaskPoised(k: Kernel, step: Step, t: Ptr)
    requires Inv(k) && Pending(k, []) && t != k.idle && Live(k, t)
    requires step == DoKill(t) || (step == DoExit && t == k.running)
    ensures Poised(k, step, ExitTask(k, t)) && Pending(ExitTask(k, t), []) && Base(ExitTask(k, t))
    ensures StateOf(ExitTask(k, t), t) == Zombie && ExitTask(k, t).running == k.running
    ensures t != k.running ==> Inv(ExitTask(k, t))
  {
    hide ExitTask, Base;
    ExitTaskKeeps(k, t);
    ExitTaskFrame(k, t);
    var k1 := ExitTask(k, t);
    forall u: Ptr ensures StateOf(k1, u) == Sleeping ==> !Due(k1, u) {
      assert StateOf(k1, u) == StateAfterExit(k, t, u);
    }
  }

  lemma ExitMoves(k: Kernel)
    requires Inv(k) && Pending(k, []) && Enabled(k, DoExit)
    ensures MovedOn(k, DoExit, Exit(k))
  {
    hide Schedule, ExitTask, Linked, Mail, Poised, Moved, Pending, Settled;
    ExitTaskPoised(k, DoExit, k.running);
    BySchedule(k, DoExit, ExitTask(k, k.running));
  }

  lemma KillMoves(k: Kernel, t: Ptr)
    requires Inv(k) && Pending(k, []) && Enabled(k, DoKill(t))
    ensures MovedOn(k, DoKill(t), Kill(k, t))
  {
    hide Schedule, ExitTask, Linked, Mail, Moved, Settled;
    if t == k.idle {
      ByStaying(k, DoKill(t), k);
    } else {
      ExitTaskPoised(k, DoKill(t), t);
      if t == k.running {
        BySchedule(k, DoKill(t), ExitTask(k, t));
      } else {
        ByStaying(k, DoKill(t), ExitTask(k, t));
      }
    }
  }

  /** Where chprio stands once the task has its new priority, wherever the links are. */
  lemma PrioPoised(k: Kernel, t: Ptr, p: int, k1: Kernel)
    requires Inv(k) && Pending(k, []) && t != k.idle && Legal(p)
    requires k1 == k.(prio := k.prio[t := p], queues := k1.queues, link := k1.link)
    ensures Poised(k, DoChprio(t, p), k1) && Pending(k1, [])
  {
    hide Inv;
  }

  lemma ReinsertPoised(k: Kernel, t: Ptr, p: int)
    requires Inv(k) && Pending(k, []) && t != k.idle && Legal(p)
    ensures var k1 := Reinsert(k.(prio := k.prio[t := p]), t);
      && Inv(k1) && Pending(k1, []) && Poised(k, DoChprio(t, p), k1) && Poised(k, DoChprio(t, p), Reinsert(k1, t))
      && Inv(Reinsert(k1, t)) && Pending(Reinsert(k1, t), [])
      && k1.idle == k.idle && Reinsert(k1, t).running == k.running
      && k1.state == k.state && k1.running == k.running && k1.prio == k.prio[t := p]
  {
    hide Inv, Reinsert, Poised, Pending;
    var k0 := k.(prio := k.prio[t := p]);
    ReinsertKeeps(k, k0, t);
    var k1 := Reinsert(k0, t);
    ReinsertKeeps(k1, k1, t);
    PrioPoised(k, t, p, k1);
    PrioPoised(k, t, p, Reinsert(k1, t));
  }

  /** The running task loses its lead to another task whose new priority is above its own, and only so. */
  lemma OtherPrioLeads(k: Kernel, t: Ptr, p: int)
    requires t != k.running && t != k.idle && Legal(p)
    ensures StateOf(k, t) == Ready && p > Of(k.prio, k.running) ==>
      !Leads(k, DoChprio(t, p), 0) && !Leads(k, DoChprio(t, p), 1)
    ensures Settled(k) && (StateOf(k, t) != Ready || p <= Of(k.prio, k.running)) ==> Leads(k, DoChprio(t, p), 0)
  {
    assert Fate(k, DoChprio(t, p), t) == StateOf(k, t);
  }

  /** It loses its lead by its own new priority exactly when the top of the ready queue is above that. */
  lemma OwnPrioLeads(k: Kernel, p: int, top: Ptr)
    requires k.running != k.idle && Legal(p) && StateOf(k, top) == Ready && top != k.running
    requires forall t: Ptr ::
      StateOf(k, t) == Ready ==> Of(k.prio[k.running := p], t) <= Of(k.prio[k.running := p], top)
    requires StateOf(k, k.running) == Running
    ensures Of(k.prio[k.running := p], top) > p ==>
      !Leads(k, DoChprio(k.running, p), 0) && !Leads(k, DoChprio(k.running, p), 1)
    ensures Of(k.prio[k.running := p], top) <= p ==> Leads(k, DoChprio(k.running, p), 0)
  {
    assert Fate(k, DoChprio(k.running, p), top) == Ready;
  }

  lemma RefusedMoves(k: Kernel, t: Ptr, p: int)
    requires Inv(k) && Pending(k, []) && (t == k.idle || !Legal(p))
    ensures MovedOn(k, DoChprio(t, p), k)
  {
    hide Linked, Mail, Moved;
    ByStaying(k, DoChprio(t, p), k);
  }

  lemma ChprioMoves(k: Kernel, t: Ptr, p: int)
    requires Inv(k) && Pending(k, []) && Enabled(k, DoChprio(t, p))
    ensures MovedOn(k, DoChprio(t, p), Chprio(k, t, p))
  {
    hide Inv, Base, Schedule, Linked, Moved, Reinsert, Leads, Settled, Poised, Pending;
    var step := DoChprio(t, p);
    if t == k.idle || !Legal(p) {
      RefusedMoves(k, t, p);
    } else {
      RunningIsRunning(k);
      ReinsertPoised(k, t, p);
      var k1 := Reinsert(k.(prio := k.prio[t := p]), t);
      RunningIsRunning(k1);
      if t != k.running {
        OtherPrioLeads(k, t, p);
      }
      if StateOf(k1, t) == InterruptedMsg {
        ByStaying(k, step, Reinsert(k1, t));
      } else if t != k1.running && StateOf(k1, t) == Ready && p > Of(k1.prio, k1.running) {
        BySchedule(k, step, k1);
      } else if t == k1.running {
        IdleIsReady(k1);
        TopOfReady(k1);
        var top := Last(QueueAt(k1, ReadyQueue));
        OwnPrioLeads(k, p, top);
        if Of(k1.prio, top) > p {
          BySchedule(k, step, k1);
        } else {
          ByStaying(k, step, k1);
        }
      } else {
        ByStaying(k, step, k1);
      }
    }
  }

  // ---- messages

  /** k1 differs from k only in messages and calls. */
  ghost predicate SameTasks(k: Kernel, k1: Kernel) {
    && k1.state == k.state && k1.prio == k.prio && k1.wake == k.wake && k1.clock == k.clock
    && k1.parent == k.parent && k1.running == k.running && k1.queues == k.queues && k1.link == k.link
  }

  /** Steps of messages leave clock, wake times, priorities and parents alone. */
  predicate OfMessages(step: Step) {
    step.DoPsend? || step.DoPreceive? || step.DoResume? || step.DoPcreate?
  }

  lemma QuietMoves(k: Kernel, step: Step, k1: Kernel)
    requires Inv(k) && Pending(k, []) && Inv(k1) && SameTasks(k, k1) && OfMessages(step)
    requires forall t: Ptr :: Fate(k, step, t) == StateOf(k, t)
    ensures MovedOn(k, step, k1)
  {
    hide Fate, Linked, Mail;
    ByStaying(k, step, k1);
  }

  /** The caller blocks. */
  lemma BlockMoves(k: Kernel, step: Step, kb: Kernel, h: Head, c: Call)
    requires Inv(k) && Pending(k, []) && Inv(kb) && SameTasks(k, kb) && OfMessages(step)
    requires kb.running != kb.idle && MayBlock(kb, h, c)
    requires forall t: Ptr :: Fate(k, step, t) == if t == k.running then InterruptedMsg else StateOf(k, t)
    ensures MovedOn(k, step, BlockOnMsg(kb, h, c))
  {
    hide Fate, Schedule, MayBlock, QueueAdd, BlockOnMsg;
    BlockedBase(kb, h, c);
    BlockCommutes(kb, h, c);
    AddFrame(kb.(call := kb.call[kb.running := c], state := kb.state[kb.running := InterruptedMsg]), kb.running, h);
    hide Base, Inv;
    var k1 := Blocked(kb, h, c);
    BlockedPoised(k, step, k1);
    hide Blocked, Poised, Moved, Pending;
    BySchedule(k, step, k1);
  }

  lemma BlockedPoised(k: Kernel, step: Step, k1: Kernel)
    requires Pending(k, []) && OfMessages(step) && k1.state == k.state[k.running := InterruptedMsg]
    requires k1.prio == k.prio && k1.wake == k.wake && k1.clock == k.clock
    requires k1.parent == k.parent && k1.running == k.running
    requires forall t: Ptr :: Fate(k, step, t) == if t == k.running then InterruptedMsg else StateOf(k, t)
    ensures Poised(k, step, k1)
  {
    hide Fate;
  }

  /** A task is taken off a message queue and becomes ready. */
  lemma ReleasePoised(k: Kernel, step: Step, k1: Kernel, t: Ptr)
    requires Pending(k, []) && OfMessages(step) && k1.state == k.state[t := Ready]
    requires k1.prio == k.prio && k1.wake == k.wake && k1.clock == k.clock
    requires k1.parent == k.parent && k1.running == k.running && t != k.running
    requires forall u: Ptr :: Fate(k, step, u) == if u == t then Ready else StateOf(k, u)
    ensures Poised(k, step, k1) && Pending(k1, [])
  {
    hide Fate;
  }

  lemma ReleasedMoves(k: Kernel, step: Step, k1: Kernel, t: Ptr)
    requires Inv(k1) && Pending(k1, []) && Poised(k, step, k1) && k1.running == k.running && k1.prio == k.prio
    requires OfMessages(step) && t != k.running && StateOf(k, k.running) == Running
    requires forall u: Ptr :: Fate(k, step, u) == if u == t then Ready else StateOf(k, u)
    ensures MovedOn(k, step, if Of(k1.prio, t) > Of(k1.prio, k1.running) then Schedule(k1) else k1)
  {
    hide Fate, Schedule, Poised, Moved, Pending, Linked, Mail;
    if Of(k1.prio, t) > Of(k1.prio, k1.running) {
      BySchedule(k, step, k1);
    } else {
      ByStaying(k, step, k1);
    }
  }

  /** It runs at once if it outranks the caller. */
  lemma ReleaseMoves(k: Kernel, step: Step, kb: Kernel, h: Head, v: int)
    requires Inv(k) && Pending(k, []) && Inv(kb) && SameTasks(k, kb) && OfMessages(step)
    requires IsMsgQueue(h) && QueueAt(k, h) != [] && (h.Senders? ==> v == NONE)
    requires forall t: Ptr :: Fate(k, step, t) == if t == Last(QueueAt(k, h)) then Ready else StateOf(k, t)
    ensures QueueAt(kb, h) != []
    ensures var t := Last(QueueAt(kb, h));
      MovedOn(k, step, SetReadyOrRunning(SetMsgVal(QueueOut(kb, h), t, v), t))
  {
    hide Fate, Schedule, Linked, Mail, Pending, MovedOn;
    var t := Last(QueueAt(kb, h));
    var k0 := SetState(SetMsgVal(QueueOut(kb, h), t, v), t, Ready);
    var k1 := QueueAdd(k0, t, ReadyQueue);
    UnblockKeeps(kb, t, v, h);
    AddFrame(k0, t, ReadyQueue);
    ReleasePoised(k, step, k1, t);
    hide QueueAdd, Poised;
    ReleasedMoves(k, step, k1, t);
  }

  /** The three ways a step of messages can end: nobody moves, the caller blocks, or a waiting task is released. */
  datatype Ending =
    | Quietly(after: Kernel)
    | Blocking(from: Kernel, head: Head, call: Call)
    | Releasing(from: Kernel, head: Head, msg: int)

  /** The step ends that way, from a state that differs from k only in messages and calls. */
  ghost predicate Ends(k: Kernel, step: Step, e: Ending, k': Kernel) {
    match e
    case Quietly(k1) => k' == k1 && Inv(k1) && SameTasks(k, k1) && forall t: Ptr :: Fate(k, step, t) == StateOf(k, t)
    case Blocking(kb, h, c) =>
      && k' == BlockOnMsg(kb, h, c) && Inv(kb) && SameTasks(k, kb) && kb.running != kb.idle && MayBlock(kb, h, c)
      && forall t: Ptr :: Fate(k, step, t) == if t == k.running then InterruptedMsg else StateOf(k, t)
    case Releasing(kb, h, v) =>
      && Inv(kb) && SameTasks(k, kb) && IsMsgQueue(h) && QueueAt(kb, h) != [] && (h.Senders? ==> v == NONE)
      && k' == SetReadyOrRunning(SetMsgVal(QueueOut(kb, h), Last(QueueAt(kb, h)), v), Last(QueueAt(kb, h)))
      && forall t: Ptr :: Fate(k, step, t) == if t == Last(QueueAt(kb, h)) then Ready else StateOf(k, t)
  }

  lemma EndingMoves(k: Kernel, step: Step, e: Ending, k': Kernel)
    requires Inv(k) && Pending(k, []) && OfMessages(step) && Ends(k, step, e, k')
    ensures MovedOn(k, step, k')
  {
    hide Inv, MovedOn, Pending, Fate, MayBlock, BlockOnMsg, SetReadyOrRunning;
    match e {
      case Quietly(k1) => QuietMoves(k, step, k1);
      case Blocking(kb, h, c) => BlockMoves(k, step, kb, h, c);
      case Releasing(kb, h, v) => ReleaseMoves(k, step, kb, h, v);
    }
  }

  lemma PsendEnds(k: Kernel, id: int, msg: int) returns (e: Ending)
    requires Inv(k) && Enabled(k, DoPsend(id, msg))
    ensures Ends(k, DoPsend(id, msg), e, Psend(k, id, msg).kernel)
  {
    hide Inv, SetReadyOrRunning, BlockOnMsg, SendLoop;
    if !Used(k, id) {
      e := Quietly(k);
    } else if QueueAt(k, Receivers(id)) != [] {
      e := Releasing(k, Receivers(id), msg);
    } else {
      OwnMsgValKeeps(k, msg);
      e := SendLoopEnds(k, id, msg, SetMsgVal(k, k.running, msg));
    }
  }

  lemma SendLoopEnds(k: Kernel, id: int, msg: int, kb: Kernel) returns (e: Ending)
    requires Inv(k) && Enabled(k, DoPsend(id, msg)) && Used(k, id) && QueueAt(k, Receivers(id)) == []
    requires Inv(kb) && kb == SetMsgVal(k, k.running, msg)
    ensures Ends(k, DoPsend(id, msg), e, SendLoop(kb, id, msg).kernel)
  {
    hide Inv, BlockOnMsg, SendLoop, Ends;
    if msg == NONE {
      SendDrops(kb, id, msg);
      e := Quietly(SetCall(kb, User));
      QuietEnd(k, DoPsend(id, msg), SetCall(kb, User));
    } else if Full(k, id) {
      SendLoopBlocks(kb, id, msg);
      e := Blocking(kb, Senders(id), Sending(id, msg));
      BlockEnd(k, DoPsend(id, msg), kb, Senders(id), Sending(id, msg));
    } else {
      SendAppends(kb, id, msg);
      AppendIsQuiet(kb, id, msg);
      e := Quietly(SendLoop(kb, id, msg).kernel);
      QuietEnd(k, DoPsend(id, msg), SendLoop(kb, id, msg).kernel);
    }
  }

  lemma QuietEnd(k: Kernel, step: Step, k1: Kernel)
    requires Inv(k1) && SameTasks(k, k1) && forall t: Ptr :: Fate(k, step, t) == StateOf(k, t)
    ensures Ends(k, step, Quietly(k1), k1)
  {
  }

  lemma BlockEnd(k: Kernel, step: Step, kb: Kernel, h: Head, c: Call)
    requires Inv(kb) && SameTasks(k, kb) && kb.running != kb.idle && MayBlock(kb, h, c)
    requires forall t: Ptr :: Fate(k, step, t) == if t == k.running then InterruptedMsg else StateOf(k, t)
    ensures Ends(k, step, Blocking(kb, h, c), BlockOnMsg(kb, h, c))
  {
    hide BlockOnMsg, MayBlock, Inv, Fate;
  }

  lemma SendLoopBlocks(k: Kernel, id: int, msg: int)
    requires Full(k, id) && Of(k.msgVal, k.running) != NONE
    ensures SendLoop(k, id, msg).kernel == BlockOnMsg(k, Senders(id), Sending(id, msg))
  {
    hide BlockOnMsg;
  }

  lemma AppendIsQuiet(k: Kernel, id: int, msg: int)
    requires Used(k, id) && !Full(k, id) && Of(k.msgVal, k.running) != NONE && QueueAt(k, Receivers(id)) == []
    ensures SameTasks(k, SendLoop(k, id, msg).kernel)
  {
    hide SetReadyOrRunning;
  }

  /** preceive from its loop on, when no message was handed over. */
  lemma ReceiveEnds(k: Kernel, step: Step, kb: Kernel, id: int) returns (e: Ending)
    requires Inv(k) && Inv(kb) && SameTasks(k, kb) && kb.running != kb.idle
    requires kb.mqs == k.mqs && Used(k, id) && Of(kb.msgVal, kb.running) == NONE
    requires forall t: Ptr :: Fate(k, step, t) == ReceiveFate(k, id, t)
    ensures Ends(k, step, e, ReceiveLoop(kb, id).kernel)
  {
    hide Inv, BlockOnMsg, SetReadyOrRunning, Fate;
    if Empty(k, id) {
      e := Blocking(kb, Receivers(id), Receiving(id));
    } else {
      var k1 := SetCall(kb, User);
      EndCallKeeps(kb);
      assert ReceiveLoop(kb, id) == ReceiveFromQueue(k1, id);
      if QueueAt(k1, Senders(id)) != [] {
        e := RefillEnds(k, step, k1, id);
      } else {
        ReceivePops(k1, id);
        e := Quietly(ReceiveFromQueue(k1, id).kernel);
      }
    }
  }

  lemma RefillEnds(k: Kernel, step: Step, k1: Kernel, id: int) returns (e: Ending)
    requires Inv(k) && Inv(k1) && SameTasks(k, k1) && k1.mqs == k.mqs
    requires Used(k, id) && !Empty(k, id) && QueueAt(k1, Senders(id)) != []
    requires forall t: Ptr :: Fate(k, step, t) == ReceiveFate(k, id, t)
    ensures Ends(k, step, e, ReceiveFromQueue(k1, id).kernel)
  {
    hide Inv, SetReadyOrRunning, Fate;
    var last := Last(QueueAt(k1, Senders(id)));
    RunningIsRunning(k1);
    hide Base;
    WaitersSeeExtremes(k1, id);
    SenderHoldsMessage(k1, last, id);
    var rotated := MsgsOf(k1, id)[1..] + [Of(k1.msgVal, last)];
    RotateKeeps(k1, id, rotated);
    RefillCommutes(k1, id, rotated);
    e := Releasing(SetMsgs(k1, id, rotated), Senders(id), NONE);
  }

  lemma PreceiveEnds(k: Kernel, id: int) returns (e: Ending)
    requires Inv(k) && Enabled(k, DoPreceive(id))
    ensures Ends(k, DoPreceive(id), e, Preceive(k, id).kernel)
  {
    hide Inv, ReceiveLoop;
    if Used(k, id) {
      OwnMsgValKeeps(k, NONE);
      e := ReceiveEnds(k, DoPreceive(id), SetMsgVal(k, k.running, NONE), id);
    } else {
      e := Quietly(k);
    }
  }

  lemma ResumeEnds(k: Kernel) returns (e: Ending)
    requires Inv(k) && Enabled(k, DoResume)
    ensures Ends(k, DoResume, e, Resume(k).kernel)
  {
    hide Linked, ReceiveLoop;
    assert MailOf(k, k.running);
    hide Mail;
    match CallOf(k, k.running) {
      case User => e := Quietly(k);
      case Sending(_, _) =>
        ResumedSenderEnds(k);
        e := Quietly(SetCall(k, User));
      case Receiving(id) =>
        if Of(k.msgVal, k.running) == NONE {
          e := ReceiveEnds(k, DoResume, k, id);
        } else {
          ResumedReceiverReturns(k);
          HandedReturn(k, id);
          e := Quietly(Resume(k).kernel);
        }
    }
  }

  lemma HandedReturn(k: Kernel, id: int)
    requires CallOf(k, k.running) == Receiving(id) && Used(k, id) && Of(k.msgVal, k.running) != NONE
    ensures SameTasks(k, Resume(k).kernel)
  {
  }

  lemma MessageEnds(k: Kernel, step: Step) returns (e: Ending)
    requires Inv(k) && OfMessages(step) && Enabled(k, step)
    ensures Ends(k, step, e, Apply(k, step).kernel)
  {
    hide Inv, Ends, Psend, Preceive, Resume, Enabled;
    match step {
      case DoPsend(id, msg) => e := PsendEnds(k, id, msg);
      case DoPreceive(id) => e := PreceiveEnds(k, id);
      case DoResume => e := ResumeEnds(k);
      case DoPcreate(count, _) =>
        PcreateKeeps(k, count);
        e := Quietly(Pcreate(k, count));
        PcreateEnds(k, step, count);
    }
  }

  lemma PcreateEnds(k: Kernel, step: Step, count: int)
    requires step.DoPcreate? && Inv(Pcreate(k, count))
    ensures Ends(k, step, Quietly(Pcreate(k, count)), Pcreate(k, count))
  {
  }

  /** After every step each task is in the state that the step names, with its priority and its wake time, but that one
      of the ready tasks may run instead of the task that ran; the running task loses the processor only to a task of
      higher priority, or to an equal when the processor goes round, or when it cannot go on. */
  lemma StepMoves(k: Kernel, step: Step)
    requires Inv(k) && Pending(k, []) && Enabled(k, step)
    ensures MovedOn(k, step, Apply(k, step).kernel)
  {
    hide Inv, MovedOn, Pending, Psend, Preceive, Resume, Enabled, Ends;
    match step {
      case DoTick => TickMoves(k);
      case DoWaitClock(until) => WaitClockMoves(k, until);
      case DoWaitChild => WaitChildMoves(k);
      case DoStart(t, pid, prio) => StartMoves(k, t, pid, prio);
      case DoChprio(t, prio) => ChprioMoves(k, t, prio);
      case DoExit => ExitMoves(k);
      case DoKill(t) => KillMoves(k, t);
      case _ =>
        var e := MessageEnds(k, step);
        EndingMoves(k, step, e, Apply(k, step).kernel);
    }
  }

  // ---- sleep

  /** Nobody sleeps past its wake time, at any point of a run. */
  lemma {:induction false} NobodyOversleeps(k: Kernel, steps: seq<Step>)
    requires Inv(k) && Pending(k, []) && Allowed(k, steps)
    ensures Inv(Run(k, steps)) && Pending(Run(k, steps), [])
    decreases |steps|
  {
    hide Inv, Pending, Enabled;
    if steps != [] {
      StepKeeps(k, steps[0]);
      StepMoves(k, steps[0]);
      NobodyOversleeps(Apply(k, steps[0]).kernel, steps[1..]);
    }
  }

  /** What a step names for a sleeper that it does not kill. */
  lemma SleeperFate(k: Kernel, step: Step, t: Ptr)
    requires Inv(k) && Enabled(k, step) && StateOf(k, t) == Sleeping && step != DoKill(t)
    ensures Fate(k, step, t) ==
            if step.DoTick? && (k.clock + 1) % CLOCK_MODULUS >= Of(k.wake, t) then Ready else Sleeping
    ensures t != k.running
  {
    assert LinkOf(k, t) == Place(k, t);
    forall h: Head | IsMsgQueue(h) && QueueAt(k, h) != [] ensures t != Last(QueueAt(k, h)) {
      BlockedTask(k, Last(QueueAt(k, h)), h);
    }
  }

  /** A step of others leaves a sleeper asleep with its wake time, until the clock reaches that time; then it is ready,
      or runs. */
  lemma StepSleeps(k: Kernel, step: Step, t: Ptr)
    requires Inv(k) && Pending(k, []) && Enabled(k, step) && StateOf(k, t) == Sleeping && step != DoKill(t)
    ensures var k' := Apply(k, step).kernel;
      && (StateOf(k', t) == Sleeping <==> k'.clock < Of(k.wake, t))
      && (StateOf(k', t) == Sleeping ==> Of(k'.wake, t) == Of(k.wake, t))
      && (StateOf(k', t) == Sleeping || StateOf(k', t) == Ready || StateOf(k', t) == Running)
  {
    StepMoves(k, step);
    SleeperFate(k, step, t);
    hide Inv, Apply, Fate;
  }

  /** The clock is below c at every point of a run before its last. */
  ghost predicate Before(k: Kernel, steps: seq<Step>, c: int)
    decreases |steps|
  {
    steps == [] || (k.clock < c && Before(Apply(k, steps[0]).kernel, steps[1..], c))
  }

  lemma {:induction false} SleepsUntil(k: Kernel, steps: seq<Step>, t: Ptr)
    requires Inv(k) && Pending(k, []) && Allowed(k, steps) && StateOf(k, t) == Sleeping
    requires Before(k, steps, Of(k.wake, t)) && DoKill(t) !in steps
    ensures StateOf(Run(k, steps), t) == Sleeping <==> Run(k, steps).clock < Of(k.wake, t)
    decreases |steps|
  {
    if steps != [] {
      StepKeeps(k, steps[0]);
      StepMoves(k, steps[0]);
      StepSleeps(k, steps[0], t);
      hide Inv, Apply, Enabled, Fate;
      var k1 := Apply(k, steps[0]).kernel;
      if StateOf(k1, t) == Sleeping {
        SleepsUntil(k1, steps[1..], t);
      } else {
        assert steps[1..] == [];
      }
    }
  }

  /** A task that calls wait_clock sleeps exactly until the clock reaches the time it asked for, whatever the others
      do, unless it is killed. */
  lemma WaitClockSleeps(k: Kernel, c: int, steps: seq<Step>)
    requires Inv(k) && Pending(k, []) && Enabled(k, DoWaitClock(c)) && Allowed(WaitClock(k, c), steps)
    requires Before(WaitClock(k, c), steps, c) && DoKill(k.running) !in steps
    ensures var k' := Run(WaitClock(k, c), steps); StateOf(k', k.running) == Sleeping <==> k'.clock < c
  {
    WaitClockMoves(k, c);
    WaitClockKeeps(k, c);
    hide Inv, WaitClock;
    SleepsUntil(WaitClock(k, c), steps, k.running);
  }

  /** t sleeps until c, or slept until then. */
  predicate Awaits(k: Kernel, t: Ptr, c: int) {
    if k.clock < c then StateOf(k, t) == Sleeping && Of(k.wake, t) == c
    else StateOf(k, t) == Ready || StateOf(k, t) == Running
  }

  lemma TickAwaits(k: Kernel, t: Ptr, c: int)
    requires Inv(k) && Pending(k, []) && Awaits(k, t, c) && 0 <= k.clock < CLOCK_MODULUS - 1
    ensures var k' := Tick(k); Inv(k') && Pending(k', []) && k'.clock == k.clock + 1 && Awaits(k', t, c)
  {
    hide Inv, Tick;
    TickMoves(k);
    TickKeeps(k);
  }

  lemma WaitClockAwaits(k: Kernel, c: int)
    requires Inv(k) && Pending(k, []) && Enabled(k, DoWaitClock(c))
    ensures var k' := WaitClock(k, c);
      Inv(k') && Pending(k', []) && k'.clock == k.clock && Awaits(k', k.running, c)
  {
    WaitClockMoves(k, c);
    WaitClockKeeps(k, c);
    hide Inv, WaitClock;
  }

  /** While only the clock ticks, it sleeps for c - k.clock ticks. */
  lemma {:induction false} TicksUntil(k: Kernel, c: int, n: nat)
    requires Inv(k) && Pending(k, []) && Enabled(k, DoWaitClock(c)) && 0 <= k.clock && k.clock + n < CLOCK_MODULUS
    ensures var k' := Rotation.Ticks(WaitClock(k, c), n);
      Inv(k') && Pending(k', []) && k'.clock == k.clock + n && Awaits(k', k.running, c)
  {
    hide Inv, Pending, WaitClock, Tick, Awaits, Enabled;
    if n == 0 {
      WaitClockAwaits(k, c);
    } else {
      TicksUntil(k, c, n - 1);
      TickAwaits(Rotation.Ticks(WaitClock(k, c), n - 1), k.running, c);
    }
  }

  // ---- chprio

  /** If q is in order of arrival, so is q', once e has arrived anew. */
  ghost predicate InOrder(q: seq<Ptr>, q': seq<Ptr>, prio: Field, prio': Field, e: Ptr, since: Field, now: int) {
    Stable(q, prio, since) && (forall x :: x in q ==> Of(since, x) < now) ==> Stable(q', prio', since[e := now])
  }

  /** The task e of queue q is put in again with another priority: it is the youngest of that priority, and all others
      keep their order. */
  ghost predicate Requeued(q: seq<Ptr>, q': seq<Ptr>, prio: Field, prio': Field, e: Ptr) {
    && Remove(q', e) == Remove(q, e) && e in q'
    && forall since: Field, now: int :: InOrder(q, q', prio, prio', e, since, now)
  }

  lemma ReinsertRequeues(q: seq<Ptr>, prio: Field, e: Ptr, p: int)
    requires NoRepeats(q) && e in q
    ensures Requeued(q, Insert(Remove(q, e), prio[e := p], e), prio, prio[e := p], e)
    ensures Insert(Remove(Insert(Remove(q, e), prio[e := p], e), e), prio[e := p], e) ==
      Insert(Remove(q, e), prio[e := p], e)
  {
    hide Insert, Remove, Stable;
    var r, prio' := Remove(q, e), prio[e := p];
    var q' := Insert(r, prio', e);
    RemoveMembers(q, e);
    RemoveInserted(r, prio', e);
    InsertMembers(r, prio', e);
    forall since: Field, now: int ensures InOrder(q, q', prio, prio', e, since, now) {
      if Stable(q, prio, since) && forall x :: x in q ==> Of(since, x) < now {
        UpdateStable(q, prio, since, e, p, now);
      }
    }
  }

  /** chprio gives the task its priority, tells the old one, and changes no other priority; it refuses the idle task and
      a priority outside the bounds. In a settled state the task has the processor afterwards exactly when it runs and
      no ready task is above its new priority, or is ready and its new priority is above that of the running one. */
  lemma ChprioSets(k: Kernel, t: Ptr, p: int)
    requires Inv(k) && Pending(k, []) && Live(k, t)
    ensures var k', r := Chprio(k, t, p), ChprioResult(k, t, p);
      if t == k.idle || !Legal(p) then k' == k && r == -EINVAL
      else
        && r == Of(k.prio, t) && Of(k'.prio, t) == p
        && (forall u: Ptr :: u != t ==> Of(k'.prio, u) == Of(k.prio, u))
        && (Settled(k) ==> (k'.running == t <==> Wins(k, t, p)))
  {
    if t != k.idle && Legal(p) {
      ChprioMoves(k, t, p);
      ChprioKeeps(k, t, p);
      OnlyOneRuns(k);
      hide Inv, Chprio;
      var k' := Chprio(k, t, p);
      assert Of(k'.prio, t) == PrioAfter(k, DoChprio(t, p), t);
      if Settled(k) {
        ChprioWins(k, t, p, k');
      }
    }
  }

  lemma OnlyOneRuns(k: Kernel)
    requires Inv(k)
    ensures forall u: Ptr :: StateOf(k, u) == Running <==> u == k.running
  {
  }

  lemma ChprioWins(k: Kernel, t: Ptr, p: int, k': Kernel)
    requires Settled(k) && Settled(k') && MovedOn(k, DoChprio(t, p), k') && t != k.idle && Legal(p)
    requires forall u: Ptr :: StateOf(k, u) == Running <==> u == k.running
    ensures k'.running == t <==> Wins(k, t, p)
  {
    var step := DoChprio(t, p);
    if t == k.running {
      assert forall u: Ptr :: StateOf(k, u) == Ready ==> PrioAfter(k, step, u) == Of(k.prio, u);
      assert StaysOn(k, step) <==> Wins(k, t, p);
    } else {
      assert PrioAfter(k, step, k.running) == Of(k.prio, k.running);
      assert k'.running == t ==> Fate(k, step, t) == Ready;
      assert Wins(k, t, p) ==> Fate(k, step, t) == Ready && !StaysOn(k, step);
    }
  }

  /** Whether t has the processor once its priority is p. */
  ghost predicate Wins(k: Kernel, t: Ptr, p: int) {
    if t == k.running then forall u: Ptr :: StateOf(k, u) == Ready ==> Of(k.prio, u) <= p
    else StateOf(k, t) == Ready && p > Of(k.prio, k.running)
  }

  /** A task that waits, or is ready and not above the running one, stays in the queue it is in, as the youngest of its
      priority there; no other queue changes. */
  lemma ChprioRequeues(k: Kernel, t: Ptr, p: int)
    requires Inv(k) && Live(k, t) && t != k.idle && Legal(p) && t != k.running
    requires StateOf(k, t) == Ready ==> p <= Of(k.prio, k.running)
    ensures var k' := Chprio(k, t, p);
      && LinkOf(k, t).Some? && LinkOf(k', t) == LinkOf(k, t)
      && (forall h: Head :: h != LinkOf(k, t).value ==> QueueAt(k', h) == QueueAt(k, h))
      && Requeued(QueueAt(k, k.link[t]), QueueAt(k', k.link[t]), k.prio, k.prio[t := p], t) && k'.prio == k.prio[t := p]
  {
    hide Schedule, Insert, Remove, Requeued, Stable;
    OnlyOneRuns(k);
    assert MailOf(k, t);
    hide Mail, Who;
    assert LinkOf(k, t) == Place(k, t);
    assert t in QueueAt(k, k.link[t]);
    ReinsertRequeues(QueueAt(k, k.link[t]), k.prio, t, p);
  }

  // ---- dying

  /** kill tells whether the task dies: it refuses the idle task alone, among those alive. */
  lemma KillTells(k: Kernel, t: Ptr)
    requires Inv(k) && Pending(k, []) && Live(k, t)
    ensures KillResult(k, t) == if StateOf(Kill(k, t), t) == Zombie then 0 else -EINVAL
    ensures StateOf(Kill(k, t), t) == Zombie <==> t != k.idle
    ensures t == k.idle ==> Kill(k, t) == k
  {
    hide Inv, Pending, PrioAfter, WakeAfter, Leads, StaysOn, Settled, ExitTask, Schedule;
    if t != k.idle {
      KillMoves(k, t);
      hide Kill;
      assert Fate(k, DoKill(t), t) == Zombie;
      assert t != Kill(k, t).running;
    }
  }

  lemma DeathRankIff(c1: int, c2: int)
    requires 0 <= c1 < c2 < CLOCK_MODULUS
    ensures DeathRank(c1) > DeathRank(c2) <==> !(c1 < 0x8000_0000 <= c2)
    ensures DeathRank(c1) != DeathRank(c2)
  {
  }

  /** Of two dead tasks the one that died first is nearer to the top of the zombie queue exactly when the sign bit of
      the clock was not set between their deaths. */
  lemma FirstDeadIff(k: Kernel, t: Ptr, z: Ptr, c: int, i: nat, j: nat)
    requires Inv(k) && Live(k, t) && t != k.idle && StateOf(k, z) == Zombie && Of(k.prio, z) == DeathRank(c)
    requires 0 <= c < k.clock < CLOCK_MODULUS
    requires i < |QueueAt(ExitTask(k, t), ZombieQueue)| && QueueAt(ExitTask(k, t), ZombieQueue)[i] == t
    requires j < |QueueAt(ExitTask(k, t), ZombieQueue)| && QueueAt(ExitTask(k, t), ZombieQueue)[j] == z
    ensures i < j <==> !(c < 0x8000_0000 <= k.clock)
  {
    hide ExitTask, Mail, DeathRank;
    ExitTaskKeeps(k, t);
    DeathRankIff(c, k.clock);
    var k' := ExitTask(k, t);
    assert Sorted(QueueAt(k', ZombieQueue), k'.prio);
    assert Of(k'.prio, t) == DeathRank(k.clock) && Of(k'.prio, z) == DeathRank(c);
  }
}
