/** Whole runs of the kernel: any sequence of system calls, clock ticks and resumptions. */
module KernelRuns {
  import opened Options
  import opened QueueSpec
  import opened KernelSpec
  import opened KernelInv
  import opened KernelSteps
  import opened KernelMsg

  /** Every call but those naming another task is made by the running one. What memory holds where pcreate
      puts a queue, junk, makes no difference. */
  datatype Step =
    | DoTick
    | DoWaitClock(until: int)
    | DoWaitChild
    | DoStart(task: Ptr, pid: int, prio: int)
    | DoChprio(target: Ptr, prio: int)
    | DoExit
    | DoKill(target: Ptr)
    | DoPsend(id: int, msg: int)
    | DoPreceive(id: int)
    | DoPcreate(count: int, junk: int)
    | DoResume

  function Apply(k: Kernel, step: Step): Outcome {
    match step
    case DoTick => Outcome(Tick(k), [], None)
    case DoWaitClock(until) => Outcome(WaitClock(k, until), [], None)
    case DoWaitChild => Outcome(WaitChild(k), [], None)
    case DoStart(t, pid, prio) => Outcome(Start(k, t, pid, prio), [], None)
    case DoChprio(t, prio) => Outcome(Chprio(k, t, prio), [], None)
    case DoExit => Outcome(Exit(k), [], None)
    case DoKill(t) => Outcome(Kill(k, t), [], None)
    case DoPsend(id, msg) => Psend(k, id, msg)
    case DoPreceive(id) => Preceive(k, id)
    case DoPcreate(count, _) => Outcome(Pcreate(k, count), [], None)
    case DoResume => Resume(k)
  }

  /** The idle task only waits for interrupts; a wake time lies in the future; a new task has a fresh pid; a task
      inside psend or preceive first ends that call; and queue identifiers index the table, which the code does
      not test. */
  ghost predicate Enabled(k: Kernel, step: Step) {
    match step
    case DoTick => true
    case DoWaitClock(until) => UserCode(k) && until > k.clock
    case DoWaitChild => UserCode(k)
    case DoStart(t, pid, _) => StateOf(k, t) == Startup && forall u: Ptr :: Live(k, u) ==> Of(k.pid, u) != pid
    case DoChprio(t, _) => Live(k, t)
    case DoExit => k.running != k.idle
    case DoKill(t) => Live(k, t)
    case DoPsend(id, _) => UserCode(k) && 0 <= id < NBQUEUE
    case DoPreceive(id) => UserCode(k) && 0 <= id < NBQUEUE
    case DoPcreate(_, _) => true
    case DoResume => k.running != k.idle
  }

  predicate UserCode(k: Kernel) {
    k.running != k.idle && CallOf(k, k.running) == User
  }

  /** What the step returns to its caller, if only once it runs again. A task that kills itself never does. */
  function AnswerOf(k: Kernel, step: Step): Answer {
    match step
    case DoTick => Nothing
    case DoWaitClock(_) => Nothing
    case DoWaitChild => Nothing
    case DoStart(_, pid, _) => Returned(pid)
    case DoChprio(t, prio) => Returned(ChprioResult(k, t, prio))
    case DoExit => Nothing
    case DoKill(t) => if t == k.running != k.idle then Nothing else Returned(KillResult(k, t))
    case DoPsend(id, msg) => PsendAnswer(k, id, msg)
    case DoPreceive(id) => PreceiveAnswer(k, id)
    case DoPcreate(count, _) => Returned(PcreateResult(k, count))
    case DoResume => ResumeAnswer(k)
  }

  lemma BlockCall(k: Kernel, h: Head, c: Call)
    ensures CallOf(BlockOnMsg(k, h, c), k.running) == c
  {
    hide Schedule, QueueAdd;
    AddFrame(k, k.running, h);
  }

  lemma SendEndCall(k: Kernel, id: int, msg: int)
    requires Used(k, id)
    ensures SendEnd(k, id, msg).kernel.call == k.call
  {
    hide WakeReceiver;
  }

  lemma SendLoopCall(k: Kernel, id: int, msg: int)
    requires Used(k, id)
    ensures CallOf(SendLoop(k, id, msg).kernel, k.running) ==
      if Full(k, id) && Of(k.msgVal, k.running) != NONE then Sending(id, msg) else User
  {
    hide BlockOnMsg, SendEnd;
    if Full(k, id) && Of(k.msgVal, k.running) != NONE {
      BlockCall(k, Senders(id), Sending(id, msg));
    } else {
      SendEndCall(SetCall(k, User), id, msg);
    }
  }

  lemma SetMsgsCall(k: Kernel, id: int, msgs: seq<int>)
    requires Used(k, id)
    ensures SetMsgs(k, id, msgs).call == k.call
  {
  }

  lemma ReleaseCall(k: Kernel, k1: Kernel, t: Ptr)
    requires k1.call == k.call
    ensures SetReadyOrRunning(k1, t).call == k.call
  {
    hide SetReadyOrRunning;
  }

  lemma ReceiveAndWakeCall(k: Kernel, id: int)
    requires Used(k, id) && QueueAt(k, Senders(id)) != []
    ensures ReceiveAndWake(k, id).kernel.call == k.call
  {
    hide SetReadyOrRunning, SetMsgs, Full;
    var msgs, t, k1 := k.mqs[id].msgs, Last(QueueAt(k, Senders(id))), QueueOut(k, Senders(id));
    var v := Of(k.msgVal, t);
    if msgs == [] {
      ReleaseCall(k, SetMsgVal(k1, t, NONE), t);
    } else if Full(k, id) && v != NONE {
      SetMsgsCall(k1, id, msgs[1..] + [v]);
      ReleaseCall(k, SetMsgVal(SetMsgs(k1, id, msgs[1..] + [v]), t, NONE), t);
    } else {
      SetMsgsCall(k1, id, msgs[1..]);
      ReleaseCall(k, SetMsgs(k1, id, msgs[1..]), t);
    }
  }

  lemma FromQueueCall(k: Kernel, id: int)
    requires Used(k, id)
    ensures ReceiveFromQueue(k, id).kernel.call == k.call
  {
    hide ReceiveAndWake, SetMsgs;
    var msgs := k.mqs[id].msgs;
    if QueueAt(k, Senders(id)) != [] {
      ReceiveAndWakeCall(k, id);
    } else if msgs != [] {
      SetMsgsCall(k, id, msgs[1..]);
    }
  }

  lemma ReceiveLoopCall(k: Kernel, id: int)
    requires Used(k, id)
    ensures CallOf(ReceiveLoop(k, id).kernel, k.running) ==
      if Empty(k, id) && Of(k.msgVal, k.running) == NONE then Receiving(id) else User
  {
    hide BlockOnMsg, ReceiveFromQueue;
    if Empty(k, id) && Of(k.msgVal, k.running) == NONE {
      BlockCall(k, Receivers(id), Receiving(id));
    } else {
      FromQueueCall(SetCall(k, User), id);
    }
  }

  /** preceive has no message exactly while it waits for one. */
  lemma ReceiveLoopGot(k: Kernel, id: int)
    requires Inv(k) && k.running != k.idle && Used(k, id)
    ensures ReceiveLoop(k, id).got == None <==> Empty(k, id) && Of(k.msgVal, k.running) == NONE
  {
    hide ReceiveFromQueue, BlockOnMsg, Inv;
    if Of(k.msgVal, k.running) == NONE {
      ReceiveLoopSound(k, id);
    }
  }

  lemma PsendCall(k: Kernel, id: int, msg: int)
    requires CallOf(k, k.running) == User
    ensures PsendAnswer(k, id, msg) == Waiting <==> CallOf(Psend(k, id, msg).kernel, k.running) != User
  {
    hide SendLoop, SetReadyOrRunning;
    if Used(k, id) && QueueAt(k, Receivers(id)) == [] {
      SendLoopCall(SetMsgVal(k, k.running, msg), id, msg);
    }
  }

  lemma PreceiveCall(k: Kernel, id: int)
    requires Inv(k) && UserCode(k)
    ensures PreceiveAnswer(k, id) == Waiting <==> CallOf(Preceive(k, id).kernel, k.running) != User
  {
    hide ReceiveLoop, Inv;
    if Used(k, id) {
      var k1 := SetMsgVal(k, k.running, NONE);
      OwnMsgValKeeps(k, NONE);
      ReceiveLoopCall(k1, id);
      ReceiveLoopGot(k1, id);
    }
  }

  lemma EndedCall(k: Kernel)
    ensures CallOf(SetCall(k, User), k.running) == User
  {
  }

  lemma ResumeCall(k: Kernel)
    requires Inv(k) && k.running != k.idle
    ensures ResumeAnswer(k) == Waiting <==> CallOf(Resume(k).kernel, k.running) != User
  {
    hide SendLoop, ReceiveLoop, Inv, SetCall, Full, Empty;
    assert CallOf(SetCall(k, User), k.running) == User by { EndedCall(k); }
    match CallOf(k, k.running) {
      case User =>
      case Sending(id, msg) =>
        if Used(k, id) {
          SendLoopCall(k, id, msg);
        }
      case Receiving(id) =>
        if Used(k, id) {
          ReceiveLoopCall(k, id);
          ReceiveLoopGot(k, id);
        }
    }
  }

  /** A message call is left without an answer exactly when its caller still stands inside it. */
  lemma WaitingIff(k: Kernel, step: Step)
    requires Inv(k) && Enabled(k, step) && (step.DoPsend? || step.DoPreceive? || step.DoResume?)
    ensures AnswerOf(k, step) == Waiting <==> CallOf(Apply(k, step).kernel, k.running) != User
  {
    hide Inv, Psend, Preceive, Resume, PsendAnswer, PreceiveAnswer, ResumeAnswer;
    match step {
      case DoPsend(id, msg) => PsendCall(k, id, msg);
      case DoPreceive(id) => PreceiveCall(k, id);
      case DoResume => ResumeCall(k);
    }
  }

  /** What the message calls return: psend -1 for an unused queue and 0 once its message is dropped, buffered or handed
      over; preceive the oldest message, if there is one; and a receiver that was handed a message returns that. */
  lemma MessageAnswers(k: Kernel, id: int, msg: int)
    requires Inv(k) && UserCode(k)
    ensures !Used(k, id) ==> PsendAnswer(k, id, msg) == PreceiveAnswer(k, id) == Returned(-1)
    ensures Used(k, id) ==>
      PsendAnswer(k, id, msg) ==
      if msg == NONE || AcceptedOf(Psend(k, id, msg).events, id) == [msg] then Returned(0) else Waiting
    ensures Used(k, id) ==> PreceiveAnswer(k, id) == if MsgsOf(k, id) == [] then Waiting else Received(MsgsOf(k, id)[0])
  {
    hide Inv, Psend, Preceive;
    PsendSound(k, id, msg);
    PreceiveSound(k, id);
  }

  lemma HandedAnswer(k: Kernel)
    requires Inv(k) && k.running != k.idle && CallOf(k, k.running).Receiving? && Of(k.msgVal, k.running) != NONE
    ensures ResumeAnswer(k) == Received(Of(k.msgVal, k.running))
  {
    ResumedReceiverReturns(k);
    assert MailOf(k, k.running);
    hide Resume;
  }

  // ---- one step

  /** Live tasks have distinct pids. */
  ghost predicate DistinctPids(k: Kernel) {
    forall t: Ptr, u: Ptr :: Live(k, t) && Live(k, u) && t != u ==> Of(k.pid, t) != Of(k.pid, u)
  }

  ghost predicate NoNewborn(k: Kernel, k': Kernel) {
    k'.pid == k.pid && forall u: Ptr :: Live(k', u) ==> Live(k, u)
  }

  lemma NewbornThrough(k: Kernel, k1: Kernel, k2: Kernel)
    requires NoNewborn(k, k1) && LiveKept(k1, k2) && k2.pid == k1.pid
    ensures NoNewborn(k, k2)
  {
    forall u: Ptr | Live(k2, u) ensures Live(k, u) {
      assert Live(k1, u);
    }
  }

  lemma RunningIsLive(k: Kernel, k1: Kernel)
    requires Inv(k) && k1.pid == k.pid && forall u: Ptr :: u != k.running ==> StateOf(k1, u) == StateOf(k, u)
    ensures NoNewborn(k, k1)
  {
    assert Live(k, k.running);
  }

  lemma TickNewborn(k: Kernel)
    requires Inv(k)
    ensures NoNewborn(k, Tick(k))
  {
    var k1 := k.(clock := (k.clock + 1) % CLOCK_MODULUS);
    TimeKept(k, k.wake, k1.clock);
    ScheduleKeeps(k1);
    RunningIsLive(k, k1);
    NewbornThrough(k, k1, Tick(k));
  }

  /** The running task changes state and calls schedule. */
  lemma LeaveNewborn(k: Kernel, k1: Kernel)
    requires Inv(k) && k1.pid == k.pid && Base(k1) && (StateOf(k1, k1.running) == Sleeping ==> !Due(k1, k1.running))
    requires forall u: Ptr :: u != k.running ==> StateOf(k1, u) == StateOf(k, u)
    ensures NoNewborn(k, Schedule(k1))
  {
    ScheduleKeeps(k1);
    RunningIsLive(k, k1);
    NewbornThrough(k, k1, Schedule(k1));
  }

  lemma WaitClockNewborn(k: Kernel, c: int)
    requires Inv(k) && UserCode(k) && c > k.clock
    ensures NoNewborn(k, WaitClock(k, c))
  {
    var k1 := k.(wake := k.wake[k.running := c]);
    TimeKept(k, k1.wake, k.clock);
    SleepKeeps(k1);
    var k2 := SetTaskState(k1, k1.running, Sleeping, SleepingQueue);
    AddFrame(SetState(k1, k1.running, Sleeping), k1.running, SleepingQueue);
    LeaveNewborn(k, k2);
  }

  lemma WaitChildNewborn(k: Kernel)
    requires Inv(k) && UserCode(k)
    ensures NoNewborn(k, WaitChild(k))
  {
    var k1 := SetState(k, k.running, InterruptedChild);
    LeaveKeeps(k, k1, ChildQueue);
    AddFrame(k1, k.running, ChildQueue);
    LeaveNewborn(k, QueueAdd(k1, k.running, ChildQueue));
  }

  lemma ExitTaskNewborn(k: Kernel, t: Ptr)
    requires Inv(k) && t != k.idle && Live(k, t)
    ensures NoNewborn(k, ExitTask(k, t))
  {
    ExitTaskKeeps(k, t);
    forall u: Ptr | Live(ExitTask(k, t), u) ensures Live(k, u) {
      assert StateOf(ExitTask(k, t), u) == StateAfterExit(k, t, u);
    }
  }

  lemma KillNewborn(k: Kernel, t: Ptr)
    requires Inv(k) && Live(k, t)
    ensures NoNewborn(k, Kill(k, t))
  {
    if t != k.idle {
      ExitTaskNewborn(k, t);
      if t == k.running {
        ExitTaskKeeps(k, t);
        ScheduleKeeps(ExitTask(k, t));
        NewbornThrough(k, ExitTask(k, t), Kill(k, t));
      }
    }
  }

  lemma ExitNewborn(k: Kernel)
    requires Inv(k) && k.running != k.idle
    ensures NoNewborn(k, Exit(k))
  {
    KillNewborn(k, k.running);
    assert Kill(k, k.running) == Exit(k);
  }

  /** chprio changes states only through schedule. */
  lemma ChprioCases(k: Kernel, t: Ptr, p: int)
    ensures Chprio(k, t, p).state == k.state || Chprio(k, t, p) == Schedule(Reinsert(k.(prio := k.prio[t := p]), t))
  {
    hide Schedule, QueueAdd, QueueDel;
  }

  lemma SameStatesNewborn(k: Kernel, k': Kernel)
    requires k'.state == k.state && k'.pid == k.pid
    ensures NoNewborn(k, k')
  {
    assert forall u: Ptr :: StateOf(k', u) == StateOf(k, u);
  }

  lemma ChprioNewborn(k: Kernel, t: Ptr, p: int)
    requires Inv(k) && Live(k, t)
    ensures NoNewborn(k, Chprio(k, t, p))
  {
    var k0 := k.(prio := k.prio[t := p]);
    var k1, k' := Reinsert(k0, t), Chprio(k, t, p);
    ChprioCases(k, t, p);
    if k'.state == k.state {
      SameStatesNewborn(k, k');
    } else {
      ReinsertKeeps(k, k0, t);
      ScheduleKeeps(k1);
      SameStatesNewborn(k, k1);
      NewbornThrough(k, k1, k');
    }
  }

  lemma PidsKept(k: Kernel, k': Kernel)
    requires DistinctPids(k) && NoNewborn(k, k')
    ensures DistinctPids(k')
  {
  }

  lemma StepKeepsPids(k: Kernel, step: Step)
    requires Inv(k) && DistinctPids(k) && Enabled(k, step)
    ensures DistinctPids(Apply(k, step).kernel)
    ensures step.DoStart? || NoNewborn(k, Apply(k, step).kernel)
  {
    match step {
      case DoTick => TickNewborn(k);
      case DoWaitClock(until) => WaitClockNewborn(k, until);
      case DoWaitChild => WaitChildNewborn(k);
      case DoStart(t, pid, prio) =>
        StartKeeps(k, t, pid, prio);
        StartPids(k, Start(k, t, pid, prio), t, pid);
      case DoChprio(t, prio) => ChprioNewborn(k, t, prio);
      case DoExit => ExitNewborn(k);
      case DoKill(t) => KillNewborn(k, t);
      case DoPsend(id, msg) => PsendSound(k, id, msg);
      case DoPreceive(id) => PreceiveSound(k, id);
      case DoPcreate(count, _) => PcreateKeeps(k, count);
      case DoResume => ResumeSound(k);
    }
    if !step.DoStart? {
      PidsKept(k, Apply(k, step).kernel);
    }
  }

  lemma StartPids(k: Kernel, k': Kernel, t: Ptr, pid: int)
    requires DistinctPids(k) && k'.pid == k.pid[t := pid] && forall u: Ptr :: Live(k, u) ==> Of(k.pid, u) != pid
    requires forall u: Ptr :: u != t && Live(k', u) ==> Live(k, u)
    ensures DistinctPids(k')
  {
    forall a: Ptr, b: Ptr | Live(k', a) && Live(k', b) && a != b ensures Of(k'.pid, a) != Of(k'.pid, b) {
      assert a != t ==> Live(k, a);
      assert b != t ==> Live(k, b);
    }
  }

  /** Every enabled step keeps the invariant, and with it every assertion of the kernel; it conserves the
      messages of every queue; and it leaves the running task unrivalled, unless it is a kill. */
  lemma StepKeeps(k: Kernel, step: Step)
    requires Inv(k) && Enabled(k, step)
    ensures Inv(Apply(k, step).kernel) && Conserves(k, Apply(k, step))
    ensures Settled(k) && !step.DoKill? ==> Settled(Apply(k, step).kernel)
  {
    match step {
      case DoTick => TickKeeps(k);
      case DoWaitClock(until) => WaitClockKeeps(k, until);
      case DoWaitChild => WaitChildKeeps(k);
      case DoStart(t, pid, prio) => StartKeeps(k, t, pid, prio);
      case DoChprio(t, prio) => ChprioKeeps(k, t, prio);
      case DoExit => ExitKeeps(k);
      case DoKill(t) => KillKeeps(k, t);
      case DoPsend(id, msg) => PsendSound(k, id, msg);
      case DoPreceive(id) => PreceiveSound(k, id);
      case DoPcreate(count, _) => PcreateKeeps(k, count);
      case DoResume => ResumeSound(k);
    }
    if Apply(k, step).events == [] && Apply(k, step).kernel.mqs == k.mqs {
      QuietConserves(k, Apply(k, step));
    }
  }

  // ---- whole runs

  function Run(k: Kernel, steps: seq<Step>): Kernel
    decreases |steps|
  {
    if steps == [] then k else Run(Apply(k, steps[0]).kernel, steps[1..])
  }

  function EventsOf(k: Kernel, steps: seq<Step>): seq<Event>
    decreases |steps|
  {
    if steps == [] then [] else Apply(k, steps[0]).events + EventsOf(Apply(k, steps[0]).kernel, steps[1..])
  }

  ghost predicate Allowed(k: Kernel, steps: seq<Step>)
    decreases |steps|
  {
    steps == [] || (Enabled(k, steps[0]) && Allowed(Apply(k, steps[0]).kernel, steps[1..]))
  }

  lemma AcceptedHead(a: seq<Event>, id: int)
    requires a != []
    ensures AcceptedOf(a, id) == (if a[0].Accepted? && a[0].id == id then [a[0].msg] else []) + AcceptedOf(a[1..], id)
  {
  }

  lemma {:induction false} AcceptedConcat(a: seq<Event>, b: seq<Event>, id: int)
    ensures AcceptedOf(a + b, id) == AcceptedOf(a, id) + AcceptedOf(b, id)
  {
    hide AcceptedOf;
    if a == [] {
      NoEvents(id);
      assert a + b == b;
    } else {
      AcceptedConcat(a[1..], b, id);
      assert (a + b)[1..] == a[1..] + b;
      AcceptedHead(a + b, id);
      AcceptedHead(a, id);
    }
  }

  lemma DeliveredHead(a: seq<Event>, id: int)
    requires a != []
    ensures DeliveredOf(a, id) ==
      (if a[0].Delivered? && a[0].id == id then [a[0].msg] else []) + DeliveredOf(a[1..], id)
  {
  }

  lemma {:induction false} DeliveredConcat(a: seq<Event>, b: seq<Event>, id: int)
    ensures DeliveredOf(a + b, id) == DeliveredOf(a, id) + DeliveredOf(b, id)
  {
    hide DeliveredOf;
    if a == [] {
      NoEvents(id);
      assert a + b == b;
    } else {
      DeliveredConcat(a[1..], b, id);
      assert (a + b)[1..] == a[1..] + b;
      DeliveredHead(a + b, id);
      DeliveredHead(a, id);
    }
  }

  /** Conservation composes. */
  lemma ConservesThrough(k: Kernel, o: Outcome, k2: Kernel, later: seq<Event>)
    requires Conserves(k, o) && Conserves(o.kernel, Outcome(k2, later, None))
    ensures Conserves(k, Outcome(k2, o.events + later, None))
  {
    forall id: int
      ensures MsgsOf(k, id) + AcceptedOf(o.events + later, id) == DeliveredOf(o.events + later, id) + MsgsOf(k2, id)
    {
      AcceptedConcat(o.events, later, id);
      DeliveredConcat(o.events, later, id);
      assert MsgsOf(k, id) + AcceptedOf(o.events, id) == DeliveredOf(o.events, id) + MsgsOf(o.kernel, id);
      assert MsgsOf(o.kernel, id) + AcceptedOf(later, id) == DeliveredOf(later, id) + MsgsOf(k2, id);
      Regroup(MsgsOf(k, id), AcceptedOf(o.events, id), AcceptedOf(later, id),
              DeliveredOf(o.events, id), MsgsOf(o.kernel, id), DeliveredOf(later, id), MsgsOf(k2, id));
    }
  }

  lemma Regroup(m: seq<int>, a: seq<int>, a': seq<int>, d: seq<int>, m': seq<int>, d': seq<int>, m'': seq<int>)
    requires m + a == d + m' && m' + a' == d' + m''
    ensures m + (a + a') == (d + d') + m''
  {
    assert m + (a + a') == (m + a) + a';
    assert (d + m') + a' == d + (m' + a');
    assert d + (d' + m'') == (d + d') + m'';
  }

  /** Over every run: no assertion fails, each task is in exactly the queue its state names, and in every
      message queue the messages accepted are those delivered, in the same order, then those still in it. */
  lemma {:induction false} RunsAreSafe(k: Kernel, steps: seq<Step>)
    requires Inv(k) && DistinctPids(k) && Allowed(k, steps)
    ensures Inv(Run(k, steps)) && DistinctPids(Run(k, steps))
    ensures Conserves(k, Outcome(Run(k, steps), EventsOf(k, steps), None))
    decreases |steps|
  {
    if steps == [] {
      QuietConserves(k, Outcome(k, [], None));
    } else {
      StepKeeps(k, steps[0]);
      StepKeepsPids(k, steps[0]);
      var o := Apply(k, steps[0]);
      RunsAreSafe(o.kernel, steps[1..]);
      ConservesThrough(k, o, Run(k, steps), EventsOf(o.kernel, steps[1..]));
    }
  }

  /** A kill that releases a waiting parent which outranks the running task. */
  predicate Unsettles(k: Kernel, step: Step) {
    step.DoKill? && step.target != k.running && step.target != k.idle && WakesParent(k, step.target) &&
    Of(k.prio, k.parent[step.target]) > Of(k.prio, k.running)
  }

  lemma StepSettlesIff(k: Kernel, step: Step)
    requires Inv(k) && Settled(k) && Enabled(k, step)
    ensures Settled(Apply(k, step).kernel) <==> !Unsettles(k, step)
  {
    StepKeeps(k, step);
    if step.DoKill? {
      KillKeeps(k, step.target);
    }
  }

  /** No kill along the run does that. */
  predicate NeverUnsettled(k: Kernel, steps: seq<Step>)
    decreases |steps|
  {
    steps == [] || (!Unsettles(k, steps[0]) && NeverUnsettled(Apply(k, steps[0]).kernel, steps[1..]))
  }

  ghost predicate SettledAlong(k: Kernel, steps: seq<Step>)
    decreases |steps|
  {
    Settled(k) && (steps == [] || SettledAlong(Apply(k, steps[0]).kernel, steps[1..]))
  }

  /** At every point of a run the running task is unrivalled and nobody oversleeps, exactly when no kill of the run
      releases a parent that outranks the running task. */
  lemma {:induction false} RunsStaySettledIff(k: Kernel, steps: seq<Step>)
    requires Inv(k) && Settled(k) && Allowed(k, steps)
    ensures SettledAlong(k, steps) <==> NeverUnsettled(k, steps)
    ensures SettledAlong(k, steps) ==> Settled(Run(k, steps))
    decreases |steps|
  {
    hide Inv, Settled, Unsettles, Apply, Enabled;
    if steps != [] {
      StepKeeps(k, steps[0]);
      StepSettlesIff(k, steps[0]);
      if !Unsettles(k, steps[0]) {
        RunsStaySettledIff(Apply(k, steps[0]).kernel, steps[1..]);
      } else {
        StartsUnsettled(Apply(k, steps[0]).kernel, steps[1..]);
      }
    }
  }

  lemma StartsUnsettled(k: Kernel, steps: seq<Step>)
    requires !Settled(k)
    ensures !SettledAlong(k, steps)
  {
  }

  /** What the steps of a run return. */
  function AnswersOf(k: Kernel, steps: seq<Step>): seq<Answer>
    decreases |steps|
  {
    if steps == [] then [] else [AnswerOf(k, steps[0])] + AnswersOf(Apply(k, steps[0]).kernel, steps[1..])
  }

  // ---- from power-on

  /** The state start_idle leaves: the idle task runs, and nothing else exists. */
  function Boot(idle: Ptr, pid: int): Kernel {
    Kernel(idle, idle, 0, true, map[], map[], map[idle := Running], map[idle := MIN_PRIO], map[],
           map[], map[idle := pid], map[], map[], map[])
  }

  lemma BootIsGood(idle: Ptr, pid: int)
    ensures Inv(Boot(idle, pid)) && DistinctPids(Boot(idle, pid)) && Settled(Boot(idle, pid))
  {
    var k := Boot(idle, pid);
    assert forall h: Head :: QueueAt(k, h) == [];
    assert forall e: Ptr :: LinkOf(k, e) == None && CallOf(k, e) == User;
    assert forall e: Ptr :: StateOf(k, e) == if e == idle then Running else Startup;
  }

  /** In everything reachable from power-on, what came out of a queue is a prefix of what went in. */
  lemma DeliveredInOrder(idle: Ptr, pid: int, steps: seq<Step>, id: int)
    requires Allowed(Boot(idle, pid), steps)
    ensures var k, events := Run(Boot(idle, pid), steps), EventsOf(Boot(idle, pid), steps);
      AcceptedOf(events, id) == DeliveredOf(events, id) + MsgsOf(k, id)
  {
    var k0 := Boot(idle, pid);
    BootIsGood(idle, pid);
    RunsAreSafe(k0, steps);
    assert MsgsOf(k0, id) == [];
  }
}
