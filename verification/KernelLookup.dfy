/** Looking a blocked task up by its pid, and the fate of a message handed to a blocked receiver. */
module KernelLookup {
  import opened Options
  import opened QueueSpec
  import opened KernelSpec
  import opened KernelInv
  import opened KernelMsg
  import opened KernelRuns

  // ---- queue_from_msg

  /** Whether a waiting list holds a task with this pid. */
  predicate HasPid(q: seq<Ptr>, pids: Field, pid: int)
    decreases |q|
  {
    q != [] && (Of(pids, q[0]) == pid || HasPid(q[1..], pids, pid))
  }

  /** queue_from_msg, from queue i on. */
  function QueueFromMsg(k: Kernel, pid: int, i: nat): Option<Head>
    decreases NBQUEUE - i
  {
    if i >= NBQUEUE then None
    else if Used(k, i) && HasPid(QueueAt(k, Senders(i)), k.pid, pid) then Some(Senders(i))
    else if Used(k, i) && HasPid(QueueAt(k, Receivers(i)), k.pid, pid) then Some(Receivers(i))
    else QueueFromMsg(k, pid, i + 1)
  }

  lemma {:induction false} HasPidIff(q: seq<Ptr>, pids: Field, pid: int)
    ensures HasPid(q, pids, pid) <==> exists t :: t in q && Of(pids, t) == pid
    decreases |q|
  {
    if q != [] {
      HasPidIff(q[1..], pids, pid);
      assert forall t :: t in q <==> t == q[0] || t in q[1..];
    }
  }

  /** Only the queue t waits on holds its pid. */
  lemma OnlyItsQueue(k: Kernel, t: Ptr, h: Head)
    requires Inv(k) && DistinctPids(k) && Live(k, t) && IsMsgQueue(h)
    ensures HasPid(QueueAt(k, h), k.pid, Of(k.pid, t)) <==> LinkOf(k, t) == Some(h)
  {
    HasPidIff(QueueAt(k, h), k.pid, Of(k.pid, t));
    if LinkOf(k, t) == Some(h) {
      assert t in QueueAt(k, h);
    }
    forall u | u in QueueAt(k, h) && Of(k.pid, u) == Of(k.pid, t) ensures u == t {
      BlockedTask(k, u, h);
      assert Live(k, u);
    }
    assert t in QueueAt(k, h) ==> LinkOf(k, t) == Some(h);
  }

  /** The queue a task waits on exists. */
  lemma WaitsOnUsed(k: Kernel, t: Ptr, h: Head)
    requires Inv(k) && LinkOf(k, t) == Some(h) && IsMsgQueue(h)
    ensures Used(k, h.id) && 0 <= h.id < NBQUEUE
  {
    assert t in QueueAt(k, h);
    BlockedTask(k, t, h);
    assert MailOf(k, t);
    assert Bounded(k);
  }

  lemma {:induction false} SearchFrom(k: Kernel, t: Ptr, i: nat)
    requires Inv(k) && DistinctPids(k) && Live(k, t)
    requires forall h: Head :: LinkOf(k, t) == Some(h) && IsMsgQueue(h) ==> h.id >= i
    ensures QueueFromMsg(k, Of(k.pid, t), i) ==
            if LinkOf(k, t).Some? && IsMsgQueue(LinkOf(k, t).value) then LinkOf(k, t) else None
    decreases NBQUEUE - i
  {
    hide Inv, DistinctPids, HasPid;
    if LinkOf(k, t).Some? && IsMsgQueue(LinkOf(k, t).value) {
      WaitsOnUsed(k, t, LinkOf(k, t).value);
    }
    if i < NBQUEUE {
      OnlyItsQueue(k, t, Senders(i));
      OnlyItsQueue(k, t, Receivers(i));
      if LinkOf(k, t) != Some(Senders(i)) && LinkOf(k, t) != Some(Receivers(i)) {
        SearchFrom(k, t, i + 1);
      }
    }
  }

  /** queue_from_msg finds the waiting list a live task is threaded into, and nothing when it is in none. */
  lemma SearchFindsLink(k: Kernel, t: Ptr)
    requires Inv(k) && DistinctPids(k) && Live(k, t)
    ensures QueueFromMsg(k, Of(k.pid, t), 0) ==
            if StateOf(k, t) == InterruptedMsg then LinkOf(k, t) else None
  {
    assert LinkOf(k, t) == Place(k, t);
    assert MailOf(k, t);
    if LinkOf(k, t).Some? && IsMsgQueue(LinkOf(k, t).value) {
      WaitsOnUsed(k, t, LinkOf(k, t).value);
    }
    SearchFrom(k, t, 0);
  }

  /** queue_from_state agrees with the link of every live task. */
  function QueueFromState(k: Kernel, t: Ptr): Option<Head> {
    match StateOf(k, t)
    case Ready => Some(ReadyQueue)
    case Zombie => Some(ZombieQueue)
    case Sleeping => Some(SleepingQueue)
    case InterruptedChild => Some(ChildQueue)
    case InterruptedMsg => QueueFromMsg(k, Of(k.pid, t), 0)
    case Startup => None
    case Running => None
  }

  lemma StateFindsLink(k: Kernel, t: Ptr)
    requires Inv(k) && DistinctPids(k) && Live(k, t)
    ensures QueueFromState(k, t) == LinkOf(k, t)
  {
    assert LinkOf(k, t) == Place(k, t);
    if StateOf(k, t) == InterruptedMsg {
      SearchFindsLink(k, t);
    }
  }

  // ---- a message handed over reaches its receiver

  /** t was taken off a queue of receivers with message m and has not run since. */
  predicate Holds(k: Kernel, t: Ptr, m: int) {
    CallOf(k, t).Receiving? && Of(k.msgVal, t) == m && m != NONE
  }

  lemma HeldStill(k: Kernel, k': Kernel, t: Ptr, m: int)
    requires Holds(k, t, m) && k'.call == k.call && k'.msgVal == k.msgVal
    ensures Holds(k', t, m)
  {
  }

  /** What the first part of psend or preceive changes in the mail of other tasks. */
  lemma LastWaiter(k: Kernel, h: Head)
    requires Inv(k) && IsMsgQueue(h) && QueueAt(k, h) != []
    ensures CallOf(k, Last(QueueAt(k, h))).Sending? || Of(k.msgVal, Last(QueueAt(k, h))) == NONE
  {
    BlockedTask(k, Last(QueueAt(k, h)), h);
    assert MailOf(k, Last(QueueAt(k, h)));
  }

  lemma BlockMail(k: Kernel, h: Head, c: Call, t: Ptr, m: int)
    requires Holds(k, t, m) && t != k.running
    ensures Holds(BlockOnMsg(k, h, c), t, m)
  {
    hide Schedule;
    assert QueueAdd(k, k.running, h).running == k.running;
  }

  lemma SendEndMail(k: Kernel, id: int, msg: int, t: Ptr, m: int)
    requires Holds(k, t, m) && Used(k, id)
    ensures Holds(SendEnd(k, id, msg).kernel, t, m)
  {
    hide WakeReceiver;
  }

  lemma SendLoopMail(k: Kernel, id: int, msg: int, t: Ptr, m: int)
    requires Holds(k, t, m) && t != k.running && Used(k, id)
    ensures Holds(SendLoop(k, id, msg).kernel, t, m)
  {
    hide BlockOnMsg, SendEnd;
    if Full(k, id) && Of(k.msgVal, k.running) != NONE {
      BlockMail(k, Senders(id), Sending(id, msg), t, m);
    } else {
      SendEndMail(SetCall(k, User), id, msg, t, m);
    }
  }

  lemma PsendMail(k: Kernel, id: int, msg: int, t: Ptr, m: int)
    requires Inv(k) && Holds(k, t, m) && t != k.running
    ensures Holds(Psend(k, id, msg).kernel, t, m)
  {
    if Used(k, id) {
      if QueueAt(k, Receivers(id)) != [] {
        LastWaiter(k, Receivers(id));
        BlockedTask(k, Last(QueueAt(k, Receivers(id))), Receivers(id));
      } else {
        SendLoopMail(SetMsgVal(k, k.running, msg), id, msg, t, m);
      }
    }
  }

  /** Releasing the task u, which does not hold m, into the ready queue. */
  lemma ReleaseMail(k: Kernel, k1: Kernel, u: Ptr, t: Ptr, m: int)
    requires Holds(k, t, m) && k1.call == k.call &&
      (k1.msgVal == k.msgVal || (u != t && k1.msgVal == k.msgVal[u := NONE]))
    ensures Holds(SetReadyOrRunning(k1, u), t, m)
  {
    hide SetReadyOrRunning;
  }

  lemma NotSending(k: Kernel, u: Ptr, t: Ptr, m: int)
    requires Holds(k, t, m) && CallOf(k, u).Sending?
    ensures u != t
  {
  }

  lemma ReceiveAndWakeMail(k: Kernel, id: int, t: Ptr, m: int)
    requires Holds(k, t, m) && Used(k, id)
    requires QueueAt(k, Senders(id)) != [] && CallOf(k, Last(QueueAt(k, Senders(id)))).Sending?
    ensures Holds(ReceiveAndWake(k, id).kernel, t, m)
  {
    hide SetReadyOrRunning, Holds;
    var msgs, u, k1 := k.mqs[id].msgs, Last(QueueAt(k, Senders(id))), QueueOut(k, Senders(id));
    var v := Of(k.msgVal, u);
    if Full(k, id) && v != NONE {
      if msgs == [] {
        HeldStill(k, Fail(k1), t, m);
      } else {
        NotSending(k, u, t, m);
        ReleaseMail(k, SetMsgVal(SetMsgs(k1, id, msgs[1..] + [v]), u, NONE), u, t, m);
      }
    } else if Empty(k, id) {
      NotSending(k, u, t, m);
      ReleaseMail(k, SetMsgVal(k1, u, NONE), u, t, m);
    } else {
      ReleaseMail(k, SetMsgs(k1, id, msgs[1..]), u, t, m);
    }
  }

  lemma SetMsgsMail(k: Kernel, id: int, msgs: seq<int>)
    requires Used(k, id)
    ensures SetMsgs(k, id, msgs).call == k.call && SetMsgs(k, id, msgs).msgVal == k.msgVal
  {
  }

  lemma FromQueueMail(k: Kernel, id: int, t: Ptr, m: int)
    requires Holds(k, t, m) && Used(k, id)
    requires QueueAt(k, Senders(id)) != [] ==> CallOf(k, Last(QueueAt(k, Senders(id)))).Sending?
    ensures Holds(ReceiveFromQueue(k, id).kernel, t, m)
  {
    hide ReceiveAndWake, SetMsgs, Holds;
    var msgs := k.mqs[id].msgs;
    if QueueAt(k, Senders(id)) != [] {
      ReceiveAndWakeMail(k, id, t, m);
    } else if msgs == [] {
      HeldStill(k, Fail(k), t, m);
    } else {
      SetMsgsMail(k, id, msgs[1..]);
      HeldStill(k, SetMsgs(k, id, msgs[1..]), t, m);
    }
  }

  lemma ReceiveLoopMail(k: Kernel, id: int, t: Ptr, m: int)
    requires Inv(k) && Holds(k, t, m) && t != k.running && Used(k, id)
    ensures Holds(ReceiveLoop(k, id).kernel, t, m)
  {
    hide BlockOnMsg, ReceiveFromQueue, Linked, Mail;
    var k1 := SetCall(k, User);
    if Empty(k, id) && Of(k.msgVal, k.running) == NONE {
      BlockMail(k, Receivers(id), Receiving(id), t, m);
    } else if Of(k1.msgVal, k1.running) == NONE {
      if QueueAt(k, Senders(id)) != [] {
        BlockedTask(k, Last(QueueAt(k, Senders(id))), Senders(id));
      }
      FromQueueMail(k1, id, t, m);
    }
  }

  lemma PreceiveMail(k: Kernel, id: int, t: Ptr, m: int)
    requires Inv(k) && UserCode(k) && Holds(k, t, m)
    ensures Holds(Preceive(k, id).kernel, t, m)
  {
    if Used(k, id) {
      OwnMsgValKeeps(k, NONE);
      ReceiveLoopMail(SetMsgVal(k, k.running, NONE), id, t, m);
    }
  }

  lemma ResumeMail(k: Kernel, t: Ptr, m: int)
    requires Inv(k) && Holds(k, t, m) && t != k.running
    ensures Holds(Resume(k).kernel, t, m)
  {
    hide SendLoop, ReceiveLoop, Inv, Holds, SetCall;
    var c := CallOf(k, k.running);
    if c == User {
      assert Resume(k).kernel == k;
    } else if !Used(k, c.id) {
      EndCallMail(k, t, m);
    } else if c.Sending? {
      SendLoopMail(k, c.id, c.msg, t, m);
    } else {
      ReceiveLoopMail(k, c.id, t, m);
    }
  }

  lemma EndCallMail(k: Kernel, t: Ptr, m: int)
    requires Holds(k, t, m) && t != k.running
    ensures Holds(SetCall(k, User), t, m)
  {
  }

  /** A message handed to a receiver stays with it through every step of other tasks, until it runs. */
  lemma HandedMessageStays(k: Kernel, step: Step, t: Ptr, m: int)
    requires Inv(k) && Enabled(k, step) && Live(k, t) && Holds(k, t, m)
    requires t == k.running ==> !step.DoResume?
    ensures Holds(Apply(k, step).kernel, t, m)
  {
    match step {
      case DoPsend(id, msg) => PsendMail(k, id, msg, t, m);
      case DoPreceive(id) => PreceiveMail(k, id, t, m);
      case DoResume => ResumeMail(k, t, m);
      case DoStart(u, pid, prio) => StartMail(k, u, pid, prio, t);
      case _ => HeldStill(k, Apply(k, step).kernel, t, m);
    }
  }

  lemma StartMail(k: Kernel, u: Ptr, pid: int, prio: int, t: Ptr)
    requires u != t
    ensures CallOf(Start(k, u, pid, prio), t) == CallOf(k, t)
    ensures Of(Start(k, u, pid, prio).msgVal, t) == Of(k.msgVal, t)
  {
  }

  /** A hand-off leaves the message with the receiver that waited longest at the highest priority. */
  lemma HandOffGives(k: Kernel, id: int, msg: int)
    requires Inv(k) && Used(k, id) && QueueAt(k, Receivers(id)) != [] && msg != NONE
    ensures Holds(Psend(k, id, msg).kernel, Last(QueueAt(k, Receivers(id))), msg)
  {
    BlockedTask(k, Last(QueueAt(k, Receivers(id))), Receivers(id));
  }

  /** Handed over, kept through any steps of others, the message is what preceive returns. */
  lemma {:induction false} HandedMessageArrives(k: Kernel, steps: seq<Step>, t: Ptr, m: int)
    requires Inv(k) && Allowed(k, steps) && Live(k, t) && Holds(k, t, m)
    requires Waits(k, steps, t) && Run(k, steps).running == t && t != Run(k, steps).idle
    ensures Inv(Run(k, steps)) && Resume(Run(k, steps)).got == Some(m)
    decreases |steps|
  {
    if steps == [] {
      ResumedReceiverReturns(k);
    } else {
      HandedMessageStays(k, steps[0], t, m);
      StepKeeps(k, steps[0]);
      HandedMessageArrives(Apply(k, steps[0]).kernel, steps[1..], t, m);
    }
  }

  /** Along the run t stays alive and does not yet go on with its call. */
  ghost predicate Waits(k: Kernel, steps: seq<Step>, t: Ptr)
    decreases |steps|
  {
    Live(k, t) && (steps != [] ==>
      !(steps[0].DoResume? && k.running == t) && Waits(Apply(k, steps[0]).kernel, steps[1..], t))
  }
}
