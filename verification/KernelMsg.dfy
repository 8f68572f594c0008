/** kernel/msg.c: every step of psend and preceive keeps the invariant, and messages come out of a
    queue exactly once, in the order they were accepted. */
module KernelMsg {
  import opened Options
  import opened QueueSpec
  import opened KernelSpec
  import opened KernelInv

  function MsgsOf(k: Kernel, id: int): seq<int> {
    if id in k.mqs then k.mqs[id].msgs else []
  }

  // ---- what the waiting lists say about the count

  /** A waiting sender implies a full queue, a waiting receiver an empty one, and the count is bounded. */
  lemma WaitersSeeExtremes(k: Kernel, id: int)
    requires Base(k) && Used(k, id)
    ensures 0 <= |MsgsOf(k, id)| <= k.mqs[id].size
    ensures QueueAt(k, Senders(id)) != [] ==> Full(k, id) && MsgsOf(k, id) != []
    ensures QueueAt(k, Receivers(id)) != [] ==> Empty(k, id)
    ensures QueueAt(k, Senders(id)) == [] || QueueAt(k, Receivers(id)) == []
  {
    if QueueAt(k, Senders(id)) != [] {
      BlockedTask(k, QueueAt(k, Senders(id))[0], Senders(id));
      assert MailOf(k, QueueAt(k, Senders(id))[0]);
    }
    if QueueAt(k, Receivers(id)) != [] {
      BlockedTask(k, QueueAt(k, Receivers(id))[0], Receivers(id));
      assert MailOf(k, QueueAt(k, Receivers(id))[0]);
    }
  }

  /** The message of a waiting sender is still pending in its msg_val. */
  lemma SenderHoldsMessage(k: Kernel, t: Ptr, id: int)
    requires Base(k) && t in QueueAt(k, Senders(id))
    ensures CallOf(k, t).Sending? && Of(k.msgVal, t) == CallOf(k, t).msg && Of(k.msgVal, t) != NONE
    ensures Used(k, id)
  {
    BlockedTask(k, t, Senders(id));
    assert MailOf(k, t);
  }

  /** pcount reports messages plus blocked senders minus blocked receivers. */
  lemma PcountReports(k: Kernel, id: int)
    requires Base(k)
    ensures Pcount(k, id) == if !Used(k, id) then None
      else Some(|MsgsOf(k, id)| + |QueueAt(k, Senders(id))| - |QueueAt(k, Receivers(id))|)
  {
    if Used(k, id) {
      WaitersSeeExtremes(k, id);
    }
  }

  // ---- changes of the messages and of the running task's own fields

  lemma NobodyWaits(k: Kernel, id: int, t: Ptr)
    requires Linked(k) && QueueAt(k, Senders(id)) == [] && QueueAt(k, Receivers(id)) == []
    ensures StateOf(k, t) == InterruptedMsg && CallOf(k, t) != User ==> CallOf(k, t).id != id
  {
    assert LinkOf(k, t) == Place(k, t);
  }

  lemma LinksKept(k: Kernel, k': Kernel)
    requires Linked(k) && k'.queues == k.queues && k'.link == k.link && k'.prio == k.prio
    requires forall u: Ptr :: Place(k', u) == Place(k, u)
    ensures Linked(k')
  {
    ThreadsKept(k, k');
    assert forall u: Ptr :: LinkOf(k', u) == LinkOf(k, u);
  }

  /** The messages of a queue nobody waits on may change. */
  lemma SetMsgsKeeps(k: Kernel, id: int, msgs: seq<int>)
    requires Inv(k) && Used(k, id) && |msgs| <= k.mqs[id].size
    requires QueueAt(k, Senders(id)) == [] && QueueAt(k, Receivers(id)) == []
    ensures Inv(SetMsgs(k, id, msgs))
  {
    var k' := SetMsgs(k, id, msgs);
    LinksKept(k, k');
    forall u: Ptr ensures MailOf(k', u) {
      assert MailOf(k, u);
      NobodyWaits(k, id, u);
    }
    assert forall u: Ptr :: StateOf(k', u) == StateOf(k, u);
  }

  /** So may those of a full queue, if it stays full. */
  lemma RotateKeeps(k: Kernel, id: int, msgs: seq<int>)
    requires Inv(k) && Used(k, id) && Full(k, id) && |msgs| == k.mqs[id].size
    ensures Inv(SetMsgs(k, id, msgs))
  {
    var k' := SetMsgs(k, id, msgs);
    LinksKept(k, k');
    assert k.mqs[id].size > 0;
    forall u: Ptr ensures MailOf(k', u) {
      assert MailOf(k, u);
    }
    assert forall u: Ptr :: StateOf(k', u) == StateOf(k, u);
  }

  /** The running task's own msg_val is free while it is in no call. */
  lemma OwnMsgValKeeps(k: Kernel, v: int)
    requires Inv(k) && CallOf(k, k.running) == User
    ensures Inv(SetMsgVal(k, k.running, v))
  {
    var k' := SetMsgVal(k, k.running, v);
    LinksKept(k, k');
    assert MailOf(k, k.running);
    MailKept(k, k', k.running);
    assert forall u: Ptr :: StateOf(k', u) == StateOf(k, u);
  }

  /** Ending a call. */
  lemma EndCallKeeps(k: Kernel)
    requires Inv(k)
    ensures Inv(SetCall(k, User)) && CallOf(SetCall(k, User), k.running) == User
  {
    var k' := SetCall(k, User);
    forall u: Ptr ensures Place(k', u) == Place(k, u) {
      assert u == k.running ==> StateOf(k', u) == Running;
    }
    LinksKept(k, k');
    MailKept(k, k', k.running);
    assert forall u: Ptr :: StateOf(k', u) == StateOf(k, u);
  }

  lemma SettledKept(k: Kernel, k': Kernel)
    requires Settled(k) && k'.state == k.state && k'.prio == k.prio && k'.running == k.running
    requires k'.wake == k.wake && k'.clock == k.clock
    ensures Settled(k')
  {
    assert forall u: Ptr :: StateOf(k', u) == StateOf(k, u) && (Due(k', u) <==> Due(k, u));
  }

  // ---- blocking and unblocking

  ghost predicate MayBlock(k: Kernel, h: Head, c: Call) {
    && IsMsgQueue(h) && Used(k, h.id)
    && (h.Senders? ==> c == Sending(h.id, Of(k.msgVal, k.running)) && c.msg != NONE && Full(k, h.id))
    && (h.Receivers? ==> c == Receiving(h.id) && Of(k.msgVal, k.running) == NONE && Empty(k, h.id))
  }

  /** The running task as it stands when it calls schedule. */
  function Blocked(k: Kernel, h: Head, c: Call): Kernel {
    QueueAdd(k.(call := k.call[k.running := c], state := k.state[k.running := InterruptedMsg]), k.running, h)
  }

  lemma BlockedBase(k: Kernel, h: Head, c: Call)
    requires Inv(k) && k.running != k.idle && MayBlock(k, h, c)
    ensures Base(Blocked(k, h, c)) && Blocked(k, h, c).running == k.running
    ensures Blocked(k, h, c).state == k.state[k.running := InterruptedMsg]
  {
    var k1 := k.(call := k.call[k.running := c], state := k.state[k.running := InterruptedMsg]);
    BlockKeeps(k, k1, h);
    AddFrame(k1, k.running, h);
  }

  lemma BlockCommutes(k: Kernel, h: Head, c: Call)
    ensures BlockOnMsg(k, h, c) == Schedule(Blocked(k, h, c))
  {
    AddFrame(k, k.running, h);
    assert SetState(SetCall(QueueAdd(k, k.running, h), c), k.running, InterruptedMsg) == Blocked(k, h, c);
  }

  /** The running task blocks in psend on a full queue, or in preceive on an empty one. */
  lemma BlockOnMsgKeeps(k: Kernel, h: Head, c: Call)
    requires Inv(k) && k.running != k.idle && MayBlock(k, h, c)
    ensures Inv(BlockOnMsg(k, h, c)) && Settled(BlockOnMsg(k, h, c)) && LiveKept(k, BlockOnMsg(k, h, c))
  {
    BlockedBase(k, h, c);
    assert StateOf(Blocked(k, h, c), k.running) == InterruptedMsg;
    BlockCommutes(k, h, c);
    ScheduleKeeps(Blocked(k, h, c));
    LiveKeptThrough(k, Blocked(k, h, c), BlockOnMsg(k, h, c), k.running);
  }

  /** A change of one task between live states, then a schedule. */
  lemma LiveKeptThrough(k: Kernel, k1: Kernel, k2: Kernel, t: Ptr)
    requires k1.state == k.state[t := StateOf(k1, t)] && Live(k, t) && Live(k1, t) && LiveKept(k1, k2)
    ensures LiveKept(k, k2) && LiveKept(k, k1)
  {
    forall u: Ptr ensures (Live(k2, u) <==> Live(k, u)) && (Live(k1, u) <==> Live(k, u)) {
      assert Live(k2, u) <==> Live(k1, u);
      assert u != t ==> StateOf(k1, u) == StateOf(k, u);
    }
  }

  /** A task taken off a message queue becomes ready, and runs at once if it outranks the running one. */
  lemma UnblockSettles(k: Kernel, h: Head, v: int)
    requires Inv(k) && IsMsgQueue(h) && QueueAt(k, h) != [] && (h.Senders? ==> v == NONE)
    ensures var t := Last(QueueAt(k, h));
      var k' := SetReadyOrRunning(SetMsgVal(QueueOut(k, h), t, v), t);
      Inv(k') && (Settled(k) ==> Settled(k')) && LiveKept(k, k')
  {
    var t := Last(QueueAt(k, h));
    var k1 := QueueAdd(SetState(SetMsgVal(QueueOut(k, h), t, v), t, Ready), t, ReadyQueue);
    UnblockKeeps(k, t, v, h);
    OutIsDel(k, h);
    BlockedTask(k, t, h);
    LiveKeptThrough(k, k1, k1, t);
    if Of(k1.prio, t) > Of(k1.prio, k1.running) {
      ScheduleKeeps(k1);
      LiveKeptThrough(k, k1, Schedule(k1), t);
    } else if Settled(k) {
      ReadyBelowSettles(k, k1, t);
    }
  }

  lemma ReadyBelowSettles(k: Kernel, k': Kernel, t: Ptr)
    requires Settled(k) && k'.state == k.state[t := Ready] && k'.prio == k.prio && k'.running == k.running
    requires k'.wake == k.wake && k'.clock == k.clock && Of(k.prio, t) <= Of(k.prio, k.running)
    ensures Settled(k')
  {
    assert forall u: Ptr :: u != t ==> StateOf(k', u) == StateOf(k, u);
    assert forall u: Ptr :: Due(k', u) <==> Due(k, u);
  }

  // ---- conservation

  function AcceptedOf(events: seq<Event>, id: int): seq<int> {
    if events == [] then []
    else (if events[0].Accepted? && events[0].id == id then [events[0].msg] else []) + AcceptedOf(events[1..], id)
  }

  function DeliveredOf(events: seq<Event>, id: int): seq<int> {
    if events == [] then []
    else (if events[0].Delivered? && events[0].id == id then [events[0].msg] else []) + DeliveredOf(events[1..], id)
  }

  /** In every queue: what was in it, then what was accepted, is what was delivered, then what is in it. */
  ghost predicate Conserves(k: Kernel, o: Outcome) {
    forall id: int :: MsgsOf(k, id) + AcceptedOf(o.events, id) == DeliveredOf(o.events, id) + MsgsOf(o.kernel, id)
  }

  lemma NoEvents(id: int)
    ensures AcceptedOf([], id) == [] && DeliveredOf([], id) == []
  {
  }

  lemma OneAccepted(q: int, m: int, id: int)
    ensures AcceptedOf([Accepted(q, m)], id) == if q == id then [m] else []
    ensures DeliveredOf([Accepted(q, m)], id) == []
  {
    assert [Accepted(q, m)][1..] == [];
  }

  lemma OneDelivered(q: int, m: int, id: int)
    ensures AcceptedOf([Delivered(q, m)], id) == []
    ensures DeliveredOf([Delivered(q, m)], id) == if q == id then [m] else []
  {
    assert [Delivered(q, m)][1..] == [];
  }

  lemma AcceptedThenDelivered(q: int, a: int, d: int, id: int)
    ensures var ev := [Accepted(q, a), Delivered(q, d)];
      AcceptedOf(ev, id) == (if q == id then [a] else []) && DeliveredOf(ev, id) == if q == id then [d] else []
  {
    assert [Accepted(q, a), Delivered(q, d)][1..] == [Delivered(q, d)];
    OneDelivered(q, d, id);
  }

  lemma DeliveredThenAccepted(q: int, d: int, a: int, id: int)
    ensures var ev := [Delivered(q, d), Accepted(q, a)];
      AcceptedOf(ev, id) == (if q == id then [a] else []) && DeliveredOf(ev, id) == if q == id then [d] else []
  {
    assert [Delivered(q, d), Accepted(q, a)][1..] == [Accepted(q, a)];
    OneAccepted(q, a, id);
  }

  lemma QuietConserves(k: Kernel, o: Outcome)
    requires o.events == [] && o.kernel.mqs == k.mqs
    ensures Conserves(k, o)
  {
    assert forall id: int :: MsgsOf(o.kernel, id) == MsgsOf(k, id);
  }

  /** Direct hand-off: accepted and delivered at once, through an empty queue. */
  lemma HandOffConserves(k: Kernel, o: Outcome, q: int, m: int)
    requires o.events == HandOff(q, m) && o.kernel.mqs == k.mqs && MsgsOf(k, q) == []
    ensures Conserves(k, o)
  {
    forall id: int
      ensures MsgsOf(k, id) + AcceptedOf(o.events, id) == DeliveredOf(o.events, id) + MsgsOf(o.kernel, id)
    {
      AcceptedThenDelivered(q, m, m, id);
    }
  }

  /** Buffering at the tail. */
  lemma AppendConserves(k: Kernel, o: Outcome, q: int, m: int)
    requires o.events == [Accepted(q, m)] && Used(k, q) && o.kernel.mqs == SetMsgs(k, q, MsgsOf(k, q) + [m]).mqs
    ensures Conserves(k, o)
  {
    forall id: int
      ensures MsgsOf(k, id) + AcceptedOf(o.events, id) == DeliveredOf(o.events, id) + MsgsOf(o.kernel, id)
    {
      OneAccepted(q, m, id);
    }
  }

  /** Delivery from the head. */
  lemma PopConserves(k: Kernel, o: Outcome, q: int)
    requires Used(k, q) && MsgsOf(k, q) != [] && o.events == [Delivered(q, MsgsOf(k, q)[0])]
    requires o.kernel.mqs == SetMsgs(k, q, MsgsOf(k, q)[1..]).mqs
    ensures Conserves(k, o)
  {
    forall id: int
      ensures MsgsOf(k, id) + AcceptedOf(o.events, id) == DeliveredOf(o.events, id) + MsgsOf(o.kernel, id)
    {
      OneDelivered(q, MsgsOf(k, q)[0], id);
    }
  }

  /** Delivery from the head with refill from a blocked sender. */
  lemma RefillConserves(k: Kernel, o: Outcome, q: int, m: int)
    requires Used(k, q) && MsgsOf(k, q) != [] && o.events == [Delivered(q, MsgsOf(k, q)[0]), Accepted(q, m)]
    requires o.kernel.mqs == SetMsgs(k, q, MsgsOf(k, q)[1..] + [m]).mqs
    ensures Conserves(k, o)
  {
    forall id: int
      ensures MsgsOf(k, id) + AcceptedOf(o.events, id) == DeliveredOf(o.events, id) + MsgsOf(o.kernel, id)
    {
      DeliveredThenAccepted(q, MsgsOf(k, q)[0], m, id);
    }
  }

  // ---- psend

  /** What every message step promises. */
  ghost predicate Sound(k: Kernel, o: Outcome) {
    && Inv(o.kernel) && (Settled(k) ==> Settled(o.kernel)) && Conserves(k, o)
    && LiveKept(k, o.kernel) && o.kernel.pid == k.pid
  }

  /** psend on a full queue blocks with its message pending. */
  lemma SendBlocks(k: Kernel, id: int, msg: int)
    requires Inv(k) && k.running != k.idle && Full(k, id) && Of(k.msgVal, k.running) == msg != NONE
    ensures Sound(k, SendLoop(k, id, msg)) && SendLoop(k, id, msg).events == []
  {
    BlockOnMsgKeeps(k, Senders(id), Sending(id, msg));
    QuietConserves(k, SendLoop(k, id, msg));
  }

  lemma SendDrops(k: Kernel, id: int, msg: int)
    requires Inv(k) && Used(k, id) && Of(k.msgVal, k.running) == NONE
    ensures Sound(k, SendLoop(k, id, msg)) && SendLoop(k, id, msg) == Outcome(SetCall(k, User), [], None)
  {
    EndCallKeeps(k);
    QuietConserves(k, SendLoop(k, id, msg));
    if Settled(k) {
      SettledKept(k, SetCall(k, User));
    }
  }

  lemma SendAppends(k: Kernel, id: int, msg: int)
    requires Inv(k) && Used(k, id) && !Full(k, id) && Of(k.msgVal, k.running) == msg != NONE
    requires QueueAt(k, Receivers(id)) == []
    ensures Sound(k, SendLoop(k, id, msg)) && SendLoop(k, id, msg).events == [Accepted(id, msg)]
  {
    var k1, o := SetCall(k, User), SendLoop(k, id, msg);
    EndCallKeeps(k);
    WaitersSeeExtremes(k, id);
    assert Bounded(k);
    assert o.kernel == SetMsgs(k1, id, MsgsOf(k, id) + [msg]);
    SetMsgsKeeps(k1, id, MsgsOf(k, id) + [msg]);
    AppendConserves(k, o, id, msg);
    if Settled(k) {
      SettledKept(k, o.kernel);
    }
  }

  lemma PsendHandsOff(k: Kernel, id: int, msg: int)
    requires Inv(k) && Used(k, id) && QueueAt(k, Receivers(id)) != []
    ensures Sound(k, Psend(k, id, msg)) && Psend(k, id, msg).events == HandOff(id, msg)
  {
    UnblockSettles(k, Receivers(id), msg);
    WaitersSeeExtremes(k, id);
    HandOffConserves(k, Psend(k, id, msg), id, msg);
  }

  lemma PsendLoops(k: Kernel, id: int, msg: int)
    requires Inv(k) && k.running != k.idle && CallOf(k, k.running) == User
    requires Used(k, id) && QueueAt(k, Receivers(id)) == []
    ensures Sound(k, Psend(k, id, msg))
    ensures Psend(k, id, msg).events == if msg != NONE && !Full(k, id) then [Accepted(id, msg)] else []
  {
    var k1 := SetMsgVal(k, k.running, msg);
    OwnMsgValKeeps(k, msg);
    if msg == NONE {
      SendDrops(k1, id, msg);
    } else if Full(k, id) {
      SendBlocks(k1, id, msg);
    } else {
      SendAppends(k1, id, msg);
    }
    SoundFrom(k, k1, SendLoop(k1, id, msg));
  }

  lemma SoundFrom(k: Kernel, k1: Kernel, o: Outcome)
    requires Sound(k1, o) && k1 == k.(msgVal := k1.msgVal, call := k1.call)
    ensures Sound(k, o)
  {
    if Settled(k) {
      SettledKept(k, k1);
    }
    assert forall q: int :: MsgsOf(k1, q) == MsgsOf(k, q);
  }

  /** psend keeps the invariant and conserves messages. Its message is accepted exactly when it is not
      the sentinel and a receiver waits or there is room; a message of -1 is silently dropped. */
  lemma PsendSound(k: Kernel, id: int, msg: int)
    requires Inv(k) && k.running != k.idle && CallOf(k, k.running) == User
    ensures Sound(k, Psend(k, id, msg))
    ensures AcceptedOf(Psend(k, id, msg).events, id) ==
      if Used(k, id) && msg != NONE && (QueueAt(k, Receivers(id)) != [] || !Full(k, id)) then [msg] else []
  {
    if !Used(k, id) {
      QuietConserves(k, Psend(k, id, msg));
    } else if QueueAt(k, Receivers(id)) != [] {
      PsendHandsOff(k, id, msg);
      AcceptedThenDelivered(id, msg, msg, id);
    } else {
      PsendLoops(k, id, msg);
      OneAccepted(id, msg, id);
    }
  }

  // ---- preceive

  /** preceive with a blocked sender: the head goes out and the sender's message joins the tail. */
  lemma ReceiveRefills(k: Kernel, id: int)
    requires Inv(k) && Used(k, id) && QueueAt(k, Senders(id)) != []
    ensures Sound(k, ReceiveFromQueue(k, id))
    ensures MsgsOf(k, id) != []
    ensures Of(k.msgVal, Last(QueueAt(k, Senders(id)))) != NONE
    ensures ReceiveFromQueue(k, id).events ==
            [Delivered(id, MsgsOf(k, id)[0]), Accepted(id, Of(k.msgVal, Last(QueueAt(k, Senders(id)))))]
    ensures ReceiveFromQueue(k, id).got == Some(MsgsOf(k, id)[0])
  {
    WaitersSeeExtremes(k, id);
    var last := Last(QueueAt(k, Senders(id)));
    SenderHoldsMessage(k, last, id);
    var m := Of(k.msgVal, last);
    var rotated := MsgsOf(k, id)[1..] + [m];
    var k1 := SetMsgs(k, id, rotated);
    RotateKeeps(k, id, rotated);
    UnblockSettles(k1, Senders(id), NONE);
    RefillCommutes(k, id, rotated);
    RefillConserves(k, ReceiveFromQueue(k, id), id, m);
    if Settled(k) {
      SettledKept(k, k1);
    }
  }

  lemma RefillCommutes(k: Kernel, id: int, msgs: seq<int>)
    requires Used(k, id) && QueueAt(k, Senders(id)) != []
    ensures SetMsgs(QueueOut(k, Senders(id)), id, msgs) == QueueOut(SetMsgs(k, id, msgs), Senders(id))
  {
  }

  /** preceive with nobody waiting to send. */
  lemma ReceivePops(k: Kernel, id: int)
    requires Inv(k) && Used(k, id) && QueueAt(k, Senders(id)) == [] && MsgsOf(k, id) != []
    ensures Sound(k, ReceiveFromQueue(k, id))
    ensures ReceiveFromQueue(k, id).events == [Delivered(id, MsgsOf(k, id)[0])]
    ensures ReceiveFromQueue(k, id).got == Some(MsgsOf(k, id)[0])
  {
    var o := ReceiveFromQueue(k, id);
    WaitersSeeExtremes(k, id);
    assert Bounded(k);
    SetMsgsKeeps(k, id, MsgsOf(k, id)[1..]);
    PopConserves(k, o, id);
    if Settled(k) {
      SettledKept(k, o.kernel);
    }
  }

  /** The message of the sender that has waited longest at the highest priority, if one waits. */
  function PendingOf(k: Kernel, id: int): seq<int> {
    if QueueAt(k, Senders(id)) == [] then []
    else
      var c := CallOf(k, Last(QueueAt(k, Senders(id))));
      if c.Sending? then [c.msg] else []
  }

  lemma SenderPending(k: Kernel, id: int)
    requires Base(k)
    ensures QueueAt(k, Senders(id)) != [] ==> PendingOf(k, id) == [Of(k.msgVal, Last(QueueAt(k, Senders(id))))]
  {
    if QueueAt(k, Senders(id)) != [] {
      SenderHoldsMessage(k, Last(QueueAt(k, Senders(id))), id);
    }
  }

  /** The loop of preceive with a message in the queue. */
  lemma ReceiveLoopTakes(k: Kernel, id: int)
    requires Inv(k) && k.running != k.idle && Used(k, id) && Of(k.msgVal, k.running) == NONE && !Empty(k, id)
    ensures Sound(k, ReceiveLoop(k, id))
    ensures DeliveredOf(ReceiveLoop(k, id).events, id) == [MsgsOf(k, id)[0]]
    ensures ReceiveLoop(k, id).got == Some(MsgsOf(k, id)[0])
    ensures AcceptedOf(ReceiveLoop(k, id).events, id) == PendingOf(k, id)
  {
    SenderPending(k, id);
    var k1 := SetCall(k, User);
    EndCallKeeps(k);
    assert ReceiveLoop(k, id) == ReceiveFromQueue(k1, id);
    if QueueAt(k1, Senders(id)) != [] {
      ReceiveRefills(k1, id);
      DeliveredThenAccepted(id, MsgsOf(k, id)[0], Of(k1.msgVal, Last(QueueAt(k1, Senders(id)))), id);
    } else {
      ReceivePops(k1, id);
      OneDelivered(id, MsgsOf(k, id)[0], id);
    }
    SoundFrom(k, k1, ReceiveFromQueue(k1, id));
  }

  /** The loop of preceive when no message was handed over. */
  lemma ReceiveLoopSound(k: Kernel, id: int)
    requires Inv(k) && k.running != k.idle && Used(k, id) && Of(k.msgVal, k.running) == NONE
    ensures Sound(k, ReceiveLoop(k, id))
    ensures DeliveredOf(ReceiveLoop(k, id).events, id) == if MsgsOf(k, id) == [] then [] else [MsgsOf(k, id)[0]]
    ensures ReceiveLoop(k, id).got == if MsgsOf(k, id) == [] then None else Some(MsgsOf(k, id)[0])
    ensures AcceptedOf(ReceiveLoop(k, id).events, id) == PendingOf(k, id)
  {
    if Empty(k, id) {
      SenderPending(k, id);
      WaitersSeeExtremes(k, id);
      BlockOnMsgKeeps(k, Receivers(id), Receiving(id));
      QuietConserves(k, ReceiveLoop(k, id));
    } else {
      ReceiveLoopTakes(k, id);
      hide Inv, ReceiveLoop, Sound;
    }
  }

  /** preceive keeps the invariant and conserves messages; when the queue has one, it returns the
      message at the head, and otherwise the caller blocks and nothing is delivered. If senders wait, the message of the
      first of them is accepted. */
  lemma PreceiveSound(k: Kernel, id: int)
    requires Inv(k) && k.running != k.idle && CallOf(k, k.running) == User
    ensures Sound(k, Preceive(k, id))
    ensures DeliveredOf(Preceive(k, id).events, id) == if MsgsOf(k, id) == [] then [] else [MsgsOf(k, id)[0]]
    ensures Preceive(k, id).got == if MsgsOf(k, id) == [] then None else Some(MsgsOf(k, id)[0])
    ensures Used(k, id) ==> AcceptedOf(Preceive(k, id).events, id) == PendingOf(k, id)
  {
    if Used(k, id) {
      var k1 := SetMsgVal(k, k.running, NONE);
      OwnMsgValKeeps(k, NONE);
      ReceiveLoopSound(k1, id);
      SoundFrom(k, k1, ReceiveLoop(k1, id));
    } else {
      QuietConserves(k, Preceive(k, id));
    }
  }

  // ---- going on after a context switch

  /** A sender that runs again was refilled: psend just returns. */
  lemma ResumedSenderEnds(k: Kernel)
    requires Inv(k) && CallOf(k, k.running).Sending?
    ensures Resume(k) == Outcome(SetCall(k, User), [], None) && Sound(k, Resume(k))
  {
    assert MailOf(k, k.running);
    SendDrops(k, CallOf(k, k.running).id, CallOf(k, k.running).msg);
  }

  /** A receiver that runs again returns the message handed to it; one woken by the sentinel looks again. */
  lemma ResumedReceiverReturns(k: Kernel)
    requires Inv(k) && k.running != k.idle && CallOf(k, k.running).Receiving?
    ensures Sound(k, Resume(k))
    ensures Of(k.msgVal, k.running) != NONE ==>
      Resume(k).got == Some(Of(k.msgVal, k.running)) && Resume(k).events == []
  {
    assert MailOf(k, k.running);
    var id := CallOf(k, k.running).id;
    if Of(k.msgVal, k.running) == NONE {
      ReceiveLoopSound(k, id);
    } else {
      var k1 := SetCall(k, User);
      EndCallKeeps(k);
      OwnMsgValKeeps(k1, NONE);
      QuietConserves(k, Resume(k));
      if Settled(k) {
        SettledKept(k, Resume(k).kernel);
      }
    }
  }

  lemma ResumeSound(k: Kernel)
    requires Inv(k) && k.running != k.idle
    ensures Sound(k, Resume(k))
  {
    match CallOf(k, k.running)
    case User => QuietConserves(k, Resume(k));
    case Sending(_, _) => ResumedSenderEnds(k);
    case Receiving(_) => ResumedReceiverReturns(k);
  }

  lemma OpenQueueKeeps(k: Kernel, count: int, id: int)
    requires Inv(k) && count > 0 && !Used(k, id) && 0 <= id < NBQUEUE
    ensures Inv(k.(mqs := k.mqs[id := MQueue(count, [])]))
  {
    var k' := k.(mqs := k.mqs[id := MQueue(count, [])]);
    assert Linked(k') by { LinksKept(k, k'); }
    assert Mail(k') by {
      forall u: Ptr ensures MailOf(k', u) {
        assert MailOf(k, u);
      }
    }
    assert Who(k') by { assert forall u: Ptr :: StateOf(k', u) == StateOf(k, u); }
  }

  /** pcreate with a valid count opens an empty queue under the first unused identifier, if there is one; otherwise it
      changes nothing and tells why. */
  lemma PcreateKeeps(k: Kernel, count: int)
    requires Inv(k)
    ensures Sound(k, Outcome(Pcreate(k, count), [], None))
    ensures var id := PcreateResult(k, count);
      if count > INT16_MAX then id == -3 && Pcreate(k, count) == k
      else if count <= 0 then id == -2 && Pcreate(k, count) == k
      else if forall j :: 0 <= j < NBQUEUE ==> Used(k, j) then id == -1 && Pcreate(k, count) == k
      else
        && 0 <= id < NBQUEUE && !Used(k, id) && (forall j :: 0 <= j < id ==> Used(k, j))
        && Pcreate(k, count).mqs == k.mqs[id := MQueue(count, [])]
    ensures PcreateResult(k, count) >= 0 <==>
      1 <= count <= INT16_MAX && exists id :: 0 <= id < NBQUEUE && !Used(k, id)
  {
    var k', id := Pcreate(k, count), PcreateResult(k, count);
    if k' != k {
      OpenQueueKeeps(k, count, id);
      if Settled(k) {
        SettledKept(k, k');
      }
      assert forall u: Ptr :: StateOf(k', u) == StateOf(k, u);
    }
    assert forall q: int :: MsgsOf(k', q) == MsgsOf(k, q);
  }
}
