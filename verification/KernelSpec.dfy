/** The task state machine of kernel/task.c, msg.c, prio.c, exit.c and kill.c on values.

    Every task owns one `tasks` link, threaded into at most one queue at a time. A context switch is a
    step boundary: `call` records where a task that is not running stands inside psend or preceive. */
module KernelSpec {
  import opened Options
  import opened Lists
  import opened QueueSpec

  const NBQUEUE: int := 20
  const MIN_PRIO: int := 1
  const MAX_PRIO: int := 256
  const CLOCK_MODULUS: int := 0x1_0000_0000
  const INT16_MAX: int := 0x7FFF
  const NONE: int := -1  // the value of msg_val that stands for no message
  const ESRCH: int := 3
  const EINVAL: int := 22

  datatype State = Startup | Running | Ready | Sleeping | Zombie | InterruptedMsg | InterruptedChild

  datatype Call = User | Sending(id: int, msg: int) | Receiving(id: int)

  /** The list heads a `tasks` link can be threaded from. */
  datatype Head = ReadyQueue | SleepingQueue | ZombieQueue | ChildQueue | Senders(id: int) | Receivers(id: int)

  /** struct mqueue without its waiting lists; an absent identifier is an unused queue. */
  datatype MQueue = MQueue(size: int, msgs: seq<int>)

  datatype Kernel = Kernel(
    running: Ptr,
    idle: Ptr,
    clock: int,
    ok: bool,                    // false once an assertion failed or a null pointer was followed
    queues: map<Head, seq<Ptr>>,
    link: map<Ptr, Head>,        // the queue each non-null link is threaded into
    state: map<Ptr, State>,
    prio: Field,
    wake: Field,
    msgVal: Field,
    pid: Field,
    parent: map<Ptr, Ptr>,
    call: map<Ptr, Call>,
    mqs: map<int, MQueue>)

  function QueueAt(k: Kernel, h: Head): seq<Ptr> {
    if h in k.queues then k.queues[h] else []
  }

  function StateOf(k: Kernel, t: Ptr): State {
    if t in k.state then k.state[t] else Startup
  }

  function CallOf(k: Kernel, t: Ptr): Call {
    if t in k.call then k.call[t] else User
  }

  function LinkOf(k: Kernel, t: Ptr): Option<Head> {
    if t in k.link then Some(k.link[t]) else None
  }

  /** Tasks that were started and have not died. */
  predicate Live(k: Kernel, t: Ptr) {
    StateOf(k, t) != Startup && StateOf(k, t) != Zombie
  }

  function Fail(k: Kernel): Kernel {
    k.(ok := false)
  }

  /** Scheduling never touches messages, calls, priorities or pids. */
  predicate SameMail(k: Kernel, k': Kernel) {
    k'.mqs == k.mqs && k'.msgVal == k.msgVal && k'.call == k.call && k'.prio == k.prio &&
      k'.idle == k.idle && k'.pid == k.pid
  }

  /** Nothing but msg.c touches messages and calls. */
  predicate SameMsgs(k: Kernel, k': Kernel) {
    k'.mqs == k.mqs && k'.msgVal == k.msgVal && k'.call == k.call && k'.pid == k.pid
  }

  // ---- shared/queue.h on the links

  function QueueAdd(k: Kernel, t: Ptr, h: Head): (r: Kernel)
    ensures (r.ok ==> k.ok) && SameMail(k, r)
  {
    if t in k.link then Fail(k)
    else k.(queues := k.queues[h := Insert(QueueAt(k, h), k.prio, t)], link := k.link[t := h])
  }

  function QueueDel(k: Kernel, t: Ptr): (r: Kernel)
    ensures (r.ok ==> k.ok) && SameMail(k, r)
  {
    if t !in k.link then Fail(k)
    else k.(queues := k.queues[k.link[t] := Remove(QueueAt(k, k.link[t]), t)], link := k.link - {t})
  }

  // ---- kernel/task.c

  function SetState(k: Kernel, t: Ptr, s: State): Kernel {
    k.(state := k.state[t := s])
  }

  /** __set_task_state. */
  function SetTaskState(k: Kernel, t: Ptr, s: State, h: Head): (r: Kernel)
    ensures (r.ok ==> k.ok) && SameMail(k, r)
  {
    if StateOf(k, t) == s then k
    else
      var k1 := if t != k.running && StateOf(k, t) != Startup && StateOf(k, t) != InterruptedMsg
                then QueueDel(k, t) else k;
      QueueAdd(SetState(k1, t, s), t, h)
  }

  /** set_task_running. */
  function SetTaskRunning(k: Kernel, t: Ptr): (r: Kernel)
    ensures (r.ok ==> k.ok) && SameMail(k, r)
  {
    var k1 := if StateOf(k, t) != Startup && StateOf(k, t) != Running then QueueDel(k, t) else k;
    SetState(k1, t, Running).(running := t)
  }

  function Due(k: Kernel, t: Ptr): bool {
    k.clock >= Of(k.wake, t)
  }

  function WakeOne(k: Kernel, t: Ptr): (r: Kernel)
    ensures (r.ok ==> k.ok) && SameMail(k, r)
  {
    if Due(k, t) then SetTaskState(k.(wake := k.wake[t := 0]), t, Ready, ReadyQueue) else k
  }

  /** try_wakeup_tasks, over the sleepers listed when it started. */
  function WakeAll(k: Kernel, sleepers: seq<Ptr>): (r: Kernel)
    ensures (r.ok ==> k.ok) && SameMail(k, r)
    decreases |sleepers|
  {
    if sleepers == [] then k else WakeAll(WakeOne(k, sleepers[0]), sleepers[1..])
  }

  /** A task that was running goes back to the ready queue. */
  function Preempt(k: Kernel): (r: Kernel)
    ensures (r.ok ==> k.ok) && SameMail(k, r)
  {
    if StateOf(k, k.running) == Running then SetTaskState(k, k.running, Ready, ReadyQueue) else k
  }

  function Dispatch(k: Kernel): (r: Kernel)
    ensures (r.ok ==> k.ok) && SameMail(k, r)
  {
    var ready := QueueAt(k, ReadyQueue);
    if ready == [] || Last(ready) == k.running then k
    else if StateOf(k, k.running) == Running && Of(k.prio, k.running) > Of(k.prio, Last(ready)) then k
    else SetTaskRunning(Preempt(k), Last(ready))
  }

  /** schedule, without reap_zombies. */
  function Schedule(k: Kernel): (r: Kernel)
    ensures (r.ok ==> k.ok) && SameMail(k, r)
  {
    Dispatch(WakeAll(k, QueueAt(k, SleepingQueue)))
  }

  /** set_task_ready_or_running. */
  function SetReadyOrRunning(k: Kernel, t: Ptr): (r: Kernel)
    ensures (r.ok ==> k.ok) && SameMail(k, r)
  {
    var k1 := QueueAdd(SetState(k, t, Ready), t, ReadyQueue);
    if Of(k1.prio, t) > Of(k1.prio, k1.running) then Schedule(k1) else k1
  }

  /** clock_handler. */
  function Tick(k: Kernel): (r: Kernel)
    ensures SameMsgs(k, r)
  {
    Schedule(k.(clock := (k.clock + 1) % CLOCK_MODULUS))
  }

  /** wait_clock, called by the running task. */
  function WaitClock(k: Kernel, c: int): (r: Kernel)
    ensures SameMsgs(k, r)
  {
    var k1 := k.(wake := k.wake[k.running := c]);
    Schedule(SetTaskState(k1, k.running, Sleeping, SleepingQueue))
  }

  /** The blocking step of waitpid, called by the running task. */
  function WaitChild(k: Kernel): (r: Kernel)
    ensures SameMsgs(k, r)
  {
    Schedule(SetTaskState(k, k.running, InterruptedChild, ChildQueue))
  }

  /** start, once a task is allocated at t with a fresh pid, up to its call of schedule. */
  function Spawn(k: Kernel, t: Ptr, pid: int, prio: int): (r: Kernel)
    ensures r.mqs == k.mqs && r.pid == k.pid[t := pid]
  {
    var k1 := k.(state := k.state[t := Startup], pid := k.pid[t := pid], prio := k.prio[t := prio],
                 parent := k.parent[t := k.running], msgVal := k.msgVal[t := NONE], call := k.call[t := User]);
    SetTaskState(k1, t, Ready, ReadyQueue)
  }

  function Start(k: Kernel, t: Ptr, pid: int, prio: int): (r: Kernel)
    ensures r.mqs == k.mqs && r.pid == k.pid[t := pid]
  {
    var k1 := Spawn(k, t, pid, prio);
    if prio >= Of(k1.prio, k1.running) then Schedule(k1) else k1
  }

  // ---- kernel/exit.c and kill.c

  /** UINT32_MAX - current_clock(), stored in an int. */
  function DeathRank(clock: int): int {
    var v := CLOCK_MODULUS - 1 - clock;
    if v >= 0x8000_0000 then v - CLOCK_MODULUS else v
  }

  predicate IsMsgQueue(h: Head) {
    h.Senders? || h.Receivers?
  }

  /** __exit_task past its error checks. */
  function ExitTask(k: Kernel, t: Ptr): (r: Kernel)
    ensures SameMsgs(k, r)
  {
    var k1 := k.(prio := k.prio[t := DeathRank(k.clock)]);
    var k2 := if t in k.link && IsMsgQueue(k.link[t]) then QueueDel(k1, t) else k1;
    var k3 := SetTaskState(k2, t, Zombie, ZombieQueue);
    if t in k.parent && StateOf(k3, k.parent[t]) == InterruptedChild
    then SetTaskState(k3, k.parent[t], Ready, ReadyQueue) else k3
  }

  /** The return value of kill. */
  function KillResult(k: Kernel, t: Ptr): int {
    if t == k.idle then -EINVAL else if StateOf(k, t) == Zombie then -ESRCH else 0
  }

  /** exit, called by the running task. */
  function Exit(k: Kernel): (r: Kernel)
    ensures SameMsgs(k, r)
  {
    Schedule(ExitTask(k, k.running))
  }

  /** kill of the task t found for a pid. */
  function Kill(k: Kernel, t: Ptr): (r: Kernel)
    ensures SameMsgs(k, r)
  {
    if t == k.idle || StateOf(k, t) == Zombie then k
    else
      var k1 := ExitTask(k, t);
      if t == k.running then Schedule(k1) else k1
  }

  // ---- kernel/prio.c

  /** Where queue_from_state finds the task; its answer is null for a running task. */
  function Reinsert(k: Kernel, t: Ptr): (r: Kernel)
    ensures SameMsgs(k, r) && r.state == k.state
  {
    if t in k.link then QueueAdd(QueueDel(k, t), t, k.link[t]) else k
  }

  /** chprio of the task t found for a pid. */
  function Chprio(k: Kernel, t: Ptr, p: int): (r: Kernel)
    ensures SameMsgs(k, r)
  {
    if t == k.idle || StateOf(k, t) == Zombie || p > MAX_PRIO || p < MIN_PRIO then k
    else
      var k1 := Reinsert(k.(prio := k.prio[t := p]), t);
      if StateOf(k1, t) == InterruptedMsg then Reinsert(k1, t)
      else if t != k1.running && StateOf(k1, t) == Ready && p > Of(k1.prio, k1.running) then Schedule(k1)
      else if t == k1.running then
        if QueueAt(k1, ReadyQueue) == [] then Fail(k1)
        else if Of(k1.prio, Last(QueueAt(k1, ReadyQueue))) > p then Schedule(k1)
        else k1
      else k1
  }

  /** The return value of chprio. */
  function ChprioResult(k: Kernel, t: Ptr, p: int): int {
    if t == k.idle then -EINVAL
    else if StateOf(k, t) == Zombie then -ESRCH
    else if p > MAX_PRIO || p < MIN_PRIO then -EINVAL
    else Of(k.prio, t)
  }

  // ---- kernel/msg.c

  /** What a step does to the messages of a queue, in order. */
  datatype Event = Accepted(id: int, msg: int) | Delivered(id: int, msg: int)

  /** State after the step, its message events, and the message preceive returns, if it ends. */
  datatype Outcome = Outcome(kernel: Kernel, events: seq<Event>, got: Option<int>)

  function QueueOut(k: Kernel, h: Head): Kernel
    requires QueueAt(k, h) != []
  {
    k.(queues := k.queues[h := AllButLast(QueueAt(k, h))], link := k.link - {Last(QueueAt(k, h))})
  }

  predicate Used(k: Kernel, id: int) {
    id in k.mqs
  }

  predicate Full(k: Kernel, id: int) {
    id in k.mqs && |k.mqs[id].msgs| == k.mqs[id].size
  }

  predicate Empty(k: Kernel, id: int) {
    id in k.mqs && k.mqs[id].msgs == []
  }

  function SetMsgVal(k: Kernel, t: Ptr, v: int): Kernel {
    k.(msgVal := k.msgVal[t := v])
  }

  function SetMsgs(k: Kernel, id: int, msgs: seq<int>): Kernel
    requires Used(k, id)
  {
    k.(mqs := k.mqs[id := k.mqs[id].(msgs := msgs)])
  }

  function SetCall(k: Kernel, c: Call): Kernel {
    k.(call := k.call[k.running := c])
  }

  /** queue_add, then set_task_interrupted_msg, on the running task. */
  function BlockOnMsg(k: Kernel, h: Head, c: Call): Kernel {
    var k1 := SetCall(QueueAdd(k, k.running, h), c);
    Schedule(SetState(k1, k.running, InterruptedMsg))
  }

  /** The wake-up of a receiver in psend, after its loop. */
  function WakeReceiver(k: Kernel, id: int): (r: Kernel)
    ensures (r.ok ==> k.ok) && r.mqs == k.mqs && r.msgVal == k.msgVal && r.call == k.call && r.pid == k.pid
  {
    if QueueAt(k, Receivers(id)) == [] then k
    else SetReadyOrRunning(QueueOut(k, Receivers(id)), Last(QueueAt(k, Receivers(id))))
  }

  /** What follows the loop of psend. */
  function SendEnd(k: Kernel, id: int, msg: int): Outcome
    requires Used(k, id)
  {
    if Of(k.msgVal, k.running) == NONE then Outcome(k, [], None)
    else
      var k1 := WakeReceiver(k, id);
      Outcome(SetMsgs(k1, id, k1.mqs[id].msgs + [msg]), [Accepted(id, msg)], None)
  }

  /** The while condition of psend, and what follows the loop. */
  function SendLoop(k: Kernel, id: int, msg: int): Outcome
    requires Used(k, id)
  {
    if Full(k, id) && Of(k.msgVal, k.running) != NONE then
      Outcome(BlockOnMsg(k, Senders(id), Sending(id, msg)), [], None)
    else SendEnd(SetCall(k, User), id, msg)
  }

  /** Messages handed over without passing through the list; NONE is no message. */
  function HandOff(id: int, msg: int): seq<Event> {
    if msg == NONE then [] else [Accepted(id, msg), Delivered(id, msg)]
  }

  /** psend, called by the running task, up to its end or its first context switch. */
  function Psend(k: Kernel, id: int, msg: int): Outcome {
    if !Used(k, id) then Outcome(k, [], None)
    else if QueueAt(k, Receivers(id)) != [] then
      var last := Last(QueueAt(k, Receivers(id)));
      var k1 := SetMsgVal(QueueOut(k, Receivers(id)), last, msg);
      Outcome(SetReadyOrRunning(k1, last), HandOff(id, msg), None)
    else SendLoop(SetMsgVal(k, k.running, msg), id, msg)
  }

  /** The while condition of preceive, and what follows the loop. */
  function ReceiveLoop(k: Kernel, id: int): Outcome
    requires Used(k, id)
  {
    if Empty(k, id) && Of(k.msgVal, k.running) == NONE then
      Outcome(BlockOnMsg(k, Receivers(id), Receiving(id)), [], None)
    else
      var k1 := SetCall(k, User);
      if Of(k1.msgVal, k1.running) != NONE then
        Outcome(SetMsgVal(k1, k1.running, NONE), [], Some(Of(k1.msgVal, k1.running)))
      else ReceiveFromQueue(k1, id)
  }

  /** preceive with a message in the queue, when a sender waits. */
  function ReceiveAndWake(k: Kernel, id: int): Outcome
    requires Used(k, id) && QueueAt(k, Senders(id)) != []
  {
    var msgs, last := k.mqs[id].msgs, Last(QueueAt(k, Senders(id)));
    var pending, k1 := Of(k.msgVal, last), QueueOut(k, Senders(id));
    if Full(k, id) && pending != NONE then
      if msgs == [] then Outcome(Fail(k1), [], None)
      else
        var k2 := SetMsgVal(SetMsgs(k1, id, msgs[1..] + [pending]), last, NONE);
        Outcome(SetReadyOrRunning(k2, last), [Delivered(id, msgs[0]), Accepted(id, pending)], Some(msgs[0]))
    else if Empty(k, id) then
      Outcome(SetReadyOrRunning(SetMsgVal(k1, last, NONE), last), HandOff(id, pending), Some(pending))
    else Outcome(SetReadyOrRunning(SetMsgs(k1, id, msgs[1..]), last), [Delivered(id, msgs[0])], Some(msgs[0]))
  }

  /** preceive with a message in the queue. */
  function ReceiveFromQueue(k: Kernel, id: int): Outcome
    requires Used(k, id)
  {
    var msgs := k.mqs[id].msgs;
    if QueueAt(k, Senders(id)) != [] then ReceiveAndWake(k, id)
    else if msgs == [] then Outcome(Fail(k), [], None)
    else Outcome(SetMsgs(k, id, msgs[1..]), [Delivered(id, msgs[0])], Some(msgs[0]))
  }

  /** preceive, called by the running task, up to its end or its first context switch. */
  function Preceive(k: Kernel, id: int): Outcome {
    if !Used(k, id) then Outcome(k, [], None)
    else ReceiveLoop(SetMsgVal(k, k.running, NONE), id)
  }

  /** The running task goes on inside the call it was blocked in. */
  function Resume(k: Kernel): Outcome {
    match CallOf(k, k.running)
    case User => Outcome(k, [], None)
    case Sending(id, msg) => if Used(k, id) then SendLoop(k, id, msg) else Outcome(SetCall(k, User), [], None)
    case Receiving(id) => if Used(k, id) then ReceiveLoop(k, id) else Outcome(SetCall(k, User), [], None)
  }

  /** first_available_queue, from identifier i on. */
  function FirstAvailable(k: Kernel, i: nat): (id: int)
    ensures id == -1 || (i <= id < NBQUEUE && !Used(k, id))
    ensures forall j :: i <= j < (if id == -1 then NBQUEUE else id) ==> Used(k, j)
    decreases NBQUEUE - i
  {
    if i >= NBQUEUE then -1 else if !Used(k, i) then i else FirstAvailable(k, i + 1)
  }

  /** The return code of pcreate. */
  function PcreateResult(k: Kernel, count: int): int {
    if count > INT16_MAX then -3 else if count <= 0 then -2 else FirstAvailable(k, 0)
  }

  /** pcreate. */
  function Pcreate(k: Kernel, count: int): Kernel {
    if PcreateResult(k, count) < 0 then k
    else k.(mqs := k.mqs[PcreateResult(k, count) := MQueue(count, [])])
  }

  /** pcount. */
  function Pcount(k: Kernel, id: int): Option<int> {
    if !Used(k, id) then None
    else if Empty(k, id) then Some(-|QueueAt(k, Receivers(id))|)
    else Some(|QueueAt(k, Senders(id))| + |k.mqs[id].msgs|)
  }

  // ---- what the calls return

  /** Nothing for a step that returns none, Waiting for a call that is not over yet. */
  datatype Answer = Nothing | Returned(code: int) | Received(msg: int) | Waiting

  function PsendAnswer(k: Kernel, id: int, msg: int): Answer {
    if !Used(k, id) then Returned(-1)
    else if QueueAt(k, Receivers(id)) == [] && Full(k, id) && msg != NONE then Waiting
    else Returned(0)
  }

  /** What preceive has got, in a queue that is in use. */
  function GotAnswer(got: Option<int>): Answer {
    match got
    case None => Waiting
    case Some(msg) => Received(msg)
  }

  function PreceiveAnswer(k: Kernel, id: int): Answer {
    if Used(k, id) then GotAnswer(Preceive(k, id).got) else Returned(-1)
  }

  /** The answer of the call that the running task goes on with. */
  function ResumeAnswer(k: Kernel): Answer {
    match CallOf(k, k.running)
    case User => Nothing
    case Sending(id, _) =>
      if !Used(k, id) then Returned(-1)
      else if Full(k, id) && Of(k.msgVal, k.running) != NONE then Waiting
      else Returned(0)
    case Receiving(id) => if Used(k, id) then GotAnswer(Resume(k).got) else Returned(-1)
  }
}
