/** Round robin: while nothing else happens, clock ticks run the tasks of the highest priority in turn,
    each exactly once per cycle. */
module KernelRotation {
  import opened Lists
  import opened QueueSpec
  import opened KernelSpec
  import opened KernelInv
  import opened KernelSteps

  function Ready(k: Kernel): seq<Ptr> {
    QueueAt(k, ReadyQueue)
  }

  /** The part of a queue below the priority of r. */
  function Lower(q: seq<Ptr>, prio: Field, r: Ptr): seq<Ptr> {
    q[..Skip(q, prio, r)]
  }

  /** r, then the part of a queue that is not below it, from youngest to oldest. */
  function CycleOf(q: seq<Ptr>, prio: Field, r: Ptr): (c: seq<Ptr>)
    ensures c != [] && c[0] == r
  {
    [r] + q[Skip(q, prio, r)..]
  }

  /** The ready tasks below the priority of the running one. */
  function Below(k: Kernel): seq<Ptr> {
    Lower(Ready(k), k.prio, k.running)
  }

  /** The running task, then the ready tasks of its priority from youngest to oldest. */
  function Cycle(k: Kernel): (c: seq<Ptr>)
    ensures c != [] && c[0] == k.running
  {
    CycleOf(Ready(k), k.prio, k.running)
  }

  function RotateRight(c: seq<Ptr>): seq<Ptr>
    requires c != []
  {
    [c[|c| - 1]] + c[..|c| - 1]
  }

  /** No sleeper is due at clock c. */
  ghost predicate AllAsleep(k: Kernel, c: int) {
    forall t: Ptr :: StateOf(k, t) == Sleeping ==> Of(k.wake, t) > c
  }

  lemma {:induction false} NobodyWakes(k: Kernel, sleepers: seq<Ptr>)
    requires forall t :: t in sleepers ==> !Due(k, t)
    ensures WakeAll(k, sleepers) == k
    decreases |sleepers|
  {
    if sleepers != [] {
      assert WakeOne(k, sleepers[0]) == k;
      NobodyWakes(k, sleepers[1..]);
    }
  }

  /** All of c have priority p, all of b a lower one. */
  ghost predicate Split(b: seq<Ptr>, c: seq<Ptr>, prio: Field, p: int) {
    && (forall i :: 0 <= i < |c| ==> Of(prio, c[i]) == p)
    && (forall i :: 0 <= i < |b| ==> Of(prio, b[i]) < p)
  }

  lemma RivalsAgree(q: seq<Ptr>, prio: Field, r: Ptr, i: nat)
    requires Sorted(q, prio) && Skip(q, prio, r) <= i < |q|
    requires forall t :: t in q ==> Of(prio, t) <= Of(prio, r)
    ensures Of(prio, q[i]) == Of(prio, r)
  {
    hide Skip;
    var s := Skip(q, prio, r);
    assert q[i] in q;
    assert s < i ==> Of(prio, q[s]) <= Of(prio, q[i]);
  }

  lemma SkipSplits(q: seq<Ptr>, prio: Field, r: Ptr)
    requires Sorted(q, prio)
    requires forall t :: t in q ==> Of(prio, t) <= Of(prio, r)
    ensures q == Lower(q, prio, r) + CycleOf(q, prio, r)[1..]
    ensures Split(Lower(q, prio, r), CycleOf(q, prio, r), prio, Of(prio, r))
  {
    hide Skip, Sorted;
    var s, c := Skip(q, prio, r), CycleOf(q, prio, r);
    forall i | 0 <= i < |c| ensures Of(prio, c[i]) == Of(prio, r) {
      if i > 0 {
        RivalsAgree(q, prio, r, s + i - 1);
      }
    }
    assert c[1..] == q[s..];
  }

  lemma CycleDistinct(q: seq<Ptr>, prio: Field, r: Ptr)
    requires NoRepeats(q) && r !in q
    ensures NoRepeats(CycleOf(q, prio, r))
  {
    hide Skip;
    NoRepeatsCons(r, q[Skip(q, prio, r)..]);
  }

  lemma RunningIsTop(k: Kernel)
    requires Inv(k) && Settled(k)
    ensures NoRepeats(Ready(k)) && Sorted(Ready(k), k.prio) && k.running !in Ready(k)
    ensures forall t :: t in Ready(k) ==> Of(k.prio, t) <= Of(k.prio, k.running)
  {
    assert LinkOf(k, k.running) == Place(k, k.running);
    ReadyIsListed(k);
  }

  /** In a settled state every task of the cycle has the priority of the running one. */
  lemma CycleIsTop(k: Kernel)
    requires Inv(k) && Settled(k)
    ensures Ready(k) == Below(k) + Cycle(k)[1..] && NoRepeats(Cycle(k))
    ensures Split(Below(k), Cycle(k), k.prio, Of(k.prio, k.running))
  {
    RunningIsTop(k);
    SkipSplits(Ready(k), k.prio, k.running);
    CycleDistinct(Ready(k), k.prio, k.running);
  }

  /** What Dispatch does to the ready queue when it preempts the running task. */
  lemma DispatchSwaps(k: Kernel)
    requires Inv(k) && Ready(k) != [] && Of(k.prio, k.running) <= Of(k.prio, Last(Ready(k)))
    ensures var k' := Dispatch(k);
      k'.running == Last(Ready(k)) && k'.prio == k.prio &&
      Ready(k') == Remove(Insert(Ready(k), k.prio, k.running), Last(Ready(k)))
  {
    var r, n := k.running, Last(Ready(k));
    TopOfReady(k);
    assert LinkOf(k, r) == Place(k, r);
    var k1 := Preempt(k);
    assert k1 == QueueAdd(SetState(k, r, State.Ready), r, ReadyQueue);
    assert k1.link == k.link[r := ReadyQueue] && Ready(k1) == Insert(Ready(k), k.prio, r);
    assert n in k.link && k.link[n] == ReadyQueue && StateOf(k1, n) == State.Ready;
    var k2 := QueueDel(k1, n);
    assert Ready(k2) == Remove(Ready(k1), n);
    assert SetTaskRunning(k1, n) == SetState(k2, n, Running).(running := n);
  }

  /** Cutting the oldest task out of below + [running] + others leaves below + [running] + the younger ones. */
  lemma SwapSplits(q: seq<Ptr>, prio: Field, r: Ptr)
    requires NoRepeats(q) && r !in q && Skip(q, prio, r) < |q|
    ensures Remove(Insert(q, prio, r), Last(q)) == q[..Skip(q, prio, r)] + [r] + q[Skip(q, prio, r)..|q| - 1]
  {
    hide Insert, Remove, Skip;
    InsertAtSkip(q, prio, r);
    InsertKeepsDistinct(q, prio, r);
    var w := Insert(q, prio, r);
    assert w[|w| - 1] == Last(q);
    RemoveAt(w, |w| - 1);
    assert w[..|w| - 1] + w[|w| - 1 + 1..] == q[..Skip(q, prio, r)] + [r] + q[Skip(q, prio, r)..|q| - 1];
  }

  /** The queue after a swap, cut where the old one was cut. */
  lemma CutStays(q: seq<Ptr>, q': seq<Ptr>, prio: Field, r: Ptr, n: Ptr)
    requires Of(prio, n) == Of(prio, r)
    requires Skip(q, prio, r) < |q'| && q'[..Skip(q, prio, r)] == Lower(q, prio, r) && q'[Skip(q, prio, r)] == r
    ensures Skip(q', prio, n) == Skip(q, prio, r)
  {
    hide Skip;
    var s := Skip(q, prio, r);
    assert q'[s] == r;
    forall i | 0 <= i < s ensures Of(prio, q'[i]) < Of(prio, n) {
      assert q'[i] == q'[..s][i] == q[i];
    }
    SkipIs(q', prio, n, s);
  }

  lemma SwapTail(q: seq<Ptr>, q': seq<Ptr>, s: nat, r: Ptr)
    requires s < |q| && q' == q[..s] + [r] + q[s..|q| - 1]
    ensures |q'| == |q| && q'[..s] == q[..s] && q'[s] == r
    ensures [Last(q)] + q'[s..] == RotateRight([r] + q[s..])
  {
    var c := [r] + q[s..];
    assert c[..|c| - 1] == [r] + q[s..|q| - 1];
    assert q'[s..] == [r] + q[s..|q| - 1];
  }

  lemma SwapRotates(q: seq<Ptr>, prio: Field, r: Ptr)
    requires NoRepeats(q) && Sorted(q, prio) && r !in q && Skip(q, prio, r) < |q|
    requires forall t :: t in q ==> Of(prio, t) <= Of(prio, r)
    ensures var q', n := Remove(Insert(q, prio, r), Last(q)), Last(q);
      CycleOf(q', prio, n) == RotateRight(CycleOf(q, prio, r)) && Lower(q', prio, n) == Lower(q, prio, r)
  {
    hide Skip, Insert, Remove, Sorted, NoRepeats;
    var s, n := Skip(q, prio, r), Last(q);
    var q' := Remove(Insert(q, prio, r), n);
    RivalsAgree(q, prio, r, |q| - 1);
    SwapSplits(q, prio, r);
    SwapTail(q, q', s, r);
    CutStays(q, q', prio, r, n);
  }

  /** One tick moves the oldest task of the running priority to the processor and the running one to the
      young end; a task without rival keeps the processor. */
  lemma TickRotates(k: Kernel)
    requires Inv(k) && Settled(k) && AllAsleep(k, k.clock + 1) && 0 <= k.clock < CLOCK_MODULUS - 1
    ensures Cycle(Tick(k)) == RotateRight(Cycle(k)) && Below(Tick(k)) == Below(k)
  {
    hide Inv, Settled, Dispatch, Cycle, Below, Tick;
    InvClock(k, k.clock + 1);
    QuietTick(k);
    CycleIsTop(k);
    RotateFrom(k, k.(clock := k.clock + 1));
  }

  lemma NobodyDue(k: Kernel, c: int)
    requires Inv(k) && AllAsleep(k, c)
    ensures forall t :: t in QueueAt(k, SleepingQueue) ==> !Due(k.(clock := c), t)
  {
    forall t | t in QueueAt(k, SleepingQueue) ensures !Due(k.(clock := c), t) {
      assert LinkOf(k, t) == Place(k, t);
    }
  }

  /** A tick for which no sleeper waits only looks for another task to run. */
  lemma QuietTick(k: Kernel)
    requires Inv(k) && AllAsleep(k, k.clock + 1) && 0 <= k.clock < CLOCK_MODULUS - 1
    ensures Tick(k) == Dispatch(k.(clock := k.clock + 1))
  {
    hide Inv, Dispatch, WakeAll, Due, AllAsleep;
    var k1 := k.(clock := k.clock + 1);
    NobodyDue(k, k1.clock);
    NobodyWakes(k1, QueueAt(k1, SleepingQueue));
  }

  lemma InvClock(k: Kernel, c: int)
    requires Inv(k)
    ensures Base(k) && Inv(k.(clock := c))
  {
    TimeKept(k, k.wake, c);
  }

  lemma RotateFrom(k: Kernel, k1: Kernel)
    requires Inv(k) && Settled(k) && Inv(k1) && k1 == k.(clock := k1.clock)
    ensures Cycle(Dispatch(k1)) == RotateRight(Cycle(k)) && Below(Dispatch(k1)) == Below(k)
  {
    hide Inv, Settled, Dispatch, Insert, Remove, Split, Skip;
    CycleIsTop(k);
    var q := Ready(k);
    if |Cycle(k)| > 1 {
      assert Last(q) == Cycle(k)[|Cycle(k)| - 1];
      LastOfCycle(k);
      DispatchSwaps(k1);
      RunningIsTop(k);
      SwapRotates(q, k.prio, k.running);
    } else {
      assert q == Below(k);
      NoRival(k, k1);
    }
  }

  lemma LastOfCycle(k: Kernel)
    requires Split(Below(k), Cycle(k), k.prio, Of(k.prio, k.running))
    ensures Of(k.prio, Cycle(k)[|Cycle(k)| - 1]) == Of(k.prio, k.running)
  {
  }

  /** A task without rival keeps the processor. */
  lemma NoRival(k: Kernel, k1: Kernel)
    requires Inv(k1) && k1 == k.(clock := k1.clock) && Ready(k) == Below(k)
    requires Split(Below(k), Cycle(k), k.prio, Of(k.prio, k.running))
    ensures Dispatch(k1) == k1
  {
    var q := Ready(k);
    assert q != [] ==> Last(q) == Below(k)[|q| - 1];
  }

  function Ticks(k: Kernel, n: nat): Kernel {
    if n == 0 then k else Tick(Ticks(k, n - 1))
  }

  /** c rotated right n times. */
  function Rotated(c: seq<Ptr>, n: nat): seq<Ptr>
    requires n <= |c|
  {
    c[|c| - n..] + c[..|c| - n]
  }

  lemma RotateOnce(c: seq<Ptr>, n: nat)
    requires n < |c|
    ensures RotateRight(Rotated(c, n)) == Rotated(c, n + 1)
  {
    var d := Rotated(c, n);
    assert d[|c| - 1] == c[|c| - n - 1];
    assert d[..|c| - 1] == c[|c| - n..] + c[..|c| - n - 1];
  }

  lemma {:induction false} TicksRotate(k: Kernel, n: nat)
    requires Inv(k) && Settled(k) && AllAsleep(k, k.clock + n) && k.clock + n < CLOCK_MODULUS && n <= |Cycle(k)|
    requires k.clock >= 0
    ensures Inv(Ticks(k, n)) && Settled(Ticks(k, n)) && Ticks(k, n).clock == k.clock + n
    ensures Cycle(Ticks(k, n)) == Rotated(Cycle(k), n)
    ensures AllAsleep(Ticks(k, n), k.clock + n)
  {
    hide Inv, Settled, Cycle, Below, Tick;
    if n == 0 {
      assert Rotated(Cycle(k), 0) == Cycle(k);
    } else {
      var j := Ticks(k, n - 1);
      SleepLonger(k, k.clock + n - 1, k.clock + n);
      TicksRotate(k, n - 1);
      TicksSleep(k, n - 1, k.clock + n);
      TickRotates(j);
      TickKeeps(j);
      RotateOnce(Cycle(k), n - 1);
      TickSleeps(j, k.clock + n);
    }
  }

  lemma SleepLonger(k: Kernel, c: int, d: int)
    requires AllAsleep(k, d) && c <= d
    ensures AllAsleep(k, c)
  {
  }

  /** A tick that wakes nobody leaves every sleeper with its wake time. */
  lemma TickSleeps(k: Kernel, c: int)
    requires Inv(k) && AllAsleep(k, c) && 0 <= k.clock < c < CLOCK_MODULUS
    ensures AllAsleep(Tick(k), c) && Tick(k).clock == k.clock + 1
  {
    hide Inv, Dispatch, Tick;
    SleepLonger(k, k.clock + 1, c);
    QuietTick(k);
    DispatchSleeps(k.(clock := k.clock + 1));
  }

  lemma PreemptFrame(k: Kernel)
    ensures Preempt(k).wake == k.wake && Preempt(k).clock == k.clock
    ensures Preempt(k).state == k.state || Preempt(k).state == k.state[k.running := State.Ready]
  {
    hide Insert;
    AddFrame(SetState(k, k.running, State.Ready), k.running, ReadyQueue);
  }

  lemma RunFrame(k: Kernel, t: Ptr)
    ensures SetTaskRunning(k, t).wake == k.wake && SetTaskRunning(k, t).clock == k.clock
    ensures SetTaskRunning(k, t).state == k.state[t := Running]
  {
    hide QueueDel;
    DelFrame(k, t);
  }

  lemma DispatchSleeps(k: Kernel)
    ensures Dispatch(k).wake == k.wake && Dispatch(k).clock == k.clock
    ensures forall t: Ptr :: StateOf(Dispatch(k), t) == Sleeping ==> StateOf(k, t) == Sleeping
  {
    hide SetTaskRunning, Preempt;
    PreemptFrame(k);
    var ready := Ready(k);
    if Dispatch(k) != k {
      RunFrame(Preempt(k), Last(ready));
    }
  }

  lemma {:induction false} TicksSleep(k: Kernel, n: nat, c: int)
    requires Inv(k) && AllAsleep(k, c) && 0 <= k.clock && k.clock + n <= c < CLOCK_MODULUS
    ensures Inv(Ticks(k, n)) && AllAsleep(Ticks(k, n), c) && Ticks(k, n).clock == k.clock + n
  {
    hide Inv, Settled, AllAsleep, Tick;
    if n > 0 {
      TicksSleep(k, n - 1, c);
      TickSleeps(Ticks(k, n - 1), c);
      TickKeeps(Ticks(k, n - 1));
    }
  }

  /** With n tasks at the top and no other event, n consecutive ticks run each of them exactly once,
      oldest first, and bring the cycle back to where it was. */
  lemma EachRunsOnce(k: Kernel)
    requires Inv(k) && Settled(k) && k.clock >= 0
    requires var n := |Cycle(k)|; AllAsleep(k, k.clock + n) && k.clock + n < CLOCK_MODULUS
    ensures var n := |Cycle(k)|; forall i :: 1 <= i <= n ==> Ticks(k, i).running == Cycle(k)[n - i]
    ensures Cycle(Ticks(k, |Cycle(k)|)) == Cycle(k)
    ensures forall i, j :: 1 <= i < j <= |Cycle(k)| ==> Ticks(k, i).running != Ticks(k, j).running
    ensures forall t: Ptr :: t in Cycle(k) <==>
      t == k.running || (StateOf(k, t) == State.Ready && Of(k.prio, t) == Of(k.prio, k.running))
  {
    hide Inv, Settled, Cycle, Below, Tick, Ticks;
    var n := |Cycle(k)|;
    forall i | 1 <= i <= n ensures Ticks(k, i).running == Cycle(k)[n - i] {
      SleepLonger(k, k.clock + i, k.clock + n);
      TicksRotate(k, i);
      assert Rotated(Cycle(k), i)[0] == Cycle(k)[n - i];
    }
    TicksRotate(k, n);
    assert Rotated(Cycle(k), n) == Cycle(k);
    CycleIsTop(k);
    CycleIsRivals(k);
  }

  lemma CycleIsRivals(k: Kernel)
    requires Inv(k) && Settled(k)
    ensures forall t: Ptr :: t in Cycle(k) <==>
      t == k.running || (StateOf(k, t) == State.Ready && Of(k.prio, t) == Of(k.prio, k.running))
  {
    CycleIsTop(k);
    ReadyIsListed(k);
    assert Cycle(k) == [k.running] + Cycle(k)[1..];
    forall t: Ptr | StateOf(k, t) == State.Ready && Of(k.prio, t) == Of(k.prio, k.running) ensures t in Cycle(k) {
      assert t in Below(k) + Cycle(k)[1..];
      assert t !in Below(k);
    }
  }
}
