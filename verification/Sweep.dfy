/** One level of the concurrency sweep: open `n` connections at once, wait for all of them, run the
    workload on every opened one behind a barrier, wait again, and close them. */
module Sweep {
  import opened Wrappers

  // a failed workload
  const FAILED: int := -1

  datatype Setup = Setup(n: nat, commands: nat)

  /** The goroutine of one open: `ok` is what the dialer returned. It records its result under the
      mutex, gives the mutex back, and leaves the wait group. */
  datatype Opener =
    | Opening | Opened(ok: bool) | Locked(ok: bool) | Recorded(ok: bool) | Unlocked(ok: bool) | Joined(ok: bool)

  datatype Runner = AtBarrier | Running | Ran | Left

  datatype Phase = SpawnOpeners | WaitOpeners | SpawnRunners | WaitRunners | Closing | Finished

  /** Connections are named by the goroutine that opened them. `writes[i]` counts how often slot `i`
      of the results was written. */
  datatype State = State(phase: Phase, wg: int, lock: Option<nat>, openers: seq<Opener>, conns: seq<nat>,
                         errs: nat, runners: seq<Runner>, barrier: bool, perConn: seq<int>, writes: seq<nat>,
                         closed: seq<nat>)

  datatype Event =
    | SpawnOpener | OpenReturns(i: nat, good: bool) | Lock(i: nat) | Record(i: nat) | Unlock(i: nat) | Leave(i: nat)
    | AllSpawned | OpensDone | SpawnRunner | LiftBarrier
    | Start(i: nat) | WorkDone(i: nat, time: int) | RunnerLeaves(i: nat)
    | RunsDone | CloseNext | Return

  const Initial: State := State(SpawnOpeners, 0, None, [], [], 0, [], false, [], [], [])

  predicate Enabled(p: Setup, s: State, e: Event) {
    match e
    case SpawnOpener => s.phase == SpawnOpeners && |s.openers| < p.n
    case OpenReturns(i, good) => i < |s.openers| && s.openers[i].Opening?
    case Lock(i) => i < |s.openers| && s.openers[i].Opened? && s.lock.None?
    case Record(i) => i < |s.openers| && s.openers[i].Locked?
    case Unlock(i) => i < |s.openers| && s.openers[i].Recorded?
    case Leave(i) => i < |s.openers| && s.openers[i].Unlocked?
    case AllSpawned => s.phase == SpawnOpeners && |s.openers| == p.n
    case OpensDone => s.phase == WaitOpeners && s.wg == 0
    case SpawnRunner => s.phase == SpawnRunners && |s.runners| < |s.conns|
    case LiftBarrier => s.phase == SpawnRunners && |s.runners| == |s.conns|
    case Start(i) => i < |s.runners| && s.runners[i] == AtBarrier && s.barrier
    case WorkDone(i, time) => i < |s.runners| && s.runners[i] == Running && time >= FAILED
                              && i < |s.perConn| && i < |s.writes|
    case RunnerLeaves(i) => i < |s.runners| && s.runners[i] == Ran
    case RunsDone => s.phase == WaitRunners && s.wg == 0
    case CloseNext => s.phase == Closing && |s.closed| < |s.conns|
    case Return => s.phase == Closing && |s.closed| == |s.conns|
  }

  function Apply(p: Setup, s: State, e: Event): State
    requires Enabled(p, s, e)
  {
    match e
    case SpawnOpener => s.(openers := s.openers + [Opening], wg := s.wg + 1)
    case OpenReturns(i, good) => s.(openers := s.openers[i := Opened(good)])
    case Lock(i) => s.(openers := s.openers[i := Locked(s.openers[i].ok)], lock := Some(i))
    case Record(i) =>
      var s' := s.(openers := s.openers[i := Recorded(s.openers[i].ok)]);
      if s.openers[i].ok then s'.(conns := s.conns + [i]) else s'.(errs := s.errs + 1)
    case Unlock(i) => s.(openers := s.openers[i := Unlocked(s.openers[i].ok)], lock := None)
    case Leave(i) => s.(openers := s.openers[i := Joined(s.openers[i].ok)], wg := s.wg - 1)
    case AllSpawned => s.(phase := WaitOpeners)
    case OpensDone =>
      if s.conns == [] then s.(phase := Closing)
      else s.(phase := SpawnRunners, perConn := seq(|s.conns|, _ => 0), writes := seq(|s.conns|, _ => 0))
    case SpawnRunner => s.(runners := s.runners + [AtBarrier], wg := s.wg + 1)
    case LiftBarrier => s.(phase := WaitRunners, barrier := true)
    case Start(i) => s.(runners := s.runners[i := Running])
    case WorkDone(i, time) =>
      s.(runners := s.runners[i := Ran], perConn := s.perConn[i := time], writes := s.writes[i := s.writes[i] + 1])
    case RunnerLeaves(i) => s.(runners := s.runners[i := Left], wg := s.wg - 1)
    case RunsDone => s.(phase := Closing)
    case CloseNext => s.(closed := s.closed + [s.conns[|s.closed|]])
    case Return => s.(phase := Finished)
  }

  predicate Possible(p: Setup, s: State, es: seq<Event>)
    decreases |es|
  {
    es == [] || (Enabled(p, s, es[0]) && Possible(p, Apply(p, s, es[0]), es[1..]))
  }

  function Run(p: Setup, s: State, es: seq<Event>): State
    requires Possible(p, s, es)
    decreases |es|
  {
    if es == [] then s else Run(p, Apply(p, s, es[0]), es[1..])
  }

  /* ---- counting goroutines ---- */

  predicate HoldsLock(o: Opener) { o.Locked? || o.Recorded? }
  predicate HasRecorded(o: Opener) { o.Recorded? || o.Unlocked? || o.Joined? }

  datatype Tally = Tally(good: nat, bad: nat, inside: nat)

  /** Opens recorded as good, recorded as bad, and goroutines still in the wait group. */
  function Count(os: seq<Opener>): Tally {
    if os == [] then Tally(0, 0, 0) else
      var t, o := Count(os[..|os| - 1]), os[|os| - 1];
      Tally(t.good + Good(o), t.bad + Bad(o), t.inside + Inside(o))
  }

  function Good(o: Opener): nat { if HasRecorded(o) && o.ok then 1 else 0 }
  function Bad(o: Opener): nat { if HasRecorded(o) && !o.ok then 1 else 0 }
  function Inside(o: Opener): nat { if o.Joined? then 0 else 1 }

  lemma {:induction false} CountUpdate(os: seq<Opener>, i: nat, o: Opener)
    requires i < |os|
    ensures var t, t' := Count(os), Count(os[i := o]);
            t'.good + Good(os[i]) == t.good + Good(o) && t'.bad + Bad(os[i]) == t.bad + Bad(o) &&
            t'.inside + Inside(os[i]) == t.inside + Inside(o)
  {
    hide Good, Bad, Inside;
    var us, last := os[i := o], |os| - 1;
    if i == last {
      assert us[..last] == os[..last];
    } else {
      assert us[..last] == os[..last][i := o];
      CountUpdate(os[..last], i, o);
    }
  }

  lemma CountAppend(os: seq<Opener>)
    ensures var t := Count(os); Count(os + [Opening]) == Tally(t.good, t.bad, t.inside + 1)
  {
    assert (os + [Opening])[..|os|] == os;
  }

  lemma {:induction false} AllJoined(os: seq<Opener>)
    ensures Count(os).inside == 0 ==> Count(os).good + Count(os).bad == |os|
    ensures Count(os).inside == 0 ==> forall i :: 0 <= i < |os| ==> os[i].Joined?
    ensures Count(os).inside > 0 ==> exists i :: 0 <= i < |os| && !os[i].Joined?
    ensures Count(os).good + Count(os).bad <= |os|
  {
    if os != [] {
      var init := os[..|os| - 1];
      AllJoined(init);
      forall i | 0 <= i < |init| ensures os[i] == init[i] {}
      if Count(init).inside > 0 {
        var i :| 0 <= i < |init| && !init[i].Joined?;
        assert !os[i].Joined?;
      }
    }
  }

  function Staying(rs: seq<Runner>): nat {
    if rs == [] then 0 else Staying(rs[..|rs| - 1]) + if rs[|rs| - 1] == Left then 0 else 1
  }

  lemma {:induction false} StayingUpdate(rs: seq<Runner>, i: nat, r: Runner)
    requires i < |rs|
    ensures Staying(rs[i := r]) + (if rs[i] == Left then 0 else 1) == Staying(rs) + if r == Left then 0 else 1
  {
    var us, last := rs[i := r], |rs| - 1;
    if i == last {
      assert us[..last] == rs[..last];
    } else {
      assert us[..last] == rs[..last][i := r];
      StayingUpdate(rs[..last], i, r);
    }
  }

  lemma StayingAppend(rs: seq<Runner>)
    ensures Staying(rs + [AtBarrier]) == Staying(rs) + 1
  {
    assert (rs + [AtBarrier])[..|rs|] == rs;
  }

  lemma {:induction false} AllLeft(rs: seq<Runner>)
    ensures Staying(rs) == 0 ==> forall i :: 0 <= i < |rs| ==> rs[i] == Left
    ensures Staying(rs) > 0 ==> exists i :: 0 <= i < |rs| && rs[i] != Left
  {
    if rs != [] {
      var init := rs[..|rs| - 1];
      AllLeft(init);
      forall i | 0 <= i < |init| ensures rs[i] == init[i] {}
      if Staying(init) > 0 {
        var i :| 0 <= i < |init| && init[i] != Left;
        assert rs[i] != Left;
      }
    }
  }

  /* ---- the invariant ---- */

  predicate FirstHalf(s: State) { s.phase == SpawnOpeners || s.phase == WaitOpeners }
  predicate AtEnd(s: State) { s.phase == Closing || s.phase == Finished }

  /** Openers: the wait group counts them in the first half, and all have left it in the second; the
      good ones are the connections, each once, and the bad ones are counted. */
  predicate OpenersInv(p: Setup, s: State) {
    && |s.openers| <= p.n && (s.phase != SpawnOpeners ==> |s.openers| == p.n)
    && (if FirstHalf(s) then s.wg == Count(s.openers).inside else Count(s.openers).inside == 0)
    && |s.conns| == Count(s.openers).good && s.errs == Count(s.openers).bad
  }

  predicate ConnsInv(s: State) {
    && (forall c :: c in s.conns ==> c < |s.openers| && HasRecorded(s.openers[c]) && s.openers[c].ok)
    && (forall i, j :: 0 <= i < j < |s.conns| ==> s.conns[i] != s.conns[j])
  }

  predicate LockInv(s: State) {
    && (s.lock.Some? ==> s.lock.value < |s.openers|)
    && forall i :: 0 <= i < |s.openers| ==> (HoldsLock(s.openers[i]) <==> s.lock == Some(i))
  }

  /** Runners: none before all opens are done; the wait group counts them; none starts before the
      barrier is lifted; a slot is written once, by its own runner. */
  predicate RunnersInv(s: State) {
    && (FirstHalf(s) ==> s.runners == [] && !s.barrier && s.perConn == s.writes == [])
    && (!FirstHalf(s) ==> s.wg == Staying(s.runners) && |s.runners| <= |s.conns|)
    && (!FirstHalf(s) && s.conns != [] ==> |s.perConn| == |s.writes| == |s.conns|)
    && (!FirstHalf(s) && s.conns == [] ==> AtEnd(s) && s.perConn == s.writes == [])
    && (s.phase == SpawnRunners ==> !s.barrier)
    && (s.phase == WaitRunners || AtEnd(s) ==> |s.runners| == |s.conns|)
    && (s.phase == WaitRunners ==> s.barrier)
    && (AtEnd(s) ==> s.wg == 0)
  }

  predicate SlotsInv(s: State) {
    && (!s.barrier ==> forall i :: 0 <= i < |s.runners| ==> s.runners[i] == AtBarrier)
    && (!FirstHalf(s) && s.conns != [] ==> forall i :: 0 <= i < |s.conns| && i < |s.writes| ==>
          s.writes[i] == if i < |s.runners| && (s.runners[i] == Ran || s.runners[i] == Left) then 1 else 0)
    && (forall i :: 0 <= i < |s.perConn| ==> s.perConn[i] >= FAILED)
  }

  predicate ClosedInv(s: State) {
    && |s.closed| <= |s.conns| && s.closed == s.conns[..|s.closed|]
    && (!AtEnd(s) ==> s.closed == [])
    && (s.phase == Finished ==> |s.closed| == |s.conns|)
  }

  predicate Inv(p: Setup, s: State) {
    OpenersInv(p, s) && ConnsInv(s) && LockInv(s) && RunnersInv(s) && SlotsInv(s) && ClosedInv(s)
  }

  lemma NoneLeftInside(p: Setup, s: State, e: Event)
    requires OpenersInv(p, s) && Enabled(p, s, e) && !FirstHalf(s)
    ensures !e.OpenReturns? && !e.Lock? && !e.Record? && !e.Unlock? && !e.Leave?
  {
    AllJoined(s.openers);
  }

  lemma KeepsOpeners(p: Setup, s: State, e: Event)
    requires Inv(p, s) && Enabled(p, s, e)
    ensures OpenersInv(p, Apply(p, s, e))
  {
    hide ConnsInv, LockInv, SlotsInv, ClosedInv, Count;
    if !FirstHalf(s) { NoneLeftInside(p, s, e); }
    match e
    case SpawnOpener => CountAppend(s.openers);
    case OpenReturns(i, good) => CountUpdate(s.openers, i, Opened(good));
    case Lock(i) => CountUpdate(s.openers, i, Locked(s.openers[i].ok));
    case Record(i) => CountUpdate(s.openers, i, Recorded(s.openers[i].ok));
    case Unlock(i) => CountUpdate(s.openers, i, Unlocked(s.openers[i].ok));
    case Leave(i) => CountUpdate(s.openers, i, Joined(s.openers[i].ok));
    case _ =>
  }

  lemma ConnsStay(s: State, s': State)
    requires ConnsInv(s) && s'.conns == s.conns && s.openers <= s'.openers
    ensures ConnsInv(s')
  {
    forall c | c in s.conns ensures s'.openers[c] == s.openers[c] {}
  }

  lemma ConnStays(s: State, s': State, i: nat)
    requires ConnsInv(s) && s'.conns == s.conns && i < |s.openers|
    requires |s'.openers| == |s.openers| && s'.openers == s.openers[i := s'.openers[i]]
    requires HasRecorded(s.openers[i]) ==> HasRecorded(s'.openers[i]) && s'.openers[i].ok == s.openers[i].ok
    ensures ConnsInv(s')
  {
  }

  lemma ConnAdded(s: State, s': State, i: nat)
    requires ConnsInv(s) && i < |s.openers| && s.openers[i].Locked?
    requires s'.openers == s.openers[i := Recorded(s.openers[i].ok)]
    requires s'.conns == if s.openers[i].ok then s.conns + [i] else s.conns
    ensures ConnsInv(s')
  {
    assert i !in s.conns;
  }

  lemma KeepsConns(p: Setup, s: State, e: Event)
    requires ConnsInv(s) && Enabled(p, s, e)
    ensures ConnsInv(Apply(p, s, e))
  {
    hide ConnsInv;
    var s' := Apply(p, s, e);
    match e
    case OpenReturns(i, good) => ConnStays(s, s', i);
    case Lock(i) => ConnStays(s, s', i);
    case Record(i) => ConnAdded(s, s', i);
    case Unlock(i) => ConnStays(s, s', i);
    case Leave(i) => ConnStays(s, s', i);
    case _ => ConnsStay(s, s');
  }

  /** Only the openers and the lock matter, and at most one opener moves. */
  lemma LockMoves(s: State, s': State, i: nat, o: Opener)
    requires LockInv(s) && i < |s.openers| && s'.openers == s.openers[i := o]
    requires
      || (HoldsLock(s.openers[i]) == HoldsLock(o) && s'.lock == s.lock)
      || ((HoldsLock(s.openers[i]) || s.lock.None?) && s'.lock == if HoldsLock(o) then Some(i) else None)
    ensures LockInv(s')
  {
  }

  lemma LockStays(s: State, s': State)
    requires LockInv(s) && s'.lock == s.lock
    requires s'.openers == s.openers || s'.openers == s.openers + [Opening]
    ensures LockInv(s')
  {
  }

  lemma KeepsLock(p: Setup, s: State, e: Event)
    requires LockInv(s) && Enabled(p, s, e)
    ensures LockInv(Apply(p, s, e))
  {
    hide LockInv;
    var s' := Apply(p, s, e);
    match e
    case OpenReturns(i, good) => LockMoves(s, s', i, s'.openers[i]);
    case Lock(i) => LockMoves(s, s', i, s'.openers[i]);
    case Record(i) => LockMoves(s, s', i, s'.openers[i]);
    case Unlock(i) => LockMoves(s, s', i, s'.openers[i]);
    case Leave(i) => LockMoves(s, s', i, s'.openers[i]);
    case _ => LockStays(s, s');
  }

  lemma KeepsRunners(p: Setup, s: State, e: Event)
    requires Inv(p, s) && Enabled(p, s, e)
    ensures RunnersInv(Apply(p, s, e))
  {
    hide ConnsInv, LockInv, ClosedInv, Staying;
    if !FirstHalf(s) { NoneLeftInside(p, s, e); }
    NoneStay();
    match e
    case SpawnRunner => StayingAppend(s.runners);
    case Start(i) => StayingUpdate(s.runners, i, Running);
    case WorkDone(i, time) => StayingUpdate(s.runners, i, Ran);
    case RunnerLeaves(i) => StayingUpdate(s.runners, i, Left);
    case _ =>
  }

  lemma NoneStay()
    ensures Staying([]) == 0
  {
  }

  lemma KeepsSlots(p: Setup, s: State, e: Event)
    requires Inv(p, s) && Enabled(p, s, e)
    ensures SlotsInv(Apply(p, s, e))
  {
    hide ConnsInv, LockInv, ClosedInv, Count, Staying;
    if !FirstHalf(s) { NoneLeftInside(p, s, e); }
  }

  lemma KeepsClosed(p: Setup, s: State, e: Event)
    requires Inv(p, s) && Enabled(p, s, e)
    ensures ClosedInv(Apply(p, s, e))
  {
    hide ConnsInv, LockInv, SlotsInv;
    if !FirstHalf(s) { NoneLeftInside(p, s, e); }
  }

  lemma KeepsAll(p: Setup, s: State, e: Event)
    requires Inv(p, s) && Enabled(p, s, e)
    ensures Inv(p, Apply(p, s, e))
  {
    hide OpenersInv, ConnsInv, LockInv, RunnersInv, SlotsInv, ClosedInv, Enabled, Apply;
    KeepsOpeners(p, s, e);
    KeepsConns(p, s, e);
    KeepsLock(p, s, e);
    KeepsRunners(p, s, e);
    KeepsSlots(p, s, e);
    KeepsClosed(p, s, e);
  }

  lemma {:induction false} RunKeeps(p: Setup, s: State, es: seq<Event>)
    requires Inv(p, s) && Possible(p, s, es)
    ensures Inv(p, Run(p, s, es))
    decreases |es|
  {
    hide OpenersInv, ConnsInv, LockInv, RunnersInv, SlotsInv, ClosedInv, Enabled, Apply;
    if es != [] {
      KeepsAll(p, s, es[0]);
      RunKeeps(p, Apply(p, s, es[0]), es[1..]);
    }
  }

  /* ---- the main results ---- */

  function Errors(times: seq<int>): nat {
    if times == [] then 0 else Errors(times[..|times| - 1]) + if times[|times| - 1] == FAILED then 1 else 0
  }

  lemma {:induction false} ErrorsBounded(times: seq<int>)
    ensures Errors(times) <= |times|
  {
    if times != [] { ErrorsBounded(times[..|times| - 1]); }
  }

  /** The operations the level reports: those of the connections whose workload succeeded. */
  function Ops(p: Setup, s: State): int {
    (|s.conns| - Errors(s.perConn)) * p.commands
  }

  /** A workload has started. */
  predicate Started(s: State) {
    exists i :: 0 <= i < |s.runners| && s.runners[i] != AtBarrier
  }

  predicate Orderly(p: Setup, s: State) {
    && (Started(s) ==> |s.openers| == p.n && |s.conns| + s.errs == p.n
                       && |s.runners| == |s.conns|
                       && forall i :: 0 <= i < p.n ==> s.openers[i].Joined?)
    && (s.closed != [] ==>
          |s.runners| == |s.conns| && forall i :: 0 <= i < |s.runners| ==> s.runners[i] == Left)
    && (forall i :: 0 <= i < |s.writes| ==> s.writes[i] <= 1)
    && (s.phase == Finished ==>
          && |s.conns| + s.errs == p.n
          && (forall i :: 0 <= i < |s.conns| ==> i < |s.writes| && s.writes[i] == 1)
          && s.closed == s.conns
          && (forall i, j :: 0 <= i < j < |s.closed| ==> s.closed[i] != s.closed[j])
          && 0 <= Ops(p, s) <= p.n * p.commands)
  }

  /** In every interleaving. No workload starts before all n opens have returned and been recorded;
      no connection is closed before every workload has finished; no slot is written twice. When the
      level returns: opened + failed = n, every slot was written exactly once, every opened
      connection was closed exactly once, and 0 <= ops <= n * commands. */
  lemma SweepIsOrderly(p: Setup, es: seq<Event>)
    requires Possible(p, Initial, es)
    ensures Orderly(p, Run(p, Initial, es))
  {
    RunKeeps(p, Initial, es);
    OrderlyState(p, Run(p, Initial, es));
  }

  lemma OrderlyState(p: Setup, s: State)
    requires Inv(p, s)
    ensures Orderly(p, s)
  {
    hide Count, Staying, Errors, LockInv;
    AllJoined(s.openers);
    AllLeft(s.runners);
    if s.phase == Finished {
      ErrorsBounded(s.perConn);
      OpsBounds(|s.conns| - Errors(s.perConn), p.n, p.commands);
    }
  }

  lemma OpsBounds(good: int, n: nat, commands: nat)
    requires 0 <= good <= n
    ensures 0 <= good * commands <= n * commands
  {
  }

  /** No interleaving gets stuck before the level returns. */
  lemma NoDeadlock(p: Setup, es: seq<Event>)
    requires Possible(p, Initial, es)
    ensures var s := Run(p, Initial, es); s.phase != Finished ==> exists e :: Enabled(p, s, e)
  {
    RunKeeps(p, Initial, es);
    var s := Run(p, Initial, es);
    if s.phase != Finished { SomethingMoves(p, s); }
  }

  lemma SomethingMoves(p: Setup, s: State)
    requires Inv(p, s) && s.phase != Finished
    ensures exists e :: Enabled(p, s, e)
  {
    hide ConnsInv, LockInv, SlotsInv, Count, Staying;
    match s.phase
    case SpawnOpeners => assert Enabled(p, s, if |s.openers| < p.n then SpawnOpener else AllSpawned);
    case WaitOpeners => if s.wg == 0 { assert Enabled(p, s, OpensDone); } else { SomeOpenerMoves(p, s); }
    case SpawnRunners => assert Enabled(p, s, if |s.runners| < |s.conns| then SpawnRunner else LiftBarrier);
    case WaitRunners => if s.wg == 0 { assert Enabled(p, s, RunsDone); } else { SomeRunnerMoves(p, s); }
    case Closing => assert Enabled(p, s, if |s.closed| < |s.conns| then CloseNext else Return);
  }

  lemma SomeOpenerMoves(p: Setup, s: State)
    requires Inv(p, s) && s.phase == WaitOpeners && s.wg != 0
    ensures exists e :: Enabled(p, s, e)
  {
    hide ConnsInv, RunnersInv, SlotsInv, ClosedInv;
    AllJoined(s.openers);
    var i :| 0 <= i < |s.openers| && !s.openers[i].Joined?;
    match s.openers[i]
    case Opening => assert Enabled(p, s, OpenReturns(i, true));
    case Opened(_) =>
      if s.lock.None? {
        assert Enabled(p, s, Lock(i));
      } else {
        var h := s.lock.value;
        assert Enabled(p, s, if s.openers[h].Locked? then Record(h) else Unlock(h));
      }
    case Locked(_) => assert Enabled(p, s, Record(i));
    case Recorded(_) => assert Enabled(p, s, Unlock(i));
    case Unlocked(_) => assert Enabled(p, s, Leave(i));
  }

  lemma SomeRunnerMoves(p: Setup, s: State)
    requires Inv(p, s) && s.phase == WaitRunners && s.wg != 0
    ensures exists e :: Enabled(p, s, e)
  {
    hide ConnsInv, LockInv, ClosedInv;
    AllLeft(s.runners);
    var i :| 0 <= i < |s.runners| && s.runners[i] != Left;
    match s.runners[i]
    case AtBarrier => assert Enabled(p, s, Start(i));
    case Running => assert Enabled(p, s, WorkDone(i, 0));
    case Ran => assert Enabled(p, s, RunnerLeaves(i));
  }

  /* ---- every run comes to an end ---- */

  /** The steps left to one opener, and to one runner. */
  function OpenerSteps(o: Opener): nat {
    match o
    case Opening => 5
    case Opened(_) => 4
    case Locked(_) => 3
    case Recorded(_) => 2
    case Unlocked(_) => 1
    case Joined(_) => 0
  }

  function RunnerSteps(r: Runner): nat {
    match r
    case AtBarrier => 3
    case Running => 2
    case Ran => 1
    case Left => 0
  }

  function Total<T>(ts: seq<T>, steps: T -> nat): nat {
    if ts == [] then 0 else Total(ts[..|ts| - 1], steps) + steps(ts[|ts| - 1])
  }

  lemma {:induction false} TotalUpdate<T>(ts: seq<T>, steps: T -> nat, i: nat, t: T)
    requires i < |ts|
    ensures Total(ts[i := t], steps) + steps(ts[i]) == Total(ts, steps) + steps(t)
  {
    var us, last := ts[i := t], |ts| - 1;
    if i == last {
      assert us[..last] == ts[..last];
    } else {
      assert us[..last] == ts[..last][i := t];
      TotalUpdate(ts[..last], steps, i, t);
    }
  }

  lemma TotalAppend<T>(ts: seq<T>, steps: T -> nat, t: T)
    ensures Total(ts + [t], steps) == Total(ts, steps) + steps(t)
  {
    assert (ts + [t])[..|ts|] == ts;
  }

  function PhasesLeft(phase: Phase): nat {
    match phase
    case SpawnOpeners => 5
    case WaitOpeners => 4
    case SpawnRunners => 3
    case WaitRunners => 2
    case Closing => 1
    case Finished => 0
  }

  /** Goroutines still to start, the steps of those started, connections still to close, and phases. */
  function Measure(p: Setup, s: State): int {
    6 * (p.n - |s.openers|) + Total(s.openers, OpenerSteps) + 4 * (p.n - |s.runners|)
    + Total(s.runners, RunnerSteps) + (p.n - |s.closed|) + PhasesLeft(s.phase)
  }

  /** One opener moves on. */
  lemma OpenerUsesUp(p: Setup, s: State, s': State, i: nat)
    requires i < |s.openers| == |s'.openers| && s'.openers == s.openers[i := s'.openers[i]]
    requires OpenerSteps(s'.openers[i]) < OpenerSteps(s.openers[i])
    requires s'.runners == s.runners && s'.closed == s.closed && s'.phase == s.phase
    ensures Measure(p, s') < Measure(p, s)
  {
    TotalUpdate(s.openers, OpenerSteps, i, s'.openers[i]);
  }

  lemma RunnerUsesUp(p: Setup, s: State, s': State, i: nat)
    requires i < |s.runners| == |s'.runners| && s'.runners == s.runners[i := s'.runners[i]]
    requires RunnerSteps(s'.runners[i]) < RunnerSteps(s.runners[i])
    requires s'.openers == s.openers && s'.closed == s.closed && s'.phase == s.phase
    ensures Measure(p, s') < Measure(p, s)
  {
    TotalUpdate(s.runners, RunnerSteps, i, s'.runners[i]);
  }

  /** A goroutine starts. */
  lemma SpawnUsesUp(p: Setup, s: State, s': State)
    requires s'.closed == s.closed && s'.phase == s.phase
    requires (s'.openers == s.openers + [Opening] && s'.runners == s.runners)
          || (s'.openers == s.openers && s'.runners == s.runners + [AtBarrier])
    ensures Measure(p, s') < Measure(p, s)
  {
    TotalAppend(s.openers, OpenerSteps, Opening);
    TotalAppend(s.runners, RunnerSteps, AtBarrier);
  }

  /** The level itself goes on. */
  lemma PhaseUsesUp(p: Setup, s: State, s': State)
    requires s'.openers == s.openers && s'.runners == s.runners
    requires PhasesLeft(s'.phase) - |s'.closed| < PhasesLeft(s.phase) - |s.closed|
    ensures Measure(p, s') < Measure(p, s)
  {
  }

  /** The events of one opener's goroutine. */
  predicate OfOpener(e: Event) {
    e.OpenReturns? || e.Lock? || e.Record? || e.Unlock? || e.Leave?
  }

  lemma OpenerEventUsesUp(p: Setup, s: State, e: Event)
    requires Enabled(p, s, e) && OfOpener(e)
    ensures Measure(p, Apply(p, s, e)) < Measure(p, s)
  {
    hide Measure;
    OpenerUsesUp(p, s, Apply(p, s, e), e.i);
  }

  lemma EventUsesUp(p: Setup, s: State, e: Event)
    requires Enabled(p, s, e)
    ensures Measure(p, Apply(p, s, e)) < Measure(p, s)
  {
    hide Measure;
    if OfOpener(e) {
      OpenerEventUsesUp(p, s, e);
    } else {
      var s' := Apply(p, s, e);
      match e
      case SpawnOpener => SpawnUsesUp(p, s, s');
      case SpawnRunner => SpawnUsesUp(p, s, s');
      case Start(i) => RunnerUsesUp(p, s, s', i);
      case WorkDone(i, time) => RunnerUsesUp(p, s, s', i);
      case RunnerLeaves(i) => RunnerUsesUp(p, s, s', i);
      case _ => PhaseUsesUp(p, s, s');
    }
  }

  lemma {:induction false} RunUsesUp(p: Setup, s: State, es: seq<Event>)
    requires Possible(p, s, es)
    ensures |es| + Measure(p, Run(p, s, es)) <= Measure(p, s)
    decreases |es|
  {
    hide Measure, Enabled, Apply;
    if es != [] {
      EventUsesUp(p, s, es[0]);
      RunUsesUp(p, Apply(p, s, es[0]), es[1..]);
    }
  }

  /** Nothing is left to do when the level has returned. */
  lemma FinishedIsOver(p: Setup, s: State, e: Event)
    requires Inv(p, s) && s.phase == Finished
    ensures !Enabled(p, s, e)
  {
    AllJoined(s.openers);
    AllLeft(s.runners);
  }

  /** Every interleaving has at most 11n + 5 events, and it cannot go on exactly when the level has
      returned. */
  lemma SweepReturns(p: Setup, es: seq<Event>)
    requires Possible(p, Initial, es)
    ensures |es| <= 11 * p.n + 5
    ensures (forall e :: !Enabled(p, Run(p, Initial, es), e)) <==> Run(p, Initial, es).phase == Finished
  {
    hide OpenersInv, ConnsInv, LockInv, RunnersInv, SlotsInv, ClosedInv, Enabled, Apply;
    InitialInv(p);
    RunKeeps(p, Initial, es);
    RunUsesUp(p, Initial, es);
    var s := Run(p, Initial, es);
    MeasureIsNat(p, s);
    if s.phase == Finished {
      forall e ensures !Enabled(p, s, e) { FinishedIsOver(p, s, e); }
    } else {
      NoDeadlock(p, es);
    }
  }

  lemma InitialInv(p: Setup)
    ensures Inv(p, Initial) && Measure(p, Initial) == 11 * p.n + 5
  {
  }

  lemma MeasureIsNat(p: Setup, s: State)
    requires Inv(p, s)
    ensures Measure(p, s) >= 0
  {
    hide Count, Staying, Total, LockInv, SlotsInv;
    AllJoined(s.openers);
  }

  /* ---- what the level reports, told by its events ---- */

  /** The workloads that finished without failing, and the opens that failed. */
  function Succeeded(es: seq<Event>): nat {
    if es == [] then 0
    else Succeeded(es[..|es| - 1]) + match es[|es| - 1]
      case WorkDone(_, time) => if time != FAILED then 1 else 0
      case _ => 0
  }

  function FailedOpens(es: seq<Event>): nat {
    if es == [] then 0
    else FailedOpens(es[..|es| - 1]) + match es[|es| - 1]
      case OpenReturns(_, good) => if good then 0 else 1
      case _ => 0
  }

  lemma OneMoreEvent(log: seq<Event>, e: Event)
    ensures Succeeded(log + [e]) == Succeeded(log) + if e.WorkDone? && e.time != FAILED then 1 else 0
    ensures FailedOpens(log + [e]) == FailedOpens(log) + if e.OpenReturns? && !e.good then 1 else 0
    ensures forall f :: f in log + [e] <==> f in log || f == e
  {
    assert (log + [e])[..|log|] == log;
  }

  /** Slots that were written, with something other than a failure. */
  function GoodSlots(perConn: seq<int>, writes: seq<nat>): nat
    requires |perConn| == |writes|
  {
    if perConn == [] then 0 else
      var n := |perConn| - 1;
      GoodSlots(perConn[..n], writes[..n]) + if writes[n] != 0 && perConn[n] != FAILED then 1 else 0
  }

  lemma {:induction false} GoodSlotsUpdate(perConn: seq<int>, writes: seq<nat>, i: nat, time: int)
    requires |perConn| == |writes| && i < |perConn| && writes[i] == 0
    ensures GoodSlots(perConn[i := time], writes[i := 1]) ==
              GoodSlots(perConn, writes) + if time != FAILED then 1 else 0
  {
    var n := |perConn| - 1;
    var p, w := perConn[i := time], writes[i := 1];
    if i == n {
      assert p[..n] == perConn[..n] && w[..n] == writes[..n];
    } else {
      assert p[..n] == perConn[..n][i := time] && w[..n] == writes[..n][i := 1];
      GoodSlotsUpdate(perConn[..n], writes[..n], i, time);
    }
  }

  lemma {:induction false} NoGoodSlots(perConn: seq<int>, writes: seq<nat>)
    requires |perConn| == |writes| && forall i :: 0 <= i < |writes| ==> writes[i] == 0
    ensures GoodSlots(perConn, writes) == 0
  {
    if perConn == [] {
    } else {
      NoGoodSlots(perConn[..|perConn| - 1], writes[..|perConn| - 1]);
    }
  }

  lemma {:induction false} AllSlotsWritten(perConn: seq<int>, writes: seq<nat>)
    requires |perConn| == |writes| && forall i :: 0 <= i < |writes| ==> writes[i] == 1
    ensures GoodSlots(perConn, writes) == |perConn| - Errors(perConn)
  {
    if perConn == [] {
    } else {
      AllSlotsWritten(perConn[..|perConn| - 1], writes[..|perConn| - 1]);
    }
  }

  /** Opens that returned without an error, or with one. */
  predicate Returned(o: Opener, good: bool) {
    !o.Opening? && o.ok == good
  }

  function BadReturns(os: seq<Opener>): nat {
    if os == [] then 0 else BadReturns(os[..|os| - 1]) + if Returned(os[|os| - 1], false) then 1 else 0
  }

  lemma {:induction false} BadReturnsUpdate(os: seq<Opener>, i: nat, o: Opener)
    requires i < |os|
    ensures BadReturns(os[i := o]) + (if Returned(os[i], false) then 1 else 0)
         == BadReturns(os) + if Returned(o, false) then 1 else 0
  {
    hide Returned;
    var us, last := os[i := o], |os| - 1;
    if i == last {
      assert us[..last] == os[..last];
    } else {
      assert us[..last] == os[..last][i := o];
      BadReturnsUpdate(os[..last], i, o);
    }
  }

  lemma BadReturnsAppend(os: seq<Opener>)
    ensures BadReturns(os + [Opening]) == BadReturns(os)
  {
    assert (os + [Opening])[..|os|] == os;
  }

  lemma {:induction false} AllReturned(os: seq<Opener>)
    requires forall i :: 0 <= i < |os| ==> os[i].Joined?
    ensures BadReturns(os) == Count(os).bad
  {
    if os == [] {
    } else {
      AllReturned(os[..|os| - 1]);
    }
  }

  /** The openers tell which opens have returned, and how. */
  ghost predicate OpensTold(s: State, log: seq<Event>) {
    && (forall i: nat, good :: OpenReturns(i, good) in log <==> i < |s.openers| && Returned(s.openers[i], good))
    && FailedOpens(log) == BadReturns(s.openers)
  }

  /** The slots tell which workloads are done, and how long they took. */
  ghost predicate WorkTold(s: State, log: seq<Event>) {
    && |s.perConn| == |s.writes|
    && (forall i: nat, time :: WorkDone(i, time) in log <==> i < |s.writes| && s.writes[i] != 0 && s.perConn[i] == time)
    && Succeeded(log) == GoodSlots(s.perConn, s.writes)
  }

  lemma OpensSame(s: State, s': State, log: seq<Event>, e: Event)
    requires OpensTold(s, log) && !e.OpenReturns?
    requires |s'.openers| == |s.openers| && BadReturns(s'.openers) == BadReturns(s.openers)
    requires forall i: nat, good :: i < |s.openers| ==>
               (Returned(s'.openers[i], good) <==> Returned(s.openers[i], good))
    ensures OpensTold(s', log + [e])
  {
    hide BadReturns, Returned, Succeeded, FailedOpens;
    OneMoreEvent(log, e);
  }

  lemma OpenerMovesOn(s: State, s': State, log: seq<Event>, e: Event, i: nat)
    requires OpensTold(s, log) && !e.OpenReturns? && i < |s.openers| == |s'.openers|
    requires s'.openers == s.openers[i := s'.openers[i]] && !s.openers[i].Opening? && !s'.openers[i].Opening?
    requires s'.openers[i].ok == s.openers[i].ok
    ensures OpensTold(s', log + [e])
  {
    BadReturnsUpdate(s.openers, i, s'.openers[i]);
    OpensSame(s, s', log, e);
  }

  lemma OpenerSpawned(s: State, s': State, log: seq<Event>)
    requires OpensTold(s, log) && s'.openers == s.openers + [Opening]
    ensures OpensTold(s', log + [SpawnOpener])
  {
    hide Succeeded, FailedOpens;
    OneMoreEvent(log, SpawnOpener);
    BadReturnsAppend(s.openers);
  }

  lemma OpenReturned(s: State, s': State, log: seq<Event>, i: nat, good: bool)
    requires OpensTold(s, log) && i < |s.openers| && s.openers[i].Opening? && s'.openers == s.openers[i := Opened(good)]
    ensures OpensTold(s', log + [OpenReturns(i, good)])
  {
    hide Succeeded, FailedOpens, BadReturns;
    OneMoreEvent(log, OpenReturns(i, good));
    BadReturnsUpdate(s.openers, i, Opened(good));
    forall j: nat, g ensures OpenReturns(j, g) in log + [OpenReturns(i, good)] <==>
                             j < |s'.openers| && Returned(s'.openers[j], g) {
      assert OpenReturns(j, g) in log <==> j < |s.openers| && Returned(s.openers[j], g);
    }
  }

  lemma KeepsOpensTold(p: Setup, s: State, e: Event, log: seq<Event>)
    requires Enabled(p, s, e) && OpensTold(s, log)
    ensures OpensTold(Apply(p, s, e), log + [e])
  {
    hide OpensTold;
    var s' := Apply(p, s, e);
    match e
    case SpawnOpener => OpenerSpawned(s, s', log);
    case OpenReturns(i, good) => OpenReturned(s, s', log, i, good);
    case Lock(i) => OpenerMovesOn(s, s', log, e, i);
    case Record(i) => OpenerMovesOn(s, s', log, e, i);
    case Unlock(i) => OpenerMovesOn(s, s', log, e, i);
    case Leave(i) => OpenerMovesOn(s, s', log, e, i);
    case _ => OpensSame(s, s', log, e);
  }

  lemma WorkSame(s: State, s': State, log: seq<Event>, e: Event)
    requires WorkTold(s, log) && !e.WorkDone? && s'.perConn == s.perConn && s'.writes == s.writes
    ensures WorkTold(s', log + [e])
  {
    hide GoodSlots, Succeeded, FailedOpens;
    OneMoreEvent(log, e);
  }

  lemma SlotsMade(s: State, s': State, log: seq<Event>)
    requires WorkTold(s, log) && s.writes == [] && |s'.perConn| == |s'.writes|
    requires forall i :: 0 <= i < |s'.writes| ==> s'.writes[i] == 0
    ensures WorkTold(s', log + [OpensDone])
  {
    hide Succeeded, FailedOpens;
    OneMoreEvent(log, OpensDone);
    NoGoodSlots(s'.perConn, s'.writes);
  }

  lemma SlotWritten(s: State, s': State, log: seq<Event>, i: nat, time: int)
    requires WorkTold(s, log) && i < |s.writes| == |s.perConn| && s.writes[i] == 0
    requires s'.perConn == s.perConn[i := time] && s'.writes == s.writes[i := 1]
    ensures WorkTold(s', log + [WorkDone(i, time)])
  {
    hide GoodSlots, Succeeded, FailedOpens;
    OneMoreEvent(log, WorkDone(i, time));
    GoodSlotsUpdate(s.perConn, s.writes, i, time);
    forall j: nat, t ensures WorkDone(j, t) in log + [WorkDone(i, time)] <==>
                             j < |s'.writes| && s'.writes[j] != 0 && s'.perConn[j] == t {
      assert WorkDone(j, t) in log <==> j < |s.writes| && s.writes[j] != 0 && s.perConn[j] == t;
    }
  }

  lemma KeepsWorkTold(p: Setup, s: State, e: Event, log: seq<Event>)
    requires Inv(p, s) && Enabled(p, s, e) && WorkTold(s, log)
    ensures WorkTold(Apply(p, s, e), log + [e])
  {
    hide WorkTold, OpenersInv, ConnsInv, LockInv, ClosedInv;
    var s' := Apply(p, s, e);
    match e
    case OpensDone => if s.conns == [] { WorkSame(s, s', log, e); } else { SlotsMade(s, s', log); }
    case WorkDone(i, time) => SlotWritten(s, s', log, i, time);
    case _ => WorkSame(s, s', log, e);
  }

  lemma {:induction false} RunTells(p: Setup, s: State, log: seq<Event>, es: seq<Event>)
    requires Inv(p, s) && OpensTold(s, log) && WorkTold(s, log) && Possible(p, s, es)
    ensures OpensTold(Run(p, s, es), log + es) && WorkTold(Run(p, s, es), log + es)
    decreases |es|
  {
    hide OpensTold, WorkTold, Inv, Enabled, Apply;
    if es == [] {
      assert log + es == log;
    } else {
      KeepsOpensTold(p, s, es[0], log);
      KeepsWorkTold(p, s, es[0], log);
      KeepsAll(p, s, es[0]);
      RunTells(p, Apply(p, s, es[0]), log + [es[0]], es[1..]);
      assert log + [es[0]] + es[1..] == log + es;
    }
  }

  /** What the level reports is what happened. At any moment, a slot that was written holds the time, or the
      failure, with which its own workload finished. When the level has returned, every slot does; its
      connections are those whose open succeeded, the failed ones are counted as errors, and the reported
      operations are those of the workloads that did not fail. */
  lemma SweepReports(p: Setup, es: seq<Event>)
    requires Possible(p, Initial, es)
    ensures var s := Run(p, Initial, es);
            && (forall i: nat, time :: WorkDone(i, time) in es ==> i < |s.perConn| && s.perConn[i] == time)
            && (s.phase == Finished ==>
                  && |s.perConn| == |s.conns|
                  && (forall i :: 0 <= i < |s.conns| ==> WorkDone(i, s.perConn[i]) in es)
                  && (forall c: nat :: c in s.conns <==> OpenReturns(c, true) in es)
                  && s.errs == FailedOpens(es)
                  && Ops(p, s) == Succeeded(es) * p.commands)
  {
    hide OpenersInv, ConnsInv, LockInv, RunnersInv, SlotsInv, ClosedInv, Enabled, Apply;
    InitialInv(p);
    RunKeeps(p, Initial, es);
    NothingTold();
    RunTells(p, Initial, [], es);
    assert [] + es == es;
    var s := Run(p, Initial, es);
    if s.phase == Finished {
      FinishedTells(p, s, es);
    }
  }

  lemma NothingTold()
    ensures OpensTold(Initial, []) && WorkTold(Initial, [])
  {
  }

  lemma FinishedTells(p: Setup, s: State, es: seq<Event>)
    requires Inv(p, s) && s.phase == Finished && OpensTold(s, es) && WorkTold(s, es)
    ensures |s.perConn| == |s.conns|
    ensures forall i :: 0 <= i < |s.conns| ==> WorkDone(i, s.perConn[i]) in es
    ensures forall c: nat :: c in s.conns <==> OpenReturns(c, true) in es
    ensures s.errs == FailedOpens(es) && Ops(p, s) == Succeeded(es) * p.commands
  {
    hide Count, Staying, Errors, GoodSlots, BadReturns, Succeeded, FailedOpens, LockInv;
    AllJoined(s.openers);
    AllLeft(s.runners);
    AllReturned(s.openers);
    AllSlotsWritten(s.perConn, s.writes);
    ConnectedAll(s);
  }

  /** Once all openers are done, every good one is a connection. */
  lemma ConnectedAll(s: State)
    requires ConnsInv(s) && |s.conns| == Count(s.openers).good
    requires forall i :: 0 <= i < |s.openers| ==> s.openers[i].Joined?
    ensures forall c: nat :: c in s.conns <==> c < |s.openers| && s.openers[c].ok
  {
    hide Count;
    var good := GoodOpeners(s.openers);
    GoodCounted(s.openers);
    forall c | c in Members(s.conns) ensures c in good { assert c in s.conns; }
    DistinctCounted(s.conns);
    SameSize(Members(s.conns), good);
    assert forall c: nat :: c in s.conns <==> c in Members(s.conns);
  }

  function GoodOpeners(os: seq<Opener>): set<nat> {
    set i: nat | i < |os| && HasRecorded(os[i]) && os[i].ok
  }

  lemma {:induction false} GoodCounted(os: seq<Opener>)
    ensures |GoodOpeners(os)| == Count(os).good
  {
    if os == [] {
      assert GoodOpeners(os) == {};
    } else {
      hide GoodOpeners;
      GoodCounted(os[..|os| - 1]);
      LastGood(os);
    }
  }

  lemma LastGood(os: seq<Opener>)
    requires os != []
    ensures |GoodOpeners(os)| == |GoodOpeners(os[..|os| - 1])| + Good(os[|os| - 1])
  {
    var last := |os| - 1;
    assert last !in GoodOpeners(os[..last]);
    assert GoodOpeners(os) == GoodOpeners(os[..last]) + if Good(os[last]) == 1 then {last} else {};
  }

  function Members(cs: seq<nat>): set<nat> {
    set c | c in cs
  }

  lemma {:induction false} DistinctCounted(cs: seq<nat>)
    requires forall i, j :: 0 <= i < j < |cs| ==> cs[i] != cs[j]
    ensures |Members(cs)| == |cs|
  {
    if cs == [] {
    } else {
      var last := |cs| - 1;
      DistinctCounted(cs[..last]);
      assert cs == cs[..last] + [cs[last]];
      assert Members(cs) == Members(cs[..last]) + {cs[last]};
      assert cs[last] !in cs[..last];
    }
  }

  lemma {:induction false} SameSize(a: set<nat>, b: set<nat>)
    requires a <= b && |a| == |b|
    ensures a == b
  {
    if a == {} {
    } else {
      var x :| x in a;
      SameSize(a - {x}, b - {x});
      assert a == (a - {x}) + {x} && b == (b - {x}) + {x};
    }
  }
}
