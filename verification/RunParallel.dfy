/** The bounded parallel loop: one goroutine per index, a semaphore of `c` slots taken before a
    goroutine starts and given back when its call has returned, and a wait for all of them. */
module RunParallel {

  /** `n` iterations with concurrency `c`; call `i` returns `val(i)`. */
  datatype Setup = Setup(n: nat, c: nat, val: nat -> int)

  // the spawning loop: at its head, counted in the wait group, slot taken; then waiting; then back
  datatype Main = Head | Added | Acquired | Waiting | Returned

  datatype Worker = Spawned | Calling | Called | Released | Finished

  /** `workers` are the goroutines started so far, `calls` the indexes in the order in which their
      calls began. */
  datatype State = State(main: Main, workers: seq<Worker>, sem: int, wg: int, results: seq<int>, calls: seq<nat>)

  datatype Event = Loop | Take | Go | Wake | Begin(i: nat) | Return(i: nat) | Release(i: nat) | Finish(i: nat)

  function Initial(p: Setup): State {
    State(Head, [], 0, 0, seq(p.n, _ => 0), [])
  }

  predicate Enabled(p: Setup, s: State, e: Event) {
    match e
    case Loop => s.main == Head
    case Take => s.main == Added && s.sem < p.c
    case Go => s.main == Acquired
    case Wake => s.main == Waiting && s.wg == 0
    case Begin(i) => i < |s.workers| && s.workers[i] == Spawned
    case Return(i) => i < |s.workers| && s.workers[i] == Calling && i < |s.results|
    case Release(i) => i < |s.workers| && s.workers[i] == Called
    case Finish(i) => i < |s.workers| && s.workers[i] == Released
  }

  function Apply(p: Setup, s: State, e: Event): State
    requires Enabled(p, s, e)
  {
    match e
    case Loop => if |s.workers| < p.n then s.(main := Added, wg := s.wg + 1) else s.(main := Waiting)
    case Take => s.(main := Acquired, sem := s.sem + 1)
    case Go => s.(main := Head, workers := s.workers + [Spawned])
    case Wake => s.(main := Returned)
    case Begin(i) => s.(workers := s.workers[i := Calling], calls := s.calls + [i])
    case Return(i) => s.(workers := s.workers[i := Called], results := s.results[i := p.val(i)])
    case Release(i) => s.(workers := s.workers[i := Released], sem := s.sem - 1)
    case Finish(i) => s.(workers := s.workers[i := Finished], wg := s.wg - 1)
  }

  predicate Possible(p: Setup, s: State, es: seq<Event>)
    decreases |es|
  {
    es == [] || (Enabled(p, s, es[0]) && Possible(p, Apply(p, s, es[0]), es[1..]))
  }

  function Run(p: Setup, s: State, es: seq<Event>): State
    requires Possible(p, s, es)
    decreases |es|
  {
    if es == [] then s else Run(p, Apply(p, s, es[0]), es[1..])
  }

  /* ---- sums over the workers ---- */

  /** Slots held, entries in the wait group, calls in progress, and steps left of one worker. */
  function Weight(w: Worker): (nat, nat, nat, nat) {
    match w
    case Spawned => (1, 1, 0, 4)
    case Calling => (1, 1, 1, 3)
    case Called => (1, 1, 0, 2)
    case Released => (0, 1, 0, 1)
    case Finished => (0, 0, 0, 0)
  }

  datatype Totals = Totals(held: nat, open: nat, inCall: nat, steps: nat)

  function Total(ws: seq<Worker>): Totals {
    if ws == [] then Totals(0, 0, 0, 0) else
      var t, w := Total(ws[..|ws| - 1]), Weight(ws[|ws| - 1]);
      Totals(t.held + w.0, t.open + w.1, t.inCall + w.2, t.steps + w.3)
  }

  lemma {:induction false} TotalUpdate(ws: seq<Worker>, i: nat, w: Worker)
    requires i < |ws|
    ensures var t, t', a, b := Total(ws), Total(ws[i := w]), Weight(ws[i]), Weight(w);
            t'.held + a.0 == t.held + b.0 && t'.open + a.1 == t.open + b.1 &&
            t'.inCall + a.2 == t.inCall + b.2 && t'.steps + a.3 == t.steps + b.3
  {
    hide Weight;
    var us, last := ws[i := w], |ws| - 1;
    if i == last {
      assert us[..last] == ws[..last];
    } else {
      assert us[..last] == ws[..last][i := w];
      TotalUpdate(ws[..last], i, w);
    }
  }

  lemma TotalAppend(ws: seq<Worker>, w: Worker)
    ensures var t, t', b := Total(ws), Total(ws + [w]), Weight(w);
            t' == Totals(t.held + b.0, t.open + b.1, t.inCall + b.2, t.steps + b.3)
  {
    assert (ws + [w])[..|ws|] == ws;
  }

  lemma {:induction false} TotalBounds(ws: seq<Worker>)
    ensures Total(ws).inCall <= Total(ws).held <= Total(ws).open <= Total(ws).steps
    ensures Total(ws).open > 0 ==> exists i :: 0 <= i < |ws| && ws[i] != Finished
    ensures Total(ws).open == 0 ==> forall i :: 0 <= i < |ws| ==> ws[i] == Finished
    ensures Total(ws).held == 0 ==> forall i :: 0 <= i < |ws| ==> Weight(ws[i]).0 == 0
  {
    if ws != [] {
      var init := ws[..|ws| - 1];
      TotalBounds(init);
      if Total(ws).open > 0 {
        if ws[|ws| - 1] == Finished {
          var i :| 0 <= i < |init| && init[i] != Finished;
          assert ws[i] == init[i];
        }
      }
      forall i | 0 <= i < |ws| - 1 ensures ws[i] == init[i] {}
    }
  }

  /* ---- the invariant ---- */

  predicate Began(w: Worker) { w != Spawned }
  predicate HasResult(w: Worker) { w == Called || w == Released || w == Finished }

  predicate Inv(p: Setup, s: State) {
    && |s.workers| <= p.n && |s.results| == p.n
    && (s.main == Added || s.main == Acquired ==> |s.workers| < p.n)
    && (s.main == Waiting || s.main == Returned ==> |s.workers| == p.n)
    && s.sem == Total(s.workers).held + (if s.main == Acquired then 1 else 0) <= p.c
    && s.wg == Total(s.workers).open + (if s.main == Added || s.main == Acquired then 1 else 0)
    && (s.main == Returned ==> s.wg == 0)
  }

  /** The slots of the results are written by their own calls only. */
  predicate Results(p: Setup, s: State) {
    |s.workers| <= |s.results| == p.n && forall i :: 0 <= i < p.n ==>
      s.results[i] == if i < |s.workers| && HasResult(s.workers[i]) then p.val(i) else 0
  }

  /** A call is begun once, and then its worker has passed that point. */
  predicate Once(s: State) {
    && (forall i, j :: 0 <= i < j < |s.calls| ==> s.calls[i] != s.calls[j])
    && (forall i :: i in s.calls ==> i < |s.workers|)
    && (forall i :: 0 <= i < |s.workers| ==> (Began(s.workers[i]) <==> i in s.calls))
  }

  /** With one slot, all but the newest worker have given it back, and the calls so far were begun
      in the order of their indexes. */
  predicate OneByOne(p: Setup, s: State) {
    p.c == 1 ==>
      && (forall i :: 0 <= i < |s.workers| - 1 ==> Weight(s.workers[i]).0 == 0)
      && (forall k :: 0 <= k < |s.calls| ==> s.calls[k] == k)
      && |s.calls| == |s.workers| - if s.workers != [] && s.workers[|s.workers| - 1] == Spawned then 1 else 0
  }

  lemma KeepsInv(p: Setup, s: State, e: Event)
    requires Inv(p, s) && Enabled(p, s, e)
    ensures Inv(p, Apply(p, s, e))
  {
    hide Total;
    var s' := Apply(p, s, e);
    TotalBounds(s.workers);
    match e
    case Loop =>
    case Take =>
    case Go => TotalAppend(s.workers, Spawned);
    case Wake =>
    case Begin(i) => TotalUpdate(s.workers, i, Calling);
    case Return(i) => TotalUpdate(s.workers, i, Called);
    case Release(i) => TotalUpdate(s.workers, i, Released);
    case Finish(i) => TotalUpdate(s.workers, i, Finished); TotalBounds(s'.workers);
  }

  lemma KeepsResults(p: Setup, s: State, e: Event)
    requires Inv(p, s) && Results(p, s) && Enabled(p, s, e)
    ensures Results(p, Apply(p, s, e))
  {
  }

  lemma KeepsOnce(p: Setup, s: State, e: Event)
    requires Once(s) && Enabled(p, s, e)
    ensures Once(Apply(p, s, e))
  {
    var s' := Apply(p, s, e);
    if e.Begin? {
      assert e.i !in s.calls;
      forall i | 0 <= i < |s.workers| ensures Began(s'.workers[i]) <==> i in s'.calls {
        assert i in s'.calls <==> i in s.calls || i == e.i;
      }
    }
  }

  lemma KeepsOneByOne(p: Setup, s: State, e: Event)
    requires Inv(p, s) && OneByOne(p, s) && Enabled(p, s, e)
    ensures OneByOne(p, Apply(p, s, e))
  {
    hide Total;
    if p.c == 1 {
      TotalBounds(s.workers);
      if e.Go? {
        assert Total(s.workers).held == 0;
      } else if e.Begin? {
        assert e.i == |s.workers| - 1;
      }
    }
  }

  predicate AllInv(p: Setup, s: State) {
    Inv(p, s) && Results(p, s) && Once(s) && OneByOne(p, s)
  }

  lemma {:induction false} RunKeeps(p: Setup, s: State, es: seq<Event>)
    requires AllInv(p, s) && Possible(p, s, es)
    ensures AllInv(p, Run(p, s, es))
    decreases |es|
  {
    hide Inv, Results, Once, OneByOne, Apply, Enabled;
    if es != [] {
      var e := es[0];
      KeepsInv(p, s, e);
      KeepsResults(p, s, e);
      KeepsOnce(p, s, e);
      KeepsOneByOne(p, s, e);
      RunKeeps(p, Apply(p, s, e), es[1..]);
    }
  }

  /* ---- progress and termination ---- */

  lemma Progress(p: Setup, s: State)
    requires Inv(p, s) && s.main != Returned && (p.c >= 1 || p.n == 0)
    ensures exists e :: Enabled(p, s, e)
  {
    TotalBounds(s.workers);
    if s.main == Head {
      assert Enabled(p, s, Loop);
    } else if s.main == Acquired {
      assert Enabled(p, s, Go);
    } else if s.main == Added && s.sem < p.c {
      assert Enabled(p, s, Take);
    } else if s.main == Waiting && s.wg == 0 {
      assert Enabled(p, s, Wake);
    } else {
      var i :| 0 <= i < |s.workers| && s.workers[i] != Finished;
      match s.workers[i]
      case Spawned => assert Enabled(p, s, Begin(i));
      case Calling => assert Enabled(p, s, Return(i));
      case Called => assert Enabled(p, s, Release(i));
      case Released => assert Enabled(p, s, Finish(i));
    }
  }

  function Measure(p: Setup, s: State): int {
    7 * (p.n - |s.workers|) + Total(s.workers).steps +
    match s.main
    case Head => 2
    case Added => 1
    case Acquired => 0
    case Waiting => 1
    case Returned => 0
  }

  lemma EventUsesUp(p: Setup, s: State, e: Event)
    requires Inv(p, s) && Enabled(p, s, e)
    ensures 0 <= Measure(p, Apply(p, s, e)) < Measure(p, s)
  {
    hide Total;
    KeepsInv(p, s, e);
    match e
    case Loop =>
    case Take =>
    case Go => TotalAppend(s.workers, Spawned);
    case Wake =>
    case Begin(i) => TotalUpdate(s.workers, i, Calling);
    case Return(i) => TotalUpdate(s.workers, i, Called);
    case Release(i) => TotalUpdate(s.workers, i, Released);
    case Finish(i) => TotalUpdate(s.workers, i, Finished);
  }

  lemma {:induction false} RunIsBounded(p: Setup, s: State, es: seq<Event>)
    requires Inv(p, s) && Possible(p, s, es)
    ensures |es| <= Measure(p, s)
    decreases |es|
  {
    hide Total, Apply;
    if es != [] {
      KeepsInv(p, s, es[0]);
      EventUsesUp(p, s, es[0]);
      RunIsBounded(p, Apply(p, s, es[0]), es[1..]);
    }
  }

  lemma InitialInv(p: Setup)
    ensures AllInv(p, Initial(p))
  {
  }

  /** The indexes whose calls are in progress. */
  function InProgress(ws: seq<Worker>): set<nat> {
    set i: nat | i < |ws| && ws[i] == Calling
  }

  lemma {:induction false} InProgressCounted(ws: seq<Worker>)
    ensures |InProgress(ws)| == Total(ws).inCall
  {
    if ws == [] {
      assert InProgress(ws) == {};
    } else {
      var last := |ws| - 1;
      var init := ws[..last];
      InProgressCounted(init);
      assert InProgress(ws) == InProgress(init) + if ws[last] == Calling then {last} else {};
    }
  }

  function Values(p: Setup): seq<int> {
    seq(p.n, i requires 0 <= i < p.n => p.val(i))
  }

  /** In every interleaving: at most `c` calls are in progress, no call begins twice, and no run has
      more than 7n + 2 steps. When the function returns, each index has been called exactly once
      and its slot holds the value of its call. With one slot the calls begin in index order, each
      after the one before it has returned. */
  lemma EveryIndexOnce(p: Setup, es: seq<Event>)
    requires Possible(p, Initial(p), es)
    ensures |es| <= 7 * p.n + 2
    ensures var s := Run(p, Initial(p), es);
            && |InProgress(s.workers)| <= p.c
            && (forall i, j :: 0 <= i < j < |s.calls| ==> s.calls[i] != s.calls[j])
            && (s.main == Returned ==>
                  (forall i: nat :: i in s.calls <==> i < p.n) && s.results == Values(p))
            && (p.c == 1 ==>
                  (forall k :: 0 <= k < |s.calls| ==> s.calls[k] == k) &&
                  (forall k :: 0 <= k < |s.calls| - 1 ==> k < |s.workers| && HasResult(s.workers[k])))
  {
    InitialInv(p);
    RunKeeps(p, Initial(p), es);
    RunIsBounded(p, Initial(p), es);
    var s := Run(p, Initial(p), es);
    TotalBounds(s.workers);
    InProgressCounted(s.workers);
  }

  /** If `es` is a run that cannot go on, the function has returned. */
  ghost predicate RunsToEnd(p: Setup, es: seq<Event>) {
    Possible(p, Initial(p), es) && (forall e :: !Enabled(p, Run(p, Initial(p), es), e)) ==>
      Run(p, Initial(p), es).main == Returned
  }

  /** Every schedule runs to the end, never getting stuck before, exactly when there is at least one
      slot or nothing to do. */
  lemma CompletesExactly(p: Setup)
    ensures (forall es :: RunsToEnd(p, es)) <==> p.c >= 1 || p.n == 0
  {
    InitialInv(p);
    if p.c >= 1 || p.n == 0 {
      forall es ensures RunsToEnd(p, es) {
        if Possible(p, Initial(p), es) {
          RunKeeps(p, Initial(p), es);
          if Run(p, Initial(p), es).main != Returned { Progress(p, Run(p, Initial(p), es)); }
        }
      }
    } else {
      var es := [Loop];
      assert es[1..] == [] && Possible(p, Initial(p), es);
      var s := Apply(p, Initial(p), Loop);
      assert Run(p, Initial(p), es) == s && s.main == Added;
      forall e ensures !Enabled(p, s, e) {}
      assert !RunsToEnd(p, es);
    }
  }
}
