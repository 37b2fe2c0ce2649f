/** Requests and shutdowns of one proxy server in every interleaving. In a pooled server a request
    holds the mutex for its whole duration; in one that does not pool it takes no lock; `Close`
    takes the mutex in both. */
module ProxyRuns {
  import opened Wrappers

  datatype Pc = Idle | Locked | Serving(conn: nat, k: nat) | Leaving(held: Option<nat>) | Done

  /** A request of `n` commands, or a call of Close. */
  datatype Thread = Request(n: nat, pc: Pc) | Closer(pc: Pc)

  /** `closes[c]` counts how often this server closed connection `c`; all of them were dialed. */
  datatype State = State(pooled: bool, lock: Option<nat>, pool: Option<nat>, closes: seq<nat>,
                         threads: seq<Thread>)

  datatype Event =
    | Acquire(t: nat) | TakePool(t: nat) | Dial(t: nat, up: bool) | Session(t: nat, ok: bool)
    | Finish(t: nat) | ClosePool(t: nat) | CloseFresh(t: nat) | Release(t: nat)

  /** The threads that take the mutex. */
  predicate Locking(s: State, th: Thread) {
    s.pooled || th.Closer?
  }

  predicate InCritical(s: State, th: Thread) {
    Locking(s, th) && !th.pc.Idle? && !th.pc.Done?
  }

  predicate Enabled(s: State, e: Event) {
    e.t < |s.threads| && var th := s.threads[e.t];
    match e
    case Acquire(t) => Locking(s, th) && th.pc.Idle? && s.lock.None?
    case TakePool(t) => th.Request? && th.pc.Locked? && s.pool.Some?
    case Dial(t, up) => th.Request? && if s.pooled then th.pc.Locked? && s.pool.None? else th.pc.Idle?
    case Session(t, ok) => th.Request? && th.pc.Serving? && th.pc.k < th.n
    case Finish(t) => th.Request? && th.pc.Serving? && th.pc.k == th.n
    case ClosePool(t) => th.Closer? && th.pc.Locked?
    case CloseFresh(t) => th.Request? && !s.pooled && th.pc.Leaving? && th.pc.held.Some?
    case Release(t) => Locking(s, th) && th.pc.Leaving?
  }

  function Closing(closes: seq<nat>, c: Option<nat>): seq<nat> {
    if c.Some? && c.value < |closes| then closes[c.value := closes[c.value] + 1] else closes
  }

  function Move(s: State, t: nat, pc: Pc): seq<Thread>
    requires t < |s.threads|
  {
    s.threads[t := s.threads[t].(pc := pc)]
  }

  function Apply(s: State, e: Event): State
    requires Enabled(s, e)
  {
    var pc := s.threads[e.t].pc;
    match e
    case Acquire(t) => s.(lock := Some(t), threads := Move(s, t, Locked))
    case TakePool(t) => s.(threads := Move(s, t, Serving(s.pool.value, 0)))
    case Dial(t, up) =>
      if up then
        var c := |s.closes|;
        s.(closes := s.closes + [0], pool := if s.pooled then Some(c) else s.pool,
           threads := Move(s, t, Serving(c, 0)))
      else s.(threads := Move(s, t, if s.pooled then Leaving(None) else Done))
    case Session(t, ok) =>
      if ok then s.(threads := Move(s, t, Serving(pc.conn, pc.k + 1)))
      else if s.pooled then
        s.(closes := Closing(s.closes, s.pool), pool := None, threads := Move(s, t, Leaving(None)))
      else s.(threads := Move(s, t, Leaving(Some(pc.conn))))
    case Finish(t) =>
      s.(threads := Move(s, t, Leaving(if s.pooled then None else Some(pc.conn))))
    case ClosePool(t) =>
      s.(closes := Closing(s.closes, s.pool), pool := None, threads := Move(s, t, Leaving(None)))
    case CloseFresh(t) =>
      s.(closes := Closing(s.closes, pc.held), threads := Move(s, t, Done))
    case Release(t) => s.(lock := None, threads := Move(s, t, Done))
  }

  predicate Possible(s: State, es: seq<Event>)
    decreases |es|
  {
    es == [] || (Enabled(s, es[0]) && Possible(Apply(s, es[0]), es[1..]))
  }

  function Run(s: State, es: seq<Event>): State
    requires Possible(s, es)
    decreases |es|
  {
    if es == [] then s else Run(Apply(s, es[0]), es[1..])
  }

  predicate Initial(s: State) {
    && s.lock.None? && s.pool.None? && s.closes == []
    && forall t :: 0 <= t < |s.threads| ==> s.threads[t].pc.Idle?
  }

  /* ---- counting ---- */

  function Sum(ns: seq<nat>): nat {
    if ns == [] then 0 else Sum(ns[..|ns| - 1]) + ns[|ns| - 1]
  }

  lemma {:induction false} SumUpdate(ns: seq<nat>, i: nat)
    requires i < |ns|
    ensures Sum(ns[i := ns[i] + 1]) == Sum(ns) + 1
  {
    var ms, last := ns[i := ns[i] + 1], |ns| - 1;
    if i == last {
      assert ms[..last] == ns[..last];
    } else {
      assert ms[..last] == ns[..last][i := ns[..last][i] + 1];
      SumUpdate(ns[..last], i);
    }
  }

  /** The fresh connection a thread holds, if any. */
  function Held(s: State, th: Thread): Option<nat> {
    if s.pooled || th.Closer? then None
    else match th.pc
         case Serving(c, _) => Some(c)
         case Leaving(c) => c
         case _ => None
  }

  /** How many fresh connections are in use. */
  function InFlight(s: State, ths: seq<Thread>): nat {
    if ths == [] then 0
    else InFlight(s, ths[..|ths| - 1]) + if Held(s, ths[|ths| - 1]).Some? then 1 else 0
  }

  lemma {:induction false} InFlightUpdate(s: State, ths: seq<Thread>, t: nat, th: Thread)
    requires t < |ths|
    ensures InFlight(s, ths[t := th]) + (if Held(s, ths[t]).Some? then 1 else 0)
         == InFlight(s, ths) + (if Held(s, th).Some? then 1 else 0)
  {
    hide Held;
    var us, last := ths[t := th], |ths| - 1;
    if t == last {
      assert us[..last] == ths[..last];
    } else {
      assert us[..last] == ths[..last][t := th];
      InFlightUpdate(s, ths[..last], t, th);
    }
  }

  lemma {:induction false} InFlightSame(s: State, s': State, ths: seq<Thread>)
    requires s.pooled == s'.pooled
    ensures InFlight(s, ths) == InFlight(s', ths)
  {
    if ths != [] { InFlightSame(s, s', ths[..|ths| - 1]); }
  }

  /* ---- the invariant ---- */

  predicate Open(s: State, c: nat) {
    c < |s.closes| && s.closes[c] == 0
  }

  /** Exactly the thread in its critical section holds the mutex. */
  predicate Exclusive(s: State) {
    forall t :: 0 <= t < |s.threads| ==> (InCritical(s, s.threads[t]) <==> s.lock == Some(t))
  }

  predicate PoolOpen(s: State) {
    s.pool.Some? ==> s.pooled && Open(s, s.pool.value)
  }

  /** A request of a pooled server serves over the pooled connection. */
  predicate ServesPool(s: State) {
    forall t :: 0 <= t < |s.threads| && s.threads[t].pc.Serving? ==>
      s.threads[t].Request? && (s.pooled ==> s.pool == Some(s.threads[t].pc.conn))
  }

  predicate HeldOpen(s: State) {
    forall t :: 0 <= t < |s.threads| && Held(s, s.threads[t]).Some? ==> Open(s, Held(s, s.threads[t]).value)
  }

  predicate HeldByOne(s: State) {
    forall t, u :: 0 <= t < |s.threads| && 0 <= u < |s.threads| && t != u && Held(s, s.threads[t]).Some? ==>
      Held(s, s.threads[t]) != Held(s, s.threads[u])
  }

  /** Whatever is in use is open: the pooled connection, and each fresh one, by one thread only. */
  predicate UseOpen(s: State) {
    PoolOpen(s) && ServesPool(s) && HeldOpen(s) && HeldByOne(s)
  }

  predicate ClosedOnce(s: State) {
    forall c :: 0 <= c < |s.closes| ==> s.closes[c] <= 1
  }

  /** Every dialed connection has been closed, is pooled, or serves one request. */
  predicate Accounted(s: State) {
    |s.closes| == Sum(s.closes) + (if s.pool.Some? then 1 else 0) + InFlight(s, s.threads)
  }

  predicate Inv(s: State) {
    Exclusive(s) && UseOpen(s) && ClosedOnce(s) && Accounted(s)
  }

  lemma {:induction false} NoneInFlight(s: State, ths: seq<Thread>)
    requires forall t :: 0 <= t < |ths| ==> ths[t].pc.Idle?
    ensures InFlight(s, ths) == 0
  {
    if ths != [] { NoneInFlight(s, ths[..|ths| - 1]); }
  }

  lemma InitialInv(s: State)
    requires Initial(s)
    ensures Inv(s)
  {
    NoneInFlight(s, s.threads);
  }

  lemma KeepsExclusive(s: State, e: Event)
    requires Inv(s) && Enabled(s, e)
    ensures Exclusive(Apply(s, e))
  {
    hide Accounted, ClosedOnce, UseOpen, Closing;
    var s' := Apply(s, e);
    forall t | 0 <= t < |s'.threads| ensures InCritical(s', s'.threads[t]) <==> s'.lock == Some(t) {
      assert t != e.t ==> s'.threads[t] == s.threads[t];
      assert InCritical(s, s.threads[e.t]) <==> s.lock == Some(e.t);
    }
  }

  lemma KeepsClosedOnce(s: State, e: Event)
    requires Inv(s) && Enabled(s, e)
    ensures ClosedOnce(Apply(s, e))
  {
    hide Accounted, Exclusive;
    assert Held(s, s.threads[e.t]).Some? ==> Open(s, Held(s, s.threads[e.t]).value);
  }

  /** In a pooled server only the thread with the mutex can be serving. */
  lemma OneServes(s: State, t: nat, u: nat)
    requires Exclusive(s) && s.pooled && t < |s.threads| && u < |s.threads| && t != u
    requires InCritical(s, s.threads[t])
    ensures !InCritical(s, s.threads[u])
  {
  }

  lemma KeepsPool(s: State, e: Event)
    requires Inv(s) && Enabled(s, e)
    ensures PoolOpen(Apply(s, e)) && ServesPool(Apply(s, e))
  {
    hide Accounted, ClosedOnce, HeldByOne, Sum, InFlight;
    var s' := Apply(s, e);
    if s.pooled && (e.Session? || e.ClosePool? || e.Dial?) {
      forall u | 0 <= u < |s.threads| && u != e.t ensures !s'.threads[u].pc.Serving? {
        OneServes(s, e.t, u);
      }
    }
    forall u | 0 <= u < |s.threads| && u != e.t ensures s'.threads[u] == s.threads[u] {}
  }

  lemma KeepsHeldOpen(s: State, e: Event)
    requires Inv(s) && Enabled(s, e)
    ensures HeldOpen(Apply(s, e))
  {
    hide Accounted, ClosedOnce, Exclusive, Sum, InFlight;
    var s' := Apply(s, e);
    forall u | 0 <= u < |s'.threads| && Held(s', s'.threads[u]).Some?
      ensures Open(s', Held(s', s'.threads[u]).value)
    {
      if u != e.t {
        assert s'.threads[u] == s.threads[u];
        assert Open(s, Held(s, s.threads[u]).value);
        assert Held(s, s.threads[u]) != Held(s, s.threads[e.t]);
      } else {
        assert Held(s, s.threads[e.t]).Some? ==> Open(s, Held(s, s.threads[e.t]).value);
      }
    }
  }

  lemma KeepsHeldByOne(s: State, e: Event)
    requires Inv(s) && Enabled(s, e)
    ensures HeldByOne(Apply(s, e))
  {
    hide Accounted, ClosedOnce, Exclusive, Sum, InFlight, Closing;
    var s' := Apply(s, e);
    forall u | 0 <= u < |s.threads| && u != e.t
      ensures s'.threads[u] == s.threads[u]
      ensures Held(s, s.threads[u]).Some? ==> Held(s', s'.threads[e.t]) != Held(s, s.threads[u])
    {
      assert Held(s, s.threads[u]).Some? ==> Open(s, Held(s, s.threads[u]).value);
      assert Held(s, s.threads[u]).Some? ==> Held(s, s.threads[u]) != Held(s, s.threads[e.t]);
    }
  }

  lemma KeepsUseOpen(s: State, e: Event)
    requires Inv(s) && Enabled(s, e)
    ensures UseOpen(Apply(s, e))
  {
    hide PoolOpen, ServesPool, HeldOpen, HeldByOne, Apply;
    KeepsPool(s, e);
    KeepsHeldOpen(s, e);
    KeepsHeldByOne(s, e);
  }

  lemma KeepsAccounted(s: State, e: Event)
    requires Inv(s) && Enabled(s, e)
    ensures Accounted(Apply(s, e))
  {
    hide Exclusive, ClosedOnce, Sum, InFlight;
    var s' := Apply(s, e);
    InFlightUpdate(s, s.threads, e.t, s'.threads[e.t]);
    InFlightSame(s, s', s'.threads);
    if |s'.closes| > |s.closes| {
      SumAppend(s.closes);
    } else if s'.closes != s.closes {
      assert Held(s, s.threads[e.t]).Some? ==> Open(s, Held(s, s.threads[e.t]).value);
      SumUpdate(s.closes, if e.CloseFresh? then s.threads[e.t].pc.held.value else s.pool.value);
    }
  }

  lemma SumAppend(ns: seq<nat>)
    ensures Sum(ns + [0]) == Sum(ns)
  {
    assert (ns + [0])[..|ns|] == ns;
  }

  lemma {:induction false} RunKeeps(s: State, es: seq<Event>)
    requires Inv(s) && Possible(s, es)
    ensures Inv(Run(s, es))
    decreases |es|
  {
    hide Exclusive, UseOpen, ClosedOnce, Accounted, Enabled, Apply;
    if es != [] {
      var e := es[0];
      KeepsExclusive(s, e);
      KeepsUseOpen(s, e);
      KeepsClosedOnce(s, e);
      KeepsAccounted(s, e);
      RunKeeps(Apply(s, e), es[1..]);
    }
  }

  predicate AllDone(s: State) {
    forall t :: 0 <= t < |s.threads| ==> s.threads[t].pc.Done?
  }

  /* ---- the main results ---- */

  /** In every reachable state: dialed = closed + pooled + in flight, no connection has been
      closed twice, and every connection about to be used has not been closed. */
  lemma ConnectionsAreAccounted(s0: State, es: seq<Event>)
    requires Initial(s0) && Possible(s0, es)
    ensures var s := Run(s0, es);
            && |s.closes| == Sum(s.closes) + (if s.pool.Some? then 1 else 0) + InFlight(s, s.threads)
            && (forall c :: 0 <= c < |s.closes| ==> s.closes[c] <= 1)
            && (forall t: nat, ok :: Enabled(s, Session(t, ok)) ==> Open(s, s.threads[t].pc.conn))
            && (s.pooled ==> InFlight(s, s.threads) == 0 && |s.closes| <= Sum(s.closes) + 1)
  {
    InitialInv(s0);
    RunKeeps(s0, es);
    var s := Run(s0, es);
    forall t: nat, ok | Enabled(s, Session(t, ok)) ensures Open(s, s.threads[t].pc.conn) {
      assert !s.pooled ==> Held(s, s.threads[t]) == Some(s.threads[t].pc.conn);
    }
    if s.pooled { PooledHoldsNone(s, s.threads); }
  }

  lemma {:induction false} PooledHoldsNone(s: State, ths: seq<Thread>)
    requires s.pooled
    ensures InFlight(s, ths) == 0
  {
    if ths != [] { PooledHoldsNone(s, ths[..|ths| - 1]); }
  }

  /** A pooled session that fails closes that very connection and empties the pool, so whoever
      comes next cannot take it and must dial. */
  lemma FailureForcesRedial(s0: State, es: seq<Event>, t: nat)
    requires Initial(s0) && Possible(s0, es) && Run(s0, es).pooled
    requires Enabled(Run(s0, es), Session(t, false))
    ensures var s := Run(s0, es);
            var s' := Apply(s, Session(t, false));
            var c := s.threads[t].pc.conn;
            s'.pool == None && Open(s, c) && s'.closes == s.closes[c := 1] &&
            forall u: nat :: !Enabled(s', TakePool(u))
  {
    InitialInv(s0);
    RunKeeps(s0, es);
  }

  /** A pooled request that succeeds leaves its connection open, in the pool, for whoever comes next. */
  lemma SuccessKeepsConnection(s0: State, es: seq<Event>, t: nat)
    requires Initial(s0) && Possible(s0, es) && Run(s0, es).pooled && Enabled(Run(s0, es), Finish(t))
    ensures var s := Run(s0, es);
            var s' := Apply(s, Finish(t));
            s'.pool == Some(s.threads[t].pc.conn) && Open(s', s.threads[t].pc.conn) && s'.closes == s.closes
  {
    InitialInv(s0);
    RunKeeps(s0, es);
  }

  /** A Close closes the pooled connection, if there is one, and no other, and empties the pool. */
  lemma CloseEmptiesPool(s0: State, es: seq<Event>, t: nat)
    requires Initial(s0) && Possible(s0, es) && Enabled(Run(s0, es), ClosePool(t))
    ensures var s := Run(s0, es);
            var s' := Apply(s, ClosePool(t));
            && s'.pool == None
            && (s.pool.None? ==> s'.closes == s.closes)
            && (s.pool.Some? ==> Open(s, s.pool.value) && s'.closes == s.closes[s.pool.value := 1])
  {
    InitialInv(s0);
    RunKeeps(s0, es);
  }

  /** No request dials successfully. */
  predicate NoDial(es: seq<Event>) {
    forall i :: 0 <= i < |es| ==> !(es[i].Dial? && es[i].up)
  }

  lemma {:induction false} PoolStaysEmpty(s: State, es: seq<Event>)
    requires Possible(s, es) && s.pool.None? && NoDial(es)
    ensures Run(s, es).pool.None?
    decreases |es|
  {
    if es == [] {
    } else {
      PoolStaysEmpty(Apply(s, es[0]), es[1..]);
    }
  }

  lemma {:induction false} RunAppend(s: State, a: seq<Event>, b: seq<Event>)
    requires Possible(s, a + b)
    ensures Possible(s, a) && Possible(Run(s, a), b) && Run(s, a + b) == Run(Run(s, a), b)
    decreases |a|
  {
    if a == [] {
      assert a + b == b;
    } else {
      assert (a + b)[0] == a[0] && (a + b)[1..] == a[1..] + b;
      RunAppend(Apply(s, a[0]), a[1..], b);
    }
  }

  lemma {:induction false} NoneHeld(s: State, ths: seq<Thread>)
    requires forall t :: 0 <= t < |ths| ==> ths[t].pc.Done?
    ensures InFlight(s, ths) == 0
  {
    if ths != [] { NoneHeld(s, ths[..|ths| - 1]); }
  }

  lemma {:induction false} SumIsFull(ns: seq<nat>)
    requires forall c :: 0 <= c < |ns| ==> ns[c] <= 1
    ensures Sum(ns) <= |ns|
    ensures Sum(ns) == |ns| ==> forall c :: 0 <= c < |ns| ==> ns[c] == 1
  {
    if ns == [] {
    } else {
      SumIsFull(ns[..|ns| - 1]);
      forall c | 0 <= c < |ns| - 1 ensures ns[c] == ns[..|ns| - 1][c] {}
    }
  }

  /** After a last Close, behind which nobody dials any more, and once everyone has returned, every connection
      that was ever dialed has been closed exactly once. */
  lemma LastCloseLeavesNoneOpen(s0: State, before: seq<Event>, t: nat, behind: seq<Event>)
    requires Initial(s0) && Possible(s0, before + ([ClosePool(t)] + behind)) && NoDial(behind)
    requires AllDone(Run(s0, before + ([ClosePool(t)] + behind)))
    ensures var s := Run(s0, before + ([ClosePool(t)] + behind));
            forall c :: 0 <= c < |s.closes| ==> s.closes[c] == 1
  {
    hide Enabled, Apply, Sum, InFlight;
    var rest := [ClosePool(t)] + behind;
    var s := Run(s0, before + rest);
    InitialInv(s0);
    RunKeeps(s0, before + rest);
    RunAppend(s0, before, rest);
    assert rest[0] == ClosePool(t) && rest[1..] == behind;
    CloseEmptiesPool(s0, before, t);
    PoolStaysEmpty(Apply(Run(s0, before), ClosePool(t)), behind);
    NoneHeld(s, s.threads);
    SumIsFull(s.closes);
  }

  /** No reachable state is stuck before every thread is done. */
  lemma NoDeadlock(s0: State, es: seq<Event>)
    requires Initial(s0) && Possible(s0, es)
    ensures var s := Run(s0, es);
            (exists t :: 0 <= t < |s.threads| && !s.threads[t].pc.Done?) ==> exists e :: Enabled(s, e)
  {
    InitialInv(s0);
    RunKeeps(s0, es);
    RunHasSane(s0, es);
    var s := Run(s0, es);
    if t :| 0 <= t < |s.threads| && !s.threads[t].pc.Done? {
      if Locking(s, s.threads[t]) && s.threads[t].pc.Idle? {
        if s.lock.None? {
          assert Enabled(s, Acquire(t));
        } else {
          HolderMoves(s, s.lock.value);
        }
      } else {
        HolderMoves(s, t);
      }
    }
  }

  /** What a thread's position says about the rest of the state. */
  predicate Sane(s: State) {
    && (s.lock.Some? ==> s.lock.value < |s.threads|)
    && forall t :: 0 <= t < |s.threads| ==>
         var th := s.threads[t];
         (th.pc.Serving? ==> th.Request? && th.pc.k <= th.n) &&
         (th.pc.Locked? ==> Locking(s, th)) &&
         (th.pc.Leaving? && !Locking(s, th) ==> th.pc.held.Some?)
  }

  lemma {:induction false} RunKeepsSane(s: State, es: seq<Event>)
    requires Sane(s) && Possible(s, es)
    ensures Sane(Run(s, es))
    decreases |es|
  {
    if es != [] { RunKeepsSane(Apply(s, es[0]), es[1..]); }
  }

  lemma RunHasSane(s0: State, es: seq<Event>)
    requires Initial(s0) && Possible(s0, es)
    ensures Sane(Run(s0, es))
  {
    RunKeepsSane(s0, es);
  }

  lemma HolderMoves(s: State, t: nat)
    requires Sane(s) && t < |s.threads| && !s.threads[t].pc.Done?
    requires s.threads[t].pc.Idle? ==> !Locking(s, s.threads[t])
    ensures exists e :: Enabled(s, e)
  {
    var th := s.threads[t];
    match th.pc
    case Idle => assert Enabled(s, Dial(t, true));
    case Locked =>
      if th.Closer? { assert Enabled(s, ClosePool(t)); }
      else if s.pool.Some? { assert Enabled(s, TakePool(t)); }
      else { assert Enabled(s, Dial(t, true)); }
    case Serving(c, k) => assert Enabled(s, if k < th.n then Session(t, true) else Finish(t));
    case Leaving(c) => assert Enabled(s, if Locking(s, th) then Release(t) else CloseFresh(t));
  }

  /* ---- every run comes to an end ---- */

  /** The most steps that are left to a thread. */
  function Steps(th: Thread): nat {
    match th.pc
    case Idle => if th.Request? then th.n + 4 else 3
    case Locked => if th.Request? then th.n + 3 else 2
    case Serving(_, k) => if th.Request? && k < th.n then th.n - k + 2 else 2
    case Leaving(_) => 1
    case Done => 0
  }

  function Total(ths: seq<Thread>): nat {
    if ths == [] then 0 else Total(ths[..|ths| - 1]) + Steps(ths[|ths| - 1])
  }

  lemma {:induction false} TotalUpdate(ths: seq<Thread>, t: nat, th: Thread)
    requires t < |ths|
    ensures Total(ths[t := th]) + Steps(ths[t]) == Total(ths) + Steps(th)
  {
    hide Steps;
    var us, last := ths[t := th], |ths| - 1;
    if t == last {
      assert us[..last] == ths[..last];
    } else {
      assert us[..last] == ths[..last][t := th];
      TotalUpdate(ths[..last], t, th);
    }
  }

  lemma EventUsesUp(s: State, e: Event)
    requires Enabled(s, e)
    ensures Total(Apply(s, e).threads) < Total(s.threads)
  {
    hide Total, Closing;
    var s' := Apply(s, e);
    TotalUpdate(s.threads, e.t, s'.threads[e.t]);
    assert s'.threads == s.threads[e.t := s'.threads[e.t]];
  }

  lemma {:induction false} RunUsesUp(s: State, es: seq<Event>)
    requires Possible(s, es)
    ensures |es| + Total(Run(s, es).threads) <= Total(s.threads)
    decreases |es|
  {
    hide Total, Enabled, Apply;
    if es != [] {
      EventUsesUp(s, es[0]);
      RunUsesUp(Apply(s, es[0]), es[1..]);
    }
  }

  /** Every interleaving is bounded by the steps its threads have at first, and it cannot go on exactly
      when every request and every Close has returned. */
  lemma EveryoneReturns(s0: State, es: seq<Event>)
    requires Initial(s0) && Possible(s0, es)
    ensures |es| <= Total(s0.threads)
    ensures (forall e :: !Enabled(Run(s0, es), e)) <==> AllDone(Run(s0, es))
  {
    RunUsesUp(s0, es);
    NoDeadlock(s0, es);
    var s := Run(s0, es);
    if AllDone(s) {
      forall e ensures !Enabled(s, e) {}
    }
  }
}
