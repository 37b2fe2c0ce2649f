/** Counting round trips by direction changes, alone and under concurrent use, and the delay model
    that charges for them. */
module RoundTrips {

  datatype Dir = R | W

  /** Write-to-read changes in a sequence of operations. */
  function Trips(ops: seq<Dir>): nat {
    if |ops| < 2 then 0
    else Trips(ops[..|ops| - 1]) + if ops[|ops| - 2] == W && ops[|ops| - 1] == R then 1 else 0
  }

  function Count(ops: seq<Dir>, d: Dir): nat {
    if ops == [] then 0 else Count(ops[..|ops| - 1], d) + if ops[|ops| - 1] == d then 1 else 0
  }

  /** The direction field: 0 before any operation, 1 after a read, 2 after a write. */
  function LastDir(ops: seq<Dir>): int {
    if ops == [] then 0 else if ops[|ops| - 1] == R then 1 else 2
  }

  lemma OneMore(ops: seq<Dir>, d: Dir)
    ensures Trips(ops + [d]) == Trips(ops) + if d == R && LastDir(ops) == 2 then 1 else 0
    ensures Count(ops + [d], R) == Count(ops, R) + if d == R then 1 else 0
    ensures Count(ops + [d], W) == Count(ops, W) + if d == W then 1 else 0
    ensures LastDir(ops + [d]) == if d == R then 1 else 2
  {
    assert (ops + [d])[..|ops|] == ops;
  }

  /** Each trip has a write of its own and a read of its own. */
  lemma {:induction false} TripsBounded(ops: seq<Dir>)
    ensures Trips(ops) <= Count(ops, R)
    ensures Trips(ops) + (if LastDir(ops) == 2 then 1 else 0) <= Count(ops, W)
  {
    if ops != [] {
      var init := ops[..|ops| - 1];
      TripsBounded(init);
      assert ops == init + [ops[|ops| - 1]];
      OneMore(init, ops[|ops| - 1]);
    }
  }

  /* ---- the counting connection, used by one goroutine ---- */

  class Conn {
    var trips: int
    var readOps: int
    var writeOps: int
    var lastDir: int
    ghost var ops: seq<Dir>

    constructor ()
      ensures Valid() && ops == []
    {
      trips, readOps, writeOps, lastDir, ops := 0, 0, 0, 0, [];
    }

    ghost predicate Valid()
      reads this
    {
      trips == Trips(ops) && readOps == Count(ops, R) && writeOps == Count(ops, W) && lastDir == LastDir(ops)
    }

    method Read()
      requires Valid()
      modifies this
      ensures Valid() && ops == old(ops) + [R]
      ensures readOps == old(readOps) + 1 && writeOps == old(writeOps)
      ensures trips == old(trips) + if old(ops) != [] && old(ops)[|old(ops)| - 1] == W then 1 else 0
    {
      OneMore(ops, R);
      readOps := readOps + 1;
      var before := lastDir;
      lastDir := 1;
      if before == 2 { trips := trips + 1; }
      ops := ops + [R];
    }

    method Write()
      requires Valid()
      modifies this
      ensures Valid() && ops == old(ops) + [W]
      ensures readOps == old(readOps) && writeOps == old(writeOps) + 1 && trips == old(trips)
    {
      OneMore(ops, W);
      writeOps := writeOps + 1;
      lastDir := 2;
      ops := ops + [W];
    }
  }

  /* ---- the same counters under concurrent readers and writers ---- */

  /** The four atomic fields, and how many goroutines stand between two of their atomic steps:
      readers that have counted themselves but not yet swapped the direction, readers that swapped
      out a write and owe a trip, and writers that have not yet stored. `log` is the order of the
      updates of the direction. */
  datatype State = State(trips: int, readOps: int, writeOps: int, lastDir: int,
                         readers: nat, owing: nat, writers: nat, log: seq<Dir>)

  datatype Step = CountRead | SwapDir | AddTrip | CountWrite | StoreDir

  const Initial: State := State(0, 0, 0, 0, 0, 0, 0, [])

  predicate Enabled(s: State, e: Step) {
    match e
    case CountRead => true
    case SwapDir => s.readers > 0
    case AddTrip => s.owing > 0
    case CountWrite => true
    case StoreDir => s.writers > 0
  }

  function Apply(s: State, e: Step): State
    requires Enabled(s, e)
  {
    match e
    case CountRead => s.(readOps := s.readOps + 1, readers := s.readers + 1)
    case SwapDir =>
      s.(lastDir := 1, readers := s.readers - 1, log := s.log + [R],
         owing := if s.lastDir == 2 then s.owing + 1 else s.owing)
    case AddTrip => s.(trips := s.trips + 1, owing := s.owing - 1)
    case CountWrite => s.(writeOps := s.writeOps + 1, writers := s.writers + 1)
    case StoreDir => s.(lastDir := 2, writers := s.writers - 1, log := s.log + [W])
  }

  predicate Possible(s: State, es: seq<Step>)
    decreases |es|
  {
    es == [] || (Enabled(s, es[0]) && Possible(Apply(s, es[0]), es[1..]))
  }

  function Run(s: State, es: seq<Step>): State
    requires Possible(s, es)
    decreases |es|
  {
    if es == [] then s else Run(Apply(s, es[0]), es[1..])
  }

  predicate Inv(s: State) {
    && s.trips + s.owing == Trips(s.log)
    && s.readOps == s.readers + Count(s.log, R)
    && s.writeOps == s.writers + Count(s.log, W)
    && s.lastDir == LastDir(s.log)
  }

  lemma {:induction false} RunKeeps(s: State, es: seq<Step>)
    requires Inv(s) && Possible(s, es)
    ensures Inv(Run(s, es))
    decreases |es|
  {
    hide Trips, Count, LastDir;
    if es != [] {
      OneMore(s.log, R);
      OneMore(s.log, W);
      RunKeeps(Apply(s, es[0]), es[1..]);
    }
  }

  /** The trips counted, and those still owed, are the write-to-read changes in the order of the
      direction updates; trips never exceed the reads or the writes; and once nobody is between
      two steps all three counts are exact. */
  predicate Exact(s: State) {
    && s.trips + s.owing == Trips(s.log)
    && s.trips <= s.readOps && s.trips <= s.writeOps
    && (s.readers == s.owing == s.writers == 0 ==>
          s.trips == Trips(s.log) && s.readOps == Count(s.log, R) && s.writeOps == Count(s.log, W))
  }

  lemma InvMeansExact(s: State)
    requires Inv(s)
    ensures Exact(s)
  {
    TripsBounded(s.log);
  }

  /** So it is in every reachable state. */
  lemma TripsAreExact(es: seq<Step>)
    requires Possible(Initial, es)
    ensures Exact(Run(Initial, es))
  {
    hide Possible, Run, Exact, Inv;
    InitialInv();
    RunKeeps(Initial, es);
    InvMeansExact(Run(Initial, es));
  }

  lemma InitialInv()
    ensures Inv(Initial)
  {
  }

  /* ---- the delay model ---- */

  /** Changes of direction, counting the first operation as one: the operations that are delayed. */
  function Changes(ops: seq<Dir>): nat {
    if ops == [] then 0
    else Changes(ops[..|ops| - 1]) + if LastDir(ops[..|ops| - 1]) == LastDir(ops) then 0 else 1
  }

  /** How long one delay lasts: the base, moved by the noise of the jitter but never below zero, and one
      base more if the packet counts as lost. */
  function Sleep(delay: int, jitter: int, noise: int, lost: bool): int {
    (if jitter <= 0 then delay else if delay + noise < 0 then 0 else delay + noise) + if lost then delay else 0
  }

  method SleepFor(delay: int, jitter: int, noise: int, lost: bool) returns (d: int)
    ensures d == Sleep(delay, jitter, noise, lost)
  {
    d := delay;
    if jitter > 0 {
      d := d + noise;
      if d < 0 { d := 0; }
    }
    if lost { d := d + delay; }
  }

  /** What that means: a loss costs exactly one base delay more than the same delay without it; without
      jitter a delay lasts one or two base delays; noise counts in full as long as what is left of the base
      is not negative, and never makes a delay negative. */
  lemma SleepMeans(delay: int, jitter: int, n1: int, n2: int, lost: bool)
    requires delay > 0 && n1 <= n2
    ensures Sleep(delay, jitter, n1, true) == Sleep(delay, jitter, n1, false) + delay
    ensures jitter <= 0 || n1 == 0 ==> Sleep(delay, jitter, n1, false) == delay
    ensures 0 <= Sleep(delay, jitter, n1, lost) && (lost ==> delay <= Sleep(delay, jitter, n1, lost))
    ensures 0 <= Sleep(delay, jitter, n2, lost) - Sleep(delay, jitter, n1, lost) <= n2 - n1
    ensures jitter > 0 && -delay <= n1 ==> Sleep(delay, jitter, n2, lost) - Sleep(delay, jitter, n1, lost) == n2 - n1
    ensures jitter > 0 && n1 <= -delay ==> Sleep(delay, jitter, n1, false) == 0
  {
  }

  /** A delayed connection: `charged` delays so far, `slept` in all; `losses` of them counted as lost. */
  class DelayConn {
    const delay: int
    const jitter: int
    var lastDir: int
    var charged: nat
    var slept: int
    ghost var losses: nat
    ghost var ops: seq<Dir>

    constructor (delay: int, jitter: int)
      requires delay > 0
      ensures this.delay == delay && this.jitter == jitter && Valid() && ops == []
    {
      this.delay, this.jitter, lastDir, charged, slept, losses, ops := delay, jitter, 0, 0, 0, 0, [];
    }

    /** The losses alone are slept for in full; without jitter the total is exactly one base delay for
        each one charged and each loss, so at most two for each one charged. */
    ghost predicate SleptFor()
      reads this
    {
      && delay > 0 && losses <= charged && losses * delay <= slept
      && (jitter <= 0 ==> slept == (charged + losses) * delay && charged * delay <= slept <= 2 * (charged * delay))
    }

    ghost predicate Valid()
      reads this
    {
      lastDir == LastDir(ops) && charged == Changes(ops) && SleptFor()
    }

    method Charge(noise: int, lost: bool)
      requires SleptFor()
      modifies this`charged, this`slept, this`losses
      ensures SleptFor() && charged == old(charged) + 1 && losses == old(losses) + (if lost then 1 else 0)
      ensures slept == old(slept) + Sleep(delay, jitter, noise, lost)
    {
      var d := SleepFor(delay, jitter, noise, lost);
      SleepMeans(delay, jitter, noise, noise, lost);
      OneMoreDelay(charged, losses, delay, lost);
      charged, slept, losses := charged + 1, slept + d, losses + if lost then 1 else 0;
    }

    method Read(noise: int, lost: bool)
      requires Valid()
      modifies this
      ensures Valid() && ops == old(ops) + [R]
      ensures slept == old(slept) + if old(lastDir) == 1 then 0 else Sleep(delay, jitter, noise, lost)
    {
      OneMore(ops, R);
      assert (ops + [R])[..|ops|] == ops;
      if lastDir != 1 {
        lastDir := 1;
        Charge(noise, lost);
      }
      ops := ops + [R];
    }

    method Write(noise: int, lost: bool)
      requires Valid()
      modifies this
      ensures Valid() && ops == old(ops) + [W]
      ensures slept == old(slept) + if old(lastDir) == 2 then 0 else Sleep(delay, jitter, noise, lost)
    {
      OneMore(ops, W);
      assert (ops + [W])[..|ops|] == ops;
      if lastDir != 2 {
        lastDir := 2;
        Charge(noise, lost);
      }
      ops := ops + [W];
    }
  }

  lemma OneMoreDelay(n: nat, losses: nat, delay: int, lost: bool)
    requires delay > 0 && losses <= n
    ensures (n + 1) * delay == n * delay + delay && (losses + 1) * delay == losses * delay + delay
    ensures (n + losses + 1) * delay == (n + losses) * delay + delay
    ensures (n + losses + 2) * delay == (n + losses) * delay + 2 * delay
  {
  }

  /** The delays charged against the round trips counted, on any non-empty use of a connection: two
      for each round trip, one more if it opens with a read, and one more if it ends with a write. */
  lemma {:induction false} DelaysAgainstTrips(ops: seq<Dir>)
    requires ops != []
    ensures Changes(ops) == 2 * Trips(ops) + (if ops[0] == R then 1 else 0) + (if ops[|ops| - 1] == W then 1 else 0)
  {
    if |ops| == 1 {
      assert Changes(ops[..0]) == 0;
    } else {
      DelaysAgainstTrips(ops[..|ops| - 1]);
    }
  }
}
