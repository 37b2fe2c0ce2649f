/** The site proxy: it runs a list of commands over an SSH connection to the device, either one
    connection per request or one pooled connection that is dropped when it fails. */
module Proxy {
  import opened Wrappers

  /** What one command's session gives. */
  datatype SessionResult = Output(text: string) | NoSession | ExecFailed

  /** The index of the first failed session, or the number of sessions. */
  function FirstFailure(results: seq<SessionResult>): (k: nat)
    ensures k <= |results|
    ensures forall i :: 0 <= i < k ==> results[i].Output?
    ensures k < |results| ==> !results[k].Output?
  {
    if results == [] || !results[0].Output? then 0 else 1 + FirstFailure(results[1..])
  }

  /** The texts of the first `k` sessions, one after the other. */
  function Collected(results: seq<SessionResult>, k: nat): string
    requires k <= |results| && forall i :: 0 <= i < k ==> results[i].Output?
  {
    if k == 0 then "" else Collected(results, k - 1) + results[k - 1].text
  }

  class ProxyServer {
    const pooled: bool
    var pool: Option<nat>
    // connections dialed so far, and those closed by the server, in order
    var dialed: nat
    ghost var closed: seq<nat>

    constructor (pooled: bool)
      ensures this.pooled == pooled && pool == None && dialed == 0 && closed == []
    {
      this.pooled, pool, dialed, closed := pooled, None, 0, [];
    }

    /** Closed connections are distinct and were dialed; the pooled one is open; a server that
        does not pool has none. */
    ghost predicate Valid()
      reads this
    {
      && (forall i :: 0 <= i < |closed| ==> closed[i] < dialed)
      && (forall i, j :: 0 <= i < j < |closed| ==> closed[i] != closed[j])
      && (pool.Some? ==> pooled && pool.value < dialed && pool.value !in closed)
      && dialed == |closed| + (if pool.Some? then 1 else 0)
    }

    method Dial(up: bool) returns (conn: Option<nat>)
      modifies this`dialed
      ensures up ==> conn == Some(old(dialed)) && dialed == old(dialed) + 1
      ensures !up ==> conn == None && dialed == old(dialed)
    {
      if !up { return None; }
      conn, dialed := Some(dialed), dialed + 1;
    }

    /** The pooled connection if there is one, else a new one if dialing succeeds. */
    method GetSSH(up: bool) returns (conn: Option<nat>)
      modifies this`dialed, this`pool
      ensures old(pool).Some? && pooled ==> conn == old(pool) && pool == old(pool) && dialed == old(dialed)
      ensures !(old(pool).Some? && pooled) && !up ==> conn == None && pool == old(pool) && dialed == old(dialed)
      ensures !(old(pool).Some? && pooled) && up ==>
                conn == Some(old(dialed)) && dialed == old(dialed) + 1 &&
                pool == if pooled then conn else old(pool)
    {
      if !pooled {
        conn := Dial(up);
        return;
      }
      if pool.Some? { return pool; }
      conn := Dial(up);
      if conn.None? { return; }
      pool := conn;
    }

    method ResetPool()
      modifies this`pool, this`closed
      ensures pool == None
      ensures closed == old(closed) + if old(pool).Some? then [old(pool).value] else []
    {
      if pool.Some? {
        closed := closed + [pool.value];
        pool := None;
      }
    }

    /** Runs the commands until one fails. `up` says whether a dial succeeds, and `results` what
        each session gives. The returned text is what the commands before the first failure
        gave; a pooled connection survives success, and is closed and forgotten on failure; a
        fresh one is always closed. */
    method RunCommands(cmds: seq<string>, up: bool, results: seq<SessionResult>)
      returns (text: string, ok: bool)
      requires Valid() && |results| == |cmds|
      modifies this
      ensures Valid()
      ensures ok <==> (old(pool).Some? || up) && FirstFailure(results) == |cmds|
      ensures text == if old(pool).Some? || up then Collected(results, FirstFailure(results)) else ""
      ensures dialed == old(dialed) + if old(pool).None? && up then 1 else 0
      ensures pooled && ok ==>
                pool == (if old(pool).Some? then old(pool) else Some(old(dialed))) && closed == old(closed)
      ensures pooled && !ok ==> pool == None
      ensures old(closed) <= closed
      ensures !pooled && up ==> closed == old(closed) + [old(dialed)]
    {
      text, ok := "", false;
      var conn := GetSSH(up);
      if conn.None? { return; }
      var i := 0;
      while i < |cmds|
        invariant 0 <= i <= FirstFailure(results)
        invariant text == Collected(results, i)
      {
        if !results[i].Output? { break; }
        text := text + results[i].text;
        i := i + 1;
      }
      ok := i == |cmds|;
      if !ok && pooled { ResetPool(); }
      if !pooled { closed := closed + [conn.value]; }
    }

    /** Closing the server drops the pooled connection; nothing dialed stays open. */
    method Close()
      requires Valid()
      modifies this`pool, this`closed
      ensures Valid() && pool == None && dialed == |closed|
    {
      if pool.Some? {
        closed := closed + [pool.value];
        pool := None;
      }
    }
  }
}
