/** The benchmark's shell client as it runs: wait for the prompt, prepare the session, send the
    commands one at a time, verifying each echo, and leave. */
module PtyDriver {
  import opened Text
  import opened Device
  import opened Channel
  import opened SshServer
  import opened PtyClient

  /** A shell session seen from the client: what is written reaches the server's line editor,
      whose answer becomes readable in pieces that only the channel knows. */
  class Shell {
    const d: Device
    const server: Channel
    const client: Channel
    var line: string
    var done: bool
    ghost var ran: seq<string>

    constructor (d: Device)
      ensures this.d == d && fresh(server) && fresh(client) && Valid()
      ensures State() == FRESH && ran == [] && client.incoming == d.Prompt()
    {
      this.d := d;
      server := new Channel("", "");
      client := new Channel(d.hostname + "#", "");
      line, done, ran := "", false, [];
    }

    ghost predicate Valid()
      reads this, server
    {
      server != client && server.outgoing == ""
    }

    ghost function State(): Editor
      reads this
    {
      Editor(line, done)
    }

    method Write(s: string)
      requires Valid()
      modifies this`line, this`done, this`ran, server`outgoing, client`incoming
      ensures Valid()
      ensures client.incoming == old(client.incoming) + Emit(d, old(State()), s)
      ensures State() == After(old(State()), s) && ran == old(ran) + Executed(old(State()), s)
    {
      hide Emit, Executed, After;
      EndedIsSilent(d, State(), s);
      if done { return; }
      ghost var more;
      line, done, more := OnRead(d, server, line, s);
      ran := ran + more;
      client.incoming := client.incoming + server.outgoing;
      server.outgoing := "";
    }
  }

  /** What has to hold for a command to be exchanged in lock-step. */
  ghost predicate Exchangeable(d: Device, prompt: string, cmd: string) {
    prompt == d.Prompt() && Unbordered(prompt) && Plain(cmd) && Quiet(d, cmd)
  }

  lemma ExchangeFinds(d: Device, prompt: string, cmd: string)
    requires Exchangeable(d, prompt, cmd)
    ensures Index(Response(d, cmd), cmd) == 0
    ensures Response(d, cmd)[|cmd|..] == Reply(d, cmd) + prompt
    ensures Index(Reply(d, cmd) + prompt, prompt) == |Reply(d, cmd)|
    ensures (Reply(d, cmd) + prompt)[|Reply(d, cmd)| + |prompt|..] == ""
  {
    hide Reply;
    assert At(Response(d, cmd), cmd, 0);
    PromptEndsReply(d, Reply(d, cmd));
    IndexIs(Reply(d, cmd) + prompt, prompt, |Reply(d, cmd)|);
  }

  /** Send one command, wait for its echo, then for the prompt. */
  method RunCommand(sh: Shell, pr: PtyReader, prompt: string, cmd: string) returns (ok: bool)
    requires sh.Valid() && pr.r == sh.client
    modifies sh`line, sh`done, sh`ran, sh.server`outgoing, sh.client`incoming, sh.client`tail, pr`buf
    ensures sh.Valid()
    ensures Exchangeable(sh.d, prompt, cmd) && old(pr.Stream()) == "" && old(sh.State()) == FRESH ==>
              ok && pr.Stream() == "" && sh.State() == FRESH && sh.ran == old(sh.ran) + NonBlank([cmd])
  {
    hide Reply, Plain, Quiet, Emit, Executed, After, NonBlank;
    sh.Write(cmd + "\n");
    if Exchangeable(sh.d, prompt, cmd) {
      CommandOnTheWire(sh.d, cmd);
      ExchangeFinds(sh.d, prompt, cmd);
      assert cmd + "\n" == cmd + [LF];
      assert old(pr.Stream()) == "" && old(sh.State()) == FRESH ==> pr.Stream() == Response(sh.d, cmd);
    }
    ok := pr.ReadUntil(cmd);
    if !ok { return; }
    ok := pr.ReadUntil(prompt);
  }

  function Repeat(cmd: string, n: nat): seq<string> {
    seq(n, _ => cmd)
  }

  /** The benchmark loop. */
  method ShowVersions(sh: Shell, pr: PtyReader, prompt: string, cmds: nat) returns (ok: bool)
    requires sh.Valid() && pr.r == sh.client
    modifies sh`line, sh`done, sh`ran, sh.server`outgoing, sh.client`incoming, sh.client`tail, pr`buf
    ensures sh.Valid()
    ensures Exchangeable(sh.d, prompt, "show version") && old(pr.Stream()) == "" && old(sh.State()) == FRESH ==>
              ok && pr.Stream() == "" && sh.State() == FRESH &&
              sh.ran == old(sh.ran) + Repeat("show version", cmds)
  {
    hide Exchangeable, NonBlank, Emit, Executed, After, Index;
    ghost var good := Exchangeable(sh.d, prompt, "show version") && pr.Stream() == "" && sh.State() == FRESH;
    ghost var before := sh.ran;
    OwnCommands("show version");
    for i := 0 to cmds
      invariant sh.Valid()
      invariant good ==> pr.Stream() == "" && sh.State() == FRESH
      invariant good ==> sh.ran == before + Repeat("show version", i)
    {
      Assoc(before, Repeat("show version", i), ["show version"]);
      ok := RunCommand(sh, pr, prompt, "show version");
      if !ok { return; }
      assert Repeat("show version", i + 1) == Repeat("show version", i) + ["show version"];
    }
    ok := true;
  }

  const PREPARATION: seq<string> := ["terminal length 0", "terminal width 511"]

  ghost predicate Ready(d: Device, prompt: string) {
    && Exchangeable(d, prompt, PREPARATION[0]) && Exchangeable(d, prompt, PREPARATION[1])
    && Exchangeable(d, prompt, "show version")
  }

  /** The client as it runs. If the prompt it was given is the device's, the prompt has no border
      and none of the three answers looks like a prompt, every wait succeeds, the device runs
      exactly the two preparation commands and then `cmds` times "show version", and when the
      client leaves, only the echo of its `exit` is left to read. */
  method PtyExecCmds(sh: Shell, prompt: string, cmds: nat) returns (ok: bool, pr: PtyReader)
    requires sh.Valid() && sh.client.incoming == sh.d.Prompt() && sh.State() == FRESH && sh.ran == []
    modifies sh`line, sh`done, sh`ran, sh.server`outgoing, sh.client`incoming, sh.client`tail
    ensures Ready(sh.d, prompt) ==>
              ok && sh.done && pr.Stream() == "exit\r\n" &&
              sh.ran == ["terminal length 0", "terminal width 511"] + seq(cmds, _ => "show version")
  {
    hide Exchangeable, NonBlank, Emit, Executed, After, Index;
    ghost var good := Ready(sh.d, prompt);
    ghost var d := sh.d;
    pr := new PtyReader(sh.client);
    if good { FirstPromptFound(d, prompt); }
    assert pr.Stream() == d.Prompt();
    ok := pr.ReadUntil(prompt);
    if !ok { return; }
    var prep := ["terminal length 0", "terminal width 511"];
    for i := 0 to 2
      invariant sh.Valid() && pr.r == sh.client && fresh(pr)
      invariant good ==> pr.Stream() == "" && sh.State() == FRESH && sh.ran == prep[..i]
    {
      OwnCommands(prep[i]);
      ok := RunCommand(sh, pr, prompt, prep[i]);
      if !ok { return; }
    }
    assert prep[..2] == PREPARATION;
    ok := ShowVersions(sh, pr, prompt, cmds);
    if !ok { return; }
    ExitOnTheWire(d);
    sh.Write("exit\n");
    return true, pr;
  }

  lemma OwnCommands(cmd: string)
    requires cmd == "terminal length 0" || cmd == "terminal width 511" || cmd == "show version"
    ensures NonBlank([cmd]) == [cmd]
  {
    assert "" + cmd + "" == cmd;
    TrimUnique("", cmd, "");
    NonBlankLine(cmd);
  }

  lemma FirstPromptFound(d: Device, prompt: string)
    requires Ready(d, prompt)
    ensures Index(d.Prompt(), prompt) == 0 && d.Prompt()[|prompt|..] == ""
  {
    assert At(d.Prompt(), prompt, 0);
  }
}
