/** Client and server of the interactive shell, running at the same time over two byte streams.
    Each event moves some bytes: the server reads a piece of what was typed and answers it, or
    the client reads a piece of what was answered, or the client finds what it waits for. */
module PtyLockstep {
  import opened Text
  import opened Device
  import opened SshServer
  import opened PtyClient

  datatype Phase = FirstPrompt | AwaitEcho | AwaitPrompt | Finished

  /** `sent` commands have been written; `up` and `down` are the bytes in flight. */
  datatype World = World(sent: nat, phase: Phase, buf: string, up: string, editor: Editor,
                         down: string, ran: seq<string>)

  datatype Event = ServerReads(n: nat) | ClientReads(n: nat) | ClientMatches

  /** A device, and the commands the client is going to send. */
  datatype Setup = Setup(d: Device, cmds: seq<string>)

  /** Commands the protocol can carry, with answers that do not look like a prompt. */
  ghost predicate Ordinary(c: Setup) {
    forall i :: 0 <= i < |c.cmds| ==> Plain(c.cmds[i]) && Quiet(c.d, c.cmds[i])
  }

  ghost predicate Suitable(c: Setup) {
    Unbordered(c.d.Prompt()) && Ordinary(c)
  }

  function Initial(c: Setup): World {
    World(0, FirstPrompt, "", "", FRESH, c.d.Prompt(), [])
  }

  /** What the client waits for. */
  function Target(c: Setup, w: World): string {
    if w.phase == AwaitEcho && 0 < w.sent <= |c.cmds| then c.cmds[w.sent - 1] else c.d.Prompt()
  }

  predicate Enabled(c: Setup, w: World, e: Event) {
    match e
    case ServerReads(n) => 0 < n <= |w.up| && !w.editor.done
    case ClientReads(n) => w.phase != Finished && !Contains(w.buf, Target(c, w)) && 0 < n <= |w.down|
    case ClientMatches => w.phase != Finished && Contains(w.buf, Target(c, w))
  }

  /** The client writes its next command, or `exit` after the last one. */
  function WriteNext(c: Setup, w: World): World {
    if w.sent < |c.cmds| then
      w.(up := w.up + (c.cmds[w.sent] + [LF]), sent := w.sent + 1, phase := AwaitEcho)
    else
      w.(up := w.up + "exit\n", phase := Finished)
  }

  ghost function Apply(c: Setup, w: World, e: Event): World
    requires Enabled(c, w, e)
  {
    match e
    case ServerReads(n) =>
      var piece := w.up[..n];
      w.(up := w.up[n..], editor := After(w.editor, piece), down := w.down + Emit(c.d, w.editor, piece),
         ran := w.ran + Executed(w.editor, piece))
    case ClientReads(n) => w.(buf := w.buf + w.down[..n], down := w.down[n..])
    case ClientMatches =>
      var t := Target(c, w);
      var w' := w.(buf := w.buf[Index(w.buf, t) + |t|..]);
      if w.phase == AwaitEcho then w'.(phase := AwaitPrompt) else WriteNext(c, w')
  }

  ghost predicate Possible(c: Setup, w: World, es: seq<Event>)
    decreases |es|
  {
    es == [] || (Enabled(c, w, es[0]) && Possible(c, Apply(c, w, es[0]), es[1..]))
  }

  ghost function Run(c: Setup, w: World, es: seq<Event>): World
    requires Possible(c, w, es)
    decreases |es|
  {
    if es == [] then w else Run(c, Apply(c, w, es[0]), es[1..])
  }

  /* ---- the invariant ---- */

  /** What the client has not consumed yet: buffered, in flight, or still to be answered. */
  ghost function Ahead(c: Setup, w: World): string {
    w.buf + w.down + Emit(c.d, w.editor, w.up)
  }

  /** The server will have finished `cmds` commands, and nothing else, once it has read `up`. */
  ghost predicate OnTrack(w: World, cmds: seq<string>) {
    && !w.editor.done && After(w.editor, w.up) == FRESH
    && (forall i :: 0 <= i < |w.up| ==> !IsErase(w.up[i]))
    && w.ran + Executed(w.editor, w.up) == NonBlank(cmds)
  }

  ghost predicate Inv(c: Setup, w: World) {
    && w.sent <= |c.cmds|
    && match w.phase
       case FirstPrompt => w.sent == 0 && OnTrack(w, []) && Ahead(c, w) == c.d.Prompt()
       case AwaitEcho => 0 < w.sent && OnTrack(w, c.cmds[..w.sent])
                         && Ahead(c, w) == Response(c.d, c.cmds[w.sent - 1])
       case AwaitPrompt => 0 < w.sent && OnTrack(w, c.cmds[..w.sent])
                           && Ahead(c, w) == Reply(c.d, c.cmds[w.sent - 1]) + c.d.Prompt()
       case Finished => w.sent == |c.cmds| && w.buf == "" && Ahead(c, w) == "exit\r\n"
                        && After(w.editor, w.up) == Editor("", true)
                        && w.ran + Executed(w.editor, w.up) == NonBlank(c.cmds)
  }

  lemma {:induction false} NothingUnanswered(d: Device, e: Editor, up: string)
    requires !e.done
    requires forall i :: 0 <= i < |up| ==> !IsErase(up[i])
    ensures up != "" ==> Emit(d, e, up) != ""
  {
    if up != "" { assert |Echo(d, e, up[0])| > 0; }
  }

  /** A buffer that holds the closing text of the stream holds all of the stream. */
  lemma WholeBuffer(body: string, p: string, buf: string, more: string)
    requires buf + more == body + p && FirstAt(body + p, p, |body|) && Contains(buf, p)
    ensures buf == body + p && more == "" && Index(buf, p) == |body|
  {
    IndexAppend(buf, more, p);
    IndexIs(body + p, p, |body|);
    assert |buf| >= |body| + |p| == |buf| + |more|;
    assert buf + more == buf;
  }

  lemma Regroup(buf: string, down: string, e1: string, e2: string)
    ensures buf + (down + e1) + e2 == buf + down + (e1 + e2)
  {
  }

  /** When the echo has arrived it is the very next thing in the client's buffer. */
  lemma EchoComesFirst(c: Setup, w: World)
    requires Inv(c, w) && w.phase == AwaitEcho && Contains(w.buf, Target(c, w))
    ensures Index(w.buf, Target(c, w)) == 0
  {
    hide Emit, Executed, After, NonBlank, Reply;
    var cmd := c.cmds[w.sent - 1];
    var rest := w.down + Emit(c.d, w.editor, w.up);
    assert Ahead(c, w) == w.buf + rest;
    OpeningText(w.buf, rest, cmd, Reply(c.d, cmd) + c.d.Prompt());
  }

  lemma OpeningText(buf: string, more: string, t: string, rest: string)
    requires buf + more == t + rest && Contains(buf, t)
    ensures Index(buf, t) == 0
  {
    assert |buf| >= |t|;
    assert buf[..|t|] == (buf + more)[..|t|] == (t + rest)[..|t|] == t;
    assert At(buf, t, 0);
  }

  /** The answer that the client is waiting to see the end of. */
  ghost function Awaited(c: Setup, w: World): string
    requires w.phase == AwaitPrompt ==> 0 < w.sent <= |c.cmds|
  {
    if w.phase == AwaitPrompt then Reply(c.d, c.cmds[w.sent - 1]) else ""
  }

  lemma AwaitedIsQuiet(c: Setup, w: World)
    requires Ordinary(c) && Inv(c, w) && (w.phase == FirstPrompt || w.phase == AwaitPrompt)
    ensures !Contains(Awaited(c, w), c.d.Prompt())
    ensures w.buf + (w.down + Emit(c.d, w.editor, w.up)) == Awaited(c, w) + c.d.Prompt()
    ensures !w.editor.done && After(w.editor, w.up) == FRESH && forall i :: 0 <= i < |w.up| ==> !IsErase(w.up[i])
  {
    hide Index, NonBlank, Executed, Reply, Plain, Emit, After;
    ShortBody(c.d.Prompt());
    assert "" + c.d.Prompt() == c.d.Prompt();
    Assoc(w.buf, w.down, Emit(c.d, w.editor, w.up));
  }

  /** When the prompt has arrived, the whole answer is in the buffer and nothing is in flight. */
  lemma PromptComesLast(c: Setup, w: World)
    requires Suitable(c) && Inv(c, w) && Contains(w.buf, c.d.Prompt())
    requires w.phase == FirstPrompt || w.phase == AwaitPrompt
    ensures w.buf == Awaited(c, w) + c.d.Prompt() && Index(w.buf, c.d.Prompt()) == |Awaited(c, w)|
    ensures w.down == "" && w.up == "" && w.editor == FRESH
  {
    AwaitedIsQuiet(c, w);
    hide Emit, Ahead, Inv, Index, Awaited, Unbordered, Contains, FirstAt, Ordinary;
    PromptEndsReply(c.d, Awaited(c, w));
    WholeBuffer(Awaited(c, w), c.d.Prompt(), w.buf, w.down + Emit(c.d, w.editor, w.up));
    NothingUnanswered(c.d, w.editor, w.up);
  }

  lemma ShortBody(p: string)
    requires p != ""
    ensures !Contains("", p)
  {
  }

  /* ---- every event keeps the invariant ---- */

  /** However much the server reads at once, what lies ahead of the client, what the server
      will have run, and how its editor will end up stay the same. */
  lemma ServerConserves(c: Setup, w: World, n: nat)
    requires Enabled(c, w, ServerReads(n))
    ensures var w' := Apply(c, w, ServerReads(n));
            Ahead(c, w') == Ahead(c, w) && After(w'.editor, w'.up) == After(w.editor, w.up) &&
            w'.ran + Executed(w'.editor, w'.up) == w.ran + Executed(w.editor, w.up)
  {
    hide Emit, Executed, After, Index;
    var piece, rest := w.up[..n], w.up[n..];
    assert w.up == piece + rest;
    var mid := After(w.editor, piece);
    SessionAppend(w.editor, piece, rest);
    EmitAppend(c.d, w.editor, piece, rest);
    Assoc(w.ran, Executed(w.editor, piece), Executed(mid, rest));
    Regroup(w.buf, w.down, Emit(c.d, w.editor, piece), Emit(c.d, mid, rest));
  }

  lemma DoneStaysDone(e: Editor, s: string)
    ensures e.done ==> After(e, s) == e
  {
  }

  lemma ServerKeeps(c: Setup, w: World, n: nat)
    requires Inv(c, w) && Enabled(c, w, ServerReads(n))
    ensures Inv(c, Apply(c, w, ServerReads(n)))
  {
    hide Ahead, Emit, Executed, After, NonBlank, Reply, Response;
    ServerConserves(c, w, n);
    var w' := Apply(c, w, ServerReads(n));
    DoneStaysDone(w'.editor, w'.up);
  }

  lemma ReadKeeps(c: Setup, w: World, n: nat)
    requires Inv(c, w) && Enabled(c, w, ClientReads(n))
    ensures Inv(c, Apply(c, w, ClientReads(n)))
  {
    hide Exec, NonBlank, Executed, After, Emit, Reply, Response, Index;
    var w' := Apply(c, w, ClientReads(n));
    assert w.down == w.down[..n] + w.down[n..];
    assert w'.buf + w'.down == w.buf + w.down;
    assert Ahead(c, w') == Ahead(c, w);
  }

  lemma WriteKeeps(c: Setup, w: World)
    requires Suitable(c) && w.sent <= |c.cmds|
    requires w.buf == "" && w.down == "" && w.up == "" && w.editor == FRESH
    requires w.ran == NonBlank(c.cmds[..w.sent])
    ensures Inv(c, WriteNext(c, w))
  {
    hide Exec, NonBlank, Emit, Executed, After, Reply, Response, Index;
    var w' := WriteNext(c, w);
    if w.sent < |c.cmds| {
      var cmd := c.cmds[w.sent];
      CommandOnTheWire(c.d, cmd);
      assert w'.up == cmd + [LF];
      assert c.cmds[..w.sent + 1] == c.cmds[..w.sent] + [cmd];
      NonBlankAppend(c.cmds[..w.sent], [cmd]);
      assert Ahead(c, w') == Response(c.d, cmd);
    } else {
      ExitOnTheWire(c.d);
      assert w'.up == "exit\n" && c.cmds[..w.sent] == c.cmds;
      assert Ahead(c, w') == "exit\r\n";
    }
  }

  lemma EchoMatchKeeps(c: Setup, w: World)
    requires Inv(c, w) && Enabled(c, w, ClientMatches) && w.phase == AwaitEcho
    ensures Inv(c, Apply(c, w, ClientMatches))
  {
    hide Exec, NonBlank, Executed, After, Emit, Reply;
    var cmd := c.cmds[w.sent - 1];
    EchoComesFirst(c, w);
    var w' := Apply(c, w, ClientMatches);
    var rest := w.down + Emit(c.d, w.editor, w.up);
    var reply := Reply(c.d, cmd) + c.d.Prompt();
    assert Ahead(c, w) == w.buf + rest == cmd + reply;
    assert w'.buf == w.buf[|cmd|..];
    assert w.buf[|cmd|..] + rest == (cmd + reply)[|cmd|..] == reply;
    assert Ahead(c, w') == w'.buf + rest;
  }

  lemma PromptMatchKeeps(c: Setup, w: World)
    requires Suitable(c) && Inv(c, w) && Enabled(c, w, ClientMatches) && w.phase != AwaitEcho
    ensures Inv(c, Apply(c, w, ClientMatches))
  {
    hide Exec, Emit, Reply, Response, Ahead, NonBlank;
    PromptComesLast(c, w);
    assert Executed(w.editor, w.up) == [];
    assert w.ran + [] == w.ran;
    assert c.cmds[..0] == [];
    assert w.ran == NonBlank(c.cmds[..w.sent]);
    assert w.buf[|w.buf|..] == "";
    WriteKeeps(c, w.(buf := ""));
    assert Apply(c, w, ClientMatches) == WriteNext(c, w.(buf := ""));
  }

  lemma EventKeeps(c: Setup, w: World, e: Event)
    requires Suitable(c) && Inv(c, w) && Enabled(c, w, e)
    ensures Inv(c, Apply(c, w, e))
  {
    match e
    case ServerReads(n) => ServerKeeps(c, w, n);
    case ClientReads(n) => ReadKeeps(c, w, n);
    case ClientMatches => if w.phase == AwaitEcho { EchoMatchKeeps(c, w); } else { PromptMatchKeeps(c, w); }
  }

  lemma InitialInv(c: Setup)
    ensures Inv(c, Initial(c))
  {
    var w := Initial(c);
    assert Ahead(c, w) == c.d.Prompt();
  }

  lemma {:induction false} RunKeeps(c: Setup, w: World, es: seq<Event>)
    requires Suitable(c)
    ensures Inv(c, w) && Possible(c, w, es) ==> Inv(c, Run(c, w, es))
    decreases |es|
  {
    if Inv(c, w) && Possible(c, w, es) && es != [] {
      EventKeeps(c, w, es[0]);
      RunKeeps(c, Apply(c, w, es[0]), es[1..]);
    }
  }

  /* ---- the main results ---- */

  /** Whatever the client finds, it is what it meant to find: while it waits for an echo, all it can
      still read is the response to the command it just sent. */
  ghost predicate InStep(c: Setup, w: World) {
    && (w.phase == AwaitEcho ==>
          && 0 < w.sent <= |c.cmds| && Target(c, w) == c.cmds[w.sent - 1]
          && Ahead(c, w) == Response(c.d, c.cmds[w.sent - 1])
          && (Contains(w.buf, Target(c, w)) ==> Index(w.buf, Target(c, w)) == 0))
    && (w.phase == AwaitPrompt && Contains(w.buf, Target(c, w)) ==>
          && 0 < w.sent <= |c.cmds|
          && w.buf == Reply(c.d, c.cmds[w.sent - 1]) + c.d.Prompt()
          && Index(w.buf, Target(c, w)) == |Reply(c.d, c.cmds[w.sent - 1])|
          && w.down == "" && w.up == "" && w.editor == FRESH
          && w.ran == NonBlank(c.cmds[..w.sent]))
  }

  /** Lock-step, for every way of cutting and interleaving the two streams: each wait for a
      command's echo ends on that echo, each wait for a prompt ends on the prompt behind that
      command's answer, and at that moment the server has run exactly the commands sent so far
      and no byte is in flight in either direction. */
  lemma LockStep(c: Setup, es: seq<Event>)
    requires Suitable(c) && Possible(c, Initial(c), es)
    ensures InStep(c, Run(c, Initial(c), es))
  {
    InitialInv(c);
    RunKeeps(c, Initial(c), es);
    AlwaysInStep(c, Run(c, Initial(c), es));
  }

  lemma AlwaysInStep(c: Setup, w: World)
    requires Suitable(c) && Inv(c, w)
    ensures InStep(c, w)
  {
    hide Exec, Emit, Reply, Response, Ahead;
    if w.phase == AwaitEcho && Contains(w.buf, Target(c, w)) { EchoComesFirst(c, w); }
    if w.phase == AwaitPrompt && Contains(w.buf, Target(c, w)) {
      PromptComesLast(c, w);
      assert w.ran + Executed(w.editor, w.up) == w.ran;
    }
  }

  /** Every client of every device with this hostname stays in step, in all runs. */
  ghost predicate StaysInStep(hostname: string) {
    forall c: Setup, es :: c.d.hostname == hostname && Ordinary(c) && Possible(c, Initial(c), es) ==>
      InStep(c, Run(c, Initial(c), es))
  }

  /** The exact condition for lock-step: the prompt must not overlap itself. */
  lemma LockStepExactly(hostname: string)
    ensures StaysInStep(hostname) <==> Unbordered(hostname + "#")
  {
    hide Possible, Run, InStep, Plain, Unbordered, Initial;
    if Unbordered(hostname + "#") {
      forall c: Setup, es | c.d.hostname == hostname && Ordinary(c) && Possible(c, Initial(c), es)
        ensures InStep(c, Run(c, Initial(c), es))
      {
        LockStep(c, es);
      }
    } else {
      var b := Border(hostname + "#");
      BorderSlips(hostname, b);
      var text := (hostname + "#")[..|hostname + "#"| - b];
      ShowingShows(hostname, text);
      var c := Setup(Showing(hostname, text), ["show"]);
      var es := OutOfStep(c, "show");
    }
  }

  lemma RunCons(c: Setup, w: World, e: Event, es: seq<Event>)
    requires Enabled(c, w, e) && Possible(c, Apply(c, w, e), es)
    ensures Possible(c, w, [e] + es) && Run(c, w, [e] + es) == Run(c, Apply(c, w, e), es)
  {
    assert ([e] + es)[1..] == es;
  }

  /** A run that goes out of step: the answer to `cmd` completes the prompt early. */
  lemma OutOfStep(c: Setup, cmd: string) returns (es: seq<Event>)
    requires c.cmds == [cmd] && Plain(cmd) && cmd != "" && !PromptIsReal(c.d, cmd)
    ensures Possible(c, Initial(c), es) && !InStep(c, Run(c, Initial(c), es))
  {
    hide Plain, Enabled, Apply, InStep, PromptIsReal, Index;
    var w1 := TakePrompt(c, cmd);
    var w2 := AnswerCommand(c, cmd, w1);
    var w3, last := TakeEcho(c, cmd, w2);
    LeftBehind(c, cmd, w3);
    var tail := [ServerReads(|cmd| + 1)] + last;
    RunCons(c, w1, ServerReads(|cmd| + 1), last);
    RunCons(c, Apply(c, Initial(c), ClientReads(|c.d.Prompt()|)), ClientMatches, tail);
    RunCons(c, Initial(c), ClientReads(|c.d.Prompt()|), [ClientMatches] + tail);
    es := [ClientReads(|c.d.Prompt()|)] + ([ClientMatches] + tail);
  }

  lemma TakePrompt(c: Setup, cmd: string) returns (w: World)
    requires c.cmds == [cmd]
    ensures var e := ClientReads(|c.d.Prompt()|);
            Enabled(c, Initial(c), e) && Enabled(c, Apply(c, Initial(c), e), ClientMatches) &&
            w == Apply(c, Apply(c, Initial(c), e), ClientMatches)
    ensures w == World(1, AwaitEcho, "", cmd + [LF], FRESH, "", [])
  {
    var p := c.d.Prompt();
    ShortBody(p);
    var w0 := Initial(c);
    var w1 := Apply(c, w0, ClientReads(|p|));
    assert w1 == World(0, FirstPrompt, p, "", FRESH, "", []);
    assert At(p, p, 0);
    assert Index(p, p) == 0;
    w := Apply(c, w1, ClientMatches);
    assert p[|p|..] == "" && "" + (cmd + [LF]) == cmd + [LF];
  }

  lemma AnswerCommand(c: Setup, cmd: string, w: World) returns (w': World)
    requires Plain(cmd) && w == World(1, AwaitEcho, "", cmd + [LF], FRESH, "", [])
    ensures Enabled(c, w, ServerReads(|cmd| + 1)) && w' == Apply(c, w, ServerReads(|cmd| + 1))
    ensures w' == World(1, AwaitEcho, "", "", FRESH, Response(c.d, cmd), NonBlank([cmd]))
  {
    hide Emit, Executed, After, Response, NonBlank;
    CommandOnTheWire(c.d, cmd);
    w' := Apply(c, w, ServerReads(|cmd| + 1));
    assert w.up[..|cmd| + 1] == w.up && w.up[|cmd| + 1..] == "";
    assert "" + Response(c.d, cmd) == Response(c.d, cmd);
  }

  lemma TakeEcho(c: Setup, cmd: string, w: World) returns (w': World, es: seq<Event>)
    requires c.cmds == [cmd] && cmd != ""
    requires w == World(1, AwaitEcho, "", "", FRESH, Response(c.d, cmd), NonBlank([cmd]))
    ensures Possible(c, w, es) && w' == Run(c, w, es)
    ensures w' == World(1, AwaitPrompt, Reply(c.d, cmd) + c.d.Prompt(), "", FRESH, "", NonBlank([cmd]))
  {
    hide Reply, NonBlank;
    ShortBody(cmd);
    var r := Response(c.d, cmd);
    var rest := Reply(c.d, cmd) + c.d.Prompt();
    var w1 := Apply(c, w, ClientReads(|r|));
    assert w1 == World(1, AwaitEcho, r, "", FRESH, "", NonBlank([cmd]));
    assert At(r, cmd, 0);
    assert Index(r, cmd) == 0 && r[|cmd|..] == rest;
    w' := Apply(c, w1, ClientMatches);
    RunCons(c, w1, ClientMatches, []);
    RunCons(c, w, ClientReads(|r|), [ClientMatches] + []);
    es := [ClientReads(|r|)] + ([ClientMatches] + []);
  }

  lemma LeftBehind(c: Setup, cmd: string, w: World)
    requires c.cmds == [cmd] && !PromptIsReal(c.d, cmd)
    requires w == World(1, AwaitPrompt, Reply(c.d, cmd) + c.d.Prompt(), "", FRESH, "", NonBlank([cmd]))
    ensures !InStep(c, w)
  {
    hide Reply, NonBlank;
    var p, body := c.d.Prompt(), Reply(c.d, cmd);
    assert At(w.buf, p, |body|);
    assert Contains(w.buf, p);
    assert FirstAt(w.buf, p, Index(w.buf, p));
  }

  /** Nobody waits for ever: until the client has finished and the server has seen the exit,
      some event can happen. */
  lemma Progress(c: Setup, w: World)
    requires Suitable(c) && Inv(c, w)
    ensures w.phase != Finished || (w.up != "" && !w.editor.done) ==>
              Enabled(c, w, ServerReads(1)) || Enabled(c, w, ClientReads(1)) || Enabled(c, w, ClientMatches)
  {
    hide Exec, NonBlank, Executed, After, Reply, Emit, Contains;
    if w.phase != Finished && w.down == "" && w.up == "" { TargetIsThere(c, w); }
  }

  lemma TargetIsThere(c: Setup, w: World)
    requires Ordinary(c) && Inv(c, w) && w.phase != Finished && w.down == "" && w.up == ""
    ensures Contains(w.buf, Target(c, w))
  {
    hide Exec, NonBlank, Executed, After, Reply, Ordinary;
    assert "" + Emit(c.d, w.editor, w.up) == "";
    if w.phase == AwaitEcho {
      assert w.buf == Ahead(c, w);
      assert At(w.buf, Target(c, w), 0);
    } else {
      AwaitedIsQuiet(c, w);
      hide Inv;
      assert w.buf == Awaited(c, w) + c.d.Prompt();
      assert At(w.buf, Target(c, w), |Awaited(c, w)|);
    }
  }

  /** Bytes that commands not sent yet will put on the wire, both ways, and one per wait. */
  ghost function Unsent(c: Setup, i: nat): nat
    requires i <= |c.cmds|
    decreases |c.cmds| - i
  {
    if i == |c.cmds| then 11 else |c.cmds[i]| + 1 + |Response(c.d, c.cmds[i])| + 2 + Unsent(c, i + 1)
  }

  ghost function Measure(c: Setup, w: World): nat
    requires w.sent <= |c.cmds|
  {
    |w.up| + |w.down| + |Emit(c.d, w.editor, w.up)|
    + (if w.phase == Finished then 0 else if w.phase == AwaitEcho then 2 else 1)
    + (if w.phase == Finished then 0 else Unsent(c, w.sent))
  }

  /** Every event uses something up, so no run is longer than the initial measure. */
  lemma EventUsesUp(c: Setup, w: World, e: Event)
    requires Suitable(c) && w.sent <= |c.cmds| && Inv(c, w) && Enabled(c, w, e)
    ensures Apply(c, w, e).sent <= |c.cmds|
    ensures Measure(c, Apply(c, w, e)) < Measure(c, w)
  {
    hide Exec, Reply, Response, Inv, Echo, Press, Ran, After, Executed;
    match e
    case ServerReads(n) =>
      assert w.up == w.up[..n] + w.up[n..];
      EmitAppend(c.d, w.editor, w.up[..n], w.up[n..]);
    case ClientReads(n) =>
    case ClientMatches =>
      if w.phase != AwaitEcho {
        PromptComesLast(c, w);
        WriteUsesUp(c, w.(buf := ""));
      }
  }

  lemma WriteUsesUp(c: Setup, w: World)
    requires Suitable(c) && w.sent <= |c.cmds| && w.phase != Finished && w.phase != AwaitEcho
    requires w.down == "" && w.up == "" && w.editor == FRESH
    ensures WriteNext(c, w).sent <= |c.cmds|
    ensures Measure(c, WriteNext(c, w)) < Measure(c, w)
  {
    hide Exec, Reply, Response, Plain, Quiet;
    assert Emit(c.d, FRESH, "") == "";
    if w.sent < |c.cmds| {
      assert Plain(c.cmds[w.sent]);
      CommandOnTheWire(c.d, c.cmds[w.sent]);
      assert WriteNext(c, w).up == c.cmds[w.sent] + [LF];
    } else {
      ExitOnTheWire(c.d);
      assert WriteNext(c, w).up == "exit\n";
    }
  }

  lemma {:induction false} RunIsBounded(c: Setup, w: World, es: seq<Event>)
    requires Suitable(c)
    ensures Inv(c, w) && Possible(c, w, es) ==> |es| <= Measure(c, w)
    decreases |es|
  {
    if Inv(c, w) && Possible(c, w, es) && es != [] {
      EventKeeps(c, w, es[0]);
      EventUsesUp(c, w, es[0]);
      RunIsBounded(c, Apply(c, w, es[0]), es[1..]);
    }
  }

  /** Every run is bounded, and a run that cannot go on has done everything: the client has
      finished, and the server has run all commands in order and has ended its session. */
  lemma Completion(c: Setup, es: seq<Event>)
    requires Suitable(c) && Possible(c, Initial(c), es)
    ensures |es| <= Measure(c, Initial(c))
    ensures var w := Run(c, Initial(c), es);
            (forall e :: !Enabled(c, w, e)) ==>
              w.phase == Finished && w.editor.done && w.ran == NonBlank(c.cmds) && w.down == "exit\r\n"
  {
    hide Exec, NonBlank, Reply, Echo, Press, Ran, Measure, Index, Response;
    InitialInv(c);
    RunIsBounded(c, Initial(c), es);
    RunKeeps(c, Initial(c), es);
    var w := Run(c, Initial(c), es);
    Progress(c, w);
    if forall e :: !Enabled(c, w, e) {
      assert !Enabled(c, w, ServerReads(1)) && !Enabled(c, w, ClientReads(1)) && !Enabled(c, w, ClientMatches);
      FinishedIsOver(c, w);
    }
  }

  lemma FinishedIsOver(c: Setup, w: World)
    requires Inv(c, w) && w.phase == Finished && (w.up == "" || w.editor.done)
    ensures w.editor.done && w.ran == NonBlank(c.cmds) && w.down == "exit\r\n"
  {
    hide NonBlank, Reply, Response;
    assert After(w.editor, w.up) == w.editor;
    assert Emit(c.d, w.editor, w.up) == "" && Executed(w.editor, w.up) == [];
    assert Ahead(c, w) == w.down && w.ran + [] == w.ran;
  }
}
