/** The expect-style shell client: a buffered reader that waits for a text to go by, and the
    driver that sends one command after another. */
module PtyClient {
  import opened Text
  import opened Device
  import opened Channel
  import opened SshServer

  class PtyReader {
    const r: Channel
    var buf: string

    constructor (r: Channel)
      ensures this.r == r && buf == ""
    {
      this.r, this.buf := r, "";
    }

    /** Everything the client can still see without an error. */
    ghost function Stream(): string
      reads this, r
    {
      buf + r.incoming
    }

    /** Reads until `target` has gone by. It succeeds exactly when `target` occurs in what
        arrives without an error, and then the stream continues right behind its first
        occurrence, however the bytes were cut. Bytes that come together with the error are
        kept but not searched. */
    method ReadUntil(target: string) returns (ok: bool)
      modifies this`buf, r`incoming, r`tail
      ensures ok <==> Contains(old(Stream()), target)
      ensures ok ==> Stream() == old(Stream())[Index(old(Stream()), target) + |target|..]
      ensures ok ==> r.tail == old(r.tail)
      ensures !ok ==> r.incoming == "" && buf + r.tail == old(Stream()) + old(r.tail)
    {
      ghost var all := Stream();
      while true
        invariant Stream() == all && r.tail == old(r.tail)
        decreases |r.incoming|
      {
        IndexAppend(buf, r.incoming, target);
        var idx := Index(buf, target);
        if idx >= 0 {
          ghost var before := buf;
          buf := buf[idx + |target|..];
          assert buf + r.incoming == (before + r.incoming)[idx + |target|..];
          return true;
        }
        ghost var before := buf;
        var data, err := r.Read(4096);
        buf := buf + data;
        if err {
          assert before == all;
          return false;
        }
        assert buf + r.incoming == before + (data + r.incoming);
      }
    }

    /** A whole conversation: wait for one target after another. */
    method ReadUntilAll(targets: seq<string>) returns (matched: nat)
      modifies this`buf, r`incoming, r`tail
      ensures matched == Matched(old(Stream()), targets)
      ensures matched == |targets| ==> Stream() == Behind(old(Stream()), targets)
    {
      hide Index, Matched, Behind;
      ghost var all := Stream();
      ghost var now := all;
      matched := 0;
      assert targets[0..] == targets;
      while matched < |targets|
        invariant matched <= |targets| && now == Stream()
        invariant Matched(all, targets) == matched + Matched(now, targets[matched..])
        invariant Matched(all, targets) == |targets| ==>
                    Behind(all, targets) == Behind(now, targets[matched..])
      {
        MatchedStep(now, targets, matched);
        var ok := ReadUntil(targets[matched]);
        if !ok { return; }
        now := Stream();
        matched := matched + 1;
      }
      NothingBehind(now);
    }
  }

  lemma NothingBehind(stream: string)
    ensures Matched(stream, []) == 0 && Behind(stream, []) == stream
  {
  }

  lemma MatchedStep(stream: string, targets: seq<string>, k: nat)
    requires k < |targets|
    ensures var i := Index(stream, targets[k]);
            Matched(stream, targets[k..]) ==
              (if i < 0 then 0 else 1 + Matched(stream[i + |targets[k]|..], targets[k + 1..])) &&
            (Matched(stream, targets[k..]) == |targets| - k ==>
              i >= 0 && Behind(stream, targets[k..]) == Behind(stream[i + |targets[k]|..], targets[k + 1..]))
  {
    assert targets[k..][1..] == targets[k + 1..];
  }

  /** How many of `targets` go by in order, each behind the one before. */
  function Matched(stream: string, targets: seq<string>): (n: nat)
    ensures n <= |targets|
    decreases |targets|
  {
    if targets == [] then 0 else
      var i := Index(stream, targets[0]);
      if i < 0 then 0 else 1 + Matched(stream[i + |targets[0]|..], targets[1..])
  }

  /** What follows when all of them have gone by. */
  function Behind(stream: string, targets: seq<string>): string
    requires Matched(stream, targets) == |targets|
    decreases |targets|
  {
    if targets == [] then stream else
      Behind(stream[Index(stream, targets[0]) + |targets[0]|..], targets[1..])
  }

  /** A target that only arrives together with the read error is missed. */
  method MissesTargetDeliveredWithError() returns (ok: bool)
    ensures !ok
  {
    var ch := new Channel("rout", "er#");
    var p := new PtyReader(ch);
    var s, t := "rout", "er#";
    forall i | 0 <= i ensures !At(s, t, i) {
      if i + 3 <= 4 { assert s[i..i + 3][0] == s[i] && s[i] != t[0]; }
    }
    assert p.buf + ch.incoming == s;
    ok := p.ReadUntil(t);
  }

  /* ---- what one command looks like on the wire ---- */

  /** A command the protocol can carry: no line ends, no backspaces, and not an exit. */
  predicate Plain(cmd: string) {
    (forall i :: 0 <= i < |cmd| ==> !IsEnter(cmd[i]) && !IsErase(cmd[i])) && !IsExit(Trim(cmd))
  }

  /** Between the echo of a command and the next prompt. */
  ghost function Reply(d: Device, cmd: string): string {
    [CR, LF] + if Trim(cmd) == "" then "" else Exec(d, Trim(cmd))
  }

  /** Everything the server writes for one command. */
  ghost function Response(d: Device, cmd: string): string {
    cmd + (Reply(d, cmd) + d.Prompt())
  }

  /** The answer does not look like a prompt. */
  ghost predicate Quiet(d: Device, cmd: string) {
    !Contains(Reply(d, cmd), d.Prompt())
  }

  /** The server's side of one command. */
  lemma CommandOnTheWire(d: Device, cmd: string)
    requires Plain(cmd)
    ensures After(FRESH, cmd + [LF]) == FRESH
    ensures Emit(d, FRESH, cmd + [LF]) == Response(d, cmd)
    ensures Executed(FRESH, cmd + [LF]) == NonBlank([cmd])
  {
    hide Exec, NonBlank, Emit, Executed, After, Index;
    TypingEchoes(d, "", cmd);
    assert "" + cmd == cmd;
    SessionAppend(FRESH, cmd, [LF]);
    EmitAppend(d, FRESH, cmd, [LF]);
    OneKey(d, Editor(cmd, false), LF);
    NonBlankLine(cmd);
  }

  lemma ExitOnTheWire(d: Device)
    ensures After(FRESH, "exit\n") == Editor("", true)
    ensures Emit(d, FRESH, "exit\n") == "exit\r\n"
    ensures Executed(FRESH, "exit\n") == []
  {
    hide Exec, NonBlank, Emit, Executed, After, Index, TrimLeft, TrimRight;
    TypingEchoes(d, "", "exit");
    assert "exit" + [LF] == "exit\n" && "" + "exit" == "exit";
    SessionAppend(FRESH, "exit", [LF]);
    EmitAppend(d, FRESH, "exit", [LF]);
    OneKey(d, Editor("exit", false), LF);
    TrimNothing("exit");
    assert "exit" + [CR, LF] == "exit\r\n";
  }

  /* ---- which prompts can be waited for ---- */

  /** No proper prefix of the text is also a suffix of it: two occurrences never overlap. */
  predicate Unbordered(p: string) {
    forall b :: 0 < b < |p| ==> p[|p| - b..] != p[..b]
  }

  /** Text that does not contain an unbordered prompt cannot complete it early: in `body + prompt` it
      occurs at the end and nowhere before. */
  lemma PromptEndsReply(d: Device, body: string)
    requires Unbordered(d.Prompt()) && !Contains(body, d.Prompt())
    ensures FirstAt(body + d.Prompt(), d.Prompt(), |body|)
  {
    var p := d.Prompt();
    assert (body + p)[|body|..] == p;
    forall j | 0 <= j < |body| ensures !At(body + p, p, j) {
      assert !At(body, p, j);
      NotAcross(body, p, j);
    }
  }

  lemma NotAcross(body: string, p: string, j: nat)
    requires Unbordered(p) && j < |body| && !At(body, p, j)
    ensures !At(body + p, p, j)
  {
    var s := body + p;
    if j + |p| <= |body| {
      assert s[j..j + |p|] == body[j..j + |p|];
    } else {
      var b := j + |p| - |body|;
      assert s[j..j + |p|][|p| - b..] == s[|body|..j + |p|] == p[..b];
      assert p[|p| - b..] != p[..b];
    }
  }

  /** A border of the prompt completes it early: behind a line end and the prompt without that border,
      the next prompt is seen two bytes into the answer, not behind it. */
  lemma BorderSlips(hostname: string, b: nat)
    requires var p := hostname + "#"; 0 < b < |p| && p[|p| - b..] == p[..b]
    ensures var p := hostname + "#";
            var body := [CR, LF] + p[..|p| - b];
            !Contains(body, p) && !FirstAt(body + p, p, |body|)
  {
    var p := hostname + "#";
    var body := [CR, LF] + p[..|p| - b];
    forall i | 0 <= i ensures !At(body, p, i) { if i < 2 { NotBehindLineEnd(p, body, i); } }
    var s := body + p;
    assert p == p[..|p| - b] + p[|p| - b..];
    assert s[2..2 + |p|] == p[..|p| - b] + p[..b] == p;
    assert At(s, p, 2);
  }

  /** What holds a `#` does not start with the line end of an answer that continues with itself. */
  lemma NotBehindLineEnd(p: string, body: string, i: nat)
    requires p != "" && p[|p| - 1] == '#' && i < 2
    requires |body| >= 2 && body[..2] == [CR, LF] && body[2..] <= p
    ensures !At(body, p, i)
  {
    var k := FirstHash(p);
    assert body[0] == body[..2][0] && body[1] == body[..2][1];
    if i + |p| <= |body| {
      assert i + k >= 2 ==> body[i + k] == body[2..][i + k - 2] == p[i + k - 2];
      assert body[i..i + |p|][k] == body[i + k] != p[k];
    }
  }

  lemma FirstHash(p: string) returns (k: nat)
    requires p != "" && p[|p| - 1] == '#'
    ensures k < |p| && p[k] == '#' && forall j :: 0 <= j < k ==> p[j] != '#'
  {
    k := 0;
    while p[k] != '#'
      invariant k < |p| && forall j :: 0 <= j < k ==> p[j] != '#'
      decreases |p| - k
    {
      k := k + 1;
    }
  }

  /** Behind every quiet answer of a device with this hostname, the first prompt is the real one. */
  ghost predicate Reliable(hostname: string) {
    forall commands, cmd :: Plain(cmd) && Quiet(Device(hostname, commands), cmd) ==>
      PromptIsReal(Device(hostname, commands), cmd)
  }

  ghost predicate PromptIsReal(d: Device, cmd: string) {
    FirstAt(Reply(d, cmd) + d.Prompt(), d.Prompt(), |Reply(d, cmd)|)
  }

  /** A device that answers "show" with a given text. */
  function Showing(hostname: string, text: string): Device {
    Device(hostname, map["show" := text])
  }

  lemma ShowingShows(hostname: string, text: string)
    ensures Plain("show") && Reply(Showing(hostname, text), "show") == [CR, LF] + text
  {
    hide TrimLeft, TrimRight, Matches, Index;
    TrimNothing("show");
    hide Trim;
    ExactHit(Showing(hostname, text), "show");
  }

  lemma ExactHit(d: Device, cmd: string)
    requires Trim(cmd) == cmd != "" && cmd in d.commands
    ensures Exec(d, cmd) == d.commands[cmd]
  {
  }

  /** The exact condition on a hostname: its prompt must not overlap itself. */
  lemma ReliableExactly(hostname: string)
    ensures Reliable(hostname) <==> Unbordered(hostname + "#")
  {
    hide Reply, Plain, FirstAt, Unbordered, Contains;
    if Unbordered(hostname + "#") {
      forall commands, cmd | Plain(cmd) && Quiet(Device(hostname, commands), cmd)
        ensures PromptIsReal(Device(hostname, commands), cmd)
      {
        PromptEndsReply(Device(hostname, commands), Reply(Device(hostname, commands), cmd));
      }
    } else {
      var b := Border(hostname + "#");
      BorderSlips(hostname, b);
      var text := (hostname + "#")[..|hostname + "#"| - b];
      ShowingShows(hostname, text);
      assert !PromptIsReal(Device(hostname, map["show" := text]), "show");
    }
  }

  lemma Border(p: string) returns (b: nat)
    requires !Unbordered(p)
    ensures 0 < b < |p| && p[|p| - b..] == p[..b]
  {
    b :| 0 < b < |p| && p[|p| - b..] == p[..b];
  }

  /** Without a `#` in the hostname the condition always holds. */
  lemma NoHashIsReliable(hostname: string)
    requires '#' !in hostname
    ensures Unbordered(hostname + "#") && Reliable(hostname)
  {
    hide Reliable;
    var p := hostname + "#";
    forall b | 0 < b < |p| ensures p[|p| - b..] != p[..b] {
      assert p[|p| - b..][b - 1] == '#';
      assert p[..b][b - 1] == hostname[b - 1];
    }
    ReliableExactly(hostname);
  }

  /** With one it may fail, and it may hold. */
  lemma HashInHostnameSlips()
    ensures !Reliable("#") && Reliable("a#b")
  {
    hide Reliable, Unbordered;
    TwoHashes();
    HashInside();
    ReliableExactly("#");
    ReliableExactly("a#b");
  }

  lemma TwoHashes()
    ensures !Unbordered("#" + "#")
  {
    var p := "#" + "#";
    assert p[1..] == p[..1];
  }

  lemma HashInside()
    ensures Unbordered("a#b" + "#")
  {
    var q := ['a', '#', 'b', '#'];
    assert q == "a#b" + "#";
    assert q[3..][0] != q[..1][0] && q[2..][0] != q[..2][0] && q[1..][0] != q[..3][0];
  }
}
