/** The SSH server: the exec branch, which runs a whole payload line by line, and the
    interactive shell, a line editor with echo and backspace. */
module SshServer {
  import opened Text
  import opened Device
  import opened Channel

  /* ---- lists of commands ---- */

  /** The lines that are not blank, trimmed. */
  function NonBlank(lines: seq<string>): seq<string> {
    if lines == [] then []
    else (if Trim(lines[0]) == "" then [] else [Trim(lines[0])]) + NonBlank(lines[1..])
  }

  /** The commands in a newline-separated payload. */
  function Commands(payload: string): seq<string> {
    NonBlank(Split(payload, LF))
  }

  /** What the device answers to a list of commands. */
  ghost function Outputs(d: Device, cmds: seq<string>): string {
    if cmds == [] then "" else Exec(d, cmds[0]) + Outputs(d, cmds[1..])
  }

  lemma {:induction false} NonBlankAppend(a: seq<string>, b: seq<string>)
    ensures NonBlank(a + b) == NonBlank(a) + NonBlank(b)
  {
    if a == [] {
      assert a + b == b;
    } else {
      assert (a + b)[1..] == a[1..] + b;
      NonBlankAppend(a[1..], b);
    }
  }

  lemma NonBlankLine(line: string)
    ensures NonBlank([line]) == if Trim(line) == "" then [] else [Trim(line)]
  {
    assert NonBlank([line][1..]) == [];
    assert [Trim(line)] + [] == [Trim(line)];
  }

  lemma {:induction false} OutputsAppend(d: Device, a: seq<string>, b: seq<string>)
    ensures Outputs(d, a + b) == Outputs(d, a) + Outputs(d, b)
  {
    hide Exec;
    if a == [] {
      assert a + b == b;
    } else {
      assert (a + b)[1..] == a[1..] + b;
      OutputsAppend(d, a[1..], b);
      Assoc(Exec(d, a[0]), Outputs(d, a[1..]), Outputs(d, b));
    }
  }

  lemma OutputsOne(d: Device, cmd: string)
    ensures Outputs(d, [cmd]) == Exec(d, cmd)
  {
    assert [cmd][1..] == [];
    assert Exec(d, cmd) + "" == Exec(d, cmd);
  }

  /** The exec request: every non-blank line is run and the answers are concatenated. */
  method ExecRequest(d: Device, payload: string) returns (out: string)
    ensures out == Outputs(d, Commands(payload))
  {
    hide Exec, TrimLeft, TrimRight;
    out := "";
    var lines := Split(payload, LF);
    for i := 0 to |lines|
      invariant out == Outputs(d, NonBlank(lines[..i]))
    {
      var cmd := Trim(lines[i]);
      assert lines[..i + 1] == lines[..i] + [lines[i]];
      NonBlankAppend(lines[..i], [lines[i]]);
      OutputsAppend(d, NonBlank(lines[..i]), NonBlank([lines[i]]));
      NonBlankLine(lines[i]);
      OutputsOne(d, cmd);
      if cmd != "" {
        var answer := Lookup(d, cmd);
        out := out + answer;
      }
    }
    assert lines[..|lines|] == lines;
  }

  /* ---- the line editor, byte by byte ---- */

  predicate IsEnter(b: char) { b == CR || b == LF }

  predicate IsErase(b: char) { b == '\U{7F}' || b == '\U{08}' }

  predicate IsExit(cmd: string) { cmd == "exit" || cmd == "quit" }

  const RUBOUT: string := "\U{08} \U{08}"

  /** The line typed so far, and whether the session has ended. */
  datatype Editor = Editor(line: string, done: bool)

  const FRESH: Editor := Editor("", false)

  function Press(e: Editor, b: char): Editor {
    if IsEnter(b) then Editor("", IsExit(Trim(e.line)))
    else if IsErase(b) then (if e.line == "" then e else e.(line := e.line[..|e.line| - 1]))
    else e.(line := e.line + [b])
  }

  /** The bytes written in answer to one byte. */
  ghost function Echo(d: Device, e: Editor, b: char): string {
    if IsEnter(b) then
      var cmd := Trim(e.line);
      if IsExit(cmd) then [CR, LF]
      else [CR, LF] + (if cmd == "" then "" else Exec(d, cmd)) + d.Prompt()
    else if IsErase(b) then (if e.line == "" then "" else RUBOUT)
    else [b]
  }

  /** The command run in answer to one byte, if any. */
  function Ran(e: Editor, b: char): seq<string> {
    if IsEnter(b) && Trim(e.line) != "" && !IsExit(Trim(e.line)) then [Trim(e.line)] else []
  }

  function After(e: Editor, s: string): Editor
    decreases |s|
  {
    if s == "" || e.done then e else After(Press(e, s[0]), s[1..])
  }

  ghost function Emit(d: Device, e: Editor, s: string): string
    decreases |s|
  {
    if s == "" || e.done then "" else Echo(d, e, s[0]) + Emit(d, Press(e, s[0]), s[1..])
  }

  function Executed(e: Editor, s: string): seq<string>
    decreases |s|
  {
    if s == "" || e.done then [] else Ran(e, s[0]) + Executed(Press(e, s[0]), s[1..])
  }

  lemma {:induction false} SessionAppend(e: Editor, a: string, b: string)
    ensures After(e, a + b) == After(After(e, a), b)
    ensures Executed(e, a + b) == Executed(e, a) + Executed(After(e, a), b)
    decreases |a|
  {
    if a == "" || e.done {
      assert a == "" ==> a + b == b;
    } else {
      assert (a + b)[1..] == a[1..] + b;
      SessionAppend(Press(e, a[0]), a[1..], b);
    }
  }

  lemma {:induction false} EmitAppend(d: Device, e: Editor, a: string, b: string)
    ensures Emit(d, e, a + b) == Emit(d, e, a) + Emit(d, After(e, a), b)
    decreases |a|
  {
    if a == "" || e.done {
      assert a == "" ==> a + b == b;
    } else {
      assert (a + b)[1..] == a[1..] + b;
      EmitAppend(d, Press(e, a[0]), a[1..], b);
    }
  }

  lemma EndedIsSilent(d: Device, e: Editor, s: string)
    ensures e.done ==> After(e, s) == e && Emit(d, e, s) == "" && Executed(e, s) == []
  {
  }

  lemma {:induction false} TypingEchoes(d: Device, l: string, x: string)
    requires forall i :: 0 <= i < |x| ==> !IsEnter(x[i]) && !IsErase(x[i])
    ensures After(Editor(l, false), x) == Editor(l + x, false)
    ensures Emit(d, Editor(l, false), x) == x
    ensures Executed(Editor(l, false), x) == []
    decreases |x|
  {
    if x == "" {
      assert l + x == l;
    } else {
      TypingEchoes(d, l + [x[0]], x[1..]);
      assert l + [x[0]] + x[1..] == l + x;
    }
  }

  lemma OneKey(d: Device, e: Editor, b: char)
    requires !e.done
    ensures After(e, [b]) == Press(e, b) && Emit(d, e, [b]) == Echo(d, e, b)
    ensures Executed(e, [b]) == Ran(e, b)
  {
    assert [b][1..] == "";
    assert Emit(d, Press(e, b), "") == "" && Executed(Press(e, b), "") == [];
  }

  /** One turn of the inner loop: answer byte `b`; the session ends on an exit command. */
  method OnByte(d: Device, ch: Channel, line: string, b: char) returns (next: string, stop: bool)
    modifies ch`outgoing
    ensures ch.outgoing == old(ch.outgoing) + Echo(d, Editor(line, false), b)
    ensures Editor(next, stop) == Press(Editor(line, false), b)
  {
    hide Exec, TrimLeft, TrimRight;
    next, stop := line, false;
    if b == CR || b == LF {
      ch.Write("\r\n");
      var cmd := Trim(line);
      next := "";
      if cmd == "exit" || cmd == "quit" { return next, true; }
      if cmd != "" {
        var out := Lookup(d, cmd);
        ch.Write(out);
      }
      ch.Write(d.hostname + "#");
    } else if b == '\U{7F}' || b == '\U{08}' {
      if |line| > 0 {
        next := line[..|line| - 1];
        ch.Write("\U{08} \U{08}");
      }
    } else {
      next := line + [b];
      ch.Write([b]);
    }
  }

  lemma SessionStep(d: Device, e: Editor, buf: string, i: nat)
    requires i < |buf| && !e.done
    ensures After(e, buf[i..]) == After(Press(e, buf[i]), buf[i + 1..])
    ensures Emit(d, e, buf[i..]) == Echo(d, e, buf[i]) + Emit(d, Press(e, buf[i]), buf[i + 1..])
    ensures Executed(e, buf[i..]) == Ran(e, buf[i]) + Executed(Press(e, buf[i]), buf[i + 1..])
  {
    assert buf[i..][1..] == buf[i + 1..];
  }

  /** The inner loop: answer the bytes of one read in order. */
  method OnRead(d: Device, ch: Channel, line: string, buf: string)
    returns (next: string, stop: bool, ghost ran: seq<string>)
    modifies ch`outgoing
    ensures ch.outgoing == old(ch.outgoing) + Emit(d, Editor(line, false), buf)
    ensures Editor(next, stop) == After(Editor(line, false), buf)
    ensures ran == Executed(Editor(line, false), buf)
  {
    hide Exec, Echo, Press, Ran;
    next, stop, ran := line, false, [];
    ghost var e, shown := Editor(line, false), "";
    assert buf[0..] == buf;
    var i := 0;
    while i < |buf| && !stop
      invariant 0 <= i <= |buf|
      invariant After(e, buf) == After(Editor(next, stop), buf[i..])
      invariant ch.outgoing == old(ch.outgoing) + shown
      invariant shown + Emit(d, Editor(next, stop), buf[i..]) == Emit(d, e, buf)
      invariant ran + Executed(Editor(next, stop), buf[i..]) == Executed(e, buf)
    {
      ghost var at := Editor(next, false);
      SessionStep(d, at, buf, i);
      ghost var after := Press(at, buf[i]);
      Assoc(shown, Echo(d, at, buf[i]), Emit(d, after, buf[i + 1..]));
      Assoc(ran, Ran(at, buf[i]), Executed(after, buf[i + 1..]));
      Assoc(old(ch.outgoing), shown, Echo(d, at, buf[i]));
      shown, ran := shown + Echo(d, at, buf[i]), ran + Ran(at, buf[i]);
      next, stop := OnByte(d, ch, next, buf[i]);
      i := i + 1;
    }
  }

  /** The shell as it runs: a loop over reads, and inside it a loop over the bytes of a read.
      Its output and the commands it runs depend on the bytes received only, not on how they
      were cut; bytes that arrive together with a read error are ignored. */
  method InteractiveSession(d: Device, ch: Channel) returns (ghost ran: seq<string>)
    modifies ch
    ensures ch.outgoing == old(ch.outgoing) + d.Prompt() + Emit(d, FRESH, old(ch.incoming))
    ensures ran == Executed(FRESH, old(ch.incoming))
  {
    hide Exec, Echo, Press, Ran;
    ghost var all, start := ch.incoming, ch.outgoing + d.Prompt();
    ghost var shown := "";
    ran := [];
    ch.Write(d.hostname + "#");
    var line, stop := "", false;
    while !stop
      invariant ch.outgoing == start + shown
      invariant shown + Emit(d, Editor(line, stop), ch.incoming) == Emit(d, FRESH, all)
      invariant ran + Executed(Editor(line, stop), ch.incoming) == Executed(FRESH, all)
      decreases !stop, |ch.incoming|
    {
      ghost var at := Editor(line, false);
      var buf, err := ch.Read(4096);
      if err { return; }
      SessionAppend(at, buf, ch.incoming);
      EmitAppend(d, at, buf, ch.incoming);
      Assoc(shown, Emit(d, at, buf), Emit(d, After(at, buf), ch.incoming));
      Assoc(ran, Executed(at, buf), Executed(After(at, buf), ch.incoming));
      Assoc(start, shown, Emit(d, at, buf));
      shown := shown + Emit(d, at, buf);
      ghost var more;
      line, stop, more := OnRead(d, ch, line, buf);
      ran := ran + more;
    }
  }

  /* ---- requests on a channel ---- */

  datatype SshRequest = SshRequest(kind: string, payload: string)

  /** The text of an exec request, which stands behind its four-byte length. */
  function ExecText(payload: string): string {
    if |payload| > 4 then payload[4..] else ""
  }

  /** Requests that a session is spent on. */
  predicate Spends(kind: string) {
    kind == "shell" || kind == "exec"
  }

  /** The index of the first such request, or the number of requests. */
  function FirstServed(reqs: seq<SshRequest>): (k: nat)
    ensures k <= |reqs| && forall i :: 0 <= i < k ==> !Spends(reqs[i].kind)
    ensures k < |reqs| ==> Spends(reqs[k].kind)
  {
    if reqs == [] || Spends(reqs[0].kind) then 0 else 1 + FirstServed(reqs[1..])
  }

  /** What the server writes on a channel with these requests, if it receives `typed`. */
  ghost function Served(d: Device, reqs: seq<SshRequest>, typed: string): string {
    var k := FirstServed(reqs);
    if k == |reqs| then ""
    else if reqs[k].kind == "shell" then d.Prompt() + Emit(d, FRESH, typed)
    else Outputs(d, Commands(ExecText(reqs[k].payload)))
  }

  /** The loop over the requests of a channel: terminal requests are granted, the first shell or exec request
      is served, and others are refused. */
  method HandleSession(d: Device, ch: Channel, reqs: seq<SshRequest>) returns (granted: seq<bool>)
    modifies ch
    ensures |granted| == FirstServed(reqs) + (if FirstServed(reqs) < |reqs| then 1 else 0)
    ensures forall i :: 0 <= i < |granted| ==>
              (granted[i] <==> reqs[i].kind == "pty-req" || reqs[i].kind == "window-change" || Spends(reqs[i].kind))
    ensures ch.outgoing == old(ch.outgoing) + Served(d, reqs, old(ch.incoming))
  {
    hide Emit, Outputs, Commands;
    granted := [];
    for i := 0 to |reqs|
      invariant i <= FirstServed(reqs) && |granted| == i
      invariant forall j :: 0 <= j < i ==>
                  (granted[j] <==> reqs[j].kind == "pty-req" || reqs[j].kind == "window-change")
      invariant ch.outgoing == old(ch.outgoing) && ch.incoming == old(ch.incoming)
    {
      if reqs[i].kind == "pty-req" || reqs[i].kind == "window-change" {
        granted := granted + [true];
      } else if reqs[i].kind == "shell" {
        granted := granted + [true];
        Assoc(ch.outgoing, d.Prompt(), Emit(d, FRESH, ch.incoming));
        ghost var ran := InteractiveSession(d, ch);
        return;
      } else if reqs[i].kind == "exec" {
        granted := granted + [true];
        var text := if |reqs[i].payload| > 4 then reqs[i].payload[4..] else "";
        var out := ExecRequest(d, text);
        ch.Write(out);
        return;
      } else {
        granted := granted + [false];
      }
    }
  }

  lemma FirstIs(before: seq<SshRequest>, r: SshRequest, behind: seq<SshRequest>)
    requires (forall i :: 0 <= i < |before| ==> !Spends(before[i].kind)) && Spends(r.kind)
    ensures FirstServed(before + [r] + behind) == |before|
  {
    var reqs := before + [r] + behind;
    assert reqs[|before|] == r;
    forall i | 0 <= i < |before| ensures !Spends(reqs[i].kind) { assert reqs[i] == before[i]; }
  }

  /** An exec request with any text, behind its four-byte length: the device's answers to its lines. */
  lemma ExecIsServed(d: Device, before: seq<SshRequest>, len: string, text: string, behind: seq<SshRequest>,
                     typed: string)
    requires |len| == 4 && forall i :: 0 <= i < |before| ==> !Spends(before[i].kind)
    ensures Served(d, before + [SshRequest("exec", len + text)] + behind, typed) == Outputs(d, Commands(text))
  {
    hide Outputs, Commands, FirstServed;
    var r := SshRequest("exec", len + text);
    FirstIs(before, r, behind);
    assert (before + [r] + behind)[|before|] == r;
    assert text != "" ==> (len + text)[4..] == text;
  }
}
