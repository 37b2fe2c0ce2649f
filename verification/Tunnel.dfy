/** The SSH-over-HTTP tunnel: a payload goes from the headend to the site proxy as one GET or one
    POST, and from there to the device as one SSH exec request for each command. */
module Tunnel {
  import opened Text
  import opened Device
  import opened SshServer
  import opened Channel
  import opened HttpHandler
  import opened Proxy
  import opened Framing

  /* ---- the headend ---- */

  const CONFIG_PATH: string := "/admin/config"

  datatype Forwarded = Reply(body: string) | Failed(error: string)

  function Outcome(r: Response): Forwarded {
    if r.status == 200 then Reply(r.body) else Failed("HTTP " + Decimal(r.status))
  }

  /** One line becomes a GET with its spaces written as `+`; several lines become a POST. */
  function Forward(h: Http, payload: string, run: seq<string> -> RunResult): Forwarded {
    var lines := Split(Trim(payload), LF);
    if |lines| == 1 then
      match h.route(EXEC_PREFIX + Replace(Trim(lines[0]), ' ', '+'))
      case Undelivered(error) => Failed(error)
      case Arrives(path) => Outcome(ExecResponse(path, run))
    else
      match h.route(CONFIG_PATH)
      case Undelivered(error) => Failed(error)
      case Arrives(_) => Outcome(ConfigResponse(true, payload, run))
  }

  /** What the headend writes for one exec request; an empty one is not forwarded at all. */
  function ExecAnswer(h: Http, text: string, run: seq<string> -> RunResult): string {
    if text == "" then "" else
      match Forward(h, text, run)
      case Reply(body) => body
      case Failed(error) => "%Error: " + error + "\n"
  }

  /** The index of the first exec request, or the number of requests. */
  function FirstExec(reqs: seq<SshRequest>): (k: nat)
    ensures k <= |reqs| && forall i :: 0 <= i < k ==> reqs[i].kind != "exec"
    ensures k < |reqs| ==> reqs[k].kind == "exec"
  {
    if reqs == [] || reqs[0].kind == "exec" then 0 else 1 + FirstExec(reqs[1..])
  }

  /** What the headend writes on a channel with these requests. */
  function Written(h: Http, run: seq<string> -> RunResult, reqs: seq<SshRequest>): string {
    var k := FirstExec(reqs);
    if k == |reqs| then "" else ExecAnswer(h, ExecText(reqs[k].payload), run)
  }

  /** The headend's loop over the requests of a channel: all before the first exec request are refused,
      that one is answered, and those behind it are not looked at. */
  method HandleSession(h: Http, run: seq<string> -> RunResult, ch: Channel, reqs: seq<SshRequest>)
    returns (accepted: seq<bool>, exited: bool)
    modifies ch`outgoing
    ensures exited <==> FirstExec(reqs) < |reqs|
    ensures |accepted| == FirstExec(reqs) + (if exited then 1 else 0)
    ensures forall i :: 0 <= i < |accepted| ==> (accepted[i] <==> i == FirstExec(reqs))
    ensures ch.outgoing == old(ch.outgoing) + Written(h, run, reqs)
  {
    accepted, exited := [], false;
    for i := 0 to |reqs|
      invariant i <= FirstExec(reqs) && |accepted| == i && !exited
      invariant forall j :: 0 <= j < i ==> !accepted[j]
      invariant ch.outgoing == old(ch.outgoing)
    {
      if reqs[i].kind != "exec" {
        accepted := accepted + [false];
        continue;
      }
      var text := if |reqs[i].payload| > 4 then reqs[i].payload[4..] else "";
      accepted := accepted + [true];
      if text != "" {
        match Forward(h, text, run)
        case Reply(body) => ch.Write(body);
        case Failed(error) => ch.Write("%Error: " + error + "\n");
      }
      return accepted, true;
    }
  }

  /* ---- the proxy ---- */

  /** The device's answers to a list of commands, each sent as an exec request of its own. */
  ghost function Sessions(d: Device, cmds: seq<string>): seq<SessionResult> {
    seq(|cmds|, i requires 0 <= i < |cmds| => Output(Outputs(d, Commands(cmds[i]))))
  }

  /** The proxy over a device that answers, as its clients see it. */
  ghost function ProxyRun(d: Device, cmds: seq<string>): RunResult {
    Ran(Collected(Sessions(d, cmds), FirstFailure(Sessions(d, cmds))))
  }

  /** That is what the proxy's own code returns when every hop succeeds, pooled or not. */
  method RunOverProxy(p: ProxyServer, d: Device, cmds: seq<string>, results: seq<SessionResult>)
    returns (text: string, ok: bool)
    requires p.Valid() && results == Sessions(d, cmds)
    modifies p
    ensures p.Valid() && ok && Ran(text) == ProxyRun(d, cmds)
  {
    text, ok := p.RunCommands(cmds, true, results);
  }

  /* ---- trimming a payload does not change its commands ---- */

  lemma {:induction false} PartPadding(a: string, part: string, s: string)
    requires AllSpace(a)
    ensures NonBlank(SplitFrom(a + part, s, LF)) == NonBlank(SplitFrom(part, s, LF))
    decreases |s|
  {
    hide Trim;
    TrimPadded(a, part, "");
    assert a + part + "" == a + part;
    if s == "" {
      NonBlankLine(a + part);
      NonBlankLine(part);
    } else if s[0] != LF {
      PartPadding(a, part + [s[0]], s[1..]);
      assert a + part + [s[0]] == a + (part + [s[0]]);
    }
  }

  lemma {:induction false} LeadingSpace(a: string, s: string)
    requires AllSpace(a)
    ensures Commands(a + s) == Commands(s)
    decreases |a|
  {
    hide Trim;
    if a == "" {
      assert a + s == s;
    } else {
      assert (a + s)[1..] == a[1..] + s;
      LeadingSpace(a[1..], s);
      if a[0] == LF {
        NonBlankLine("");
        NonBlankAppend([""], Split(a[1..] + s, LF));
        TrimEmpty();
      } else {
        PartPadding([a[0]], "", a[1..] + s);
        assert [a[0]] + "" == [a[0]] && "" + [a[0]] == [a[0]];
      }
    }
  }

  lemma {:induction false} OnlySpaceBehind(part: string, b: string)
    requires AllSpace(b)
    ensures NonBlank(SplitFrom(part, b, LF)) == NonBlank([part])
    decreases |b|
  {
    hide Trim;
    if b != "" {
      if b[0] == LF {
        OnlySpaceBehind("", b[1..]);
        NonBlankAppend([part], SplitFrom("", b[1..], LF));
        NonBlankLine("");
        TrimEmpty();
        assert NonBlank([part]) + [] == NonBlank([part]);
      } else {
        OnlySpaceBehind(part + [b[0]], b[1..]);
        TrimPadded("", part, [b[0]]);
        assert "" + part + [b[0]] == part + [b[0]];
        NonBlankLine(part);
        NonBlankLine(part + [b[0]]);
      }
    }
  }

  lemma {:induction false} TrailingSpace(part: string, s: string, b: string)
    requires AllSpace(b)
    ensures NonBlank(SplitFrom(part, s + b, LF)) == NonBlank(SplitFrom(part, s, LF))
    decreases |s|
  {
    hide Trim;
    if s == "" {
      assert s + b == b;
      OnlySpaceBehind(part, b);
    } else {
      assert (s + b)[1..] == s[1..] + b;
      if s[0] == LF {
        TrailingSpace("", s[1..], b);
        NonBlankAppend([part], SplitFrom("", s[1..] + b, LF));
        NonBlankAppend([part], SplitFrom("", s[1..], LF));
      } else {
        TrailingSpace(part + [s[0]], s[1..], b);
      }
    }
  }

  lemma TrimKeepsCommands(s: string)
    ensures Commands(Trim(s)) == Commands(s)
  {
    hide Trim, SplitFrom, NonBlank;
    var a, b := TrimSplits(s);
    assert s == a + (Trim(s) + b);
    LeadingSpace(a, Trim(s) + b);
    TrailingSpace("", Trim(s), b);
  }

  /* ---- one command ---- */

  lemma OneLine(s: string)
    requires LF !in s
    ensures Split(s, LF) == [s]
    ensures Trimmed(s) && s != "" ==> Commands(s) == [s]
  {
    hide NonBlank;
    SplitWithout("", s, LF);
    assert "" + s == s;
    if Trimmed(s) && s != "" {
      NonBlankLine(s);
      TrimNothing(s);
    }
  }

  lemma TwoLines(s: string)
    ensures |Split(s, LF)| == 1 <==> LF !in s
  {
    SplitJoins(s, LF);
    var parts := Split(s, LF);
    assert parts[0] in parts;
    assert |parts| == 1 ==> Join(parts, LF) == parts[0];
    if LF !in s { OneLine(s); }
  }

  /** A command list as the splitting loops produce it: trimmed, not blank, on one line. */
  predicate CleanCommands(cmds: seq<string>) {
    forall i :: 0 <= i < |cmds| ==> Trimmed(cmds[i]) && cmds[i] != "" && LF !in cmds[i]
  }

  lemma {:induction false} NonBlankIsClean(lines: seq<string>)
    requires forall i :: 0 <= i < |lines| ==> LF !in lines[i]
    ensures CleanCommands(NonBlank(lines))
  {
    if lines != [] {
      var a, b := TrimSplits(lines[0]);
      TrimLacks(lines[0], LF);
      NonBlankIsClean(lines[1..]);
    }
  }

  lemma CommandsAreClean(payload: string)
    ensures CleanCommands(Commands(payload))
  {
    hide NonBlank;
    SplitJoins(payload, LF);
    NonBlankIsClean(Split(payload, LF));
  }

  lemma {:induction false} SessionsGiveOutputs(d: Device, cmds: seq<string>)
    requires CleanCommands(cmds)
    ensures ProxyRun(d, cmds) == Ran(Outputs(d, cmds))
  {
    hide Exec, Trimmed, Commands;
    var rs := Sessions(d, cmds);
    assert FirstFailure(rs) == |cmds|;
    CollectedIsOutputs(d, cmds, |cmds|);
    assert cmds[..|cmds|] == cmds;
  }

  lemma {:induction false} CollectedIsOutputs(d: Device, cmds: seq<string>, k: nat)
    requires CleanCommands(cmds) && k <= |cmds|
    ensures Collected(Sessions(d, cmds), k) == Outputs(d, cmds[..k])
  {
    hide Exec, Trimmed, Commands, Outputs, Split;
    if k == 0 {
      OutputsNone(d);
    } else {
      CollectedIsOutputs(d, cmds, k - 1);
      OneLine(cmds[k - 1]);
      assert cmds[..k] == cmds[..k - 1] + [cmds[k - 1]];
      OutputsAppend(d, cmds[..k - 1], [cmds[k - 1]]);
    }
  }

  lemma OutputsNone(d: Device)
    ensures Outputs(d, []) == ""
  {
  }

  /* ---- the path encoding ---- */

  predicate Lacks(ss: seq<string>, c: char) {
    forall i :: 0 <= i < |ss| ==> c !in ss[i]
  }

  lemma TrimLacks(s: string, c: char)
    ensures c !in s ==> c !in Trim(s)
  {
    hide Trim;
    var a, b := TrimSplits(s);
    forall k | 0 <= k < |Trim(s)| ensures Trim(s)[k] in s {
      assert s[|a| + k] == Trim(s)[k];
    }
  }

  lemma {:induction false} NonBlankLacks(lines: seq<string>, c: char)
    requires Lacks(lines, c)
    ensures Lacks(NonBlank(lines), c)
  {
    hide Trim;
    if lines != [] {
      TrimLacks(lines[0], c);
      NonBlankLacks(lines[1..], c);
    }
  }

  lemma {:induction false} SpacedLacks(parts: seq<string>)
    requires Lacks(parts, '/')
    ensures Lacks(Spaced(parts), '/') && Lacks(Spaced(parts), '+')
  {
    if parts != [] {
      var p := Replace(parts[0], '+', ' ');
      forall k | 0 <= k < |p| ensures p[k] != '/' && p[k] != '+' {
        assert parts[0][k] in parts[0];
      }
      SpacedLacks(parts[1..]);
    }
  }

  lemma EncodedComesBack(cmd: string)
    requires Trimmed(cmd) && cmd != "" && '+' !in cmd && '/' !in cmd
    ensures PathCommands(Replace(cmd, ' ', '+')) == [cmd]
  {
    hide NonBlank, Spaced, SplitFrom, Trimmed, Trim;
    var e := Replace(cmd, ' ', '+');
    forall i | 0 <= i < |e| ensures e[i] != '/' { assert cmd[i] in cmd; }
    SplitWithout("", e, '/');
    assert "" + e == e;
    OneSpaced(e);
    ReplaceBack(cmd, ' ', '+');
    NonBlankLine(cmd);
    TrimNothing(cmd);
  }

  lemma NoneComesBack(cmd: string, path: string)
    requires '+' in cmd || '/' in cmd
    ensures PathCommands(path) != [cmd]
  {
    hide NonBlank, Spaced, SplitFrom;
    SplitJoins(path, '/');
    var spaced := Spaced(Split(path, '/'));
    SpacedLacks(Split(path, '/'));
    NonBlankLacks(spaced, '/');
    NonBlankLacks(spaced, '+');
    assert [cmd][0] == cmd;
  }

  /** Which commands survive the trip through a path: exactly those without `+` and `/`. */
  lemma EncodingSurvives(cmd: string)
    requires Trimmed(cmd) && cmd != ""
    ensures PathCommands(Replace(cmd, ' ', '+')) == [cmd] <==> '+' !in cmd && '/' !in cmd
  {
    hide PathCommands, Trimmed;
    if '+' !in cmd && '/' !in cmd {
      EncodedComesBack(cmd);
    } else {
      NoneComesBack(cmd, Replace(cmd, ' ', '+'));
    }
  }

  /* ---- the tunnel preserves meaning ---- */

  /** One line over characters that neither the encoding nor URL syntax uses. */
  predicate TameLine(line: string) {
    && Tame(Replace(line, ' ', '+'))
    && '+' !in line
  }

  /** A payload that goes as a POST, and one that goes as a GET. */
  predicate Tunnelable(payload: string) {
    LF in Trim(payload) || Trim(payload) == "" || TameLine(Trim(payload))
  }

  lemma TameHasNoSlash(line: string)
    requires TameLine(line)
    ensures '/' !in line
  {
    forall i | 0 <= i < |line| ensures line[i] != '/' {
      assert TameChar(Replace(line, ' ', '+')[i]);
    }
  }

  lemma ExecPathIsTame(h: Http, seg: string)
    requires KeepsTame(h) && (Tame(seg) || seg == "")
    ensures h.route(EXEC_PREFIX + seg) == Arrives(EXEC_PREFIX + seg)
  {
    hide Tame;
    AdminIsTame();
    var segs := ["admin", "exec"];
    assert segs[1..] == ["exec"] && PathOf(segs) + "/" == EXEC_PREFIX;
    if seg == "" {
      assert EXEC_PREFIX + seg == EXEC_PREFIX;
    } else {
      var more := ["admin", "exec", seg];
      assert more[1..] == ["exec", seg] && more[1..][1..] == [seg];
      assert Join(more[1..], '/') == "exec" + ['/'] + seg;
      assert PathOf(more) == "/" + ("admin" + ['/'] + ("exec" + ['/'] + seg));
      assert PathOf(more) == EXEC_PREFIX + seg;
      assert AllTame(more);
    }
  }

  lemma ConfigPathIsTame(h: Http)
    requires KeepsTame(h)
    ensures h.route(CONFIG_PATH) == Arrives(CONFIG_PATH)
  {
    hide Tame;
    AdminIsTame();
    var segs := ["admin", "config"];
    assert segs[1..] == ["config"] && PathOf(segs) == CONFIG_PATH;
    assert AllTame(segs);
  }

  lemma AdminIsTame()
    ensures AllTame(["admin", "exec"]) && AllTame(["admin", "config"])
  {
  }

  /** What a proxy in front of a device that answers makes of each list of commands. */
  ghost predicate RunsOn(run: seq<string> -> RunResult, d: Device) {
    forall cmds :: run(cmds) == ProxyRun(d, cmds)
  }

  lemma ManyLinesTunnel(h: Http, d: Device, run: seq<string> -> RunResult, payload: string)
    requires KeepsTame(h) && RunsOn(run, d) && LF in Trim(payload)
    ensures Forward(h, payload, run) == Reply(Outputs(d, Commands(payload)))
  {
    hide ProxyRun, Commands, Outputs, Trim, Decimal;
    ConfigPathIsTame(h);
    hide KeepsTame;
    TwoLines(Trim(payload));
    CommandsAreClean(payload);
    SessionsGiveOutputs(d, Commands(payload));
  }

  lemma OneLineTunnel(h: Http, d: Device, run: seq<string> -> RunResult, payload: string)
    requires KeepsTame(h) && RunsOn(run, d) && LF !in Trim(payload) && TameLine(Trim(payload))
    ensures Forward(h, payload, run) == Reply(Outputs(d, Commands(payload)))
  {
    hide ProxyRun, Commands, Outputs, PathCommands, TameChar, Decimal;
    var line := Trim(payload);
    OneLineForward(h, run, payload);
    OneLineCommands(payload);
    CommandsAreClean(payload);
    SessionsGiveOutputs(d, [line]);
  }

  lemma OneLineCommands(payload: string)
    requires LF !in Trim(payload) && Trim(payload) != ""
    ensures Commands(payload) == [Trim(payload)]
  {
    hide Commands;
    var a, b := TrimSplits(payload);
    OneLine(Trim(payload));
    TrimKeepsCommands(payload);
  }

  /** The proxy is asked to run exactly the one command. */
  lemma OneLineForward(h: Http, run: seq<string> -> RunResult, payload: string)
    requires KeepsTame(h) && LF !in Trim(payload) && TameLine(Trim(payload))
    ensures Forward(h, payload, run) == Outcome(Answer(run([Trim(payload)])))
  {
    hide Commands, PathCommands, TameChar, Decimal, Outcome, Answer;
    var line := Trim(payload);
    var seg := Replace(line, ' ', '+');
    ExecPathIsTame(h, seg);
    hide KeepsTame;
    var a, b := TrimSplits(payload);
    TrimIdempotent(payload);
    hide Trim, Trimmed;
    OneLine(line);
    TameHasNoSlash(line);
    EncodingSurvives(line);
    assert (EXEC_PREFIX + seg)[|EXEC_PREFIX|..] == seg;
  }

  lemma BlankIsRefused(h: Http, d: Device, run: seq<string> -> RunResult, payload: string)
    requires KeepsTame(h) && Trim(payload) == ""
    ensures payload != "" ==> ExecAnswer(h, payload, run) == "%Error: HTTP 400\n"
    ensures payload == "" ==> ExecAnswer(h, payload, run) == ""
    ensures Outputs(d, Commands(payload)) == ""
  {
    TrimKeepsCommands(payload);
    NonBlankLine("");
    ExecPathIsTame(h, "");
    hide KeepsTame, ProxyRun;
    assert Replace("", ' ', '+') == "" && EXEC_PREFIX + "" == EXEC_PREFIX;
    assert EXEC_PREFIX[|EXEC_PREFIX|..] == "";
    ErrorLines();
  }

  lemma ErrorLines()
    ensures "%Error: " + ("HTTP " + Decimal(400)) + "\n" == "%Error: HTTP 400\n"
    ensures "%Error: " + ("HTTP " + Decimal(502)) + "\n" == "%Error: HTTP 502\n"
  {
    assert Decimal(4) == "4" && Decimal(40) == "40" && Decimal(400) == "400";
    assert Decimal(5) == "5" && Decimal(50) == "50" && Decimal(502) == "502";
  }

  /** When the proxy fails, the user reads that it did, and nothing of what it may have collected. */
  lemma FailureIsReported(h: Http, run: seq<string> -> RunResult, text: string)
    requires KeepsTame(h) && Tunnelable(text) && Trim(text) != "" && run(Commands(text)).RunFailed?
    ensures ExecAnswer(h, text, run) == "%Error: HTTP 502\n"
  {
    hide Commands, Trim, TameLine, Decimal;
    NotBlank(text);
    ErrorLines();
    if LF in Trim(text) {
      ConfigPathIsTame(h);
      TwoLines(Trim(text));
    } else {
      OneLineForward(h, run, text);
      OneLineCommands(text);
    }
  }

  /** With every hop working, a user of the headend reads exactly what the device itself would have
      written, if and only if the text is empty or not blank: one of white space only is answered with
      an error, where the device writes nothing. */
  lemma TunnelPreservesMeaning(h: Http, d: Device, run: seq<string> -> RunResult, text: string)
    requires KeepsTame(h) && RunsOn(run, d) && Tunnelable(text)
    ensures ExecAnswer(h, text, run) == Outputs(d, Commands(text)) <==> text == "" || Trim(text) != ""
  {
    hide Outputs, Commands, Trim, TameLine, KeepsTame, RunsOn, Forward;
    if Trim(text) == "" {
      BlankIsRefused(h, d, run, text);
    } else {
      if LF in Trim(text) { ManyLinesTunnel(h, d, run, text); } else { OneLineTunnel(h, d, run, text); }
      NotBlank(text);
    }
  }

  lemma NotBlank(s: string)
    ensures Trim(s) != "" ==> s != ""
  {
  }

  /** The same, from request to request: on a channel whose first exec request has the given text behind its
      four-byte length, the headend writes the device's answers to the lines of that text, and so just what
      the device's own server writes on a channel with these requests. */
  lemma SessionPreservesMeaning(h: Http, d: Device, run: seq<string> -> RunResult, before: seq<SshRequest>,
                                len: string, text: string, behind: seq<SshRequest>, typed: string)
    requires KeepsTame(h) && RunsOn(run, d) && Tunnelable(text)
    requires |len| == 4 && forall i :: 0 <= i < |before| ==> before[i].kind != "exec" && before[i].kind != "shell"
    ensures var reqs := before + [SshRequest("exec", len + text)] + behind;
            (Written(h, run, reqs) == Outputs(d, Commands(text)) <==> text == "" || Trim(text) != "") &&
            Served(d, reqs, typed) == Outputs(d, Commands(text))
  {
    hide Outputs, Commands, Trim, Tunnelable, KeepsTame, RunsOn, ExecAnswer, Emit, Served;
    var r := SshRequest("exec", len + text);
    var reqs := before + [r] + behind;
    TunnelPreservesMeaning(h, d, run, text);
    ExecIsServed(d, before, len, text, behind, typed);
    FirstExecIs(before, r, behind);
    assert reqs[|before|] == r;
    assert text != "" ==> (len + text)[4..] == text;
  }

  lemma FirstExecIs(before: seq<SshRequest>, r: SshRequest, behind: seq<SshRequest>)
    requires (forall i :: 0 <= i < |before| ==> before[i].kind != "exec") && r.kind == "exec"
    ensures FirstExec(before + [r] + behind) == |before|
  {
    var reqs := before + [r] + behind;
    assert reqs[|before|] == r;
    forall i | 0 <= i < |before| ensures reqs[i].kind != "exec" { assert reqs[i] == before[i]; }
  }

  /* ---- several commands in one path ---- */

  function Encoded(cmds: seq<string>): (parts: seq<string>)
    ensures |parts| == |cmds| && forall i :: 0 <= i < |cmds| ==> parts[i] == Replace(cmds[i], ' ', '+')
  {
    seq(|cmds|, i requires 0 <= i < |cmds| => Replace(cmds[i], ' ', '+'))
  }

  /** Commands without `+` and `/`, their spaces written as `+`, joined by slashes: the handler runs them all,
      in order. */
  lemma PathRunsAll(cmds: seq<string>)
    requires cmds != [] && CleanCommands(cmds) && Lacks(cmds, '+') && Lacks(cmds, '/')
    ensures PathCommands(Join(Encoded(cmds), '/')) == cmds
  {
    hide CleanCommands, SplitFrom, Join, Spaced, NonBlank;
    var parts := Encoded(cmds);
    forall i | 0 <= i < |parts| ensures '/' !in parts[i] {
      forall k | 0 <= k < |parts[i]| ensures parts[i][k] != '/' { assert cmds[i][k] in cmds[i]; }
    }
    SplitOfJoin(parts, '/');
    SpacesComeBack(cmds);
    CleanStays(cmds);
  }

  lemma {:induction false} SpacesComeBack(cmds: seq<string>)
    requires Lacks(cmds, '+')
    ensures Spaced(Encoded(cmds)) == cmds
  {
    if cmds == [] {
    } else {
      ReplaceBack(cmds[0], ' ', '+');
      SpacesComeBack(cmds[1..]);
      assert Encoded(cmds)[1..] == Encoded(cmds[1..]);
      assert [cmds[0]] + cmds[1..] == cmds;
    }
  }

  lemma {:induction false} CleanStays(cmds: seq<string>)
    requires CleanCommands(cmds)
    ensures NonBlank(cmds) == cmds
  {
    hide Trim, Trimmed;
    if cmds == [] {
    } else {
      TrimNothing(cmds[0]);
      CleanStays(cmds[1..]);
      assert [cmds[0]] + cmds[1..] == cmds;
    }
  }
}
