/** What the shell runs, stated without the editor: cancel the backspaces in everything that was
    typed, and run the result as one exec payload. */
module LineEditor {
  import opened Text
  import opened Device
  import opened SshServer

  /** The effect of a backspace on the whole text typed so far: it never crosses a line end. */
  function Rubout(t: string): string {
    if t == "" || t[|t| - 1] == LF then t else t[..|t| - 1]
  }

  /** The typed text with backspaces carried out and every line end written as LF. */
  function Cancelled(s: string): string {
    if s == "" then "" else
      var t, b := Cancelled(s[..|s| - 1]), s[|s| - 1];
      if IsEnter(b) then t + [LF] else if IsErase(b) then Rubout(t) else t + [b]
  }

  /** Everything up to the last LF, and what follows it. */
  function Terminated(t: string): string {
    if t == "" || t[|t| - 1] == LF then t else Terminated(t[..|t| - 1])
  }

  function Unfinished(t: string): string {
    if t == "" || t[|t| - 1] == LF then "" else Unfinished(t[..|t| - 1]) + [t[|t| - 1]]
  }

  ghost predicate HasExit(cmds: seq<string>) {
    exists i :: 0 <= i < |cmds| && IsExit(cmds[i])
  }

  /** The commands before the first `exit` or `quit`. */
  function UpToExit(cmds: seq<string>): seq<string> {
    if cmds == [] || IsExit(cmds[0]) then [] else [cmds[0]] + UpToExit(cmds[1..])
  }

  lemma {:induction false} UpToExitAppend(a: seq<string>, b: seq<string>)
    ensures HasExit(a) ==> UpToExit(a + b) == UpToExit(a)
    ensures !HasExit(a) ==> UpToExit(a + b) == a + UpToExit(b)
  {
    if a == [] {
      assert a + b == b;
    } else {
      assert (a + b)[1..] == a[1..] + b;
      UpToExitAppend(a[1..], b);
      if HasExit(a) && !IsExit(a[0]) {
        var i :| 0 <= i < |a| && IsExit(a[i]);
        assert a[1..][i - 1] == a[i];
      }
      if !HasExit(a) {
        forall i | 0 <= i < |a[1..]| ensures !IsExit(a[1..][i]) { assert a[1..][i] == a[i + 1]; }
      }
    }
  }

  /* ---- how commands divide over lines ---- */

  lemma CommandsOfLines(a: string, b: string)
    ensures Commands(a + [LF] + b) == Commands(a) + Commands(b)
  {
    SplitFromAppend("", a, b, LF);
    NonBlankAppend(Split(a, LF), Split(b, LF));
  }

  lemma CommandsOfLine(l: string)
    requires LF !in l
    ensures Commands(l) == NonBlank([l])
  {
    SplitWithout("", l, LF);
    assert "" + l == l;
  }

  lemma {:induction false} TerminatedSplits(t: string)
    ensures t == Terminated(t) + Unfinished(t) && LF !in Unfinished(t)
    ensures Terminated(t) == "" || Terminated(t)[|Terminated(t)| - 1] == LF
  {
    if t != "" && t[|t| - 1] != LF {
      TerminatedSplits(t[..|t| - 1]);
      assert t == t[..|t| - 1] + [t[|t| - 1]];
    }
  }

  lemma CommandsOfNothing()
    ensures Commands("") == []
  {
    NonBlankLine("");
  }

  lemma CommandsAfterLines(u: string, x: string)
    requires u == "" || u[|u| - 1] == LF
    ensures Commands(u + x) == Commands(u) + Commands(x)
  {
    hide Commands;
    CommandsOfNothing();
    if u == "" {
      assert u + x == x && [] + Commands(x) == Commands(x);
    } else {
      var v := u[..|u| - 1];
      assert u + x == v + [LF] + x && u == v + [LF] + "";
      CommandsOfLines(v, x);
      CommandsOfLines(v, "");
      assert Commands(v) + [] == Commands(v);
    }
  }

  lemma LineAfterLines(u: string, l: string)
    requires u == "" || u[|u| - 1] == LF
    requires LF !in l
    ensures Commands(u + l + [LF]) == Commands(u) + NonBlank([l])
  {
    hide Commands, NonBlank;
    var end := l + [LF];
    assert u + l + [LF] == u + end && end + "" == end;
    CommandsAfterLines(u, end);
    CommandsOfLines(l, "");
    CommandsOfNothing();
    CommandsOfLine(l);
    assert Commands(l) + [] == Commands(l);
  }

  /** Ending the unfinished line adds that line's command, if it is not blank. */
  lemma EnterAddsCommand(t: string)
    ensures Terminated(t + [LF]) == t + [LF] && Unfinished(t + [LF]) == ""
    ensures Commands(t + [LF]) == Commands(Terminated(t)) + NonBlank([Unfinished(t)])
  {
    hide Commands, NonBlank;
    TerminatedSplits(t);
    LineAfterLines(Terminated(t), Unfinished(t));
  }

  /** After input `s` the shell stands where the text `t` says: it has run the commands of the
      terminated lines up to the first exit, and holds the unfinished line. */
  ghost predicate Mirrors(s: string, t: string) {
    var cmds := Commands(Terminated(t));
    && Executed(FRESH, s) == UpToExit(cmds)
    && After(FRESH, s) == if HasExit(cmds) then Editor("", true) else Editor(Unfinished(t), false)
  }

  lemma KeyAfter(s: string, b: char)
    ensures var e := After(FRESH, s);
            After(FRESH, s + [b]) == (if e.done then e else Press(e, b)) &&
            Executed(FRESH, s + [b]) == Executed(FRESH, s) + (if e.done then [] else Ran(e, b))
  {
    SessionAppend(FRESH, s, [b]);
    var e := After(FRESH, s);
    if !e.done {
      assert After(Press(e, b), [b][1..]) == Press(e, b) && Executed(Press(e, b), [b][1..]) == [];
    }
  }

  lemma OtherKey(s: string, t: string, b: char)
    requires Mirrors(s, t) && !IsEnter(b)
    ensures Mirrors(s + [b], if IsErase(b) then Rubout(t) else t + [b])
  {
    hide Commands, Trim, UpToExit, HasExit;
    KeyAfter(s, b);
    assert (t + [b])[..|t|] == t;
    assert Terminated(Rubout(t)) == Terminated(t);
  }

  lemma EnterKey(s: string, t: string, b: char)
    requires Mirrors(s, t) && IsEnter(b)
    ensures Mirrors(s + [b], t + [LF])
  {
    hide Commands, Trim, UpToExit, HasExit, Terminated, Unfinished;
    KeyAfter(s, b);
    EnterAddsCommand(t);
    var cmds, line := Commands(Terminated(t)), Unfinished(t);
    NonBlankLine(line);
    var more := NonBlank([line]);
    EnterRuns(cmds, more);
  }

  lemma EnterRuns(cmds: seq<string>, more: seq<string>)
    requires |more| <= 1
    ensures HasExit(cmds) ==> HasExit(cmds + more) && UpToExit(cmds + more) == UpToExit(cmds)
    ensures !HasExit(cmds) ==> UpToExit(cmds + more) ==
                               UpToExit(cmds) + if more == [] || IsExit(more[0]) then [] else more
    ensures !HasExit(cmds) ==> (HasExit(cmds + more) <==> more != [] && IsExit(more[0]))
  {
    UpToExitAppend(cmds, more);
    UpToExitAppend(cmds, []);
    assert cmds + [] == cmds && UpToExit([]) == [];
    if HasExit(cmds) {
      var i :| 0 <= i < |cmds| && IsExit(cmds[i]);
      assert (cmds + more)[i] == cmds[i];
    } else {
      if more != [] {
        assert more == [more[0]] && more[1..] == [];
        assert (cmds + more)[|cmds|] == more[0];
      }
      forall i | 0 <= i < |cmds| ensures !IsExit((cmds + more)[i]) {
        assert (cmds + more)[i] == cmds[i];
      }
    }
  }

  lemma NothingTyped()
    ensures Mirrors("", Cancelled(""))
  {
    NonBlankLine("");
    assert Commands(Terminated("")) == [];
  }

  lemma CancelledKey(s: string, b: char)
    ensures Cancelled(s + [b]) ==
              if IsEnter(b) then Cancelled(s) + [LF]
              else if IsErase(b) then Rubout(Cancelled(s)) else Cancelled(s) + [b]
  {
    assert (s + [b])[..|s|] == s;
  }

  /** For every input whatever, with any backspaces, line ends and pauses: the shell runs the
      commands that one exec request with the cancelled text would run, up to the first exit,
      and what it holds in its line buffer is the unfinished last line. */
  lemma {:induction false} ShellRunsCancelledText(s: string)
    ensures Mirrors(s, Cancelled(s))
  {
    hide Mirrors, Cancelled;
    if s == "" {
      NothingTyped();
    } else {
      var s0, b := s[..|s| - 1], s[|s| - 1];
      ShellRunsCancelledText(s0);
      assert s == s0 + [b];
      CancelledKey(s0, b);
      if IsEnter(b) { EnterKey(s0, Cancelled(s0), b); } else { OtherKey(s0, Cancelled(s0), b); }
    }
  }

  /* ---- agreement with the exec branch on ordinary input ---- */

  predicate CrBeforeLf(s: string) {
    forall i :: 0 <= i < |s| && s[i] == CR ==> i + 1 < |s| && s[i + 1] == LF
  }

  predicate NoErase(s: string) {
    forall i :: 0 <= i < |s| ==> !IsErase(s[i])
  }

  lemma {:induction false} CancelledIsReplace(s: string)
    requires NoErase(s)
    ensures Cancelled(s) == Replace(s, CR, LF)
  {
    if s != "" {
      CancelledIsReplace(s[..|s| - 1]);
      assert s == s[..|s| - 1] + [s[|s| - 1]];
    }
  }

  lemma {:induction false} CrLfIsOneEnd(part: string, s: string)
    requires CrBeforeLf(s)
    ensures NonBlank(SplitFrom(part, Replace(s, CR, LF), LF)) == NonBlank(SplitFrom(part, s, LF))
    decreases |s|
  {
    if s != "" {
      assert Replace(s, CR, LF)[1..] == Replace(s[1..], CR, LF);
      if s[0] == CR {
        var rest := s[2..];
        assert s[1] == LF && s[1..][1..] == rest;
        assert CrBeforeLf(rest) by {
          forall i | 0 <= i < |rest| && rest[i] == CR ensures i + 1 < |rest| && rest[i + 1] == LF {
            assert s[i + 2] == CR;
          }
        }
        assert Replace(s[1..], CR, LF)[1..] == Replace(rest, CR, LF);
        CrLfIsOneEnd("", rest);
        assert "" + part + [CR] == part + [CR];
        TrimPadded("", part, [CR]);
        var tail := SplitFrom("", Replace(rest, CR, LF), LF);
        assert SplitFrom(part, Replace(s, CR, LF), LF) == [part] + ([""] + tail);
        assert SplitFrom(part, s, LF) == [part + [CR]] + SplitFrom("", rest, LF);
        assert ([part] + ([""] + tail))[1..] == [""] + tail && ([""] + tail)[1..] == tail;
        assert Trim("") == "";
      } else {
        assert CrBeforeLf(s[1..]) by {
          forall i | 0 <= i < |s[1..]| && s[1..][i] == CR ensures i + 1 < |s[1..]| && s[1..][i + 1] == LF {
            assert s[i + 1] == CR;
          }
        }
        if s[0] == LF {
          CrLfIsOneEnd("", s[1..]);
        } else {
          CrLfIsOneEnd(part + [s[0]], s[1..]);
        }
      }
    }
  }

  /** On newline-terminated input without backspaces, and with CR only in front of LF, the shell
      runs exactly what the exec branch runs, up to the first exit. */
  lemma ShellAgreesWithExec(s: string)
    requires NoErase(s) && CrBeforeLf(s)
    requires s == "" || s[|s| - 1] == LF
    ensures Executed(FRESH, s) == UpToExit(Commands(s))
  {
    ShellRunsCancelledText(s);
    CancelledIsReplace(s);
    CrLfIsOneEnd("", s);
  }

  /* ---- payloads line by line ---- */

  /** An exec payload is answered line by line: a text without line feeds as a command of its own, and two
      texts with a line feed between them by the answers to both. */
  lemma ExecIsLineByLine(d: Device, a: string, b: string)
    ensures LF !in a ==> Outputs(d, Commands(a)) == Exec(d, a)
    ensures Outputs(d, Commands(a + "\n" + b)) == Outputs(d, Commands(a)) + Outputs(d, Commands(b))
  {
    hide Exec, Commands, NonBlank;
    CommandsOfLines(a, b);
    assert a + "\n" + b == a + [LF] + b;
    OutputsAppend(d, Commands(a), Commands(b));
    if LF !in a {
      CommandsOfLine(a);
      NonBlankLine(a);
      OutputsOne(d, Trim(a));
      TrimmedExec(d, a);
    }
  }

  lemma TrimmedExec(d: Device, line: string)
    ensures Exec(d, line) == if Trim(line) == "" then "" else Exec(d, Trim(line))
  {
    TrimIdempotent(line);
  }

  /* ---- the keys ---- */

  /** A key that types a character. */
  predicate Types(c: char) {
    c != '\r' && c != '\n' && c != '\U{08}' && c != '\U{7F}'
  }

  lemma TypesIsPlain(c: char)
    ensures Types(c) <==> !IsEnter(c) && !IsErase(c)
  {
  }

  /** Both backspace keys take the last character back and wipe it from the terminal. */
  lemma EitherBackspaceErases(d: Device, line: string, c: char, b: char)
    requires Types(c) && (b == '\U{08}' || b == '\U{7F}')
    ensures var e := Editor(line, false);
            After(e, [c, b]) == e && Executed(e, [c, b]) == [] && Emit(d, e, [c, b]) == [c] + "\U{08} \U{08}"
  {
    hide Exec, Trim, Emit, Executed, After;
    var e := Editor(line, false);
    assert [c, b] == [c] + [b];
    SessionAppend(e, [c], [b]);
    EmitAppend(d, e, [c], [b]);
    OneKey(d, e, c);
    OneKey(d, Press(e, c), b);
    assert (line + [c])[..|line + [c]| - 1] == line;
  }

  /** A backspace on an empty line does nothing at all. */
  lemma NothingToErase(d: Device, b: char)
    requires b == '\U{08}' || b == '\U{7F}'
    ensures After(FRESH, [b]) == FRESH && Executed(FRESH, [b]) == [] && Emit(d, FRESH, [b]) == ""
  {
    assert [b][1..] == "";
  }

  /** A line ended by either line end: it is echoed, and then the session ends on `exit` and `quit` and on
      nothing else; any other line that is not blank is run once, and its answer and the prompt follow. */
  lemma LineIsAnswered(d: Device, line: string, end: char)
    requires (forall i :: 0 <= i < |line| ==> Types(line[i])) && (end == '\r' || end == '\n')
    ensures Trim(line) == "exit" || Trim(line) == "quit" ==>
              After(FRESH, line + [end]) == Editor("", true) && Executed(FRESH, line + [end]) == [] &&
              Emit(d, FRESH, line + [end]) == line + "\r\n"
    ensures Trim(line) != "exit" && Trim(line) != "quit" ==>
              After(FRESH, line + [end]) == Editor("", false) &&
              Executed(FRESH, line + [end]) == (if Trim(line) == "" then [] else [Trim(line)]) &&
              Emit(d, FRESH, line + [end]) ==
                line + "\r\n" + (if Trim(line) == "" then "" else Exec(d, Trim(line))) + d.hostname + "#"
  {
    hide Exec, Emit, Executed, After, Trim;
    forall i | 0 <= i < |line| ensures !IsEnter(line[i]) && !IsErase(line[i]) { TypesIsPlain(line[i]); }
    TypingEchoes(d, "", line);
    assert "" + line == line;
    SessionAppend(FRESH, line, [end]);
    EmitAppend(d, FRESH, line, [end]);
    OneKey(d, Editor(line, false), end);
    EnterEchoes(d, line, end);
  }

  lemma EnterEchoes(d: Device, line: string, end: char)
    requires IsEnter(end)
    ensures line + Echo(d, Editor(line, false), end) ==
              if IsExit(Trim(line)) then line + "\r\n"
              else line + "\r\n" + (if Trim(line) == "" then "" else Exec(d, Trim(line))) + d.hostname + "#"
  {
    hide Exec, Trim;
    var answer := if Trim(line) == "" then "" else Exec(d, Trim(line));
    assert "\r\n" == [CR, LF];
    Assoc([CR, LF], answer, d.hostname + "#");
    assert line + ([CR, LF] + answer + (d.hostname + "#")) == line + [CR, LF] + answer + d.hostname + "#";
  }

  /* ---- what the user sees ---- */

  /** A terminal row, and the cursor in it. */
  datatype Screen = Screen(row: string, col: nat)

  predicate Shown(sc: Screen, text: string) {
    && sc.col == |text| <= |sc.row| && sc.row[..sc.col] == text
    && forall i :: sc.col <= i < |sc.row| ==> sc.row[i] == ' '
  }

  /** The terminal's reaction to one byte: a backspace moves left, and any other byte is
      taken to print one character. */
  function Put(sc: Screen, c: char): Screen {
    if c == '\U{08}' then sc.(col := if sc.col == 0 then 0 else sc.col - 1)
    else if sc.col < |sc.row| then Screen(sc.row[sc.col := c], sc.col + 1)
    else Screen(sc.row + [c], |sc.row| + 1)
  }

  function Display(sc: Screen, bytes: string): Screen
    decreases |bytes|
  {
    if bytes == "" then sc else Display(Put(sc, bytes[0]), bytes[1..])
  }

  lemma {:induction false} DisplayAppend(sc: Screen, a: string, b: string)
    ensures Display(sc, a + b) == Display(Display(sc, a), b)
    decreases |a|
  {
    if a == "" {
      assert a + b == b;
    } else {
      assert (a + b)[1..] == a[1..] + b;
      DisplayAppend(Put(sc, a[0]), a[1..], b);
    }
  }

  lemma RuboutShows(sc: Screen, text: string)
    requires Shown(sc, text) && text != ""
    ensures Shown(Display(sc, RUBOUT), text[..|text| - 1])
  {
    var s1 := Put(sc, '\U{08}');
    var s2 := Put(s1, ' ');
    var s3 := Put(s2, '\U{08}');
    assert Display(sc, RUBOUT) == s3 by {
      assert RUBOUT[1..] == " \U{08}" && " \U{08}"[1..] == "\U{08}" && "\U{08}"[1..] == "";
      assert Display(s3, "") == s3;
      assert Display(s2, "\U{08}") == s3;
      assert Display(s1, " \U{08}") == Display(s2, "\U{08}");
    }
    assert s3.row[..s3.col] == text[..|text| - 1];
  }

  lemma CharShows(sc: Screen, text: string, c: char)
    requires Shown(sc, text) && c != '\U{08}'
    ensures Shown(Display(sc, [c]), text + [c])
  {
    var s1 := Put(sc, c);
    assert Display(sc, [c]) == s1 by { assert [c][1..] == "" && Display(s1, "") == s1; }
    assert s1.row[..s1.col] == text + [c];
  }

  /** While a line is typed and corrected, what the terminal shows behind the prompt is, at every
      moment, the line that the shell will run. */
  lemma {:induction false} EchoShowsTheLine(d: Device, e: Editor, s: string, sc: Screen, prompt: string)
    requires !e.done && Shown(sc, prompt + e.line)
    requires forall i :: 0 <= i < |s| ==> !IsEnter(s[i])
    ensures Shown(Display(sc, Emit(d, e, s)), prompt + After(e, s).line)
    decreases |s|
  {
    hide Exec, Display, Shown;
    DisplayNothing(sc);
    if s != "" {
      var b, e' := s[0], Press(e, s[0]);
      if IsErase(b) && e.line != "" {
        RuboutShows(sc, prompt + e.line);
        assert (prompt + e.line)[..|prompt + e.line| - 1] == prompt + e'.line;
      } else if !IsErase(b) {
        CharShows(sc, prompt + e.line, b);
        assert prompt + e.line + [b] == prompt + e'.line;
      }
      var echo := Echo(d, e, b);
      DisplayAppend(sc, echo, Emit(d, e', s[1..]));
      EchoShowsTheLine(d, e', s[1..], Display(sc, echo), prompt);
    }
  }

  lemma DisplayNothing(sc: Screen)
    ensures Display(sc, "") == sc
  {
  }
}
