/** Commands as gNMI paths and as RESTCONF URL paths, and back. */
module Paths {
  import opened Text
  import opened Device
  import opened SshServer
  import opened HttpHandler

  /* ---- gNMI: a path is a list of element names, under "cli" ---- */

  function GnmiPath(cmd: string): seq<string> {
    ["cli"] + Fields(cmd)
  }

  function GnmiCommand(elems: seq<string>): string {
    Join(if elems != [] && elems[0] == "cli" then elems[1..] else elems, ' ')
  }

  method CommandToGnmi(cmd: string) returns (elems: seq<string>)
    ensures elems == GnmiPath(cmd)
  {
    var words := Fields(cmd);
    elems := ["cli"];
    for i := 0 to |words|
      invariant elems == ["cli"] + words[..i]
    {
      elems := elems + [words[i]];
    }
  }

  method GnmiToCommand(elems: seq<string>) returns (cmd: string)
    ensures cmd == GnmiCommand(elems)
  {
    hide Join;
    if |elems| == 0 {
      JoinNone();
      return "";
    }
    var parts := [];
    ghost var skip := if elems[0] == "cli" then 1 else 0;
    for i := 0 to |elems|
      invariant parts == if i < skip then [] else elems[skip..i]
    {
      if !(i == 0 && elems[i] == "cli") {
        parts := parts + [elems[i]];
      }
    }
    assert elems[skip..|elems|] == elems[skip..];
    return Join(parts, ' ');
  }

  lemma JoinNone()
    ensures Join([], ' ') == ""
  {
  }

  /** The gNMI pair gives back every command, single-spaced. */
  lemma GnmiRoundTrip(cmd: string)
    ensures GnmiCommand(GnmiPath(cmd)) == Join(Fields(cmd), ' ')
  {
    assert GnmiPath(cmd)[1..] == Fields(cmd);
  }

  /** The leading "cli" may be left out, unless the command itself starts with that word; no other first
      element is dropped. */
  lemma GnmiPrefixIsOptional(ws: seq<string>)
    ensures GnmiCommand(["cli"] + ws) == Join(ws, ' ')
    ensures ws == [] || ws[0] != "cli" ==> GnmiCommand(ws) == Join(ws, ' ')
  {
    hide Join;
    assert (["cli"] + ws)[1..] == ws;
  }

  /* ---- RESTCONF: a path is text, its words separated by slashes ---- */

  const DATA: string := "/restconf/data/"
  const CLI: string := "cli:"

  function RestconfPath(cmd: string): string {
    if Fields(cmd) == [] then "/restconf/data/cli:show/version"
    else "/restconf/data/cli:" + Join(Fields(cmd), '/')
  }

  function RestconfCommand(path: string): string {
    var cmd := Trim(Replace(TrimPrefix(TrimPrefix(path, DATA), CLI), '/', ' '));
    if cmd == "" then "show version" else cmd
  }

  lemma {:induction false} ReplaceJoin(ws: seq<string>)
    requires forall i :: 0 <= i < |ws| ==> '/' !in ws[i]
    ensures Replace(Join(ws, '/'), '/', ' ') == Join(ws, ' ')
  {
    if |ws| == 1 {
      NothingReplaced(ws[0]);
    } else if |ws| > 1 {
      var rest := ws[1..];
      ReplaceJoin(rest);
      NothingReplaced(ws[0]);
      ReplaceAppend(ws[0], ['/'] + Join(rest, '/'));
      ReplaceAppend(['/'], Join(rest, '/'));
      assert Replace(['/'], '/', ' ') == [' '];
      assert ws[0] + ['/'] + Join(rest, '/') == ws[0] + (['/'] + Join(rest, '/'));
    }
  }

  lemma NothingReplaced(s: string)
    requires '/' !in s
    ensures Replace(s, '/', ' ') == s
  {
    forall i | 0 <= i < |s| ensures Replace(s, '/', ' ')[i] == s[i] { assert s[i] in s; }
  }

  lemma ReplaceAppend(a: string, b: string)
    ensures Replace(a + b, '/', ' ') == Replace(a, '/', ' ') + Replace(b, '/', ' ')
  {
  }

  lemma PrefixesGo(rest: string)
    ensures TrimPrefix(TrimPrefix("/restconf/data/cli:" + rest, DATA), CLI) == rest
  {
    var s := "/restconf/data/cli:" + rest;
    assert s == DATA + (CLI + rest);
    assert s[|DATA|..] == CLI + rest;
    assert (CLI + rest)[|CLI|..] == rest;
  }

  lemma {:induction false} JoinKeeps(ws: seq<string>, i: nat, c: char)
    requires i < |ws| && c in ws[i]
    ensures c in Join(ws, ' ')
  {
    if |ws| > 1 {
      var j := Join(ws[1..], ' ');
      if i == 0 {
        var k :| 0 <= k < |ws[0]| && ws[0][k] == c;
        assert (ws[0] + [' '] + j)[k] == c;
      } else {
        JoinKeeps(ws[1..], i - 1, c);
        var k :| 0 <= k < |j| && j[k] == c;
        assert (ws[0] + [' '] + j)[|ws[0]| + 1 + k] == c;
      }
    }
  }

  lemma DefaultComesBack()
    ensures RestconfCommand("/restconf/data/cli:show/version") == "show version"
  {
    hide Trim, TrimPrefix;
    PrefixesGo("show/version");
    assert "/restconf/data/cli:" + "show/version" == "/restconf/data/cli:show/version";
    assert Replace("show/version", '/', ' ') == "show version";
    TrimNothing("show version");
  }

  /** The RESTCONF pair gives back a command, single-spaced, exactly when it is free of slashes;
      a blank one comes back as "show version". */
  lemma RestconfRoundTrip(cmd: string)
    ensures Fields(cmd) == [] ==> RestconfCommand(RestconfPath(cmd)) == "show version"
    ensures Fields(cmd) != [] ==>
              (RestconfCommand(RestconfPath(cmd)) == Join(Fields(cmd), ' ') <==>
               forall i :: 0 <= i < |Fields(cmd)| ==> '/' !in Fields(cmd)[i])
  {
    var ws := Fields(cmd);
    FieldsAreWords(cmd);
    hide Trim, Fields, TrimPrefix;
    if ws == [] {
      DefaultComesBack();
    } else {
      PrefixesGo(Join(ws, '/'));
      JoinEnds(ws, ' ');
      JoinTrimmed(ws, ' ');
      hide Join, Replace, AreWords;
      if forall i :: 0 <= i < |ws| ==> '/' !in ws[i] {
        ReplaceJoin(ws);
      } else {
        var i :| 0 <= i < |ws| && '/' in ws[i];
        JoinKeeps(ws, i, '/');
        SlashesGone(Join(ws, '/'));
      }
    }
  }

  /** The leading "cli:" may be left out, unless the command itself starts with it; and nothing behind the
      data prefix but white space means "show version". */
  lemma RestconfPrefixIsOptional(ws: seq<string>)
    requires AreWords(ws) && ws != [] && forall i :: 0 <= i < |ws| ==> '/' !in ws[i]
    ensures RestconfCommand("/restconf/data/cli:" + Join(ws, '/')) == Join(ws, ' ')
    ensures !("cli:" <= Join(ws, '/')) ==> RestconfCommand("/restconf/data/" + Join(ws, '/')) == Join(ws, ' ')
  {
    hide Trim, Join, TrimPrefix, Replace, AreWords;
    var path := Join(ws, '/');
    PrefixesGo(path);
    if !(CLI <= path) { DataPrefixGoes(path); }
    ReplaceJoin(ws);
    JoinEnds(ws, ' ');
    JoinTrimmed(ws, ' ');
  }

  lemma DataPrefixGoes(rest: string)
    requires !(CLI <= rest)
    ensures TrimPrefix(TrimPrefix("/restconf/data/" + rest, DATA), CLI) == rest
  {
    var s := "/restconf/data/" + rest;
    assert s[|DATA|..] == rest;
  }

  lemma SlashesGone(s: string)
    ensures '/' !in Trim(Replace(s, '/', ' '))
  {
    hide Trim;
    var r := Replace(s, '/', ' ');
    var a, b := TrimSplits(r);
    forall k | 0 <= k < |Trim(r)| ensures Trim(r)[k] != '/' {
      assert Trim(r)[k] == r[|a| + k];
    }
  }

  /* ---- the same answer over three transports ---- */

  /** The word segments of a RESTCONF path are not changed on their way. */
  predicate TameWords(cmd: string) {
    Fields(cmd) != [] && forall i :: 0 <= i < |Fields(cmd)| ==> Tame(Fields(cmd)[i])
  }

  /** A RESTCONF path arrives as it was built, if URL syntax and path cleaning leave its words alone. */
  lemma RestconfArrives(h: Http, cmd: string)
    requires KeepsTame(h) && TameWords(cmd)
    ensures h.route(RestconfPath(cmd)) == Arrives(RestconfPath(cmd))
  {
    var ws := Fields(cmd);
    hide Fields;
    var segs := ["restconf", "data", CLI + ws[0]] + ws[1..];
    forall i | 0 <= i < |segs| ensures Tame(segs[i]) { SegmentIsTame(ws, i); }
    assert AllTame(segs);
    hide Tame, AllTame;
    RestconfSegments(ws);
    assert h.route(PathOf(segs)) == Arrives(PathOf(segs));
  }

  lemma SegmentIsTame(ws: seq<string>, i: nat)
    requires ws != [] && (forall j :: 0 <= j < |ws| ==> Tame(ws[j])) && i < |ws| + 2
    ensures Tame((["restconf", "data", CLI + ws[0]] + ws[1..])[i])
  {
    var w := CLI + ws[0];
    if i == 2 {
      assert w[0] == 'c';
      forall k | 0 <= k < |w| ensures TameChar(w[k]) {
        assert k >= |CLI| ==> w[k] == ws[0][k - |CLI|];
      }
    } else if i > 2 {
      assert (["restconf", "data", w] + ws[1..])[i] == ws[i - 2];
    }
  }

  lemma JoinCons(w: string, ws: seq<string>)
    requires ws != []
    ensures Join([w] + ws, '/') == w + ['/'] + Join(ws, '/')
  {
    assert ([w] + ws)[1..] == ws;
  }

  lemma JoinFront(a: string, ws: seq<string>)
    requires ws != []
    ensures Join([a + ws[0]] + ws[1..], '/') == a + Join(ws, '/')
  {
    if |ws| == 1 {
      assert [a + ws[0]] + ws[1..] == [a + ws[0]];
    } else {
      hide Join;
      JoinCons(a + ws[0], ws[1..]);
      JoinCons(ws[0], ws[1..]);
      assert [ws[0]] + ws[1..] == ws;
      Assoc(a, ws[0], ['/']);
      Assoc(a, ws[0] + ['/'], Join(ws[1..], '/'));
    }
  }

  lemma Glue(a: string, b: string, c: string, d: string)
    ensures "/" + (a + ['/'] + (b + ['/'] + (c + d))) == ("/" + a + ['/'] + b + ['/'] + c) + d
  {
  }

  lemma RestconfSegments(ws: seq<string>)
    requires ws != []
    ensures PathOf(["restconf", "data", CLI + ws[0]] + ws[1..]) == "/restconf/data/cli:" + Join(ws, '/')
  {
    var tail := [CLI + ws[0]] + ws[1..];
    var a, b := "restconf", "data";
    assert [a, b, CLI + ws[0]] + ws[1..] == [a] + ([b] + tail);
    assert "/" + a + ['/'] + b + ['/'] + CLI == "/restconf/data/cli:";
    hide Join, CLI;
    JoinCons(a, [b] + tail);
    JoinCons(b, tail);
    JoinFront(CLI, ws);
    Glue(a, b, CLI, Join(ws, '/'));
  }

  /** On a single-spaced command, gNMI Get and SSH exec give the device's answer to that command; so
      does RESTCONF GET if URL syntax leaves the command's words alone. */
  lemma TransportsAgree(h: Http, d: Device, cmd: string)
    requires KeepsTame(h) && SingleSpaced(cmd)
    ensures Exec(d, GnmiCommand(GnmiPath(cmd))) == Exec(d, cmd)
    ensures Outputs(d, Commands(cmd)) == Exec(d, cmd)
    ensures TameWords(cmd) ==>
              h.route(RestconfPath(cmd)).Arrives? &&
              Exec(d, RestconfCommand(h.route(RestconfPath(cmd)).path)) == Exec(d, cmd)
  {
    GnmiRoundTrip(cmd);
    FieldsAreWords(cmd);
    var ws := Fields(cmd);
    ExecOfNothing(d);
    if TameWords(cmd) {
      RestconfArrives(h, cmd);
      RestconfRoundTrip(cmd);
      forall i | 0 <= i < |ws| ensures '/' !in ws[i] { TameLacksSlash(ws[i]); }
    }
    hide Exec, Fields, RestconfCommand, RestconfPath, Trim, Trimmed, TameWords, KeepsTame;
    JoinTrimmed(ws, ' ');
    NoLineFeed(ws);
    if cmd != "" {
      NoLineFeedSplit(cmd);
      OutputsOne(d, cmd);
    }
  }

  lemma TameLacksSlash(seg: string)
    requires Tame(seg)
    ensures '/' !in seg
  {
    forall i | 0 <= i < |seg| ensures seg[i] != '/' { assert TameChar(seg[i]); }
  }

  lemma ExecOfNothing(d: Device)
    ensures Exec(d, "") == "" && Outputs(d, Commands("")) == ""
  {
    NonBlankLine("");
  }

  lemma NoLineFeedSplit(cmd: string)
    requires LF !in cmd && Trim(cmd) == cmd && cmd != ""
    ensures Commands(cmd) == [cmd]
  {
    hide Trim;
    SplitWithout("", cmd, LF);
    assert "" + cmd == cmd;
    NonBlankLine(cmd);
  }

  lemma {:induction false} NoLineFeed(ws: seq<string>)
    requires AreWords(ws)
    ensures LF !in Join(ws, ' ')
  {
    if |ws| > 0 {
      assert IsWord(ws[0]);
      forall k | 0 <= k < |ws[0]| ensures ws[0][k] != LF { assert !IsSpace(ws[0][k]); }
      if |ws| > 1 { NoLineFeed(ws[1..]); }
    }
  }

  /** Spacing matters for nothing but exact hits: two inputs with the same words abbreviate the
      same commands. So a doubled space changes the answer of an input that is itself a command
      and also abbreviates another one. */
  lemma SpacingHidesExactHits(d: Device, cmd: string, spaced: string)
    requires Trimmed(cmd) && Trimmed(spaced) && cmd != "" && spaced != ""
    requires Fields(cmd) == Fields(spaced)
    requires cmd in d.commands && spaced !in d.commands
    ensures Exec(d, cmd) == d.commands[cmd]
    ensures |Matches(d, cmd)| == 1 ==> Exec(d, spaced) == d.commands[cmd]
    ensures |Matches(d, cmd)| >= 2 ==> Exec(d, spaced) == AmbiguousReply(spaced)
    ensures |Matches(d, cmd)| >= 1
  {
    hide Fields, Trim;
    TrimNothing(cmd);
    TrimNothing(spaced);
    assert Matches(d, spaced) == Matches(d, cmd);
    assert cmd in Matches(d, cmd);
    if |Matches(d, cmd)| == 1 { assert Sole(Matches(d, cmd)) == cmd; }
  }
}
