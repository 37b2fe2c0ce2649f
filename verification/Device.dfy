/** The emulated device: canned responses looked up by command, with word-wise abbreviation. */
module Device {
  import opened Text

  datatype Device = Device(hostname: string, commands: map<string, string>) {
    function Prompt(): string {
      hostname + "#"
    }
  }

  function AmbiguousReply(input: string): string {
    "% Ambiguous command: \"" + input + "\"\n"
  }

  function UnknownReply(input: string): string {
    "% Unknown command: \"" + input + "\"\n"
  }

  /** Word by word, each of `short` is a prefix of the word of `long` in its place. */
  predicate Abbreviates(short: seq<string>, long: seq<string>) {
    |short| == |long| && forall i :: 0 <= i < |short| ==> short[i] <= long[i]
  }

  predicate PrefixMatch(input: string, full: string) {
    Abbreviates(Fields(input), Fields(full))
  }

  /** The early-exit loop that decides `PrefixMatch`. */
  method MatchWords(input: string, full: string) returns (b: bool)
    ensures b <==> PrefixMatch(input, full)
  {
    var iWords, fWords := Fields(input), Fields(full);
    if |iWords| != |fWords| { return false; }
    for i := 0 to |iWords|
      invariant forall j :: 0 <= j < i ==> iWords[j] <= fWords[j]
    {
      if !(iWords[i] <= fWords[i]) { return false; }
    }
    return true;
  }

  /** The commands that `input` abbreviates. */
  function Matches(d: Device, input: string): set<string> {
    set c | c in d.commands && PrefixMatch(input, c)
  }

  ghost function Sole(s: set<string>): (c: string)
    requires |s| == 1
    ensures s == {c}
  {
    var c :| c in s;
    assert |s - {c}| == 0;
    c
  }

  /** The device's answer: an exact hit, else the unique abbreviated command, else an error. */
  ghost function Exec(d: Device, raw: string): string {
    var input := Trim(raw);
    var m := Matches(d, input);
    if input == "" then ""
    else if input in d.commands then d.commands[input]
    else if |m| == 1 then d.commands[Sole(m)]
    else if |m| == 0 then UnknownReply(input)
    else AmbiguousReply(input)
  }

  /** A non-blank input never abbreviates the empty command, so "" can mean "no match yet". */
  lemma SentinelIsSound(d: Device, input: string)
    requires Trimmed(input) && input != ""
    ensures "" !in Matches(d, input)
  {
    FieldsNonEmpty("", input, 0);
  }

  lemma TwoMembers(s: set<string>, a: string, b: string)
    requires a in s && b in s && a != b
    ensures |s| >= 2
  {
    assert {a, b} <= s;
    SubsetSize({a, b}, s);
  }

  lemma {:induction false} SubsetSize(a: set<string>, b: set<string>)
    requires a <= b
    ensures |a| <= |b|
  {
    if a != {} {
      var x :| x in a;
      SubsetSize(a - {x}, b - {x});
    }
  }

  /** The lookup as it runs: one pass over the command table, whose order is arbitrary.
      Whatever the order, the answer is `Exec`. */
  method Lookup(d: Device, raw: string) returns (out: string)
    ensures out == Exec(d, raw)
  {
    hide Abbreviates, Fields, TrimLeft, TrimRight, Trim;
    var input := Trim(raw);
    if input == "" { return ""; }
    if input in d.commands { return d.commands[input]; }
    var a, b := TrimSplits(raw);
    SentinelIsSound(d, input);
    ghost var m := Matches(d, input);
    var found := "";
    var rest := d.commands.Keys;
    while rest != {}
      invariant rest <= d.commands.Keys
      invariant forall c :: c in m && c !in rest ==> c == found
      invariant found != "" ==> found in m && found !in rest
      decreases |rest|
    {
      var cmd :| cmd in rest;
      var hit := MatchWords(input, cmd);
      assert hit <==> cmd in m;
      if hit {
        if found != "" {
          TwoMembers(m, found, cmd);
          return AmbiguousReply(input);
        }
        found := cmd;
      }
      rest := rest - {cmd};
    }
    assert m == if found == "" then {} else {found};
    if found != "" { return d.commands[found]; }
    return UnknownReply(input);
  }

  /* ---- shortening a command ---- */

  lemma ShorterMatchesMore(d: Device, shorter: string, longer: string)
    requires PrefixMatch(shorter, longer)
    ensures Matches(d, longer) <= Matches(d, shorter)
  {
    forall c | c in Matches(d, longer) ensures c in Matches(d, shorter) {
      var s, l, f := Fields(shorter), Fields(longer), Fields(c);
      forall i | 0 <= i < |s| ensures s[i] <= f[i] {
        assert s[i] <= l[i] && l[i] <= f[i];
      }
    }
  }

  /** Shortening the words of an input can only lose information: an ambiguous input stays
      ambiguous, and only an input that was already unknown can get an unknown reply. */
  lemma ShorteningNeverDisambiguates(d: Device, shorter: string, longer: string)
    requires Trimmed(shorter) && Trimmed(longer) && shorter != "" && longer != ""
    requires PrefixMatch(shorter, longer)
    requires shorter !in d.commands && longer !in d.commands
    ensures |Matches(d, longer)| >= 2 ==> Exec(d, shorter) == AmbiguousReply(shorter)
    ensures |Matches(d, shorter)| == 0 ==> Exec(d, longer) == UnknownReply(longer)
    ensures |Matches(d, shorter)| == |Matches(d, longer)| == 1 ==> Exec(d, shorter) == Exec(d, longer)
  {
    hide Abbreviates, Fields, TrimLeft, TrimRight;
    ShorterMatchesMore(d, shorter, longer);
    SubsetSize(Matches(d, longer), Matches(d, shorter));
    TrimNothing(shorter);
    TrimNothing(longer);
    if |Matches(d, shorter)| == |Matches(d, longer)| == 1 {
      var c := Sole(Matches(d, longer));
      assert c in Matches(d, longer);
      assert Sole(Matches(d, shorter)) == c;
    }
  }

  /* ---- what an abbreviation is ---- */

  predicate StartsWith(s: string, t: string) {
    |t| <= |s| && forall k :: 0 <= k < |t| ==> s[k] == t[k]
  }

  /** The command has as many words as `cut`, each starting with the one in its place. */
  predicate Spells(cmd: string, cut: seq<string>) {
    |Fields(cmd)| == |cut| && forall i :: 0 <= i < |cut| ==> StartsWith(Fields(cmd)[i], cut[i])
  }

  lemma SpellsIsMatch(cmd: string, input: string)
    ensures Spells(cmd, Fields(input)) <==> PrefixMatch(input, cmd)
  {
    hide Fields;
    var f, g := Fields(cmd), Fields(input);
    forall i | 0 <= i < |g| && i < |f| ensures StartsWith(f[i], g[i]) <==> g[i] <= f[i] {
      assert g[i] <= f[i] ==> f[i][..|g[i]|] == g[i];
    }
  }

  /** Every word of a command may be cut to any of its beginnings. The answer is then that command's if and
      only if no other command is spelled by the same beginnings, or if that command's answer happens to
      be the complaint about them. */
  lemma AbbreviationDecides(d: Device, ws: seq<string>, cut: seq<string>)
    requires AreWords(ws) && |cut| == |ws|
    requires forall i :: 0 <= i < |ws| ==> cut[i] != "" && StartsWith(ws[i], cut[i])
    requires Join(ws, ' ') in d.commands && Join(cut, ' ') !in d.commands
    ensures var cmd, input := Join(ws, ' '), Join(cut, ' ');
            Exec(d, input) == d.commands[cmd] <==>
              (forall c :: c in d.commands && c != cmd ==> !Spells(c, cut))
              || d.commands[cmd] == "% Ambiguous command: \"" + input + "\"\n"
  {
    hide Fields, Join, Trim, PrefixMatch, Spells;
    var cmd, input := Join(ws, ' '), Join(cut, ' ');
    CutsAreWords(ws, cut);
    FieldsOfJoin(ws);
    FieldsOfJoin(cut);
    JoinTrimmed(cut, ' ');
    NoWordsNoText(cut);
    SpelledByCuts(cmd, ws, cut);
    forall c | c in d.commands ensures c in Matches(d, input) <==> Spells(c, cut) { SpellsIsMatch(c, input); }
    OneOrMore(d, input, cmd);
  }

  lemma CutsAreWords(ws: seq<string>, cut: seq<string>)
    requires AreWords(ws) && |cut| == |ws|
    requires forall i :: 0 <= i < |ws| ==> cut[i] != "" && StartsWith(ws[i], cut[i])
    ensures AreWords(cut)
  {
    forall i | 0 <= i < |cut| ensures IsWord(cut[i]) { assert IsWord(ws[i]); }
  }

  lemma NoWordsNoText(ws: seq<string>)
    requires AreWords(ws)
    ensures Join(ws, ' ') == "" <==> ws == []
  {
    if ws != [] { JoinEnds(ws, ' '); }
  }

  lemma SpelledByCuts(cmd: string, ws: seq<string>, cut: seq<string>)
    requires Fields(cmd) == ws && |cut| == |ws| && forall i :: 0 <= i < |ws| ==> StartsWith(ws[i], cut[i])
    ensures Spells(cmd, cut)
  {
  }

  lemma OneOrMore(d: Device, input: string, cmd: string)
    requires Trim(input) == input != "" && input !in d.commands && cmd in Matches(d, input)
    ensures (forall c :: c in Matches(d, input) ==> c == cmd) ==> Exec(d, input) == d.commands[cmd]
    ensures (exists c :: c in Matches(d, input) && c != cmd) ==> Exec(d, input) == AmbiguousReply(input)
  {
    hide Trim, PrefixMatch;
    var m := Matches(d, input);
    if c :| c in m && c != cmd {
      TwoMembers(m, c, cmd);
    } else {
      assert m == {cmd};
    }
  }

  /** An input is unknown if none of the commands is spelled by its words. */
  lemma StrangersAreUnknown(d: Device, raw: string)
    requires Trim(raw) != "" && Trim(raw) !in d.commands
    requires forall c :: c in d.commands ==> !Spells(c, Fields(Trim(raw)))
    ensures Exec(d, raw) == "% Unknown command: \"" + Trim(raw) + "\"\n"
  {
    hide Fields, Trim, PrefixMatch, Spells;
    var input := Trim(raw);
    forall c | c in d.commands ensures c !in Matches(d, input) { SpellsIsMatch(c, input); }
    assert Matches(d, input) == {};
  }

  /** So it is if one of its words starts no word in its place, in any command of that many words. */
  lemma StrangeWordIsUnknown(d: Device, raw: string, i: nat)
    requires Trim(raw) != "" && Trim(raw) !in d.commands && i < |Fields(Trim(raw))|
    requires forall c :: c in d.commands && |Fields(c)| == |Fields(Trim(raw))| ==>
               !StartsWith(Fields(c)[i], Fields(Trim(raw))[i])
    ensures Exec(d, raw) == "% Unknown command: \"" + Trim(raw) + "\"\n"
  {
    hide Fields, Trim, Exec;
    StrangersAreUnknown(d, raw);
  }
}
