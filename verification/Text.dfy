/** Byte strings and the library operations on them that the servers and clients rely on:
    substring search, trimming, splitting, word splitting and joining.
    A `char` stands for one byte. */
module Text {

  const LF: char := '\n'
  const CR: char := '\r'

  predicate IsSpace(c: char) {
    c == ' ' || c == '\t' || c == '\n' || c == '\r' || c == '\U{0B}' || c == '\U{0C}'
  }

  predicate AllSpace(s: string) {
    forall i :: 0 <= i < |s| ==> IsSpace(s[i])
  }

  predicate SpaceFree(s: string) {
    forall i :: 0 <= i < |s| ==> !IsSpace(s[i])
  }

  /* ---- substring search ---- */

  /** `t` occurs in `s` at position `i`. */
  predicate At(s: string, t: string, i: int) {
    0 <= i && i + |t| <= |s| && s[i..i + |t|] == t
  }

  /** `i` is where `t` occurs first in `s`. */
  ghost predicate FirstAt(s: string, t: string, i: int) {
    At(s, t, i) && forall j :: 0 <= j < i ==> !At(s, t, j)
  }

  /** The first position of `t` in `s` at or after `i`, or -1. */
  function IndexFrom(s: string, t: string, i: nat): (r: int)
    requires i <= |s|
    ensures r >= 0 ==> i <= r && At(s, t, r) && forall j :: i <= j < r ==> !At(s, t, j)
    ensures r < 0 ==> r == -1 && forall j :: i <= j ==> !At(s, t, j)
    decreases |s| - i
  {
    if At(s, t, i) then i
    else if i == |s| then -1
    else IndexFrom(s, t, i + 1)
  }

  function Index(s: string, t: string): (r: int)
    ensures r >= 0 ==> FirstAt(s, t, r)
    ensures r < 0 ==> r == -1 && forall j :: 0 <= j ==> !At(s, t, j)
  {
    IndexFrom(s, t, 0)
  }

  predicate Contains(s: string, t: string) {
    Index(s, t) >= 0
  }

  lemma IndexIs(s: string, t: string, i: nat)
    requires FirstAt(s, t, i)
    ensures Index(s, t) == i
  {
    assert At(s, t, i);
    assert Index(s, t) >= 0;
  }

  /** More input behind `s` never moves a match already found. */
  lemma IndexAppend(s: string, more: string, t: string)
    ensures Contains(s, t) ==> Index(s + more, t) == Index(s, t)
  {
    var i := Index(s, t);
    if i >= 0 {
      assert (s + more)[i..i + |t|] == s[i..i + |t|];
      forall j | 0 <= j < i ensures !At(s + more, t, j) {
        assert !At(s, t, j);
        assert (s + more)[j..j + |t|] == s[j..j + |t|];
      }
      IndexIs(s + more, t, i);
    }
  }

  /* ---- trimming ---- */

  function TrimLeft(s: string): string {
    if s != "" && IsSpace(s[0]) then TrimLeft(s[1..]) else s
  }

  function TrimRight(s: string): string {
    if s != "" && IsSpace(s[|s| - 1]) then TrimRight(s[..|s| - 1]) else s
  }

  function Trim(s: string): string {
    TrimRight(TrimLeft(s))
  }

  /** No white space at either end. */
  predicate Trimmed(s: string) {
    s == "" || (!IsSpace(s[0]) && !IsSpace(s[|s| - 1]))
  }

  lemma {:induction false} TrimLeftSplits(s: string) returns (a: string)
    ensures AllSpace(a) && s == a + TrimLeft(s)
    ensures TrimLeft(s) != "" ==> !IsSpace(TrimLeft(s)[0])
  {
    if s != "" && IsSpace(s[0]) {
      var rest := TrimLeftSplits(s[1..]);
      a := [s[0]] + rest;
      assert s == [s[0]] + s[1..];
    } else {
      a := "";
    }
  }

  lemma {:induction false} TrimRightSplits(s: string) returns (b: string)
    ensures AllSpace(b) && s == TrimRight(s) + b
    ensures TrimRight(s) != "" ==> !IsSpace(TrimRight(s)[|TrimRight(s)| - 1])
  {
    if s != "" && IsSpace(s[|s| - 1]) {
      var rest := TrimRightSplits(s[..|s| - 1]);
      b := rest + [s[|s| - 1]];
      assert s == s[..|s| - 1] + [s[|s| - 1]];
    } else {
      b := "";
    }
  }

  /** What trimming leaves: the text between two runs of white space. */
  lemma TrimSplits(s: string) returns (a: string, b: string)
    ensures AllSpace(a) && AllSpace(b) && Trimmed(Trim(s)) && s == a + Trim(s) + b
  {
    a := TrimLeftSplits(s);
    b := TrimRightSplits(TrimLeft(s));
    var l, r := TrimLeft(s), Trim(s);
    if r != "" { assert r[0] == l[0]; }
  }

  lemma {:induction false} TrimLeftDrops(a: string, s: string)
    requires AllSpace(a)
    ensures TrimLeft(a + s) == TrimLeft(s)
    decreases |a|
  {
    if a == "" {
      assert a + s == s;
    } else {
      assert (a + s)[1..] == a[1..] + s;
      TrimLeftDrops(a[1..], s);
    }
  }

  lemma {:induction false} TrimRightDrops(s: string, b: string)
    requires AllSpace(b)
    ensures TrimRight(s + b) == TrimRight(s)
    decreases |b|
  {
    if b == "" {
      assert s + b == s;
    } else {
      assert (s + b)[..|s + b| - 1] == s + b[..|b| - 1];
      TrimRightDrops(s, b[..|b| - 1]);
    }
  }

  /** Trimming is determined by that split: it is the only trimmed text between white space. */
  lemma TrimUnique(a: string, r: string, b: string)
    requires AllSpace(a) && AllSpace(b) && Trimmed(r)
    ensures Trim(a + r + b) == r
  {
    assert a + r + b == a + (r + b);
    TrimLeftDrops(a, r + b);
    if r == "" {
      assert r + b == b + "";
      TrimLeftDrops(b, "");
    } else {
      assert TrimLeft(r + b) == r + b;
      TrimRightDrops(r, b);
    }
  }

  lemma TrimIdempotent(s: string)
    ensures Trim(Trim(s)) == Trim(s)
  {
    var a, b := TrimSplits(s);
    assert Trim(s) == "" + Trim(s) + "";
    TrimUnique("", Trim(s), "");
  }

  /** White space around a text does not change what trimming yields. */
  lemma TrimPadded(a: string, s: string, b: string)
    requires AllSpace(a) && AllSpace(b)
    ensures Trim(a + s + b) == Trim(s)
  {
    var x, y := TrimSplits(s);
    assert a + s + b == (a + x) + Trim(s) + (y + b);
    TrimUnique(a + x, Trim(s), y + b);
  }

  lemma TrimEmpty()
    ensures Trim("") == ""
  {
  }

  lemma TrimNothing(s: string)
    requires Trimmed(s)
    ensures Trim(s) == s
  {
    assert "" + s + "" == s;
    TrimUnique("", s, "");
  }

  /* ---- splitting at one character, and joining ---- */

  function SplitFrom(part: string, s: string, sep: char): (parts: seq<string>)
    ensures |parts| > 0
    decreases |s|
  {
    if s == "" then [part]
    else if s[0] == sep then [part] + SplitFrom("", s[1..], sep)
    else SplitFrom(part + [s[0]], s[1..], sep)
  }

  function Split(s: string, sep: char): (parts: seq<string>)
    ensures |parts| > 0
  {
    SplitFrom("", s, sep)
  }

  function Join(parts: seq<string>, sep: char): string {
    if |parts| == 0 then ""
    else if |parts| == 1 then parts[0]
    else parts[0] + [sep] + Join(parts[1..], sep)
  }

  lemma {:induction false} SplitFromJoins(part: string, s: string, sep: char)
    requires sep !in part
    ensures Join(SplitFrom(part, s, sep), sep) == part + s
    ensures forall p :: p in SplitFrom(part, s, sep) ==> sep !in p
    decreases |s|
  {
    if s == "" {
    } else if s[0] == sep {
      SplitFromJoins("", s[1..], sep);
      var rest := SplitFrom("", s[1..], sep);
      assert ([part] + rest)[1..] == rest;
    } else {
      SplitFromJoins(part + [s[0]], s[1..], sep);
      assert part + [s[0]] + s[1..] == part + s;
    }
  }

  /** Splitting loses nothing, and no part still holds the separator. */
  lemma SplitJoins(s: string, sep: char)
    ensures Join(Split(s, sep), sep) == s
    ensures forall p :: p in Split(s, sep) ==> sep !in p
  {
    SplitFromJoins("", s, sep);
  }

  lemma {:induction false} SplitWithout(part: string, s: string, sep: char)
    requires sep !in s
    ensures SplitFrom(part, s, sep) == [part + s]
    decreases |s|
  {
    if s == "" {
      assert part + s == part;
    } else {
      SplitWithout(part + [s[0]], s[1..], sep);
      assert part + [s[0]] + s[1..] == part + s;
    }
  }

  lemma {:induction false} SplitFromAppend(part: string, a: string, b: string, sep: char)
    ensures SplitFrom(part, a + [sep] + b, sep) == SplitFrom(part, a, sep) + Split(b, sep)
    decreases |a|
  {
    if a == "" {
      assert (a + [sep] + b)[1..] == b;
    } else {
      assert (a + [sep] + b)[1..] == a[1..] + [sep] + b;
      if a[0] == sep {
        SplitFromAppend("", a[1..], b, sep);
      } else {
        SplitFromAppend(part + [a[0]], a[1..], b, sep);
      }
    }
  }

  /** Joining parts that do not hold the separator and splitting again gives the same parts. */
  lemma {:induction false} SplitOfJoin(parts: seq<string>, sep: char)
    requires parts != [] && forall i :: 0 <= i < |parts| ==> sep !in parts[i]
    ensures Split(Join(parts, sep), sep) == parts
  {
    SplitWithout("", parts[0], sep);
    assert "" + parts[0] == parts[0];
    if |parts| == 1 {
    } else {
      SplitOfJoin(parts[1..], sep);
      SplitFromAppend("", parts[0], Join(parts[1..], sep), sep);
      assert [parts[0]] + parts[1..] == parts;
    }
  }

  /* ---- words ---- */

  function Word(w: string): seq<string> {
    if w == "" then [] else [w]
  }

  function FieldsFrom(w: string, s: string): seq<string>
    decreases |s|
  {
    if s == "" then Word(w)
    else if IsSpace(s[0]) then Word(w) + FieldsFrom("", s[1..])
    else FieldsFrom(w + [s[0]], s[1..])
  }

  /** The maximal runs of non-space characters. */
  function Fields(s: string): seq<string> {
    FieldsFrom("", s)
  }

  predicate IsWord(w: string) {
    w != "" && SpaceFree(w)
  }

  predicate AreWords(ws: seq<string>) {
    forall i :: 0 <= i < |ws| ==> IsWord(ws[i])
  }

  lemma {:induction false} FieldsFromWords(w: string, s: string)
    requires SpaceFree(w)
    ensures AreWords(FieldsFrom(w, s))
    decreases |s|
  {
    if s == "" {
    } else if IsSpace(s[0]) {
      FieldsFromWords("", s[1..]);
    } else {
      FieldsFromWords(w + [s[0]], s[1..]);
    }
  }

  lemma FieldsAreWords(s: string)
    ensures AreWords(Fields(s))
  {
    FieldsFromWords("", s);
  }

  lemma {:induction false} FieldsScan(w: string, v: string, s: string)
    requires SpaceFree(v)
    ensures FieldsFrom(w, v + s) == FieldsFrom(w + v, s)
    decreases |v|
  {
    if v == "" {
      assert v + s == s && w + v == w;
    } else {
      assert (v + s)[1..] == v[1..] + s;
      FieldsScan(w + [v[0]], v[1..], s);
      assert w + [v[0]] + v[1..] == w + v;
    }
  }

  /** Joining words with single spaces and splitting again gives the same words. */
  lemma {:induction false} FieldsOfJoin(ws: seq<string>)
    requires AreWords(ws)
    ensures Fields(Join(ws, ' ')) == ws
  {
    if |ws| == 0 {
    } else if |ws| == 1 {
      FieldsScan("", ws[0], "");
      assert ws[0] + "" == ws[0] && "" + ws[0] == ws[0];
    } else {
      var rest := Join(ws[1..], ' ');
      FieldsScan("", ws[0], [' '] + rest);
      assert ws[0] + [' '] + rest == ws[0] + ([' '] + rest);
      assert "" + ws[0] == ws[0] && ([' '] + rest)[1..] == rest;
      FieldsOfJoin(ws[1..]);
    }
  }

  /** A text with no white space other than single spaces between words. */
  predicate SingleSpaced(s: string) {
    s == Join(Fields(s), ' ')
  }

  lemma {:induction false} JoinEnds(ws: seq<string>, sep: char)
    requires AreWords(ws) && |ws| > 0
    ensures Join(ws, sep) != ""
    ensures Join(ws, sep)[0] == ws[0][0]
    ensures !IsSpace(Join(ws, sep)[|Join(ws, sep)| - 1])
  {
    if |ws| > 1 { JoinEnds(ws[1..], sep); }
  }

  lemma JoinTrimmed(ws: seq<string>, sep: char)
    requires AreWords(ws)
    ensures Trimmed(Join(ws, sep)) && Trim(Join(ws, sep)) == Join(ws, sep)
  {
    if |ws| > 0 { JoinEnds(ws, sep); }
    var j := Join(ws, sep);
    assert j == "" + j + "";
    TrimUnique("", j, "");
  }

  lemma {:induction false} FieldsNonEmpty(w: string, s: string, i: nat)
    requires i < |s| && !IsSpace(s[i])
    ensures FieldsFrom(w, s) != []
    decreases |s|
  {
    if IsSpace(s[0]) {
      FieldsNonEmpty("", s[1..], i - 1);
    } else {
      var w' := w + [s[0]];
      FieldsGrow(w', s[1..]);
    }
  }

  lemma {:induction false} FieldsGrow(w: string, s: string)
    requires w != ""
    ensures FieldsFrom(w, s) != []
    decreases |s|
  {
    if s != "" && !IsSpace(s[0]) { FieldsGrow(w + [s[0]], s[1..]); }
  }

  /* ---- replacing a character ---- */

  function Replace(s: string, a: char, b: char): (r: string)
    ensures |r| == |s|
    ensures forall i :: 0 <= i < |s| ==> r[i] == if s[i] == a then b else s[i]
  {
    seq(|s|, i requires 0 <= i < |s| => if s[i] == a then b else s[i])
  }

  /** Putting the old character back undoes a replacement, if the new one was not there before. */
  lemma ReplaceBack(s: string, a: char, b: char)
    requires b !in s
    ensures Replace(Replace(s, a, b), b, a) == s
  {
    forall i | 0 <= i < |s| ensures Replace(Replace(s, a, b), b, a)[i] == s[i] {
      assert s[i] in s;
    }
  }

  function TrimPrefix(s: string, p: string): string {
    if p <= s then s[|p|..] else s
  }

  lemma Assoc<T>(a: seq<T>, b: seq<T>, c: seq<T>)
    ensures (a + b) + c == a + (b + c)
  {
  }
}
