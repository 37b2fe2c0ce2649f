/** The hello exchange, framed by the end-of-message delimiter (RFC 6242, sections 4.1 and 4.3). */
module Hello {
  import opened Text
  import opened Channel

  const EOM: string := "]]>]]>"
  // the reader gives up on a hello longer than this
  const LIMIT: nat := 0x10_0000

  datatype Outcome = Message(text: string, rest: string) | TooLarge | Ended(text: string)

  /** What reading a hello from the front of a stream gives: the bytes before the first delimiter,
      if that delimiter ends within LIMIT + 1 bytes. */
  function ReadHello(s: string): Outcome {
    var i := Index(s, EOM);
    if i >= 0 && i + |EOM| <= LIMIT + 1 then Message(s[..i], s[i + |EOM|..])
    else if |s| > LIMIT then TooLarge
    else Ended(s)
  }

  predicate EndsWith(s: string, t: string) {
    |s| >= |t| && s[|s| - |t|..] == t
  }

  lemma Suffix(buf: string, t: string)
    requires |buf| >= |t|
    ensures buf[|buf| - |t|..] == t <==> At(buf, t, |buf| - |t|)
  {
    assert buf[|buf| - |t|..|buf| - |t| + |t|] == buf[|buf| - |t|..];
  }

  lemma AtFront(buf: string, more: string, t: string, i: int)
    ensures i + |t| <= |buf| ==> (At(buf + more, t, i) <==> At(buf, t, i))
  {
    if 0 <= i && i + |t| <= |buf| { assert (buf + more)[i..i + |t|] == buf[i..i + |t|]; }
  }

  /** No delimiter ends within the first `n` bytes. */
  ghost predicate Clear(s: string, n: int) {
    forall j :: 0 <= j && j + |EOM| <= n ==> !At(s, EOM, j)
  }

  lemma ClearStep(buf: string, more: string)
    requires buf != "" && Clear(buf + more, |buf| - 1)
    ensures !EndsWith(buf, EOM) ==> Clear(buf + more, |buf|)
    ensures EndsWith(buf, EOM) ==> |buf| >= |EOM|
    ensures EndsWith(buf, EOM) && |buf| <= LIMIT + 1 ==>
              ReadHello(buf + more) == Message(buf[..|buf| - |EOM|], more)
  {
    AtFront(buf, more, EOM, |buf| - |EOM|);
    if |buf| >= |EOM| { Suffix(buf, EOM); }
    if EndsWith(buf, EOM) {
      IndexIs(buf + more, EOM, |buf| - |EOM|);
      assert (buf + more)[..|buf| - |EOM|] == buf[..|buf| - |EOM|] && (buf + more)[|buf|..] == more;
    }
  }

  lemma ClearMeans(s: string, n: nat)
    requires Clear(s, n)
    ensures n == |s| <= LIMIT ==> ReadHello(s) == Ended(s)
    ensures LIMIT < n <= |s| ==> ReadHello(s) == TooLarge
  {
    var i := Index(s, EOM);
    assert i < 0 || n < i + |EOM| <= |s|;
  }

  /** The reader as it runs: byte by byte, looking at the end of the buffer after each. */
  method ReadEOM(ch: Channel) returns (out: Outcome)
    modifies ch`incoming, ch`tail
    ensures out == ReadHello(old(ch.incoming))
    ensures out.Message? ==> ch.incoming == out.rest
  {
    ghost var all := ch.incoming;
    var buf := "";
    assert Clear(all, 0);
    hide Index, Clear, At, Contains, ReadHello, EndsWith, EOM;
    while true
      invariant buf + ch.incoming == all && |buf| <= LIMIT && Clear(all, |buf|)
      decreases |ch.incoming|
    {
      ghost var left := ch.incoming;
      var b, err := ch.ReadByte();
      if err {
        assert buf + left == buf;
        ClearMeans(all, |all|);
        return Ended(buf);
      }
      Assoc(buf, [b], ch.incoming);
      buf := buf + [b];
      ClearStep(buf, ch.incoming);
      if EndsWith(buf, EOM) {
        return Message(buf[..|buf| - |EOM|], ch.incoming);
      }
      if |buf| > LIMIT {
        ClearMeans(all, |buf|);
        return TooLarge;
      }
    }
  }

  /** When a hello is read, and which: up to the first delimiter, if that ends within 2^20 + 1 bytes. If none
      does, the hello is too large, or the input ended. */
  lemma ReadsExactly(s: string)
    ensures ReadHello(s).Message? <==> exists i :: At(s, "]]>]]>", i) && i + 6 <= 0x10_0001
    ensures ReadHello(s).TooLarge? <==> |s| > 0x10_0000 && forall i :: At(s, "]]>]]>", i) ==> i + 6 > 0x10_0001
    ensures forall text, rest :: ReadHello(s) == Message(text, rest) ==>
              FirstAt(s, "]]>]]>", |text|) && s == text + "]]>]]>" + rest
    ensures forall text :: ReadHello(s) == Ended(text) ==> text == s
  {
    var i := Index(s, EOM);
    assert EOM == "]]>]]>" && |EOM| == 6;
    if i >= 0 { assert s == s[..i] + s[i..i + 6] + s[i + 6..]; }
  }

  /* ---- when a hello survives the framing ---- */

  /** The delimiter overlaps itself in exactly one way: its second half is its first. */
  lemma OverlapOfEOM(h: string, rest: string, j: nat)
    requires |h| - |EOM| < j < |h|
    ensures At(h + EOM + rest, EOM, j) <==> j == |h| - 3 && EndsWith(h, "]]>")
  {
    var s := h + EOM + rest;
    var k := |h| - j;
    var w := s[j..j + |EOM|];
    forall i | 0 <= i < |EOM| ensures w[i] == if i < k then h[j + i] else EOM[i - k] {}
    if k != 3 {
      assert w[5] == EOM[5 - k] && (k == 2 || k == 5 ==> w[k] == EOM[0]);
      assert k == 4 ==> w[4] == EOM[0] && w[5] == EOM[1];
      assert k == 1 ==> w[2] == EOM[1] && EOM[2] == '>';
      assert w != EOM;
    } else {
      assert h[j..] == [h[j], h[j + 1], h[j + 2]];
      assert w == h[j..] + EOM[..3];
      assert EOM == "]]>" + EOM[..3];
      assert w[..3] == h[j..];
    }
  }

  /** Exactly when a delimited hello is read back as it was written. */
  lemma HelloRoundTrip(h: string, rest: string)
    ensures ReadHello(h + EOM + rest) == Message(h, rest) <==>
              !Contains(h, EOM) && !EndsWith(h, "]]>") && |h| + |EOM| <= LIMIT + 1
  {
    var s := h + EOM + rest;
    assert s[|h|..|h| + |EOM|] == EOM && s[..|h|] == h && s[|h| + |EOM|..] == rest;
    if Contains(h, EOM) {
      IndexAppend(h, EOM + rest, EOM);
      assert h + (EOM + rest) == s;
      assert Index(s, EOM) < |h|;
    } else if EndsWith(h, "]]>") {
      OverlapOfEOM(h, rest, |h| - 3);
      assert Index(s, EOM) <= |h| - 3;
    } else {
      forall j | 0 <= j < |h| ensures !At(s, EOM, j) {
        if j + |EOM| <= |h| {
          AtFront(h, EOM + rest, EOM, j);
          assert h + (EOM + rest) == s;
          assert !At(h, EOM, j);
        } else {
          OverlapOfEOM(h, rest, j);
        }
      }
      IndexIs(s, EOM, |h|);
    }
  }

  lemma NewlineIsNotInEOM(h: string)
    ensures Contains(h + "\n", EOM) <==> Contains(h, EOM)
    ensures !EndsWith(h + "\n", "]]>")
  {
    var s := h + "\n";
    IndexAppend(h, "\n", EOM);
    var i := Index(s, EOM);
    if i >= 0 {
      assert s[i..i + |EOM|][|EOM| - 1] == s[i + |EOM| - 1] == '>';
      assert i + |EOM| <= |h|;
      AtFront(h, "\n", EOM, i);
      assert At(h, EOM, i);
    }
    if |s| >= 3 { assert s[|s| - 3..][2] == '\n'; }
  }

  /** Both sides put a newline in front of the delimiter. With it, every hello of at most
      2^20 - 6 bytes that does not contain the delimiter is read back, and no other. */
  lemma HelloWithNewline(h: string, rest: string)
    ensures ReadHello(h + "\n" + EOM + rest) == Message(h + "\n", rest) <==>
              !Contains(h, EOM) && |h| <= 0x10_0000 - 6
  {
    NewlineIsNotInEOM(h);
    HelloRoundTrip(h + "\n", rest);
  }

  /** Without the newline a hello that ends in half a delimiter is cut short. */
  lemma HalfDelimiterIsLost()
    ensures !Contains("x]]>", EOM) && ReadHello("x]]>" + EOM) != Message("x]]>", "")
  {
    HelloRoundTrip("x]]>", "");
    assert "x]]>" + EOM + "" == "x]]>" + EOM;
    assert "x]]>"[1..] == "]]>";
  }

  /** The client's half of the exchange. */
  method ClientHello(ch: Channel, hello: string) returns (ok: bool)
    modifies ch
    ensures ok <==> ReadHello(old(ch.incoming)).Message?
    ensures ok ==> ch.incoming == ReadHello(old(ch.incoming)).rest
    ensures ok ==> ch.outgoing == old(ch.outgoing) + hello + "\n" + EOM
    ensures !ok ==> ch.outgoing == old(ch.outgoing)
  {
    var out := ReadEOM(ch);
    if !out.Message? { return false; }
    ch.Write(hello + "\n" + EOM);
    ok := true;
  }
}
