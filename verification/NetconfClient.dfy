/** The NETCONF benchmark client: requests numbered one after the other, sent one at a time or all
    at once, and their replies read in order. */
module NetconfClient {
  import opened Wrappers
  import opened Text
  import opened Device
  import opened Channel
  import opened Framing
  import opened NetconfServer
  import opened NetconfReplies
  import opened NetconfPipeline

  /** The get requests for `cmds`, numbered from `first`. */
  function Gets(first: nat, cmds: seq<string>): seq<string> {
    seq(|cmds|, i requires 0 <= i < |cmds| => GetRPC(first + i, cmds[i]))
  }

  function CloseRPC(id: nat): string {
    "<rpc message-id=\"" + Decimal(id) + NS + "<close-session/></rpc>"
  }

  /** Sends all requests without waiting; the counter moves on by one for each. */
  method SendAll(ch: Channel, counter: nat, cmds: seq<string>) returns (after: nat)
    modifies ch`outgoing
    ensures after == counter + |cmds|
    ensures ch.outgoing == old(ch.outgoing) + Frames(Gets(counter + 1, cmds))
  {
    hide Frame, Frames, GetRPC;
    after := counter;
    ghost var ms := Gets(counter + 1, cmds);
    FramesNone();
    for i := 0 to |cmds|
      invariant after == counter + i
      invariant ch.outgoing == old(ch.outgoing) + Frames(ms[..i])
    {
      after := after + 1;
      WriteChunked(ch, GetRPC(after, cmds[i]));
      assert ms[..i + 1] == ms[..i] + [ms[i]];
      FramesAppend(ms[..i], [ms[i]]);
      OneFrame(ms[i]);
      Assoc(old(ch.outgoing), Frames(ms[..i]), Frame(ms[i]));
    }
    assert ms[..|cmds|] == ms;
  }

  /** Reads `n` replies. If at least that many framed messages are coming, it gets the first `n` of
      them and leaves the rest. */
  method ReadReplies(ch: Channel, n: nat, ghost coming: seq<string>) returns (replies: seq<string>, ok: bool)
    requires n <= |coming| && ch.incoming == Frames(coming)
    requires forall i :: 0 <= i < |coming| ==> Sendable(coming[i])
    modifies ch`incoming, ch`tail
    ensures ok && replies == coming[..n] && ch.incoming == Frames(coming[n..])
  {
    hide Frame, Frames, Sendable, Decode;
    replies, ok := [], true;
    assert coming[0..] == coming;
    for i := 0 to n
      invariant ok && replies == coming[..i] && ch.incoming == Frames(coming[i..])
    {
      FramesFrom(coming, i);
      DecodeFrame(coming[i], Frames(coming[i + 1..]));
      var msg;
      msg, ok := ReadChunked(ch);
      replies := replies + [msg];
    }
  }

  /* ---- get requests never look like a request to close ---- */

  /** No tag in the text starts with the letter that a close request starts with. */
  predicate NoCTag(s: string) {
    forall j :: 0 <= j < |s| - 1 && s[j] == '<' ==> s[j + 1] != 'c'
  }

  lemma NoCTagAppend(a: string, b: string)
    requires NoCTag(a) && NoCTag(b) && (a == "" || a[|a| - 1] != '<')
    ensures NoCTag(a + b)
  {
    var s := a + b;
    forall j | 0 <= j < |s| - 1 && s[j] == '<' ensures s[j + 1] != 'c' {
      if j >= |a| { assert b[j - |a|] == '<' && b[j - |a| + 1] == s[j + 1]; }
    }
  }

  lemma NoCTagNotClose(s: string)
    requires NoCTag(s)
    ensures !Contains(s, CLOSE)
  {
    forall i | 0 <= i ensures !At(s, CLOSE, i) {
      if i + |CLOSE| <= |s| {
        assert s[i..i + |CLOSE|][0] == s[i] && s[i..i + |CLOSE|][1] == s[i + 1];
      }
    }
  }

  /** A text that can stand in front of others: no tag for closing, and no tag left open. */
  predicate Front(s: string) {
    NoCTag(s) && (s == "" || s[|s| - 1] != '<')
  }

  lemma NoTagAtAll(s: string)
    requires forall i :: 0 <= i < |s| ==> s[i] != '<'
    ensures Front(s)
  {
  }

  lemma FrontAppend(a: string, b: string)
    requires Front(a) && Front(b)
    ensures Front(a + b)
  {
    NoCTagAppend(a, b);
  }

  lemma TagsAreFronts()
    ensures Front("<rpc message-id=\"") && Front("</rpc>")
    ensures Front("<get><filter type=\"cli\">") && Front("</filter></get>")
  {
    var close := "</filter></get>";
    assert close[1] == '/' && close[10] == '/';
  }

  lemma NamespaceIsFront()
    ensures Front(NS)
  {
    var a, b, c, d, e := "\" xmlns=\"", "urn:ietf:params:", "xml:ns:netconf:", "base:1.0", "\">";
    assert Front(a) && Front(b) && Front(c) && Front(d) && Front(e);
    hide Front;
    FrontAppend(a, b);
    FrontAppend(a + b, c);
    FrontAppend(a + b + c, d);
    FrontAppend(a + b + c + d, e);
  }

  lemma GetIsNotClose(id: nat, cmd: string)
    requires TagFree(cmd)
    ensures !Contains(GetRPC(id, cmd), CLOSE)
  {
    var number := Decimal(id);
    forall i | 0 <= i < |number| ensures number[i] != '<' { assert IsDigit(number[i]); }
    NoTagAtAll(number);
    NoTagAtAll(cmd);
    TagsAreFronts();
    NamespaceIsFront();
    hide Front, Decimal;
    FrontAppend("<get><filter type=\"cli\">", cmd);
    FrontAppend("<get><filter type=\"cli\">" + cmd, "</filter></get>");
    FrontAppend("<rpc message-id=\"", number);
    FrontAppend("<rpc message-id=\"" + number, NS);
    FrontAppend("<rpc message-id=\"" + number + NS, GetInner(cmd));
    FrontAppend("<rpc message-id=\"" + number + NS + GetInner(cmd), "</rpc>");
    FrontIsNotClose(GetRPC(id, cmd));
  }

  lemma FrontIsNotClose(s: string)
    requires Front(s)
    ensures !Contains(s, CLOSE)
  {
    NoCTagNotClose(s);
  }

  /** The requests of a whole session: gets, and at the end the request to close. */
  lemma GetsThenCloseIsConversation(first: nat, cmds: seq<string>, last: nat)
    requires forall i :: 0 <= i < |cmds| ==> TagFree(cmds[i]) && |GetRPC(first + i, cmds[i])| <= MAX_INT
    requires |CloseRPC(last)| <= MAX_INT
    ensures Conversation(Gets(first, cmds) + [CloseRPC(last)])
    ensures Contains(CloseRPC(last), CLOSE)
  {
    hide GetRPC, Sendable, CloseRPC;
    GetsAreConversation(first, cmds);
    CloseIsClose(last);
    CloseIsSendable(last);
  }

  lemma CloseIsSendable(last: nat)
    requires |CloseRPC(last)| <= MAX_INT
    ensures Sendable(CloseRPC(last))
  {
  }

  lemma GetsAreConversation(first: nat, cmds: seq<string>)
    requires forall i :: 0 <= i < |cmds| ==> TagFree(cmds[i]) && |GetRPC(first + i, cmds[i])| <= MAX_INT
    ensures Conversation(Gets(first, cmds))
    ensures forall m :: m in Gets(first, cmds) ==> !Contains(m, CLOSE)
  {
    hide GetRPC, TagFree, Contains;
    var ms := Gets(first, cmds);
    forall i | 0 <= i < |ms| ensures Sendable(ms[i]) && !Contains(ms[i], CLOSE) {
      GetIsNotClose(first + i, cmds[i]);
      GetIsNotEmpty(first + i, cmds[i]);
    }
  }

  lemma GetIsNotEmpty(id: nat, cmd: string)
    ensures GetRPC(id, cmd) != ""
  {
  }

  lemma CloseIsClose(last: nat)
    ensures Contains(CloseRPC(last), CLOSE)
  {
    var s := CloseRPC(last);
    var k := |"<rpc message-id=\"" + Decimal(last) + NS|;
    assert s[k..k + |CLOSE|] == CLOSE;
    assert At(s, CLOSE, k);
  }

  /** A get request that fits the framing, that the XML decoder reads as it was written, and whose reply
      fits the framing. */
  ghost predicate Answerable(s: Server, id: nat, cmd: string) {
    && TagFree(cmd) && DecodesGet(s, id, cmd)
    && |GetRPC(id, cmd)| <= MAX_INT && |Dispatch(s, GetRPC(id, cmd))| <= MAX_INT
  }

  /** What the client is for: whether it pipelines its gets or sends them one by one, once nothing
      more happens reply `i` bears request `i`'s id and, escaped, the device's answer to command `i`. */
  lemma EveryGetIsAnswered(s: Server, first: nat, cmds: seq<string>, es: seq<Event>)
    requires forall i :: 0 <= i < |cmds| ==> Answerable(s, first + i, cmds[i])
    requires Possible(Setup(s, Gets(first, cmds)), Initial, es)
    requires Over(Setup(s, Gets(first, cmds)), Run(Setup(s, Gets(first, cmds)), Initial, es))
    ensures var replies := Run(Setup(s, Gets(first, cmds)), Initial, es).replies;
            |replies| == |cmds| &&
            (forall i :: 0 <= i < |cmds| ==> replies[i] == DataReply(s, Decimal(first + i), Exec(s.d, cmds[i]))) &&
            (forall i :: 0 <= i < |cmds| ==> IdOf(replies[i]) == Some(Decimal(first + i))) &&
            (forall i :: 0 <= i < |cmds| && TagFree(s.escape(Exec(s.d, cmds[i]))) ==>
                           DataOf(replies[i]) == Some(s.escape(Exec(s.d, cmds[i]))))
  {
    hide GetRPC, TagFree, Exec, Dispatch, DataReply, DecodesGet, Possible, Over, Run, Conversation, IdOf, DataOf;
    var ms := Gets(first, cmds);
    var c := Setup(s, ms);
    GetsAreConversation(first, cmds);
    assert Suitable(c);
    RepliesInOrder(c, es);
    forall i | 0 <= i < |cmds|
      ensures Answers(c)[i] == DataReply(s, Decimal(first + i), Exec(s.d, cmds[i]))
      ensures IdOf(Answers(c)[i]) == Some(Decimal(first + i))
      ensures TagFree(s.escape(Exec(s.d, cmds[i]))) ==> DataOf(Answers(c)[i]) == Some(s.escape(Exec(s.d, cmds[i])))
    {
      GetIsExec(s, first + i, cmds[i]);
      GetIsAnswered(s, first + i, cmds[i]);
    }
  }

  /** Edit requests leave the session open, so that more requests can follow. */
  lemma EditIsNotClose(id: nat, cmds: string)
    requires TagFree(cmds)
    ensures !Contains(EditRPC(id, cmds), "<close-session")
  {
    hide Index, Tag, TagFree, CONFIG, CONFIG_END;
    RequestHead(id);
    EditTags(cmds);
    var t := "<close-session";
    var tail := "<cli>" + cmds + CONFIG_END + "</rpc>";
    Differs(t, RequestHeadOf(id), 1);
    hide RequestHeadOf;
    CliPart(cmds, t);
    ConfigPart(tail, t);
    SkipTag(RequestHeadOf(id), CONFIG + tail, t);
    EditIs(id, cmds);
  }

  lemma EditIs(id: nat, cmds: string)
    ensures EditRPC(id, cmds) == RequestHeadOf(id) + (CONFIG + ("<cli>" + cmds + CONFIG_END + "</rpc>"))
  {
    hide NS, Decimal, CONFIG, CONFIG_END;
    Assoc(RequestHeadOf(id), CONFIG + "<cli>" + (cmds + CONFIG_END), "</rpc>");
    GlueEdit(CONFIG, "<cli>", cmds, CONFIG_END, "</rpc>");
  }

  lemma GlueEdit(a: string, b: string, c: string, d: string, e: string)
    ensures a + b + (c + d) + e == a + (b + c + d + e)
  {
  }

  lemma EditTags(cmds: string)
    requires TagFree(cmds)
    ensures Tag("<close-session") && "<close-session"[1] == 'c' && Tag("<cli>" + cmds)
    ensures !("<close-session" <= "<cli>" + cmds)
  {
    assert "<close-session"[3] == 'o' && ("<cli>" + cmds)[3] == 'i';
    assert Tag("<cli>");
    TagAndText("<cli>", cmds);
  }

  lemma CliPart(cmds: string, t: string)
    requires t == "<close-session" && Tag(t) && Tag("<cli>" + cmds) && !(t <= "<cli>" + cmds)
    ensures !Contains("<cli>" + cmds + CONFIG_END + "</rpc>", t) && AtTag("<cli>" + cmds + CONFIG_END + "</rpc>")
  {
    hide Index, Tag;
    assert Tag("</cli>") && Tag("</config>") && Tag("</edit-config>") && Tag("</rpc>") by { ClosingTags(); }
    var c := "</edit-config>" + "</rpc>";
    var b := "</config>" + c;
    var a := "</cli>" + b;
    assert "</cli>"[1] == '/' && "</config>"[1] == '/' && "</edit-config>"[1] == '/' && "</rpc>"[1] == '/';
    assert t[1] == 'c';
    Differs(t, "</cli>", 1);
    Differs(t, "</config>", 1);
    Differs(t, "</edit-config>", 1);
    Differs(t, "</rpc>", 1);
    LastTag("</rpc>", t);
    SkipTag("</edit-config>", "</rpc>", t);
    SkipTag("</config>", c, t);
    SkipTag("</cli>", b, t);
    SkipTag("<cli>" + cmds, a, t);
    assert CONFIG_END + "</rpc>" == a;
    Assoc("<cli>" + cmds, CONFIG_END, "</rpc>");
  }

  lemma ClosingTags()
    ensures Tag("</cli>") && Tag("</config>") && Tag("</edit-config>") && Tag("</rpc>")
  {
  }

  lemma ConfigPart(tail: string, t: string)
    requires t == "<close-session" && Tag(t) && AtTag(tail) && !Contains(tail, t)
    ensures !Contains(CONFIG + tail, t) && AtTag(CONFIG + tail)
  {
    hide Index, Tag;
    OpeningTags();
    var d := "<config>" + tail;
    var c := "</target>" + d;
    var b := "<running/>" + c;
    var a := "<target>" + b;
    assert t[1] == 'c' && t[2] == 'l';
    Differs(t, "<config>", 2);
    Differs(t, "</target>", 1);
    Differs(t, "<running/>", 1);
    Differs(t, "<target>", 1);
    Differs(t, "<edit-config>", 1);
    SkipTag("<config>", tail, t);
    SkipTag("</target>", d, t);
    SkipTag("<running/>", c, t);
    SkipTag("<target>", b, t);
    SkipTag("<edit-config>", a, t);
    assert CONFIG + tail == "<edit-config>" + a;
  }

  lemma OpeningTags()
    ensures Tag("<edit-config>") && Tag("<target>") && Tag("<running/>") && Tag("</target>") && Tag("<config>")
    ensures "<edit-config>"[1] == 'e' && "<target>"[1] == 't' && "<running/>"[1] == 'r' && "</target>"[1] == '/'
    ensures "<config>"[2] == 'o'
  {
  }
}
