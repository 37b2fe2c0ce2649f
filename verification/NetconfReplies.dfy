/** What NETCONF messages say, read off their text alone: the message id, the data of a reply, its error, and
    the command of a request. */
module NetconfReplies {
  import opened Wrappers
  import opened Text
  import opened Device
  import opened Framing
  import opened NetconfServer

  /* ---- the readers ---- */

  /** The text between the first `open` and the next `close` behind it. */
  function Between(s: string, open: string, close: string): Option<string> {
    var i := Index(s, open);
    if i < 0 then None else
      var rest := s[i + |open|..];
      var j := Index(rest, close);
      if j < 0 then None else Some(rest[..j])
  }

  function IdOf(message: string): Option<string> {
    Between(message, "message-id=\"", "\"")
  }

  function DataOf(reply: string): Option<string> {
    Between(reply, "<data>", "</data>")
  }

  function ErrorTagOf(reply: string): Option<string> {
    Between(reply, "<error-tag>", "</error-tag>")
  }

  function ErrorMessageOf(reply: string): Option<string> {
    Between(reply, "<error-message>", "</error-message>")
  }

  /* ---- reading tag by tag ---- */

  /** One tag and the text behind it, up to the next tag. */
  predicate Tag(s: string) {
    s != "" && s[0] == '<' && forall i :: 0 < i < |s| ==> s[i] != '<'
  }

  predicate AtTag(s: string) {
    s == "" || s[0] == '<'
  }

  /** A tag occurs at the front of the piece of text it starts, or behind that piece. */
  lemma AtPieces(seg: string, b: string, t: string, j: nat)
    requires Tag(seg) && Tag(t) && AtTag(b)
    ensures At(seg + b, t, j) ==> (j == 0 && t <= seg) || (j >= |seg| && At(b, t, j - |seg|))
  {
    var s := seg + b;
    if j + |t| <= |s| {
      if j == 0 {
        if !(t <= seg) { NotHere(seg, b, t); }
      } else if j < |seg| {
        assert s[j..j + |t|][0] == seg[j];
      } else {
        assert s[j..j + |t|] == b[j - |seg|..j - |seg| + |t|];
      }
    }
  }

  lemma SkipTag(seg: string, b: string, t: string)
    requires Tag(seg) && Tag(t) && AtTag(b)
    ensures t <= seg ==> Index(seg + b, t) == 0
    ensures !(t <= seg) ==> Index(seg + b, t) == if Index(b, t) < 0 then -1 else |seg| + Index(b, t)
  {
    hide Tag, AtTag;
    var s, i := seg + b, Index(b, t);
    if t <= seg {
      assert s[..|t|] == seg[..|t|] == t;
      FrontIsFirst(s, t);
    } else if i >= 0 {
      FoundBehind(seg, b, t, i);
    } else {
      var r := Index(s, t);
      if r >= 0 {
        AtPieces(seg, b, t, r);
        assert false;
      }
    }
  }

  lemma FrontIsFirst(s: string, t: string)
    requires |t| <= |s| && s[..|t|] == t
    ensures Index(s, t) == 0
  {
    hide Index;
    assert s[0..0 + |t|] == s[..|t|];
    assert At(s, t, 0);
    IndexIs(s, t, 0);
  }

  lemma FoundBehind(seg: string, b: string, t: string, i: nat)
    requires Tag(seg) && Tag(t) && AtTag(b) && !(t <= seg) && FirstAt(b, t, i)
    ensures Index(seg + b, t) == |seg| + i
  {
    hide Index, Tag, AtTag;
    assert (seg + b)[|seg| + i..|seg| + i + |t|] == b[i..i + |t|];
    forall j | 0 <= j < |seg| + i ensures !At(seg + b, t, j) { AtPieces(seg, b, t, j); }
    IndexIs(seg + b, t, |seg| + i);
  }

  lemma NotHere(seg: string, b: string, t: string)
    requires Tag(seg) && Tag(t) && AtTag(b) && !(t <= seg)
    ensures !At(seg + b, t, 0)
  {
    var s := seg + b;
    if |t| <= |s| {
      if |t| <= |seg| {
        assert s[0..|t|] == seg[..|t|];
      } else {
        assert s[0..|t|][|seg|] == b[0];
      }
    }
  }

  lemma BetweenSkip(seg: string, b: string, open: string, close: string)
    requires Tag(seg) && Tag(open) && AtTag(b) && !(open <= seg)
    ensures Between(seg + b, open, close) == Between(b, open, close)
  {
    hide Index, Tag;
    SkipTag(seg, b, open);
    var i := Index(b, open);
    if i >= 0 { assert (seg + b)[|seg| + i + |open|..] == b[i + |open|..]; }
  }

  lemma BetweenHere(open: string, text: string, close: string, rest: string)
    requires Tag(open) && Tag(close) && TagFree(text)
    ensures Between(open + text + (close + rest), open, close) == Some(text)
  {
    hide Index;
    var s, behind := open + text + (close + rest), text + (close + rest);
    assert s[..|open|] == open;
    FrontIsFirst(s, open);
    assert s[|open|..] == behind;
    assert behind[|text|..|text| + |close|] == close;
    FoundAt(behind, close, |text|, 0);
    assert behind[..|text|] == text;
  }

  lemma Differs(open: string, seg: string, k: nat)
    requires k < |open| && k < |seg| && open[k] != seg[k]
    ensures !(open <= seg)
  {
  }

  /* ---- replies ---- */

  function HeadOf(id: string): string {
    "<rpc-reply message-id=\"" + id + NS
  }

  lemma TagAndText(tag: string, text: string)
    requires Tag(tag) && TagFree(text)
    ensures Tag(tag + text) && forall k :: 0 <= k < |tag| ==> (tag + text)[k] == tag[k]
  {
  }

  lemma HeadIsTag(id: string)
    requires TagFree(id)
    ensures Tag(HeadOf(id)) && |HeadOf(id)| > 5 && HeadOf(id)[1] == 'r' && HeadOf(id)[5] == 'r'
  {
    var a := "<rpc-reply message-id=\"";
    assert Tag(a) && |a| > 5 && a[1] == 'r' && a[5] == 'r';
    NamespaceIsTagFree();
    hide Tag, TagFree, NS;
    TagAndText(a, id);
    TagAndText(a + id, NS);
  }

  lemma NamespaceIsTagFree()
    ensures TagFree(NS) && NS[0] == '"'
  {
    var a, b, c, d, e := "\" xmlns=\"", "urn:ietf:params:", "xml:ns:netconf:", "base:1.0", "\">";
    assert TagFree(a) && TagFree(b) && TagFree(c) && TagFree(d) && TagFree(e);
    forall i | 0 <= i < |NS| ensures NS[i] != '<' { assert NS[i] in a + b + c + d + e; }
  }

  /** The id of a message stands where the reader finds it. */
  lemma IdIsRead(open: string, id: string, behind: string)
    requires (forall i :: 0 <= i < |open| ==> open[i] != 'm') && '"' !in id && behind != "" && behind[0] == '"'
    ensures IdOf(open + "message-id=\"" + id + behind) == Some(id)
  {
    hide Index;
    var mark := "message-id=\"";
    var s, rest := open + mark + id + behind, id + behind;
    assert s[|open|..|open| + |mark|] == mark;
    assert mark[0] == 'm';
    forall j | 0 <= j < |open| ensures s[j] != 'm' { assert s[j] == open[j]; }
    FoundAt(s, mark, |open|, 0);
    assert s[|open| + |mark|..] == rest;
    assert rest[|id|..|id| + 1] == "\"";
    forall j | 0 <= j < |id| ensures rest[j] != '"' { assert id[j] in id; }
    FoundAt(rest, "\"", |id|, 0);
    assert rest[..|id|] == id;
  }

  lemma ReplyHasId(id: string, body: string)
    requires '"' !in id
    ensures IdOf(RpcReply(id, body)) == Some(id)
  {
    hide Between;
    var open := "<rpc-reply ";
    assert forall i :: 0 <= i < |open| ==> open[i] != 'm';
    NamespaceIsTagFree();
    var behind := NS + body + "</rpc-reply>";
    IdIsRead(open, id, behind);
    hide NS;
    assert "<rpc-reply message-id=\"" == open + "message-id=\"";
    assert RpcReply(id, body) == open + "message-id=\"" + id + behind;
  }

  /** Every reply carries the id that decoding gave, if that is one an attribute can hold. */
  lemma EveryReplyHasItsId(s: Server, msg: string)
    requires '"' !in s.unmarshal(msg).id
    ensures IdOf(Dispatch(s, msg)) == Some(s.unmarshal(msg).id)
  {
    hide IdOf, RpcReply, Exec, ExtractFilter, Trim;
    var body := BodyOf(s, msg);
    ReplyHasId(s.unmarshal(msg).id, body);
  }

  /** Whatever the branch, the reply is a body in the envelope of that id. */
  lemma BodyOf(s: Server, msg: string) returns (body: string)
    ensures Dispatch(s, msg) == RpcReply(s.unmarshal(msg).id, body)
  {
    hide RpcReply, Exec, ExtractFilter, Trim;
    match s.unmarshal(msg)
    case Malformed(id, error) =>
      body := "<rpc-error><error-tag>" + "malformed-message" + "</error-tag><error-message>" + error
        + "</error-message></rpc-error>";
    case Parsed(id, raw) =>
      var inner := Trim(raw);
      if "<get" <= inner {
        body := "<data>" + s.escape(Exec(s.d, ExtractFilter(inner))) + "</data>";
      } else if "<edit-config" <= inner || "<commit" <= inner || CLOSE <= inner {
        body := "<ok/>";
      } else {
        body := "<rpc-error><error-tag>" + "operation-not-supported" + "</error-tag><error-message>"
          + "unknown operation" + "</error-message></rpc-error>";
      }
  }

  lemma DataIsRead(s: Server, id: string, output: string)
    requires TagFree(id) && TagFree(s.escape(output))
    ensures DataOf(DataReply(s, id, output)) == Some(s.escape(output))
  {
    hide Between, HeadOf;
    var text := s.escape(output);
    var rest := "<data>" + text + ("</data>" + "</rpc-reply>");
    HeadIsTag(id);
    assert Tag("<data>") && Tag("</data>") && "<data>"[1] == 'd';
    Differs("<data>", HeadOf(id), 1);
    BetweenSkip(HeadOf(id), rest, "<data>", "</data>");
    BetweenHere("<data>", text, "</data>", "</rpc-reply>");
    DataReplyIs(s, id, output);
  }

  lemma DataReplyIs(s: Server, id: string, output: string)
    ensures DataReply(s, id, output) == HeadOf(id) + ("<data>" + s.escape(output) + ("</data>" + "</rpc-reply>"))
  {
    hide NS;
  }

  lemma OkIsRead(id: string)
    requires TagFree(id)
    ensures Contains(RpcOK(id), "<ok/>") && !Contains(RpcOK(id), "<rpc-error>")
  {
    hide Index, HeadOf;
    HeadIsTag(id);
    var rest := "<ok/>" + "</rpc-reply>";
    assert Tag("<ok/>") && Tag("<rpc-error>") && Tag("</rpc-reply>");
    assert "<ok/>"[1] == 'o' && "<rpc-error>"[1] == 'r' && "<rpc-error>"[5] == 'e' && "</rpc-reply>"[1] == '/';
    Differs("<ok/>", HeadOf(id), 1);
    Differs("<rpc-error>", HeadOf(id), 5);
    Differs("<rpc-error>", "<ok/>", 1);
    Differs("<rpc-error>", "</rpc-reply>", 1);
    SkipTag(HeadOf(id), rest, "<ok/>");
    SkipTag("<ok/>", "</rpc-reply>", "<ok/>");
    SkipTag(HeadOf(id), rest, "<rpc-error>");
    SkipTag("<ok/>", "</rpc-reply>", "<rpc-error>");
    LastTag("</rpc-reply>", "<rpc-error>");
    OkReplyIs(id);
  }

  lemma LastTag(seg: string, t: string)
    requires Tag(seg) && Tag(t) && !(t <= seg)
    ensures Index(seg, t) < 0
  {
    hide Index;
    assert seg + "" == seg;
    SkipTag(seg, "", t);
    assert Index("", t) >= 0 ==> At("", t, Index("", t));
  }

  lemma OkReplyIs(id: string)
    ensures RpcOK(id) == HeadOf(id) + ("<ok/>" + "</rpc-reply>")
  {
    hide NS;
  }

  lemma ErrorIsRead(id: string, tag: string, msg: string)
    requires TagFree(id) && TagFree(tag)
    ensures ErrorTagOf(RpcError(id, tag, msg)) == Some(tag) && Contains(RpcError(id, tag, msg), "<rpc-error>")
    ensures TagFree(msg) ==> ErrorMessageOf(RpcError(id, tag, msg)) == Some(msg)
  {
    hide Between, HeadOf, TagFree;
    HeadIsTag(id);
    hide Tag;
    ErrorParts(tag);
    var end := "</error-message>" + "</rpc-error></rpc-reply>";
    var message := "<error-message>" + msg + end;
    var tagged := "<error-tag>" + tag + ("</error-tag>" + message);
    ErrorReplyIs(id, tag, msg);
    Differs("<error-tag>", HeadOf(id), 1);
    Differs("<error-message>", HeadOf(id), 1);
    Differs("<rpc-error>", HeadOf(id), 5);
    BetweenSkip(HeadOf(id), "<rpc-error>" + tagged, "<error-tag>", "</error-tag>");
    BetweenSkip("<rpc-error>", tagged, "<error-tag>", "</error-tag>");
    BetweenHere("<error-tag>", tag, "</error-tag>", message);
    SkipTag(HeadOf(id), "<rpc-error>" + tagged, "<rpc-error>");
    SkipTag("<rpc-error>", tagged, "<rpc-error>");
    if TagFree(msg) {
      BetweenSkip(HeadOf(id), "<rpc-error>" + tagged, "<error-message>", "</error-message>");
      BetweenSkip("<rpc-error>", tagged, "<error-message>", "</error-message>");
      BetweenSkip("<error-tag>" + tag, "</error-tag>" + message, "<error-message>", "</error-message>");
      BetweenSkip("</error-tag>", message, "<error-message>", "</error-message>");
      BetweenHere("<error-message>", msg, "</error-message>", "</rpc-error></rpc-reply>");
    }
  }

  lemma ErrorParts(tag: string)
    requires TagFree(tag)
    ensures Tag("<rpc-error>") && Tag("<error-tag>") && Tag("</error-tag>") && Tag("<error-message>")
    ensures Tag("</error-message>") && Tag("<error-tag>" + tag)
    ensures !("<error-tag>" <= "<rpc-error>") && !("<error-message>" <= "<rpc-error>")
    ensures !("<error-message>" <= "<error-tag>" + tag) && !("<error-message>" <= "</error-tag>")
  {
    var t := "<error-tag>" + tag;
    assert "<error-tag>"[7] == 't' && t[7] == 't' && "<error-message>"[7] == 'm';
    assert "<rpc-error>"[1] == 'r' && "</error-tag>"[1] == '/' && "<error-message>"[1] == 'e';
    assert "<error-tag>"[1] == 'e';
  }

  lemma ErrorReplyIs(id: string, tag: string, msg: string)
    ensures RpcError(id, tag, msg) ==
              HeadOf(id) + ("<rpc-error>" + ("<error-tag>" + tag + ("</error-tag>" +
                ("<error-message>" + msg + ("</error-message>" + "</rpc-error></rpc-reply>")))))
  {
    hide NS;
    assert "<rpc-error><error-tag>" == "<rpc-error>" + "<error-tag>";
    assert "</error-tag><error-message>" == "</error-tag>" + "<error-message>";
    assert "</error-message></rpc-error>" == "</error-message>" + "</rpc-error>";
    assert "</rpc-error></rpc-reply>" == "</rpc-error>" + "</rpc-reply>";
    Glue(HeadOf(id), "<rpc-error>", "<error-tag>", tag, "</error-tag>", "<error-message>", msg, "</error-message>",
         "</rpc-error>", "</rpc-reply>");
  }

  lemma Glue(h: string, a: string, b: string, c: string, d: string, e: string, f: string, g: string, i: string,
             j: string)
    ensures h + ((a + b) + c + (d + e) + f + (g + i)) + j == h + (a + (b + c + (d + (e + f + (g + (i + j))))))
  {
    Assoc(h, (a + b) + c + (d + e) + f + (g + i), j);
    GlueBody(a, b, c, d, e, f, g + i, j);
    Assoc(g, i, j);
  }

  lemma GlueBody(a: string, b: string, c: string, d: string, e: string, f: string, g: string, j: string)
    ensures (a + b) + c + (d + e) + f + g + j == a + (b + c + (d + (e + f + (g + j))))
  {
  }

  /** What a reply says, branch by branch. A get reply holds the device's answer to the command in the request,
      escaped; edit, commit and close are acknowledged; anything else, and what cannot be decoded, gets an
      error of its own. */
  lemma ReplySaysWhatHappened(s: Server, msg: string)
    requires TagFree(s.unmarshal(msg).id)
    ensures var reply := Dispatch(s, msg);
            match s.unmarshal(msg)
            case Malformed(_, error) =>
              ErrorTagOf(reply) == Some("malformed-message") &&
              (TagFree(error) ==> ErrorMessageOf(reply) == Some(error))
            case Parsed(_, raw) =>
              var inner := Trim(raw);
              if "<get" <= inner then
                var text := s.escape(Exec(s.d, ExtractFilter(inner)));
                TagFree(text) ==> DataOf(reply) == Some(text)
              else if "<edit-config" <= inner || "<commit" <= inner || "<close-session" <= inner then
                Contains(reply, "<ok/>") && !Contains(reply, "<rpc-error>")
              else
                ErrorTagOf(reply) == Some("operation-not-supported") &&
                ErrorMessageOf(reply) == Some("unknown operation")
  {
    hide Exec, ExtractFilter, Trim, RpcReply, RpcOK, RpcError, DataReply;
    hide Contains, Index, Between, DataOf, ErrorTagOf, ErrorMessageOf, TagFree;
    PlainWords();
    match s.unmarshal(msg)
    case Malformed(id, error) => ErrorIsRead(id, "malformed-message", error);
    case Parsed(id, raw) =>
      var inner := Trim(raw);
      if "<get" <= inner {
        if TagFree(s.escape(Exec(s.d, ExtractFilter(inner)))) { DataIsRead(s, id, Exec(s.d, ExtractFilter(inner))); }
      } else if "<edit-config" <= inner || "<commit" <= inner || CLOSE <= inner {
        OkIsRead(id);
      } else {
        ErrorIsRead(id, "operation-not-supported", "unknown operation");
      }
  }

  lemma PlainWords()
    ensures TagFree("malformed-message") && TagFree("operation-not-supported") && TagFree("unknown operation")
  {
  }

  /* ---- requests ---- */

  /** A built get request says what it was built from. */
  lemma GetSaysItsCommand(id: nat, cmd: string)
    requires TagFree(cmd)
    ensures IdOf(GetRPC(id, cmd)) == Some(Decimal(id))
    ensures Between(GetRPC(id, cmd), "<filter type=\"cli\">", "</filter>") == Some(cmd)
  {
    hide Between, TagFree;
    RequestHead(id);
    RequestHasId(id, GetInner(cmd) + "</rpc>");
    hide Tag, RequestHeadOf;
    var open, close := "<filter type=\"cli\">", "</filter>";
    FilterTags();
    var rest := open + cmd + (close + "</get></rpc>");
    GetIs(id, cmd);
    Differs(open, RequestHeadOf(id), 1);
    BetweenSkip(RequestHeadOf(id), "<get>" + rest, open, close);
    BetweenSkip("<get>", rest, open, close);
    BetweenHere(open, cmd, close, "</get></rpc>");
  }

  lemma FilterTags()
    ensures Tag("<filter type=\"cli\">") && Tag("</filter>") && Tag("<get>")
    ensures !("<filter type=\"cli\">" <= "<get>") && "<filter type=\"cli\">"[1] == 'f'
  {
    assert "<filter type=\"cli\">"[1] == 'f' && "<get>"[1] == 'g';
  }

  function RequestHeadOf(id: nat): string {
    "<rpc message-id=\"" + Decimal(id) + NS
  }

  lemma DigitsArePlain(id: nat)
    ensures TagFree(Decimal(id)) && '"' !in Decimal(id)
  {
    var s := Decimal(id);
    forall i | 0 <= i < |s| ensures s[i] != '<' && s[i] != '"' { assert IsDigit(s[i]); }
  }

  lemma RequestHead(id: nat)
    ensures Tag(RequestHeadOf(id)) && |RequestHeadOf(id)| > 1 && RequestHeadOf(id)[1] == 'r'
  {
    hide Decimal;
    var a := "<rpc message-id=\"";
    assert Tag(a) && |a| > 1 && a[1] == 'r';
    DigitsArePlain(id);
    NamespaceIsTagFree();
    hide Tag, TagFree, NS;
    TagAndText(a, Decimal(id));
    TagAndText(a + Decimal(id), NS);
  }

  lemma RequestHasId(id: nat, behind: string)
    ensures IdOf(RequestHeadOf(id) + behind) == Some(Decimal(id))
  {
    hide Between, Decimal;
    DigitsArePlain(id);
    NamespaceIsTagFree();
    var open := "<rpc ";
    assert forall i :: 0 <= i < |open| ==> open[i] != 'm';
    IdIsRead(open, Decimal(id), NS + behind);
    hide NS;
    assert "<rpc message-id=\"" == open + "message-id=\"";
    assert RequestHeadOf(id) + behind == open + "message-id=\"" + Decimal(id) + (NS + behind);
  }

  lemma GetIs(id: nat, cmd: string)
    ensures GetRPC(id, cmd) == RequestHeadOf(id) + (GetInner(cmd) + "</rpc>")
    ensures GetInner(cmd) + "</rpc>" == "<get>" + ("<filter type=\"cli\">" + cmd + ("</filter>" + "</get></rpc>"))
  {
    hide NS, Decimal;
    Assoc(RequestHeadOf(id), GetInner(cmd), "</rpc>");
    assert "<get><filter type=\"cli\">" == "<get>" + "<filter type=\"cli\">";
    assert "</filter></get>" == "</filter>" + "</get>" && "</get></rpc>" == "</get>" + "</rpc>";
    GlueGet("<get>", "<filter type=\"cli\">", cmd, "</filter>", "</get>", "</rpc>");
  }

  lemma GlueGet(a: string, b: string, c: string, d: string, e: string, f: string)
    ensures (a + b) + c + (d + e) + f == a + (b + c + (d + (e + f)))
  {
  }

  /** The reply to a built get request carries that request's id and, escaped, the device's answer to that
      request's command. */
  lemma GetIsAnswered(s: Server, id: nat, cmd: string)
    requires DecodesGet(s, id, cmd) && TagFree(cmd)
    ensures IdOf(Dispatch(s, GetRPC(id, cmd))) == IdOf(GetRPC(id, cmd)) == Some(Decimal(id))
    ensures TagFree(s.escape(Exec(s.d, cmd))) ==>
              DataOf(Dispatch(s, GetRPC(id, cmd))) == Some(s.escape(Exec(s.d, cmd)))
  {
    hide Exec, GetRPC, Decimal, TagFree, Between, DataReply, Dispatch;
    GetIsExec(s, id, cmd);
    GetSaysItsCommand(id, cmd);
    DigitsArePlain(id);
    EveryReplyHasItsId(s, GetRPC(id, cmd));
    if TagFree(s.escape(Exec(s.d, cmd))) { DataIsRead(s, Decimal(id), Exec(s.d, cmd)); }
  }
}
