/** The NETCONF server: dispatch of one request, and the session loop over framed requests. */
module NetconfServer {
  import opened Wrappers
  import opened Text
  import opened Device
  import opened Channel
  import opened Framing
  import opened Hello

  /** What decoding a request's XML gives: its message id, and its inner text or an error. */
  datatype Request = Parsed(id: string, inner: string) | Malformed(id: string, error: string)

  /** A device, and the XML library: decoding of requests and escaping of text. */
  datatype Server = Server(d: Device, unmarshal: string -> Request, escape: string -> string, hello: string)

  const NS: string := "\" xmlns=\"" + "urn:ietf:params:" + "xml:ns:netconf:" + "base:1.0" + "\">"
  const CLOSE: string := "<close-session"
  const SHOW: string := "show version"

  function RpcReply(id: string, body: string): string {
    "<rpc-reply message-id=\"" + id + NS + body + "</rpc-reply>"
  }

  function RpcOK(id: string): string {
    RpcReply(id, "<ok/>")
  }

  function RpcError(id: string, tag: string, msg: string): string {
    RpcReply(id, "<rpc-error><error-tag>" + tag + "</error-tag><error-message>" + msg
                 + "</error-message></rpc-error>")
  }

  function DataReply(s: Server, id: string, output: string): string {
    RpcReply(id, "<data>" + s.escape(output) + "</data>")
  }

  /** The text of the first filter element, or the default command. */
  function ExtractFilter(inner: string): string {
    if Index(inner, ">") < 0 then SHOW else
      var f := Index(inner, "<filter");
      if f < 0 then SHOW else
        var c := Index(inner[f..], ">");
        if c < 0 then SHOW else
          var content := inner[f + c + 1..];
          var end := Index(content, "</filter>");
          if end < 0 then SHOW else Trim(content[..end])
  }

  /** The text of the first cli element, or nothing. */
  function ExtractConfig(inner: string): string {
    var start := Index(inner, "<cli>");
    if start < 0 then "" else
      var content := inner[start + 5..];
      var end := Index(content, "</cli>");
      if end < 0 then "" else Trim(content[..end])
  }

  ghost function Dispatch(s: Server, msg: string): string {
    match s.unmarshal(msg)
    case Malformed(id, error) => RpcError(id, "malformed-message", error)
    case Parsed(id, raw) =>
      var inner := Trim(raw);
      if "<get" <= inner then DataReply(s, id, Exec(s.d, ExtractFilter(inner)))
      else if "<edit-config" <= inner then RpcOK(id)
      else if "<commit" <= inner then RpcOK(id)
      else if CLOSE <= inner then RpcOK(id)
      else RpcError(id, "operation-not-supported", "unknown operation")
  }

  method HandleRequest(s: Server, msg: string) returns (reply: string)
    ensures reply == Dispatch(s, msg)
  {
    var rpc := s.unmarshal(msg);
    if rpc.Malformed? { return RpcError(rpc.id, "malformed-message", rpc.error); }
    var inner := Trim(rpc.inner);
    if "<get" <= inner {
      var output := Lookup(s.d, ExtractFilter(inner));
      return DataReply(s, rpc.id, output);
    }
    if "<edit-config" <= inner {
      var cmd := ExtractConfig(inner);
      if cmd != "" { var _ := Lookup(s.d, cmd); }
      return RpcOK(rpc.id);
    }
    if "<commit" <= inner { return RpcOK(rpc.id); }
    if CLOSE <= inner { return RpcOK(rpc.id); }
    return RpcError(rpc.id, "operation-not-supported", "unknown operation");
  }

  /* ---- the session ---- */

  /** The replies to a stream of requests, in order. */
  ghost function Replies(s: Server, stream: string): seq<string>
    decreases |stream|
  {
    match Decode(stream)
    case None => []
    case Some((msg, rest)) =>
      DecodeShrinks(stream);
      [Dispatch(s, msg)] + if Contains(msg, CLOSE) then [] else Replies(s, rest)
  }

  lemma DecodeShrinks(stream: string)
    ensures Decode(stream).Some? ==> |Decode(stream).value.1| < |stream|
  {
    hide ParseFront, ValidBlocks, RenderBody;
    ParseSound(stream);
  }

  /** A list of messages, framed one after the other. */
  function Frames(ms: seq<string>): string {
    if ms == [] then "" else Frame(ms[0]) + Frames(ms[1..])
  }

  lemma {:induction false} FramesAppend(a: seq<string>, b: seq<string>)
    ensures Frames(a + b) == Frames(a) + Frames(b)
  {
    hide Frame;
    if a == [] {
      assert a + b == b;
    } else {
      assert (a + b)[1..] == a[1..] + b;
      FramesAppend(a[1..], b);
      Assoc(Frame(a[0]), Frames(a[1..]), Frames(b));
    }
  }

  lemma OneFrame(m: string)
    ensures Frames([m]) == Frame(m)
  {
    hide Frame;
    assert [m][1..] == [];
    assert Frame(m) + "" == Frame(m);
  }

  /** Everything the server writes in a session, given everything it receives. */
  ghost function Transcript(s: Server, received: string): string {
    s.hello + "\n" + EOM +
    match ReadHello(received)
    case Message(_, rest) => Frames(Replies(s, rest))
    case TooLarge => ""
    case Ended(_) => ""
  }

  lemma RepliesStep(s: Server, stream: string)
    ensures Decode(stream).None? ==> Replies(s, stream) == []
    ensures Decode(stream).Some? ==>
              var (msg, rest) := Decode(stream).value;
              Replies(s, stream) == [Dispatch(s, msg)] + if Contains(msg, CLOSE) then [] else Replies(s, rest)
  {
    hide Decode, Dispatch, Contains;
  }

  /** The request loop: one reply for each request until the stream ends, a request is badly
      framed, or one asks to close. */
  method ServeRequests(s: Server, ch: Channel)
    modifies ch
    ensures ch.outgoing == old(ch.outgoing) + Frames(Replies(s, old(ch.incoming)))
  {
    hide Dispatch, Decode, Frame, Frames, Replies, Contains;
    ghost var all := ch.incoming;
    ghost var done: seq<string> := [];
    assert Frames([]) == "" by { FramesNone(); }
    var open := true;
    while open
      invariant ch.outgoing == old(ch.outgoing) + Frames(done)
      invariant done + (if open then Replies(s, ch.incoming) else []) == Replies(s, all)
      decreases open, |ch.incoming|
    {
      RepliesStep(s, ch.incoming);
      DecodeShrinks(ch.incoming);
      var msg, ok := ReadChunked(ch);
      if !ok { break; }
      var reply := HandleRequest(s, msg);
      WriteChunked(ch, reply);
      FramesAppend(done, [reply]);
      OneFrame(reply);
      Assoc(old(ch.outgoing), Frames(done), Frame(reply));
      open := !Contains(msg, CLOSE);
      AppendOne(done, reply, if open then Replies(s, ch.incoming) else []);
      done := done + [reply];
    }
    assert done + [] == done;
  }

  lemma AppendOne(done: seq<string>, r: string, rest: seq<string>)
    ensures done + ([r] + rest) == (done + [r]) + rest
  {
  }

  lemma FramesNone()
    ensures Frames([]) == ""
  {
  }

  /** The session as it runs: hello out, hello in, then the request loop. */
  method RunSession(s: Server, ch: Channel)
    modifies ch
    ensures ch.outgoing == old(ch.outgoing) + Transcript(s, old(ch.incoming))
  {
    hide Replies, Frames, ReadHello;
    ghost var greeting := s.hello + "\n" + EOM;
    ch.Write(s.hello + "\n" + EOM);
    var hello := ReadEOM(ch);
    if hello.Message? {
      ghost var rest := ch.incoming;
      ServeRequests(s, ch);
      Assoc(old(ch.outgoing), greeting, Frames(Replies(s, rest)));
    } else {
      Assoc(old(ch.outgoing), greeting, "");
    }
  }

  /* ---- decoding the replies ---- */

  /** Reading framed messages from a stream until no more can be read. */
  function DecodeAll(stream: string): seq<string>
    decreases |stream|
  {
    match Decode(stream)
    case None => []
    case Some((msg, rest)) =>
      DecodeShrinks(stream);
      [msg] + DecodeAll(rest)
  }

  predicate Sendable(m: string) {
    m != "" && |m| <= MAX_INT
  }

  lemma DecodeFrame(m: string, rest: string)
    requires Sendable(m)
    ensures Decode(Frame(m) + rest) == Some((m, rest))
  {
    RoundTrip(m, rest);
  }

  lemma DecodeNothing()
    ensures Decode("") == None
  {
  }

  lemma {:induction false} DecodeFrames(ms: seq<string>)
    requires forall i :: 0 <= i < |ms| ==> Sendable(ms[i])
    ensures DecodeAll(Frames(ms)) == ms
  {
    hide Decode, Frame, Sendable;
    if ms == [] {
      DecodeNothing();
    } else {
      DecodeFrame(ms[0], Frames(ms[1..]));
      DecodeFrames(ms[1..]);
      assert [ms[0]] + ms[1..] == ms;
    }
  }

  /** Messages a client may send in one session: only the last may ask to close. */
  ghost predicate Conversation(ms: seq<string>) {
    && (forall i :: 0 <= i < |ms| ==> Sendable(ms[i]))
    && (forall i :: 0 <= i < |ms| - 1 ==> !Contains(ms[i], CLOSE))
  }

  ghost function DispatchAll(s: Server, ms: seq<string>): seq<string> {
    seq(|ms|, i requires 0 <= i < |ms| => Dispatch(s, ms[i]))
  }

  /** A client that sends all its requests before it reads anything gets, reply by reply and in
      order, what dispatching each request gives. */
  lemma {:induction false} PipelinedReplies(s: Server, ms: seq<string>)
    requires Conversation(ms)
    ensures Replies(s, Frames(ms)) == DispatchAll(s, ms)
    decreases |ms|
  {
    hide Decode, Frame, Sendable, Dispatch, Contains;
    if ms == [] {
      DecodeNothing();
    } else {
      var rest := ms[1..];
      DecodeFrame(ms[0], Frames(rest));
      assert Conversation(rest) by {
        forall i | 0 <= i < |rest| - 1 ensures !Contains(rest[i], CLOSE) { assert rest[i] == ms[i + 1]; }
      }
      PipelinedReplies(s, rest);
      if rest == [] { assert Replies(s, "") == [] by { DecodeNothing(); } }
      assert [Dispatch(s, ms[0])] + DispatchAll(s, rest) == DispatchAll(s, ms);
    }
  }

  /** One request more: it is answered in every case, and the session goes on behind it if and only if it
      does not contain the start of a close request. */
  lemma CloseEndsSession(s: Server, msg: string, rest: string)
    requires Sendable(msg)
    ensures Replies(s, Frame(msg) + rest) ==
              [Dispatch(s, msg)] + if Contains(msg, "<close-session") then [] else Replies(s, rest)
  {
    hide Decode, Frame, Sendable, Dispatch, Contains;
    DecodeFrame(msg, rest);
  }

  /** The whole session, byte for byte: after the hello, what the server writes decodes to the
      replies in order. */
  lemma SessionAnswersInOrder(s: Server, hello: string, ms: seq<string>)
    requires Conversation(ms)
    requires !Contains(hello, EOM) && |hello| <= 0x10_0000 - 6
    requires forall i :: 0 <= i < |ms| ==> |Dispatch(s, ms[i])| <= MAX_INT
    ensures exists out :: Transcript(s, hello + "\n" + EOM + Frames(ms)) == s.hello + "\n" + EOM + out
                          && DecodeAll(out) == DispatchAll(s, ms)
  {
    hide Decode, Frame, Sendable, Dispatch, Contains, ReadHello;
    HelloWithNewline(hello, Frames(ms));
    PipelinedReplies(s, ms);
    var rs := DispatchAll(s, ms);
    forall i | 0 <= i < |rs| ensures Sendable(rs[i]) { ReplyIsSendable(s, ms[i]); }
    DecodeFrames(rs);
    assert Transcript(s, hello + "\n" + EOM + Frames(ms)) == s.hello + "\n" + EOM + Frames(rs);
  }

  lemma ReplyIsSendable(s: Server, m: string)
    requires |Dispatch(s, m)| <= MAX_INT
    ensures Sendable(Dispatch(s, m))
  {
  }

  /* ---- a get request ---- */

  function GetInner(cmd: string): string {
    "<get><filter type=\"cli\">" + cmd + "</filter></get>"
  }

  function GetRPC(id: nat, cmd: string): string {
    "<rpc message-id=\"" + Decimal(id) + NS + GetInner(cmd) + "</rpc>"
  }

  /** No tag starts in the text. */
  predicate TagFree(cmd: string) {
    forall i :: 0 <= i < |cmd| ==> cmd[i] != '<'
  }

  /** The one thing taken from the XML library: this get request decodes to its own parts. */
  predicate DecodesGet(s: Server, id: nat, cmd: string) {
    s.unmarshal(GetRPC(id, cmd)) == Parsed(Decimal(id), GetInner(cmd))
  }

  /** A text is found at `i` if its `k`-th character rules out every earlier place. */
  lemma FoundAt(s: string, t: string, i: nat, k: nat)
    requires At(s, t, i) && k < |t|
    requires forall j :: k <= j < i + k ==> s[j] != t[k]
    ensures Index(s, t) == i
  {
    forall j | 0 <= j < i ensures !At(s, t, j) {
      if j + |t| <= |s| { assert s[j..j + |t|][k] == s[j + k]; }
    }
    IndexIs(s, t, i);
  }

  const OPEN: string := "<filter type=\"cli\">"

  lemma FilterBounds(tail: string)
    ensures Index("<get>" + OPEN + tail, "<filter") == 5
    ensures Index(OPEN + tail, ">") == 18
  {
    hide Index;
    var s := "<get>" + OPEN + tail;
    assert s[5..12] == "<filter";
    FoundAt(s, "<filter", 5, 1);
    var u := OPEN + tail;
    assert u[18..19] == ">";
    FoundAt(u, ">", 18, 0);
  }

  lemma FilterEnd(cmd: string)
    requires TagFree(cmd)
    ensures Index(cmd + "</filter></get>", "</filter>") == |cmd|
  {
    hide Index;
    var tail := cmd + "</filter></get>";
    assert tail[|cmd|..|cmd| + 9] == "</filter>";
    FoundAt(tail, "</filter>", |cmd|, 0);
  }

  lemma FilterOpens(tail: string)
    ensures Index("<get>" + OPEN + tail, ">") >= 0
    ensures ("<get>" + OPEN + tail)[5..] == OPEN + tail
    ensures ("<get>" + OPEN + tail)[24..] == tail
  {
    hide Index;
    var s := "<get>" + OPEN + tail;
    assert s[4..5] == ">";
    assert At(s, ">", 4);
  }

  lemma FilterOfGet(cmd: string)
    requires TagFree(cmd)
    ensures ExtractFilter(GetInner(cmd)) == Trim(cmd)
  {
    hide Index, Trim, TagFree, GetInner;
    var tail := cmd + "</filter></get>";
    FilterOpens(tail);
    FilterBounds(tail);
    FilterEnd(cmd);
    assert tail[..|cmd|] == cmd;
    GetInnerIs(cmd);
  }

  /** Without a whole filter element the command is "show version". */
  lemma NoFilterMeansVersion(inner: string)
    requires !Contains(inner, "<filter") || !Contains(inner, "</filter>")
    ensures ExtractFilter(inner) == "show version"
  {
    hide Index, Trim;
    var f := Index(inner, "<filter");
    if f >= 0 {
      var c := Index(inner[f..], ">");
      if c >= 0 {
        assert At(inner[f..], ">", c);
        NotBehind(inner, "</filter>", f + c + 1);
      }
    }
  }

  lemma NotBehind(s: string, t: string, n: nat)
    requires n <= |s| && !Contains(s, t)
    ensures Index(s[n..], t) < 0
  {
    var u := s[n..];
    forall i | 0 <= i ensures !At(u, t, i) {
      assert !At(s, t, n + i);
      if i + |t| <= |u| { assert u[i..i + |t|] == s[n + i..n + i + |t|]; }
    }
    var r := Index(u, t);
    assert r < 0 || At(u, t, r);
  }

  /** The text of the first filter element, whatever its attributes. */
  lemma FilterText(before: string, attrs: string, cmd: string, behind: string)
    requires FirstAt(before + ("<filter" + attrs + ">" + (cmd + "</filter>" + behind)), "<filter", |before|)
    requires (forall i :: 0 <= i < |attrs| ==> attrs[i] != '>') && TagFree(cmd)
    ensures ExtractFilter(before + ("<filter" + attrs + ">" + (cmd + "</filter>" + behind))) == Trim(cmd)
  {
    hide Index, Trim, TagFree, FirstAt;
    var content := cmd + "</filter>" + behind;
    var element := "<filter" + attrs + ">" + content;
    var inner := before + element;
    IndexIs(inner, "<filter", |before|);
    assert inner[|before|..] == element;
    var c := |"<filter" + attrs|;
    ElementOpens(attrs, content);
    assert inner[|before| + c..|before| + c + 1] == ">";
    assert At(inner, ">", |before| + c);
    assert inner[|before| + c + 1..] == content;
    ContentEnds(cmd, behind);
    assert content[..|cmd|] == cmd;
  }

  lemma ElementOpens(attrs: string, content: string)
    requires forall i :: 0 <= i < |attrs| ==> attrs[i] != '>'
    ensures Index("<filter" + attrs + ">" + content, ">") == |"<filter" + attrs|
  {
    hide Index;
    var s, c := "<filter" + attrs + ">" + content, |"<filter" + attrs|;
    assert s[c..c + 1] == ">";
    forall j | 0 <= j < c ensures s[j] != '>' { assert j >= 7 ==> s[j] == attrs[j - 7]; }
    FoundAt(s, ">", c, 0);
  }

  lemma ContentEnds(cmd: string, behind: string)
    requires TagFree(cmd)
    ensures Index(cmd + "</filter>" + behind, "</filter>") == |cmd|
  {
    hide Index;
    var s := cmd + "</filter>" + behind;
    assert s[|cmd|..|cmd| + 9] == "</filter>";
    FoundAt(s, "</filter>", |cmd|, 0);
  }

  lemma GetInnerIs(cmd: string)
    ensures GetInner(cmd) == "<get>" + OPEN + (cmd + "</filter></get>")
  {
  }

  const CONFIG: string := "<edit-config>" + "<target><running/>" + "</target>" + "<config>"
  const CONFIG_END: string := "</cli>" + "</config></edit-config>"

  /** The inner text of an edit request. */
  function EditInner(cmds: string): string {
    CONFIG + "<cli>" + (cmds + CONFIG_END)
  }

  function EditRPC(id: nat, cmds: string): string {
    "<rpc message-id=\"" + Decimal(id) + NS + EditInner(cmds) + "</rpc>"
  }

  lemma ConfigLacksCli()
    ensures forall j :: 0 <= j < |CONFIG| ==> CONFIG[j] != 'l'
  {
    var a, b, c, d := "<edit-config>", "<target><running/>", "</target>", "<config>";
    assert 'l' !in a && 'l' !in b && 'l' !in c && 'l' !in d;
    forall j | 0 <= j < |CONFIG| ensures CONFIG[j] != 'l' {
      assert CONFIG[j] in a + b + c + d;
    }
  }

  lemma ConfigOpens(tail: string)
    ensures Index(CONFIG + "<cli>" + tail, "<cli>") == |CONFIG|
    ensures (CONFIG + "<cli>" + tail)[|CONFIG| + 5..] == tail
  {
    hide Index;
    var s := CONFIG + "<cli>" + tail;
    ConfigLacksCli();
    hide CONFIG;
    assert s[|CONFIG|..|CONFIG| + 5] == "<cli>";
    FoundAt(s, "<cli>", |CONFIG|, 2);
  }

  lemma ConfigEnd(cmds: string)
    requires TagFree(cmds)
    ensures Index(cmds + CONFIG_END, "</cli>") == |cmds|
  {
    hide Index;
    var tail := cmds + CONFIG_END;
    assert tail[|cmds|..] == CONFIG_END;
    assert tail[|cmds|..|cmds| + 6] == tail[|cmds|..][..6] == "</cli>";
    FoundAt(tail, "</cli>", |cmds|, 0);
  }

  lemma ConfigOfEdit(cmds: string)
    requires TagFree(cmds)
    ensures ExtractConfig(EditInner(cmds)) == Trim(cmds)
  {
    hide Index, Trim, TagFree;
    var tail := cmds + CONFIG_END;
    ConfigOpens(tail);
    ConfigEnd(cmds);
    assert tail[..|cmds|] == cmds;
    assert EditInner(cmds) == CONFIG + "<cli>" + tail;
  }

  /** A get request carries its command through: the reply bears the request's id and the
      device's answer to that command. */
  lemma GetIsExec(s: Server, id: nat, cmd: string)
    requires DecodesGet(s, id, cmd) && TagFree(cmd)
    ensures Dispatch(s, GetRPC(id, cmd)) == DataReply(s, Decimal(id), Exec(s.d, cmd))
  {
    hide Exec, ExtractFilter, GetRPC;
    var s0 := GetInner(cmd);
    FilterOfGet(cmd);
    assert Trimmed(s0) && "" + s0 + "" == s0;
    TrimUnique("", s0, "");
    assert "<get" <= s0;
    ExecTrims(s.d, cmd);
  }

  lemma ExecTrims(d: Device, cmd: string)
    ensures Exec(d, Trim(cmd)) == Exec(d, cmd)
  {
    TrimIdempotent(cmd);
  }
}
