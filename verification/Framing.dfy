/** NETCONF framing: decimal lengths, chunked messages (RFC 6242, section 4.2) and the
    end-of-message delimiter of the hello exchange (RFC 6242, section 4.3). */
module Framing {
  import opened Wrappers
  import opened Text
  import opened Channel

  /* ---- decimal numbers ---- */

  // the largest value of the implementation's integer
  const MAX_INT: int := 0x7FFF_FFFF_FFFF_FFFF

  predicate IsDigit(c: char) { 48 <= c as int <= 57 }

  function Digit(n: nat): char
    requires n < 10
  {
    ['0', '1', '2', '3', '4', '5', '6', '7', '8', '9'][n]
  }

  function DigitValue(c: char): nat
    requires IsDigit(c)
  {
    c as int - 48
  }

  predicate AllDigits(s: string) {
    forall i :: 0 <= i < |s| ==> IsDigit(s[i])
  }

  function Value(s: string): (v: int)
    requires AllDigits(s)
    ensures v >= 0
  {
    if s == "" then 0 else 10 * Value(s[..|s| - 1]) + DigitValue(s[|s| - 1])
  }

  /** Printing a length. */
  function Decimal(n: nat): (s: string)
    ensures s != "" && AllDigits(s)
  {
    if n < 10 then [Digit(n)] else Decimal(n / 10) + [Digit(n % 10)]
  }

  /** Parsing one: an optional sign, at least one digit, and a value in range. */
  function Atoi(s: string): Option<int> {
    var neg := s != "" && s[0] == '-';
    var ds := if s != "" && (s[0] == '-' || s[0] == '+') then s[1..] else s;
    if ds == "" || !AllDigits(ds) then None
    else
      var v: int := if neg then -Value(ds) else Value(ds);
      if -MAX_INT - 1 <= v <= MAX_INT then Some(v) else None
  }

  lemma ValueOfNext(s: string, d: nat)
    requires AllDigits(s) && d < 10
    ensures AllDigits(s + [Digit(d)]) && Value(s + [Digit(d)]) == 10 * Value(s) + d
  {
    assert (s + [Digit(d)])[..|s|] == s;
    assert DigitValue(Digit(d)) == d;
  }

  lemma {:induction false} ValueOfDecimal(n: nat)
    ensures Value(Decimal(n)) == n
  {
    hide Value, Digit;
    if n >= 10 {
      ValueOfDecimal(n / 10);
      ValueOfNext(Decimal(n / 10), n % 10);
    } else {
      ValueOfNext("", n);
      ValueOfNothing();
      assert "" + [Digit(n)] == [Digit(n)];
    }
  }

  lemma ValueOfNothing()
    ensures Value("") == 0
  {
  }

  lemma AtoiDecimal(n: nat)
    ensures n <= MAX_INT ==> Atoi(Decimal(n)) == Some(n)
  {
    ValueOfDecimal(n);
    var s := Decimal(n);
    assert IsDigit(s[0]);
  }

  /** No number is written with a line feed, or as the end mark. */
  lemma NumbersArePlain(s: string)
    requires Atoi(s).Some?
    ensures LF !in s && s != "#"
  {
    var signed := s[0] == '-' || s[0] == '+';
    var ds := if signed then s[1..] else s;
    forall i | 0 <= i < |s| ensures s[i] != LF {
      assert !signed ==> s[i] == ds[i];
      assert signed ==> i == 0 || s[i] == ds[i - 1];
    }
    assert |ds| > 0 && ds[0] != '#';
  }

  /* ---- chunks ---- */

  const END: string := "\n##\n"

  /** One chunk on the wire: its length as written, and its data. */
  datatype Block = Block(num: string, data: string)

  predicate ValidBlock(b: Block) {
    |b.data| >= 1 && Atoi(b.num) == Some(|b.data|)
  }

  predicate ValidBlocks(bs: seq<Block>) {
    forall i :: 0 <= i < |bs| ==> ValidBlock(bs[i])
  }

  function RenderBlock(b: Block): string {
    "\n#" + b.num + "\n" + b.data
  }

  function RenderBody(bs: seq<Block>): string {
    if bs == [] then "" else RenderBlock(bs[0]) + RenderBody(bs[1..])
  }

  function Render(bs: seq<Block>): string {
    RenderBody(bs) + END
  }

  function Payload(bs: seq<Block>): string {
    if bs == [] then "" else bs[0].data + Payload(bs[1..])
  }

  /** The position of the first LF, or the length. */
  function LineEnd(s: string): (n: nat)
    ensures n <= |s|
    ensures forall i :: 0 <= i < n ==> s[i] != LF
    ensures n < |s| ==> s[n] == LF
  {
    if s == "" || s[0] == LF then 0 else 1 + LineEnd(s[1..])
  }

  /** What stands at the front of a stream. */
  datatype Front = Bad | End(rest: string) | Chunk(block: Block, rest: string)

  /** With the length line read: `num`, and what follows it. */
  function ParseSized(num: string, rest: string): (f: Front)
    ensures !f.Bad? ==> |f.rest| <= |rest|
  {
    if num == "#" then End(rest) else
      match Atoi(num)
      case None => Bad
      case Some(size) =>
        if size < 1 || |rest| < size then Bad
        else Chunk(Block(num, rest[..size]), rest[size..])
  }

  function ParseLine(s: string): (f: Front)
    ensures !f.Bad? ==> |f.rest| < |s|
  {
    var n := LineEnd(s);
    if n == |s| then Bad else ParseSized(s[..n], s[n + 1..])
  }

  function ParseFront(s: string): (f: Front)
    ensures !f.Bad? ==> |f.rest| < |s|
  {
    if "\n#" <= s then ParseLine(s[2..]) else Bad
  }

  /** The blocks of the message at the front of a stream, and what follows its end mark. */
  function Parse(s: string): Option<(seq<Block>, string)>
    decreases |s|
  {
    match ParseFront(s)
    case Bad => None
    case End(rest) => Some(([], rest))
    case Chunk(b, rest) =>
      match Parse(rest)
      case None => None
      case Some((bs, after)) => Some(([b] + bs, after))
  }

  lemma LineEndIs(num: string, rest: string)
    requires LF !in num
    ensures LineEnd(num + [LF] + rest) == |num|
  {
    var s := num + [LF] + rest;
    assert s[|num|] == LF;
    forall i | 0 <= i < |num| ensures s[i] != LF { assert s[i] == num[i]; }
  }

  lemma LineSplits(num: string, rest: string)
    requires LF !in num
    ensures ParseFront("\n#" + num + "\n" + rest) == ParseSized(num, rest)
  {
    hide ParseSized, LineEnd;
    var line := num + [LF] + rest;
    var s := "\n#" + num + "\n" + rest;
    assert "\n#" <= s && s[2..] == line;
    LineEndIs(num, rest);
    assert line[..|num|] == num && line[|num| + 1..] == rest;
  }

  lemma FrontIsChunk(b: Block, rest: string)
    requires ValidBlock(b)
    ensures ParseFront(RenderBlock(b) + rest) == Chunk(b, rest)
  {
    hide Atoi, ParseFront;
    NumbersArePlain(b.num);
    var behind := b.data + rest;
    LineSplits(b.num, behind);
    assert RenderBlock(b) + rest == "\n#" + b.num + "\n" + behind;
    assert behind[..|b.data|] == b.data && behind[|b.data|..] == rest;
  }

  lemma FrontIsEnd(rest: string)
    ensures ParseFront(END + rest) == End(rest)
  {
    hide ParseFront;
    LineSplits("#", rest);
    assert END + rest == "\n#" + "#" + "\n" + rest;
  }

  lemma SizedSplits(num: string, rest: string)
    ensures var f := ParseSized(num, rest);
            (f.End? ==> num == "#" && f.rest == rest) &&
            (f.Chunk? ==> ValidBlock(f.block) && f.block.num == num && rest == f.block.data + f.rest)
  {
    hide Atoi;
  }

  lemma CutAt(s: string, n: nat)
    requires n < |s|
    ensures s == s[..n] + ([s[n]] + s[n + 1..])
  {
    assert s == s[..n] + s[n..];
    assert s[n..] == [s[n]] + s[n + 1..];
  }

  lemma LineParts(s: string)
    ensures ParseLine(s) == if LineEnd(s) == |s| then Bad else ParseSized(s[..LineEnd(s)], s[LineEnd(s) + 1..])
    ensures LineEnd(s) < |s| ==> s == s[..LineEnd(s)] + ([LF] + s[LineEnd(s) + 1..])
  {
    hide ParseSized, LineEnd;
    if LineEnd(s) < |s| { CutAt(s, LineEnd(s)); }
  }

  lemma FrontSplits(s: string)
    ensures ParseFront(s).End? ==> s == END + ParseFront(s).rest
    ensures ParseFront(s).Chunk? ==>
              ValidBlock(ParseFront(s).block) && s == RenderBlock(ParseFront(s).block) + ParseFront(s).rest
  {
    hide ValidBlock, ParseSized, ParseLine, LineEnd;
    var f := ParseFront(s);
    if !f.Bad? {
      var line := s[2..];
      assert s == "\n#" + line;
      LineParts(line);
      var num, behind := line[..LineEnd(line)], line[LineEnd(line) + 1..];
      SizedSplits(num, behind);
      hide ParseFront;
      if f.End? { EndTogether(behind); } else { ChunkTogether(num, f.block.data, f.rest); }
    }
  }

  /** Putting the front of a stream back together from its parts. */
  lemma EndTogether(rest: string)
    ensures "\n#" + ("#" + ([LF] + rest)) == END + rest
  {
  }

  lemma ChunkTogether(num: string, data: string, rest: string)
    ensures "\n#" + (num + ([LF] + (data + rest))) == RenderBlock(Block(num, data)) + rest
  {
    assert "\n" == [LF];
  }

  /** Every accepted message splits into valid blocks and an end mark. */
  lemma {:induction false} ParseSound(s: string)
    ensures Parse(s).Some? ==>
              var (bs, rest) := Parse(s).value;
              ValidBlocks(bs) && s == Render(bs) + rest
    decreases |s|
  {
    hide Atoi, ValidBlock, RenderBlock, Render, ParseFront;
    FrontSplits(s);
    match ParseFront(s)
    case Bad =>
    case End(rest) =>
      RenderNone();
    case Chunk(b, rest) =>
      ParseSound(rest);
      if Parse(rest).Some? {
        RenderCons(b, Parse(rest).value.0, Parse(rest).value.1);
      }
  }

  lemma RenderNone()
    ensures Render([]) == END
  {
  }

  lemma RenderCons(b: Block, bs: seq<Block>, after: string)
    ensures Render([b] + bs) + after == RenderBlock(b) + (Render(bs) + after)
  {
    hide RenderBlock;
    assert ([b] + bs)[1..] == bs;
    var x, y := RenderBlock(b), RenderBody(bs);
    assert x + y + END + after == x + (y + END + after);
  }

  /** Every list of valid blocks is accepted, whatever bytes follow. */
  lemma {:induction false} ParseComplete(bs: seq<Block>, rest: string)
    requires ValidBlocks(bs)
    ensures Parse(Render(bs) + rest) == Some((bs, rest))
    decreases |bs|
  {
    hide Atoi, ValidBlock, RenderBlock, ParseFront;
    if bs == [] {
      assert Render(bs) + rest == END + rest;
      FrontIsEnd(rest);
    } else {
      var more := Render(bs[1..]) + rest;
      assert Render(bs) + rest == RenderBlock(bs[0]) + more;
      FrontIsChunk(bs[0], more);
      ParseComplete(bs[1..], rest);
      assert [bs[0]] + bs[1..] == bs;
    }
  }

  /** The converse of decoding: a stream is accepted exactly when it starts with valid blocks
      and an end mark. */
  lemma AcceptedExactly(s: string, bs: seq<Block>, rest: string)
    ensures Parse(s) == Some((bs, rest)) <==> ValidBlocks(bs) && s == Render(bs) + rest
  {
    hide Parse, ValidBlocks, Render;
    ParseSound(s);
    if ValidBlocks(bs) { ParseComplete(bs, rest); }
  }

  /** A stream splits in one way only; so no accepted encoding is a proper prefix of another. */
  lemma UniqueSplit(bs1: seq<Block>, rest1: string, bs2: seq<Block>, rest2: string)
    requires ValidBlocks(bs1) && ValidBlocks(bs2)
    requires Render(bs1) + rest1 == Render(bs2) + rest2
    ensures bs1 == bs2 && rest1 == rest2
  {
    hide Parse, ValidBlocks, Render;
    ParseComplete(bs1, rest1);
    ParseComplete(bs2, rest2);
  }

  /** Once a message is complete, later bytes do not change how it is read. */
  lemma ParseAppend(s: string, more: string)
    ensures Parse(s).Some? ==> Parse(s + more) == Some((Parse(s).value.0, Parse(s).value.1 + more))
  {
    hide Parse, ValidBlocks, Render;
    ParseSound(s);
    if Parse(s).Some? {
      var (bs, rest) := Parse(s).value;
      assert s + more == Render(bs) + (rest + more);
      ParseComplete(bs, rest + more);
    }
  }

  /** The grammar of the standard: a length is written without sign or leading zero, is at most
      4294967295, and there is at least one chunk. */
  predicate StandardBlocks(bs: seq<Block>) {
    |bs| > 0 && forall i :: 0 <= i < |bs| ==>
      1 <= |bs[i].data| <= 4294967295 && bs[i].num == Decimal(|bs[i].data|)
  }

  /** Everything the standard allows is decoded: for any cutting of a message into chunks. */
  lemma StandardIsAccepted(bs: seq<Block>, rest: string)
    requires StandardBlocks(bs)
    ensures Parse(Render(bs) + rest) == Some((bs, rest))
  {
    forall i | 0 <= i < |bs| ensures ValidBlock(bs[i]) { AtoiDecimal(|bs[i].data|); }
    ParseComplete(bs, rest);
  }

  /** More is accepted than that: signs, leading zeros, and a message of no chunks. */
  lemma MoreThanStandardIsAccepted()
    ensures Parse(END).Some? && !StandardBlocks(Parse(END).value.0)
    ensures ValidBlock(Block("+1", "x")) && ValidBlock(Block("01", "x"))
  {
    assert END + "" == END;
    FrontIsEnd("");
    assert "+1"[1..] == "1" && "1"[..0] == "" && "01"[..1] == "0" && "0"[..0] == "";
    assert Value("1") == 1 && Value("01") == 1;
  }

  /* ---- writing and reading a message ---- */

  function Frame(m: string): string {
    "\n#" + Decimal(|m|) + "\n" + m + END
  }

  method WriteChunked(ch: Channel, data: string)
    modifies ch`outgoing
    ensures ch.outgoing == old(ch.outgoing) + Frame(data)
  {
    ch.Write("\n#" + Decimal(|data|) + "\n" + data + "\n##\n");
  }

  /** What `ReadChunked` makes of a stream: the message, and the bytes left. */
  function Decode(s: string): Option<(string, string)> {
    match Parse(s)
    case None => None
    case Some((bs, rest)) => Some((Payload(bs), rest))
  }

  lemma FrameIsBlock(m: string)
    ensures Frame(m) == Render([Block(Decimal(|m|), m)])
    ensures Payload([Block(Decimal(|m|), m)]) == m
  {
    hide Decimal;
    OneBlock(Block(Decimal(|m|), m));
  }

  /** Round trip, for exactly the messages that survive it: reading back what was written gives
      the message and leaves the bytes behind it untouched if and only if it is not empty. */
  lemma RoundTrip(m: string, rest: string)
    requires |m| <= MAX_INT
    ensures Decode(Frame(m) + rest) == Some((m, rest)) <==> m != ""
  {
    hide Parse, RenderBody, Payload;
    FrameIsBlock(m);
    AtoiDecimal(|m|);
    var b := Block(Decimal(|m|), m);
    if m != "" {
      assert ValidBlock(b);
      ParseComplete([b], rest);
    } else {
      EmptyIsRejected(rest);
    }
  }

  /** What a frame looks like on the wire. */
  lemma FrameOnTheWire()
    ensures Frame("<ok/>") == "\n#5\n<ok/>\n##\n"
  {
    assert Decimal(5) == "5";
  }

  /** And a message in two chunks. */
  lemma ChunksOnTheWire(rest: string)
    ensures Decode("\n#4\n<rpc\n#1\n>\n##\n" + rest) == Some(("<rpc>", rest))
  {
    hide Atoi, Parse, RenderBlock, RenderBody, Payload;
    var a, b := Block("4", "<rpc"), Block("1", ">");
    SmallNumbers();
    ParseComplete([a, b], rest);
    TwoBlocks(a, b);
    TwoChunks();
  }

  lemma SmallNumbers()
    ensures Atoi("4") == Some(4) && Atoi("1") == Some(1)
  {
    AtoiDecimal(4);
    AtoiDecimal(1);
    assert Decimal(4) == "4" && Decimal(1) == "1";
  }

  lemma TwoBlocks(a: Block, b: Block)
    ensures Render([a, b]) == RenderBlock(a) + RenderBlock(b) + END && Payload([a, b]) == a.data + b.data
  {
    hide RenderBlock;
    OneBlock(b);
    assert [a, b][1..] == [b];
  }

  lemma TwoChunks()
    ensures RenderBlock(Block("4", "<rpc")) + RenderBlock(Block("1", ">")) + END == "\n#4\n<rpc\n#1\n>\n##\n"
    ensures "<rpc" + ">" == "<rpc>"
  {
    assert RenderBlock(Block("4", "<rpc")) == "\n#4\n<rpc" && RenderBlock(Block("1", ">")) == "\n#1\n>";
  }

  lemma EmptyIsRejected(rest: string)
    ensures Decode(Frame("") + rest) == None
  {
    var behind := END + rest;
    assert Decimal(0) == "0";
    AtoiDecimal(0);
    LineSplits("0", behind);
    assert Frame("") + rest == "\n#" + "0" + "\n" + behind;
  }

  lemma {:induction false} BodyAppend(bs: seq<Block>, b: Block)
    ensures RenderBody(bs + [b]) == RenderBody(bs) + RenderBlock(b)
    ensures Payload(bs + [b]) == Payload(bs) + b.data
  {
    hide RenderBlock;
    OneBlock(b);
    if bs == [] {
      assert bs + [b] == [b];
    } else {
      assert (bs + [b])[1..] == bs[1..] + [b];
      BodyAppend(bs[1..], b);
      Assoc(RenderBlock(bs[0]), RenderBody(bs[1..]), RenderBlock(b));
      Assoc(bs[0].data, Payload(bs[1..]), b.data);
    }
  }

  lemma OneBlock(b: Block)
    ensures RenderBody([b]) == RenderBlock(b) && Payload([b]) == b.data
  {
    hide RenderBlock;
    assert [b][1..] == [];
    assert RenderBlock(b) + "" == RenderBlock(b) && b.data + "" == b.data;
  }

  lemma {:induction false} ParseBehind(bs: seq<Block>, s: string)
    requires ValidBlocks(bs)
    ensures Parse(s).None? ==> Parse(RenderBody(bs) + s).None?
    decreases |bs|
  {
    hide ValidBlock, RenderBlock, ParseFront;
    if bs == [] {
      assert RenderBody(bs) + s == s;
    } else {
      var more := RenderBody(bs[1..]) + s;
      assert RenderBody(bs) + s == RenderBlock(bs[0]) + more;
      FrontIsChunk(bs[0], more);
      ParseBehind(bs[1..], s);
    }
  }

  method Expect(ch: Channel, c: char) returns (ok: bool)
    modifies ch`incoming, ch`tail
    ensures ok <==> old(ch.incoming) != "" && old(ch.incoming)[0] == c
    ensures ok ==> ch.incoming == old(ch.incoming)[1..]
  {
    var b, err := ch.ReadByte();
    ok := !err && b == c;
  }

  /** Reads up to and including a line feed, one byte at a time. */
  method ReadLine(ch: Channel) returns (line: string, ok: bool)
    modifies ch`incoming, ch`tail
    ensures ok <==> LineEnd(old(ch.incoming)) < |old(ch.incoming)|
    ensures ok ==> var n := LineEnd(old(ch.incoming));
                   line == old(ch.incoming)[..n] && ch.incoming == old(ch.incoming)[n + 1..]
  {
    ghost var all := ch.incoming;
    line := "";
    while true
      invariant line + ch.incoming == all && LF !in line
      decreases |ch.incoming|
    {
      var b, err := ch.ReadByte();
      if err { return line, false; }
      if b == LF {
        assert all == line + [LF] + ch.incoming;
        LineEndIs(line, ch.incoming);
        return line, true;
      }
      line := line + [b];
    }
  }

  /** The rest of a pass once its length line is known. */
  method ReadSized(ch: Channel, num: string) returns (data: string, end: bool, ok: bool)
    modifies ch`incoming, ch`tail
    ensures ok <==> !ParseSized(num, old(ch.incoming)).Bad?
    ensures ok ==> (end <==> ParseSized(num, old(ch.incoming)).End?)
    ensures ok ==> ch.incoming == ParseSized(num, old(ch.incoming)).rest
    ensures ok && !end ==> data == ParseSized(num, old(ch.incoming)).block.data
  {
    hide Atoi;
    if num == "#" { return "", true, true; }
    var size := Atoi(num);
    if size.None? || size.value < 1 { return "", false, false; }
    ghost var rest := ch.incoming;
    var err;
    data, err := ch.ReadFull(size.value);
    if err { return data, false, false; }
    assert data == rest[..size.value] && ch.incoming == rest[size.value..];
    return data, false, true;
  }

  /** One pass of the reading loop. */
  method ReadFront(ch: Channel) returns (data: string, end: bool, ok: bool)
    modifies ch`incoming, ch`tail
    ensures ok <==> !ParseFront(old(ch.incoming)).Bad?
    ensures ok ==> (end <==> ParseFront(old(ch.incoming)).End?)
    ensures ok ==> ch.incoming == ParseFront(old(ch.incoming)).rest
    ensures ok && !end ==> data == ParseFront(old(ch.incoming)).block.data
  {
    hide ParseSized, LineEnd;
    data, end := "", false;
    ok := Expect(ch, LF);
    if !ok { return; }
    ok := Expect(ch, '#');
    if !ok { return; }
    assert ch.incoming == old(ch.incoming)[2..];
    var num;
    num, ok := ReadLine(ch);
    if !ok { return; }
    data, end, ok := ReadSized(ch, num);
  }

  lemma NoBlocks(s: string)
    ensures ValidBlocks([]) && RenderBody([]) + s == s && Payload([]) == ""
  {
  }

  lemma BodyThenEnd(bs: seq<Block>, rest: string)
    ensures RenderBody(bs) + (END + rest) == Render(bs) + rest
  {
  }

  lemma ValidAppend(bs: seq<Block>, b: Block)
    requires ValidBlocks(bs) && ValidBlock(b)
    ensures ValidBlocks(bs + [b])
  {
  }

  lemma BadFront(s: string)
    ensures ParseFront(s).Bad? ==> Parse(s).None?
  {
  }

  /** Reads one message. It succeeds exactly when `Decode` does, with that message, and leaves
      exactly those bytes, however the channel cuts its reads. */
  method ReadChunked(ch: Channel) returns (msg: string, ok: bool)
    modifies ch`incoming, ch`tail
    ensures ok <==> Decode(old(ch.incoming)).Some?
    ensures ok ==> Decode(old(ch.incoming)) == Some((msg, ch.incoming))
  {
    hide ParseFront, RenderBlock, ValidBlocks, Parse, Render, RenderBody, Payload;
    ghost var all := ch.incoming;
    ghost var bs: seq<Block> := [];
    msg := "";
    NoBlocks(all);
    while true
      invariant ValidBlocks(bs) && all == RenderBody(bs) + ch.incoming && msg == Payload(bs)
      decreases |ch.incoming|
    {
      ghost var s := ch.incoming;
      FrontSplits(s);
      BadFront(s);
      ParseBehind(bs, s);
      var data, end, good := ReadFront(ch);
      if !good { return msg, false; }
      if end {
        BodyThenEnd(bs, ch.incoming);
        ParseComplete(bs, ch.incoming);
        return msg, true;
      }
      ghost var b := ParseFront(s).block;
      BodyAppend(bs, b);
      ValidAppend(bs, b);
      Assoc(RenderBody(bs), RenderBlock(b), ch.incoming);
      bs, msg := bs + [b], msg + data;
    }
  }
}
