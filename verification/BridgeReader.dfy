/**
 The wire format of tools/pocket_bridge.py: frames in hexadecimal between 0x1d and a newline, spliced
 anywhere into a stream of log text, and the reader that takes the two apart again.
 */
module BridgeReader {
  import opened Options
  import opened Bytes
  import opened Records

  const START: Byte := 0x1d
  const TYPE: Byte := 0x42
  const NEWLINE: Byte := 0x0a
  const RETURN: Byte := 0x0d
  const VERSION: Byte := 1
  const HEADER: nat := 12
  const MAX_PAYLOAD: nat := 480

  /** Any checksum of a body; zlib.crc32 is one. */
  type Checksum = seq<Byte> -> Word

  datatype Frame = Frame(kind: nat, session: nat, request: nat, payload: seq<Byte>)

  datatype Reason = Odd | NotHex | Short | WrongVersion | WrongChecksum | WrongLength | Restarted | NonHexByte

  datatype Item = Framed(frame: Frame) | Log(line: seq<Byte>) | Bad(reason: Reason)

  datatype State = Text | Type | HexRun | Skip

  // ------------------------------------------------------------ encoding

  function Header(f: Frame): (h: seq<Byte>)
    ensures |h| == HEADER
  {
    Pack(VERSION, 1) + Pack(f.kind, 1) + Pack(|f.payload|, 2) + Pack(f.session, 4) + Pack(f.request, 4)
  }

  function Body(crc: Checksum, f: Frame): (b: seq<Byte>)
    ensures |b| == HEADER + |f.payload| + 4
  {
    Header(f) + f.payload + Pack(crc(Header(f) + f.payload), 4)
  }

  function Wire(crc: Checksum, f: Frame): seq<Byte> { [START, TYPE] + Hexlify(Body(crc, f)) + [NEWLINE] }

  /** The fields struct.pack takes; anything else raises. */
  predicate Packable(f: Frame) { f.kind < 256 && |f.payload| < 0x1_0000 && f.session < WORD && f.request < WORD }

  /** encode(): None where it raises. */
  function Encode(crc: Checksum, f: Frame): Option<seq<Byte>> {
    if |f.payload| > MAX_PAYLOAD || !Packable(f) then None else Some(Wire(crc, f))
  }

  /** encode() takes payloads of up to 480 bytes and the fields struct.pack takes. */
  lemma EncodeTakes(crc: Checksum, f: Frame)
    ensures Encode(crc, f).Some? <==>
      |f.payload| <= 480 && f.kind < 0x100 && f.session < 0x1_0000_0000 && f.request < 0x1_0000_0000
    ensures Encode(crc, f).Some? ==> Encode(crc, f).value == Wire(crc, f)
  {
  }

  // ------------------------------------------------------------ log text

  function StripReturns(line: seq<Byte>): seq<Byte> {
    if line != [] && line[|line| - 1] == RETURN then StripReturns(line[..|line| - 1]) else line
  }

  function LogOf(line: seq<Byte>): seq<Item> {
    var l := StripReturns(line);
    if l == [] then [] else [Log(l)]
  }

  /** What stands after the last newline. */
  function Tail(text: seq<Byte>): seq<Byte> {
    if text == [] then []
    else if text[|text| - 1] == NEWLINE then []
    else Tail(text[..|text| - 1]) + [text[|text| - 1]]
  }

  /** The complete lines, stripped, without the empty ones. */
  function Lines(text: seq<Byte>): seq<Item> {
    if text == [] then []
    else
      var init := text[..|text| - 1];
      if text[|text| - 1] == NEWLINE then Lines(init) + LogOf(Tail(init)) else Lines(init)
  }

  lemma OneMore(text: seq<Byte>, c: Byte)
    ensures Tail(text + [c]) == if c == NEWLINE then [] else Tail(text) + [c]
    ensures Lines(text + [c]) == if c == NEWLINE then Lines(text) + LogOf(Tail(text)) else Lines(text)
  {
    assert (text + [c])[..|text|] == text;
  }

  lemma {:induction false} TailIsLastLine(text: seq<Byte>)
    ensures NEWLINE !in Tail(text) && Lines(Tail(text)) == [] && Tail(Tail(text)) == Tail(text)
    ensures NEWLINE !in text ==> Tail(text) == text && Lines(text) == []
  {
    if text == [] {
    } else {
      var init := text[..|text| - 1];
      TailIsLastLine(init);
      assert text == init + [text[|text| - 1]];
      OneMore(Tail(init), text[|text| - 1]);
    }
  }

  /** Reporting the lines of a prefix early changes nothing. */
  lemma {:induction false} LinesSplit(a: seq<Byte>, b: seq<Byte>)
    ensures Lines(a + b) == Lines(a) + Lines(Tail(a) + b)
    ensures Tail(a + b) == Tail(Tail(a) + b)
  {
    hide Tail, Lines, LogOf;
    TailIsLastLine(a);
    if b == [] {
      assert a + b == a && Tail(a) + b == Tail(a);
      Regroup(Lines(a), [], []);
    } else {
      var init, c := b[..|b| - 1], b[|b| - 1];
      LinesSplit(a, init);
      Regroup(Lines(a), Lines(Tail(a) + init), LogOf(Tail(a + init)));
      assert a + b == (a + init) + [c] && Tail(a) + b == (Tail(a) + init) + [c];
      OneMore(a + init, c);
      OneMore(Tail(a) + init, c);
    }
  }

  // ------------------------------------------------------------ reading

  /** The three fields of a Reader. */
  datatype Fields = Fields(state: State, hex: seq<Byte>, text: seq<Byte>)

  /** _finish(): the frame in a run of hex digits, or why it is none. */
  function Finish(crc: Checksum, hex: seq<Byte>): Item {
    if |hex| % 2 == 1 then Bad(Odd)
    else
      match Unhexlify(hex)
      case None => Bad(NotHex)
      case Some(body) =>
        var n := |body|;
        if n < HEADER + 4 then Bad(Short)
        else if body[0] != VERSION then Bad(WrongVersion)
        else if crc(body[..n - 4]) != Unpack(body[n - 4..]) then Bad(WrongChecksum)
        else if HEADER + Unpack(body[2..4]) + 4 != n then Bad(WrongLength)
        else Framed(Frame(Unpack(body[1..2]), Unpack(body[4..8]), Unpack(body[8..12]), body[HEADER..n - 4]))
  }

  /** One byte of feed(): the fields after it and what it reports. */
  function Step(crc: Checksum, r: Fields, c: Byte): (Fields, seq<Item>) {
    match r.state
    case Text =>
      if c == START then (Fields(Type, r.hex, Tail(r.text)), Lines(r.text))
      else (r.(text := r.text + [c]), [])
    case Type =>
      if c == START then (r, []) else (Fields(if c == TYPE then HexRun else Skip, [], r.text), [])
    case HexRun =>
      if c == NEWLINE then (Fields(Text, [], r.text), [Finish(crc, r.hex)])
      else if c == START then (r.(state := Type), [Bad(Restarted)])
      else if IsHexDigit(c) then (r.(hex := r.hex + [c]), [])
      else (r.(state := Skip), [Bad(NonHexByte)])
    case Skip =>
      (r.(state := if c == START then Type else if c == NEWLINE then Text else Skip), [])
  }

  function Scan(crc: Checksum, r: Fields, data: seq<Byte>): (Fields, seq<Item>)
    decreases |data|
  {
    if data == [] then (r, [])
    else
      var (r1, out) := Step(crc, r, data[0]);
      var (r2, more) := Scan(crc, r1, data[1..]);
      (r2, out + more)
  }

  /** feed(). */
  function Feed(crc: Checksum, r: Fields, data: seq<Byte>): (Fields, seq<Item>) {
    var (s, out) := Scan(crc, r, data);
    (s.(text := Tail(s.text)), out + Lines(s.text))
  }

  /** The states a reader can be in: text that is not being read holds no complete line. */
  predicate Valid(r: Fields) { r.state != Text ==> NEWLINE !in r.text }

  lemma {:induction false} ScanSplits(crc: Checksum, r: Fields, a: seq<Byte>, b: seq<Byte>)
    ensures var (s, out) := Scan(crc, r, a); var (t, more) := Scan(crc, s, b); Scan(crc, r, a + b) == (t, out + more)
    decreases |a|
  {
    hide Step;
    if a == [] {
      assert a + b == b;
      Regroup(Scan(crc, r, b).1, [], []);
    } else {
      assert (a + b)[1..] == a[1..] + b;
      var (s1, out) := Step(crc, r, a[0]);
      ScanSplits(crc, s1, a[1..], b);
      var (s2, more) := Scan(crc, s1, a[1..]);
      Regroup(out, more, Scan(crc, s2, b).1);
    }
  }

  lemma StepKeepsValid(crc: Checksum, r: Fields, c: Byte)
    requires Valid(r)
    ensures Valid(Step(crc, r, c).0)
  {
    hide Tail, Lines, Finish;
    TailIsLastLine(r.text);
  }

  lemma {:induction false} ScanKeepsValid(crc: Checksum, r: Fields, data: seq<Byte>)
    requires Valid(r)
    ensures Valid(Scan(crc, r, data).0)
    decreases |data|
  {
    if data == [] {
    } else {
      StepKeepsValid(crc, r, data[0]);
      ScanKeepsValid(crc, Step(crc, r, data[0]).0, data[1..]);
    }
  }

  /** q is p with the lines `early` already reported. */
  ghost predicate Ahead(p: Fields, q: Fields, early: seq<Item>) {
    && p.state == q.state && p.hex == q.hex && Tail(p.text) == Tail(q.text)
    && Lines(p.text) == early + Lines(q.text)
    && Valid(p) && Valid(q)
  }

  lemma FeedHead(crc: Checksum, r: Fields, data: seq<Byte>)
    requires data != []
    ensures var (s, out) := Step(crc, r, data[0]); var (t, more) := Feed(crc, s, data[1..]);
      Feed(crc, r, data) == (t, out + more)
  {
    hide Step, Lines, Tail;
    var (s, out) := Step(crc, r, data[0]);
    var (t, more) := Scan(crc, s, data[1..]);
    Regroup(out, more, Lines(t.text));
  }

  /** A text byte leaves the lines still to report; any other byte has reported them. */
  lemma StepAhead(crc: Checksum, p: Fields, q: Fields, early: seq<Item>, c: Byte) returns (late: seq<Item>)
    requires Ahead(p, q, early)
    ensures var (p1, a) := Step(crc, p, c); var (q1, b) := Step(crc, q, c);
      Ahead(p1, q1, late) && a + late == early + b
  {
    hide Lines, Tail, LogOf, Finish;
    StepKeepsValid(crc, p, c);
    StepKeepsValid(crc, q, c);
    TailIsLastLine(p.text);
    TailIsLastLine(q.text);
    if p.state == Text && c != START {
      OneMore(p.text, c);
      OneMore(q.text, c);
      Regroup(early, Lines(q.text), LogOf(Tail(q.text)));
      late := early;
    } else {
      late := [];
    }
  }

  lemma {:induction false} ReportingEarly(crc: Checksum, p: Fields, q: Fields, early: seq<Item>, data: seq<Byte>)
    requires Ahead(p, q, early)
    ensures var (p', a) := Feed(crc, p, data); var (q', b) := Feed(crc, q, data); p' == q' && a == early + b
    decreases |data|
  {
    if data == [] {
    } else {
      hide Step, Ahead, Feed;
      var late := StepAhead(crc, p, q, early, data[0]);
      FeedHead(crc, p, data);
      FeedHead(crc, q, data);
      var (p1, a) := Step(crc, p, data[0]);
      var (q1, b) := Step(crc, q, data[0]);
      ReportingEarly(crc, p1, q1, late, data[1..]);
      Regroup(a, late, Feed(crc, q1, data[1..]).1);
      Regroup(early, b, Feed(crc, q1, data[1..]).1);
    }
  }

  /** However the bytes are chopped, the items and the final state are the same. */
  lemma FeedIsSeamless(crc: Checksum, r: Fields, a: seq<Byte>, b: seq<Byte>)
    requires Valid(r)
    ensures var (s, out) := Feed(crc, r, a); var (t, more) := Feed(crc, s, b); Feed(crc, r, a + b) == (t, out + more)
  {
    ScanKeepsValid(crc, r, a);
    ScanSplits(crc, r, a, b);
    var p := Scan(crc, r, a).0;
    TailIsLastLine(p.text);
    var q := p.(text := Tail(p.text));
    Regroup(Lines(p.text), [], []);
    ReportingEarly(crc, p, q, Lines(p.text), b);
    var (x, o) := Scan(crc, p, b);
    Regroup(Scan(crc, r, a).1, o, Lines(x.text));
    Regroup(Scan(crc, r, a).1, Lines(p.text), Feed(crc, q, b).1);
  }

  function Join(chunks: seq<seq<Byte>>): seq<Byte> {
    if chunks == [] then [] else chunks[0] + Join(chunks[1..])
  }

  function FeedAll(crc: Checksum, r: Fields, chunks: seq<seq<Byte>>): (Fields, seq<Item>)
    decreases |chunks|
  {
    if chunks == [] then (r, [])
    else
      var (s, out) := Feed(crc, r, chunks[0]);
      var (t, more) := FeedAll(crc, s, chunks[1..]);
      (t, out + more)
  }

  lemma {:induction false} ChoppingIsInvisible(crc: Checksum, r: Fields, chunks: seq<seq<Byte>>)
    requires Valid(r) && chunks != []
    ensures FeedAll(crc, r, chunks) == Feed(crc, r, Join(chunks))
    decreases |chunks|
  {
    var (s, out) := Feed(crc, r, chunks[0]);
    ScanKeepsValid(crc, r, chunks[0]);
    TailIsLastLine(Scan(crc, r, chunks[0]).0.text);
    if |chunks| == 1 {
      assert chunks[1..] == [] && FeedAll(crc, s, []) == (s, []);
      assert Join(chunks) == chunks[0];
      Regroup(out, [], []);
    } else {
      ChoppingIsInvisible(crc, s, chunks[1..]);
      FeedIsSeamless(crc, r, chunks[0], Join(chunks[1..]));
    }
  }

  // ------------------------------------------------------------ frames

  /** Where every field of a frame stands: struct.pack('<BBHII'), the payload, the checksum of both. */
  lemma BodyLayout(crc: Checksum, f: Frame, b: seq<Byte>)
    requires Packable(f) && b == Body(crc, f)
    ensures var n := |f.payload|;
      && |b| == n + 16 && b[0] == 1 && b[1] == f.kind && b[2] == n % 256 && b[3] == n / 256
      && b[4] == f.session % 256 && b[5] == f.session / 0x100 % 256
      && b[6] == f.session / 0x1_0000 % 256 && b[7] == f.session / 0x100_0000
      && b[8] == f.request % 256 && b[9] == f.request / 0x100 % 256
      && b[10] == f.request / 0x1_0000 % 256 && b[11] == f.request / 0x100_0000
      && b[12..n + 12] == f.payload
      && var sum := crc(b[..n + 12]);
         && b[n + 12] == sum % 256 && b[n + 13] == sum / 0x100 % 256
         && b[n + 14] == sum / 0x1_0000 % 256 && b[n + 15] == sum / 0x100_0000
  {
    var h, sum := Header(f), crc(Header(f) + f.payload);
    HeaderLayout(f, h);
    PackDigits(sum, 4);
    Sections(h, f.payload, Pack(sum, 4), b);
    hide Pack, Header, Body;
    assert b[|f.payload| + 12 + 3] == Pack(sum, 4)[3];
  }

  lemma HeaderLayout(f: Frame, h: seq<Byte>)
    requires Packable(f) && h == Header(f)
    ensures h[0] == 1 && h[1] == f.kind && h[2] == |f.payload| % 256 && h[3] == |f.payload| / 256
    ensures h[4] == f.session % 256 && h[5] == f.session / 0x100 % 256
    ensures h[6] == f.session / 0x1_0000 % 256 && h[7] == f.session / 0x100_0000
    ensures h[8] == f.request % 256 && h[9] == f.request / 0x100 % 256
    ensures h[10] == f.request / 0x1_0000 % 256 && h[11] == f.request / 0x100_0000
  {
    hide Pack;
    PackDigits(VERSION, 1);
    PackDigits(f.kind, 1);
    PackDigits(|f.payload|, 2);
    PackDigits(f.session, 4);
    PackDigits(f.request, 4);
    assert h[4..8] == Pack(f.session, 4) && h[8..12] == Pack(f.request, 4);
  }

  /** Where each of three joined parts stands. */
  lemma Sections(h: seq<Byte>, body: seq<Byte>, sum: seq<Byte>, b: seq<Byte>)
    requires b == h + body + sum && |h| == 12 && |sum| == 4
    ensures b[..12] == h && b[12..12 + |body|] == body && b[12 + |body|..] == sum
    ensures b[..12 + |body|] == h + body
    ensures forall k :: 0 <= k < 12 ==> b[k] == h[k]
    ensures forall k :: 0 <= k < 4 ==> b[12 + |body| + k] == sum[k]
  {
  }

  /** On the wire each byte is two digits, between the start and the newline. */
  lemma WireLayout(crc: Checksum, f: Frame, b: seq<Byte>, w: seq<Byte>)
    requires b == Body(crc, f) && w == Wire(crc, f)
    ensures |w| == 2 * |b| + 3 && w[0] == 0x1d && w[1] == 0x42 && w[|w| - 1] == 0x0a
    ensures forall k :: 0 <= k < |b| ==>
      && w[2 * k + 2] == b[k] / 16 + (if b[k] / 16 < 10 then 0x30 else 0x57)
      && w[2 * k + 3] == b[k] % 16 + (if b[k] % 16 < 10 then 0x30 else 0x57)
  {
    hide Pack, Hexlify, Body;
    forall k | 0 <= k < |b|
      ensures w[2 * k + 2] == b[k] / 16 + (if b[k] / 16 < 10 then 0x30 else 0x57)
      ensures w[2 * k + 3] == b[k] % 16 + (if b[k] % 16 < 10 then 0x30 else 0x57)
    {
      HexDigits(b, k);
    }
  }

  /** Every packable frame is read back from its digits. */
  lemma FinishReadsBody(crc: Checksum, f: Frame)
    requires Packable(f)
    ensures Finish(crc, Hexlify(Body(crc, f))) == Framed(f)
  {
    hide Hexlify, Unhexlify, Pack, Unpack;
    var h, n := Header(f), |f.payload|;
    var signed := h + f.payload;
    var body := Body(crc, f);
    UnhexlifyHexlify(body);
    Widths();
    assert body[..|body| - 4] == signed && body[|body| - 4..] == Pack(crc(signed), 4);
    assert body[1..2] == Pack(f.kind, 1) && body[2..4] == Pack(n, 2);
    assert body[4..8] == Pack(f.session, 4) && body[8..12] == Pack(f.request, 4);
    assert body[HEADER..|body| - 4] == f.payload;
    UnpackPack(f.kind, 1);
    UnpackPack(n, 2);
    UnpackPack(f.session, 4);
    UnpackPack(f.request, 4);
    UnpackPack(crc(signed), 4);
    assert body[0] == Pack(VERSION, 1)[0];
    VersionByte();
  }

  lemma VersionByte()
    ensures Pack(VERSION, 1) == [VERSION]
  {
  }

  /** What any run of digits is reported as, by the bytes they stand for, the checks in this order. */
  lemma FinishDecides(crc: Checksum, b: seq<Byte>, hex: seq<Byte>)
    requires hex == Hexlify(b)
    ensures var n, r := |b|, Finish(crc, hex);
      && (n < 16 ==> r == Bad(Short))
      && (n >= 16 && b[0] != 1 ==> r == Bad(WrongVersion))
      && (n >= 16 && b[0] == 1 ==>
            if crc(b[..n - 4]) != Field32(b, n - 4) then r == Bad(WrongChecksum)
            else if 16 + Field16(b, 2) != n then r == Bad(WrongLength)
            else r == Framed(Frame(b[1], Field32(b, 4), Field32(b, 8), b[12..n - 4])))
  {
    UnhexlifyHexlify(b);
    hide Hexlify, Unhexlify, Unpack, Field16, Field32;
    DigitsOf(crc, hex, b);
    hide Finish;
    if |b| >= 16 { FieldsOfBody(b); }
  }

  lemma DigitsOf(crc: Checksum, hex: seq<Byte>, b: seq<Byte>)
    requires |hex| % 2 == 0 && Unhexlify(hex) == Some(b)
    ensures Finish(crc, hex) ==
      if |b| < HEADER + 4 then Bad(Short)
      else if b[0] != VERSION then Bad(WrongVersion)
      else if crc(b[..|b| - 4]) != Unpack(b[|b| - 4..]) then Bad(WrongChecksum)
      else if HEADER + Unpack(b[2..4]) + 4 != |b| then Bad(WrongLength)
      else Framed(Frame(Unpack(b[1..2]), Unpack(b[4..8]), Unpack(b[8..12]), b[HEADER..|b| - 4]))
  {
    hide Unhexlify, Unpack;
  }

  lemma FieldsOfBody(b: seq<Byte>)
    requires |b| >= 16
    ensures Unpack(b[1..2]) == b[1] && Unpack(b[2..4]) == Field16(b, 2) && Unpack(b[4..8]) == Field32(b, 4)
    ensures Unpack(b[8..12]) == Field32(b, 8) && Unpack(b[|b| - 4..]) == Field32(b, |b| - 4)
  {
    hide Unpack, Field16, Field32;
    FieldsAreBytes(b, 1);
    FieldsAreBytes(b, 2);
    FieldsAreBytes(b, 4);
    FieldsAreBytes(b, 8);
    FieldsAreBytes(b, |b| - 4);
    assert b[|b| - 4..] == b[|b| - 4..|b| - 4 + 4];
  }

  /** And nothing else is read as a frame: the digits are exactly its own. */
  lemma FinishReadsNothingElse(crc: Checksum, hex: seq<Byte>)
    requires Finish(crc, hex).Framed?
    ensures var f := Finish(crc, hex).frame; Packable(f) && hex == Hexlify(Body(crc, f))
  {
    hide Hexlify, Unhexlify, Pack, Unpack;
    var body := Unhexlify(hex).value;
    var f := Finish(crc, hex).frame;
    HexlifyUnhexlify(hex);
    Widths();
    VersionByte();
    var n := |body|;
    PackUnpack(body[1..2]);
    PackUnpack(body[2..4]);
    PackUnpack(body[4..8]);
    PackUnpack(body[8..12]);
    PackUnpack(body[n - 4..]);
    assert body == [body[0]] + body[1..2] + body[2..4] + body[4..8] + body[8..12] + body[HEADER..n - 4] + body[n - 4..];
    assert Header(f) + f.payload == body[..n - 4];
  }

  lemma {:induction false} ScanDigits(crc: Checksum, r: Fields, digits: seq<Byte>)
    requires r.state == HexRun && forall k :: 0 <= k < |digits| ==> IsHexDigit(digits[k])
    ensures Scan(crc, r, digits) == (r.(hex := r.hex + digits), [])
    decreases |digits|
  {
    if digits == [] {
      assert r.hex + [] == r.hex;
    } else {
      ScanDigits(crc, r.(hex := r.hex + [digits[0]]), digits[1..]);
      Regroup<Item>([], [], []);
      assert r.hex + digits == (r.hex + [digits[0]]) + digits[1..];
    }
  }

  /** What a frame's first byte makes the reader report of what it was in the middle of. */
  function Interrupted(r: Fields): seq<Item> {
    match r.state
    case Text => Lines(r.text)
    case HexRun => [Bad(Restarted)]
    case _ => []
  }

  lemma ScanFrame(crc: Checksum, r: Fields, f: Frame)
    requires Packable(f) && Valid(r)
    ensures Scan(crc, r, Wire(crc, f)) == (Fields(Text, [], Tail(r.text)), Interrupted(r) + [Framed(f)])
  {
    hide Hexlify, Tail, Lines, Finish, Body, Scan;
    var digits := Hexlify(Body(crc, f));
    var head, open := Fields(Type, r.hex, Tail(r.text)), Fields(HexRun, [], Tail(r.text));
    TailIsLastLine(r.text);
    FinishReadsBody(crc, f);
    ScanDigits(crc, open, digits);
    assert [] + digits == digits;
    ScanOne(crc, open.(hex := digits), NEWLINE);
    ScanSplits(crc, open, digits, [NEWLINE]);
    ScanOne(crc, head, TYPE);
    ScanSplits(crc, head, [TYPE], digits + [NEWLINE]);
    ScanOne(crc, r, START);
    ScanSplits(crc, r, [START], [TYPE] + (digits + [NEWLINE]));
    assert Wire(crc, f) == [START] + ([TYPE] + (digits + [NEWLINE]));
    Regroup([], [], [Framed(f)]);
    Regroup([Framed(f)], [], []);
  }

  lemma ScanOne(crc: Checksum, r: Fields, c: Byte)
    ensures Scan(crc, r, [c]) == Step(crc, r, c)
  {
    assert [c][1..] == [];
    Regroup(Step(crc, r, c).1, [], []);
  }

  /** What stands between a start and the next newline is never text: another kind's run is skipped in silence, a
      byte that is no digit is reported once, and a run of digits as it reads; after it the text goes on. */
  lemma RunReads(crc: Checksum, r: Fields, x: seq<Byte>)
    requires r.state == Text && x != [] && 0x1d !in x && 0x0a !in x
    ensures var digits := forall k :: 0 < k < |x| ==> IsHexDigit(x[k]);
      var (s, out) := Feed(crc, r, [0x1d] + x + [0x0a]);
      && s.state == Text && s.text == Tail(r.text)
      && out == Lines(r.text) + (
           if x[0] != 0x42 then []
           else if digits then [Finish(crc, x[1..])]
           else [Bad(NonHexByte)])
  {
    hide Lines, Tail, Finish, Scan;
    var open, rest := Fields(Type, r.hex, Tail(r.text)), x[1..];
    TailIsLastLine(r.text);
    assert [0x1d] + x + [0x0a] == [START] + (x + [NEWLINE]) && x + [NEWLINE] == [x[0]] + (rest + [NEWLINE]);
    ScanOne(crc, r, START);
    ScanSplits(crc, r, [START], x + [NEWLINE]);
    ScanOne(crc, open, x[0]);
    ScanSplits(crc, open, [x[0]], rest + [NEWLINE]);
    var inside := Fields(if x[0] == TYPE then HexRun else Skip, [], Tail(r.text));
    ScanSplits(crc, inside, rest, [NEWLINE]);
    if x[0] == TYPE {
      ScanRun(crc, inside, rest);
      assert [] + rest == rest;
    } else {
      ScanSkipped(crc, inside, rest);
    }
    var after := Scan(crc, inside, rest).0;
    ScanOne(crc, after, NEWLINE);
  }

  lemma {:induction false} ScanSkipped(crc: Checksum, r: Fields, x: seq<Byte>)
    requires r.state == Skip && START !in x && NEWLINE !in x
    ensures Scan(crc, r, x) == (r, [])
    decreases |x|
  {
    if x == [] {
    } else {
      ScanSkipped(crc, r, x[1..]);
      Regroup<Item>([], [], []);
    }
  }

  lemma {:induction false} ScanRun(crc: Checksum, r: Fields, x: seq<Byte>)
    requires r.state == HexRun && START !in x && NEWLINE !in x
    ensures var digits, after := forall k :: 0 <= k < |x| ==> IsHexDigit(x[k]), Scan(crc, r, x);
      && (digits ==> after == (r.(hex := r.hex + x), []))
      && (!digits ==> after.0.state == Skip && after.0.text == r.text && after.1 == [Bad(NonHexByte)])
    decreases |x|
  {
    if x == [] {
      assert r.hex + x == r.hex;
    } else if IsHexDigit(x[0]) {
      var next := r.(hex := r.hex + [x[0]]);
      ScanRun(crc, next, x[1..]);
      Regroup(r.hex, [x[0]], x[1..]);
      Regroup([], [], Scan(crc, next, x[1..]).1);
      assert x == [x[0]] + x[1..];
    } else {
      ScanSkipped(crc, r.(state := Skip), x[1..]);
      Regroup([Bad(NonHexByte)], [], []);
    }
  }

  /** Whatever came before, a good frame is reported once, last, and leaves the reader in the text. */
  lemma FrameAlwaysReads(crc: Checksum, r: Fields, f: Frame)
    requires Valid(r) && Encode(crc, f).Some?
    ensures Feed(crc, r, Encode(crc, f).value) == (Fields(Text, [], Tail(r.text)), Interrupted(r) + [Framed(f)])
    ensures Framed(f) !in Interrupted(r)
  {
    hide Wire;
    ScanFrame(crc, r, f);
    TailIsLastLine(r.text);
    Regroup(Interrupted(r) + [Framed(f)], [], []);
    LinesAreLogs(r.text);
  }

  lemma {:induction false} LinesAreLogs(text: seq<Byte>)
    ensures forall k :: 0 <= k < |Lines(text)| ==> Lines(text)[k].Log?
  {
    if text == [] {
    } else {
      LinesAreLogs(text[..|text| - 1]);
    }
  }

  // ------------------------------------------------------------ frames spliced into text

  datatype Piece = Plain(text: seq<Byte>) | Spliced(frame: Frame)

  function PieceBytes(crc: Checksum, p: Piece): seq<Byte> {
    match p case Plain(t) => t case Spliced(f) => Wire(crc, f)
  }

  function PieceText(p: Piece): seq<Byte> { if p.Plain? then p.text else [] }

  function PieceFrames(p: Piece): seq<Item> { if p.Spliced? then [Framed(p.frame)] else [] }

  function Stream(crc: Checksum, pieces: seq<Piece>): seq<Byte> {
    if pieces == [] then [] else PieceBytes(crc, pieces[0]) + Stream(crc, pieces[1..])
  }

  function PlainText(pieces: seq<Piece>): seq<Byte> {
    if pieces == [] then [] else PieceText(pieces[0]) + PlainText(pieces[1..])
  }

  function SplicedFrames(pieces: seq<Piece>): seq<Item> {
    if pieces == [] then [] else PieceFrames(pieces[0]) + SplicedFrames(pieces[1..])
  }

  function LogsIn(items: seq<Item>): seq<Item> {
    if items == [] then [] else (if items[0].Log? then [items[0]] else []) + LogsIn(items[1..])
  }

  function FramesIn(items: seq<Item>): seq<Item> {
    if items == [] then [] else (if items[0].Framed? then [items[0]] else []) + FramesIn(items[1..])
  }

  lemma {:induction false} FiltersSplit(a: seq<Item>, b: seq<Item>)
    ensures LogsIn(a + b) == LogsIn(a) + LogsIn(b) && FramesIn(a + b) == FramesIn(a) + FramesIn(b)
  {
    if a == [] {
      assert a + b == b;
    } else {
      assert (a + b)[1..] == a[1..] + b;
      FiltersSplit(a[1..], b);
      Regroup(if a[0].Log? then [a[0]] else [], LogsIn(a[1..]), LogsIn(b));
      Regroup(if a[0].Framed? then [a[0]] else [], FramesIn(a[1..]), FramesIn(b));
    }
  }

  lemma {:induction false} FilteredLogs(items: seq<Item>)
    requires forall k :: 0 <= k < |items| ==> items[k].Log?
    ensures LogsIn(items) == items && FramesIn(items) == []
  {
    if items == [] {
    } else {
      FilteredLogs(items[1..]);
    }
  }

  /** Log text carries no 0x1d, and every frame is one encode() accepts. */
  predicate SendablePiece(crc: Checksum, p: Piece) {
    match p case Plain(t) => START !in t case Spliced(f) => Encode(crc, f).Some?
  }

  ghost predicate Sendable(crc: Checksum, pieces: seq<Piece>) {
    forall k :: 0 <= k < |pieces| ==> SendablePiece(crc, pieces[k])
  }

  lemma {:induction false} ScanPlain(crc: Checksum, r: Fields, t: seq<Byte>)
    requires r.state == Text && START !in t
    ensures Scan(crc, r, t) == (r.(text := r.text + t), [])
    decreases |t|
  {
    if t == [] {
      assert r.text + t == r.text;
    } else {
      ScanPlain(crc, r.(text := r.text + [t[0]]), t[1..]);
      Regroup<Item>([], [], []);
      assert r.text + t == (r.text + [t[0]]) + t[1..];
    }
  }

  /** What is to be reported of the pieces after some text: each frame where it stands, after the lines that
      were complete before it. */
  function Report(text: seq<Byte>, pieces: seq<Piece>): seq<Item>
    decreases |pieces|
  {
    if pieces == [] then Lines(text)
    else
      match pieces[0]
      case Plain(t) => Report(text + t, pieces[1..])
      case Spliced(f) => Lines(text) + ([Framed(f)] + Report(Tail(text), pieces[1..]))
  }

  /** A report holds every frame, in order, exactly the text's non-empty lines, in order and put back together
      around the frames, and nothing else. */
  lemma {:induction false} ReportIsComplete(text: seq<Byte>, pieces: seq<Piece>)
    ensures FramesIn(Report(text, pieces)) == SplicedFrames(pieces)
    ensures LogsIn(Report(text, pieces)) == Lines(text + PlainText(pieces))
    ensures forall k :: 0 <= k < |Report(text, pieces)| ==> !Report(text, pieces)[k].Bad?
    decreases |pieces|
  {
    hide Lines, Tail, FramesIn, LogsIn;
    LinesAreLogs(text);
    FilteredLogs(Lines(text));
    if pieces == [] {
      assert text + [] == text;
    } else {
      var rest := pieces[1..];
      match pieces[0] {
        case Plain(t) =>
          ReportIsComplete(text + t, rest);
          Regroup(text, t, PlainText(rest));
          assert [] + SplicedFrames(rest) == SplicedFrames(rest);
        case Spliced(f) =>
          ReportIsComplete(Tail(text), rest);
          OneFrame(f);
          FiltersSplit([Framed(f)], Report(Tail(text), rest));
          FiltersSplit(Lines(text), [Framed(f)] + Report(Tail(text), rest));
          LinesSplit(text, PlainText(rest));
          assert [] + PlainText(rest) == PlainText(rest);
          Regroup([], [Framed(f)], SplicedFrames(rest));
          Regroup(Lines(text), [], LogsIn(Report(Tail(text), rest)));
          Regroup(Lines(text), [], []);
      }
    }
  }

  lemma OneFrame(f: Frame)
    ensures FramesIn([Framed(f)]) == [Framed(f)] && LogsIn([Framed(f)]) == []
  {
    assert [Framed(f)][1..] == [];
  }

  /** From inside log text a stream is reported piece by piece. */
  lemma {:induction false} StreamReads(crc: Checksum, r: Fields, pieces: seq<Piece>)
    requires r.state == Text && Sendable(crc, pieces)
    ensures var (s, out) := Feed(crc, r, Stream(crc, pieces));
      s.state == Text && s.text == Tail(r.text + PlainText(pieces)) && out == Report(r.text, pieces)
    decreases |pieces|
  {
    hide Wire, Lines, Tail;
    if pieces == [] {
      assert r.text + [] == r.text;
      Regroup([], [], Lines(r.text));
    } else {
      var p, rest := pieces[0], pieces[1..];
      assert SendablePiece(crc, p) && Sendable(crc, rest);
      ScanSplits(crc, r, PieceBytes(crc, p), Stream(crc, rest));
      match p {
        case Plain(t) =>
          ScanPlain(crc, r, t);
          StreamReads(crc, r.(text := r.text + t), rest);
          Regroup(r.text, t, PlainText(rest));
          Regroup<Item>([], [], []);
          hide Scan;
          var more := Scan(crc, r.(text := r.text + t), Stream(crc, rest)).1;
          assert [] + more == more;
        case Spliced(f) =>
          ScanFrame(crc, r, f);
          hide Scan;
          var after := Fields(Text, [], Tail(r.text));
          StreamReads(crc, after, rest);
          LinesSplit(r.text, PlainText(rest));
          assert [] + PlainText(rest) == PlainText(rest);
          var (s, more) := Scan(crc, after, Stream(crc, rest));
          Regroup(Lines(r.text) + [Framed(f)], more, Lines(s.text));
          Regroup(Lines(r.text), [Framed(f)], Report(Tail(r.text), rest));
      }
    }
  }

  const FRESH: Fields := Fields(Text, [], [])

  /** A fresh reader fed the stream in any chunks returns frames and lines in the order they were seen: every
      frame, and exactly the text's non-empty lines. */
  lemma ReaderSplitsTheStream(crc: Checksum, pieces: seq<Piece>, chunks: seq<seq<Byte>>)
    requires Sendable(crc, pieces) && chunks != [] && Join(chunks) == Stream(crc, pieces)
    ensures var (s, out) := FeedAll(crc, FRESH, chunks);
      && s.state == Text && s.text == Tail(PlainText(pieces)) && out == Report([], pieces)
      && FramesIn(out) == SplicedFrames(pieces) && LogsIn(out) == Lines(PlainText(pieces))
      && forall k :: 0 <= k < |out| ==> !out[k].Bad?
  {
    hide Feed, Tail, Lines;
    ChoppingIsInvisible(crc, FRESH, chunks);
    StreamReads(crc, FRESH, pieces);
    ReportIsComplete([], pieces);
    assert [] + PlainText(pieces) == PlainText(pieces);
  }

  /** A line is reported as it was written without its newline and the returns before it, and not at all if
      nothing is left; returns inside it stay. */
  lemma OneLineReads(crc: Checksum, l: seq<Byte>, n: nat)
    requires 0x1d !in l && 0x0a !in l && (l != [] ==> l[|l| - 1] != 0x0d)
    ensures Feed(crc, FRESH, l + seq(n, _ => 0x0d) + [0x0a]) == (FRESH, if l == [] then [] else [Log(l)])
  {
    var line := l + seq(n, _ => 0x0d);
    ScanPlain(crc, FRESH, line + [NEWLINE]);
    assert [] + (line + [NEWLINE]) == line + [NEWLINE];
    Returns(l, n);
    OneMore(line, NEWLINE);
    TailIsLastLine(line);
    Regroup(LogOf(line), [], []);
  }

  lemma {:induction false} Returns(l: seq<Byte>, n: nat)
    requires l != [] ==> l[|l| - 1] != RETURN
    ensures StripReturns(l + seq(n, _ => 0x0d)) == l
  {
    if n == 0 {
      assert l + seq(n, _ => 0x0d) == l;
    } else {
      Returns(l, n - 1);
      assert (l + seq(n, _ => 0x0d))[..|l| + n - 1] == l + seq(n - 1, _ => 0x0d);
    }
  }

  // ------------------------------------------------------------ the reader object

  class Reader {
    var state: State
    var hex: seq<Byte>
    var text: seq<Byte>
    const crc: Checksum

    ghost function View(): Fields
      reads this
    {
      Fields(state, hex, text)
    }

    constructor (crc: Checksum)
      ensures this.crc == crc && View() == FRESH && Valid(View())
    {
      this.crc := crc;
      state, hex, text := Text, [], [];
    }

    /** _flush_text(): line after line from the front. */
    method FlushText(before: seq<Item>) returns (out: seq<Item>)
      modifies `text
      ensures text == Tail(old(text)) && out == before + Lines(old(text))
    {
      hide Lines, Tail, StripReturns;
      out := before;
      Regroup(before, [], []);
      TailIsLastLine(text);
      while NEWLINE in text
        invariant Tail(text) == Tail(old(text))
        invariant out + Lines(text) == before + Lines(old(text))
        decreases |text|
      {
        var at := 0;
        while text[at] != NEWLINE
          invariant 0 <= at < |text| && NEWLINE !in text[..at] && NEWLINE in text[at..]
          decreases |text| - at
        {
          at := at + 1;
        }
        var line := text[..at];
        FirstLine(text, at);
        text := text[at + 1..];
        Regroup(out, LogOf(line), Lines(text));
        Regroup(out, [], []);
        var stripped := StripReturns(line);
        if stripped != [] { out := out + [Log(stripped)]; }
      }
      TailIsLastLine(text);
      Regroup(out, [], []);
    }

    /** feed(). */
    method FeedBytes(data: seq<Byte>) returns (out: seq<Item>)
      modifies this
      ensures (View(), out) == Feed(crc, old(View()), data)
    {
      hide Lines, Tail, Finish;
      out := [];
      Regroup(Scan(crc, View(), data).1, [], []);
      assert data[0..] == data;
      for i := 0 to |data|
        invariant var (s, more) := Scan(crc, View(), data[i..]); (s, out + more) == Scan(crc, old(View()), data)
      {
        var c := data[i];
        assert data[i..][0] == c && data[i..][1..] == data[i + 1..];
        ghost var next := Step(crc, View(), c);
        Regroup(out, next.1, Scan(crc, next.0, data[i + 1..]).1);
        Regroup(out, [], []);
        match state {
          case Text =>
            if c == START {
              out := FlushText(out);
              state := Type;
            } else {
              text := text + [c];
            }
          case Type =>
            if c != START {
              state := if c == TYPE then HexRun else Skip;
              hex := [];
            }
          case HexRun =>
            if c == NEWLINE {
              out := out + [Finish(crc, hex)];
              hex, state := [], Text;
            } else if c == START {
              out := out + [Bad(Restarted)];
              state := Type;
            } else if IsHexDigit(c) {
              hex := hex + [c];
            } else {
              out := out + [Bad(NonHexByte)];
              state := Skip;
            }
          case Skip =>
            if c == START { state := Type; } else if c == NEWLINE { state := Text; }
        }
      }
      assert data[|data|..] == [];
      Regroup(out, [], []);
      out := FlushText(out);
    }
  }

  lemma FirstLine(text: seq<Byte>, at: nat)
    requires at < |text| && text[at] == NEWLINE && NEWLINE !in text[..at]
    ensures Lines(text) == LogOf(text[..at]) + Lines(text[at + 1..]) && Tail(text) == Tail(text[at + 1..])
  {
    hide Lines, Tail, LogOf;
    var line := text[..at];
    assert text == (line + [NEWLINE]) + text[at + 1..];
    LinesSplit(line + [NEWLINE], text[at + 1..]);
    OneMore(line, NEWLINE);
    TailIsLastLine(line);
    Regroup(text[at + 1..], [], []);
    Regroup(LogOf(line), [], []);
  }
}
