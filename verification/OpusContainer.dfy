/**
 The packet container: tools/make_opus_asset.c writes it, and the firmware checks its header
 (main/pocket/opus_feed.h), seeks in it by its index and plays it slot by slot (main/pocket/pocket_av.c).
 */
module OpusContainer {
  import opened Options
  import opened Bytes
  import opened Records

  const RATE: nat := 24000
  const FRAME: nat := 480
  const INTERVAL: nat := 5
  const HEADER: nat := 36
  const MAX_PACKET: nat := 1500
  const SLOT: nat := 2048
  const MAGIC: seq<Byte> := [0x50, 0x4F, 0x4B, 0x31]

  // ------------------------------------------------------------ the packet gate

  predicate TocOk(toc: Byte) { toc / 8 >= 16 && toc / 8 % 4 == 3 && toc / 4 % 2 == 0 && toc % 4 == 0 }

  datatype Coding = Silk | Hybrid | Celt

  /** What a table-of-contents byte announces, by section 3.1 of RFC 6716; duration in tenths of a millisecond. */
  datatype Toc = Toc(coding: Coding, duration: nat, stereo: bool, oneFrame: bool)

  function ReadToc(toc: Byte): Toc {
    var config := toc / 8;
    var coding := if config < 12 then Silk else if config < 16 then Hybrid else Celt;
    var duration :=
      match coding
      case Silk => [100, 200, 400, 600][config % 4]
      case Hybrid => [100, 200][config % 2]
      case Celt => [25, 50, 100, 200][config % 4];
    Toc(coding, duration, toc / 4 % 2 == 1, toc % 4 == 0)
  }

  lemma GateReadsTheToc(toc: Byte)
    ensures TocOk(toc) <==> ReadToc(toc) == Toc(Celt, 200, false, true)
    ensures TocOk(toc) <==> toc in [0x98, 0xB8, 0xD8, 0xF8]
  {
    var config := toc / 8;
    assert toc == config * 8 + toc / 4 % 2 * 4 + toc % 4;
    assert TocOk(toc) ==> config in [19, 23, 27, 31];
  }

  // ------------------------------------------------------------ the body

  function Framed(packet: seq<Byte>): (s: seq<Byte>)
    ensures |s| == 2 + |packet|
  {
    Pack(|packet|, 2) + packet
  }

  function Body(packets: seq<seq<Byte>>): seq<Byte> {
    if packets == [] then [] else Body(packets[..|packets| - 1]) + Framed(packets[|packets| - 1])
  }

  /** Where packet p begins in the body. */
  function Offset(packets: seq<seq<Byte>>, p: nat): nat
    requires p <= |packets|
  {
    |Body(packets[..p])|
  }

  predicate Encoded(packets: seq<seq<Byte>>) { forall p :: 0 <= p < |packets| ==> 1 <= |packets[p]| <= MAX_PACKET }

  lemma BodyGrows(packets: seq<seq<Byte>>, p: nat)
    requires p < |packets|
    ensures Body(packets[..p + 1]) == Body(packets[..p]) + Framed(packets[p])
    ensures Offset(packets, p + 1) == Offset(packets, p) + 2 + |packets[p]|
  {
    assert packets[..p + 1][..p] == packets[..p];
  }

  lemma {:induction false} BodyBegins(packets: seq<seq<Byte>>, p: nat, q: nat)
    requires p <= q <= |packets|
    ensures Offset(packets, p) <= Offset(packets, q)
    ensures Body(packets[..q])[..Offset(packets, p)] == Body(packets[..p])
    decreases q
  {
    if p < q {
      BodyBegins(packets, p, q - 1);
      BodyGrows(packets, q - 1);
    }
  }

  lemma WholeBody(packets: seq<seq<Byte>>)
    ensures Offset(packets, |packets|) == |Body(packets)|
  {
    assert packets[..|packets|] == packets;
  }

  /** Packet p stands whole, behind its length, at its offset. */
  lemma PacketStands(packets: seq<seq<Byte>>, p: nat)
    requires p < |packets|
    ensures Offset(packets, p + 1) == Offset(packets, p) + 2 + |packets[p]| <= |Body(packets)|
    ensures Body(packets)[Offset(packets, p)..Offset(packets, p + 1)] == Framed(packets[p])
  {
    hide Body, Framed;
    BodyGrows(packets, p);
    BodyBegins(packets, p + 1, |packets|);
    assert packets[..|packets|] == packets;
    var head, end := Body(packets[..p]), Offset(packets, p + 1);
    assert Body(packets)[|head|..end] == Body(packets)[..end][|head|..];
    assert (head + Framed(packets[p]))[|head|..] == Framed(packets[p]);
  }

  /** The body stands in the file from base on. */
  predicate Holds(file: seq<Byte>, base: nat, packets: seq<seq<Byte>>) {
    base <= |file| && file[base..] == Body(packets)
  }

  // ------------------------------------------------------------ walking length prefixes

  function LengthAt(s: seq<Byte>, at: nat): nat
    requires at + 2 <= |s|
  {
    s[at] as nat + 256 * s[at + 1] as nat
  }

  /** k packets on from at, or nothing past the end. */
  function Walk(s: seq<Byte>, at: nat, k: nat): Option<nat>
    decreases k
  {
    if k == 0 then Some(at) else if at + 2 > |s| then None else Walk(s, at + 2 + LengthAt(s, at), k - 1)
  }

  lemma LengthOfFramed(packet: seq<Byte>)
    requires |packet| < 0x1_0000
    ensures LengthAt(Framed(packet), 0) == |packet| && Framed(packet)[2..] == packet
  {
    var n := |packet|;
    assert Pack(n, 2) == [n % 256, n / 256 % 256];
  }

  /** What a reader meets at packet p. */
  lemma MeetsPacket(file: seq<Byte>, base: nat, packets: seq<seq<Byte>>, p: nat)
    requires Holds(file, base, packets) && Encoded(packets) && p < |packets|
    ensures var at, n := base + Offset(packets, p), |packets[p]|;
      at + 2 + n == base + Offset(packets, p + 1) <= |file| && LengthAt(file, at) == n &&
        file[at + 2..at + 2 + n] == packets[p]
  {
    hide Body, Framed;
    PacketStands(packets, p);
    LengthOfFramed(packets[p]);
    var at, framed := base + Offset(packets, p), Framed(packets[p]);
    hide Offset;
    SubSlice(file, base, file[base..], Offset(packets, p), |framed|);
    assert file[at] == framed[0] && file[at + 1] == framed[1] by { assert file[at..at + |framed|] == framed; }
    SubSlice(file, at, framed, 2, |packets[p]|);
  }

  lemma {:induction false} WalkFollows(file: seq<Byte>, base: nat, packets: seq<seq<Byte>>, p: nat, k: nat)
    requires Holds(file, base, packets) && Encoded(packets) && p + k <= |packets|
    ensures Walk(file, base + Offset(packets, p), k) == Some(base + Offset(packets, p + k))
    decreases k
  {
    if k == 0 {
    } else {
      MeetsPacket(file, base, packets, p);
      WalkFollows(file, base, packets, p + 1, k - 1);
    }
  }

  // ------------------------------------------------------------ the file

  function Packets(total: nat): nat { (total + 479) / 480 }

  /** The group of five packets that one index entry stands for, and its first packet. */
  function GroupOf(p: nat): nat { p / 5 }

  function First(group: nat): nat { 5 * group }

  function Entries(packets: nat): nat { (packets + 4) / 5 }

  function DataOffset(packets: nat): nat { HEADER + Entries(packets) * 4 }

  /** One entry for every fifth packet: where it begins in the file. */
  function Index(packets: seq<seq<Byte>>): (index: seq<nat>)
    ensures |index| == Entries(|packets|)
  {
    seq(Entries(|packets|), i requires 0 <= i < Entries(|packets|) => DataOffset(|packets|) + Offset(packets, First(i)))
  }

  function MaxLength(packets: seq<seq<Byte>>): nat {
    if packets == [] then 0
    else
      var before, last := MaxLength(packets[..|packets| - 1]), |packets[|packets| - 1]|;
      if last > before then last else before
  }

  lemma {:induction false} MaxLengthFits(packets: seq<seq<Byte>>)
    requires Encoded(packets)
    ensures MaxLength(packets) <= MAX_PACKET && (packets != [] ==> MaxLength(packets) >= 1)
    ensures forall p :: 0 <= p < |packets| ==> |packets[p]| <= MaxLength(packets)
  {
    if packets == [] {
    } else {
      MaxLengthFits(packets[..|packets| - 1]);
    }
  }

  function HeaderBytes(maxPacket: nat, packets: nat, samples: nat, lookahead: nat): (s: seq<Byte>)
    ensures |s| == HEADER
  {
    MAGIC + Pack(1, 2) + Pack(1, 2) + Pack(RATE, 4) + Pack(FRAME, 2) + Pack(maxPacket, 2) + Pack(packets, 4) +
      Pack(samples, 4)
    + Pack(lookahead, 2) + Pack(INTERVAL, 2) + Pack(Entries(packets), 4) + Pack(DataOffset(packets), 4)
  }

  function IndexBytes(index: seq<nat>): seq<Byte> {
    Concat(seq(|index|, i requires 0 <= i < |index| => Pack(index[i], 4)))
  }

  function File(samples: nat, lookahead: nat, packets: seq<seq<Byte>>): (file: seq<Byte>)
    ensures |file| == DataOffset(|packets|) + |Body(packets)|
  {
    IndexSize(Index(packets));
    HeaderBytes(MaxLength(packets), |packets|, samples, lookahead) + IndexBytes(Index(packets)) + Body(packets)
  }

  lemma IndexSize(index: seq<nat>)
    ensures |IndexBytes(index)| == 4 * |index|
  {
    TimesIsProduct(|index|, 4);
    RecordAt(seq(|index|, i requires 0 <= i < |index| => Pack(index[i], 4)), 4, |index|);
  }

  lemma IndexGrows(index: seq<nat>, v: nat)
    ensures IndexBytes(index + [v]) == IndexBytes(index) + Pack(v, 4)
  {
    hide Pack;
    var parts := seq(|index| + 1, i requires 0 <= i < |index| + 1 => Pack((index + [v])[i], 4));
    assert parts[..|index|] == seq(|index|, i requires 0 <= i < |index| => Pack(index[i], 4));
  }

  datatype Error = EncodeFailed(packet: nat) | NotCelt(packet: nat)

  predicate Good(output: seq<Byte>) { output != [] && TocOk(output[0]) }

  datatype Stream = Stream(body: seq<Byte>, index: seq<nat>, maxPacket: nat)

  predicate FirstBad(outputs: seq<seq<Byte>>, error: Error) {
    var p := error.packet;
    && p < |outputs| && (forall q :: 0 <= q < p ==> Good(outputs[q])) && !Good(outputs[p])
    && (error.EncodeFailed? <==> outputs[p] == [])
  }

  /** The packet loop of main(), over the encoder's outputs; an empty output is a failed call. */
  method WritePackets(outputs: seq<seq<Byte>>) returns (r: Result<Stream, Error>)
    ensures r.Success? <==> forall p :: 0 <= p < |outputs| ==> Good(outputs[p])
    ensures r.Success? ==> r.value == Stream(Body(outputs), Index(outputs), MaxLength(outputs))
    ensures r.Failure? ==> FirstBad(outputs, r.error)
  {
    hide TocOk, StreamTo, Body, Index, MaxLength;
    var dataOffset := HEADER + Entries(|outputs|) * 4;
    var body: seq<Byte>, index: seq<nat>, maxPacket: nat := [], [], 0;
    StreamStarts(outputs);
    for p := 0 to |outputs|
      invariant forall q :: 0 <= q < p ==> Good(outputs[q])
      invariant Stream(body, index, maxPacket) == StreamTo(outputs, p)
    {
      var packet := outputs[p];
      if packet == [] { return Failure(EncodeFailed(p)); }
      if !TocOk(packet[0]) { return Failure(NotCelt(p)); }
      StreamGrows(outputs, p);
      if |packet| > maxPacket { maxPacket := |packet|; }
      if p % 5 == 0 { index := index + [dataOffset + |body|]; }
      body := body + (Pack(|packet|, 2) + packet);
    }
    StreamEnds(outputs);
    r := Success(Stream(body, index, maxPacket));
  }

  /** What the packet loop holds before packet p. */
  function StreamTo(packets: seq<seq<Byte>>, p: nat): Stream
    requires p <= |packets|
  {
    Stream(Body(packets[..p]), IndexTo(packets, p), MaxLength(packets[..p]))
  }

  lemma StreamStarts(packets: seq<seq<Byte>>)
    ensures StreamTo(packets, 0) == Stream([], [], 0)
  {
  }

  lemma StreamEnds(packets: seq<seq<Byte>>)
    ensures StreamTo(packets, |packets|) == Stream(Body(packets), Index(packets), MaxLength(packets))
  {
    hide Offset, Body, MaxLength;
    assert packets[..|packets|] == packets;
  }

  lemma StreamGrows(packets: seq<seq<Byte>>, p: nat)
    requires p < |packets|
    ensures var now, packet := StreamTo(packets, p), packets[p];
      StreamTo(packets, p + 1) ==
      Stream(now.body + (Pack(|packet|, 2) + packet),
             now.index + if p % 5 == 0 then [HEADER + Entries(|packets|) * 4 + |now.body|] else [],
             if |packet| > now.maxPacket then |packet| else now.maxPacket)
  {
    MaxLengthGrows(packets, p);
    BodyGrows(packets, p);
    IndexGrowsTo(packets, p);
    hide Body, MaxLength, Pack, IndexTo;
  }

  /** The entries noted before packet p. */
  function IndexTo(packets: seq<seq<Byte>>, p: nat): seq<nat>
    requires p <= |packets|
  {
    seq(Entries(p), i requires 0 <= i < Entries(p) => DataOffset(|packets|) + Offset(packets, First(i)))
  }

  lemma IndexGrowsTo(packets: seq<seq<Byte>>, p: nat)
    requires p < |packets|
    ensures IndexTo(packets, p + 1) == IndexTo(packets, p) + if p % 5 == 0 then
      [DataOffset(|packets|) + Offset(packets, p)] else []
  {
    hide Offset;
  }

  /** main(): the whole file, exactly when the encoder never failed and the gate passed every packet. Neither
      the slot check nor the header length check can fire. */
  method MakeAsset(samples: nat, lookahead: nat, outputs: seq<seq<Byte>>) returns (r: Result<seq<Byte>, Error>)
    requires |outputs| == Packets(samples + lookahead) && forall p :: 0 <= p < |outputs| ==> |outputs[p]| <= MAX_PACKET
    ensures r.Success? <==> forall p :: 0 <= p < |outputs| ==> Good(outputs[p])
    ensures r.Success? ==> r.value == File(samples, lookahead, outputs)
    ensures r.Failure? ==> FirstBad(outputs, r.error)
  {
    hide TocOk, Body, MaxLength, HeaderBytes, IndexBytes;
    var packets := Packets(samples + lookahead);
    var w := WritePackets(outputs);
    if w.Failure? { return Failure(w.error); }
    MaxLengthFits(outputs);
    if w.value.maxPacket > SLOT - 2 { assert false; }
    var table := PutIndex(w.value.index);
    IndexSize(w.value.index);
    var out := HeaderBytes(w.value.maxPacket, packets, samples, lookahead) + table;
    if |out| != HEADER + Entries(packets) * 4 { assert false; }
    r := Success(out + w.value.body);
  }

  lemma MaxLengthGrows(packets: seq<seq<Byte>>, p: nat)
    requires p < |packets|
    ensures var m, n := MaxLength(packets[..p]), |packets[p]|;
      MaxLength(packets[..p + 1]) == if n > m then n else m
  {
    assert packets[..p + 1][..p] == packets[..p];
  }

  method PutIndex(index: seq<nat>) returns (out: seq<Byte>)
    ensures out == IndexBytes(index)
  {
    hide IndexBytes, Pack;
    out := [];
    assert out == IndexBytes([]) by { IndexSize([]); }
    for i := 0 to |index|
      invariant out == IndexBytes(index[..i])
    {
      IndexGrows(index[..i], index[i]);
      assert index[..i + 1] == index[..i] + [index[i]];
      out := out + Pack(index[i], 4);
    }
    assert index[..|index|] == index;
  }

  // ------------------------------------------------------------ the firmware's header walk

  datatype Pak = Pak(maxPacket: nat, packetCount: nat, totalFrames: nat, preSkip: nat, indexInterval: nat,
                     indexCount: nat, dataOffset: nat, fileBytes: nat)

  datatype Refusal =
    | NotAPacketFile | LaterVersion | NotOneChannel | NotOurRate | NotTwentyMilliseconds | PacketPastSlot
    | NoAudio | ClaimsTooMuch | NoIndex | IndexTooLong | IndexPastEnd | PacketsElsewhere | EntryOutside

  function Field(s: seq<Byte>, at: nat, size: nat): nat
    requires at + size <= |s|
  {
    Unpack(s[at..at + size])
  }

  /** opus_pak_parse() on the first bytes of a file of the given size, in 32-bit arithmetic. */
  function Parse(h: seq<Byte>, size: Word): Result<Pak, Refusal>
    requires size >= HEADER ==> |h| >= HEADER
  {
    if size < HEADER then Failure(NotAPacketFile)
    else if h[0..4] != MAGIC then Failure(NotAPacketFile)
    else
      var frame, interval := Field(h, 12, 2), Field(h, 26, 2);
      var k := Pak(Field(h, 14, 2), Field(h, 16, 4), Field(h, 20, 4), Field(h, 24, 2),
                   interval, Field(h, 28, 4), Field(h, 32, 4), size);
      if Field(h, 4, 2) != 1 then Failure(LaterVersion)
      else if Field(h, 6, 2) != 1 then Failure(NotOneChannel)
      else if Field(h, 8, 4) != RATE then Failure(NotOurRate)
      else if frame != FRAME then Failure(NotTwentyMilliseconds)
      else Check(k)
  }

  /** The part of opus_pak_parse() that compares the fields with each other and with the size. */
  function Check(k: Pak): Result<Pak, Refusal>
    requires k.fileBytes >= HEADER
  {
    if k.maxPacket < 1 || k.maxPacket > SLOT - 2 then Failure(PacketPastSlot)
    else if k.packetCount == 0 || k.totalFrames == 0 then Failure(NoAudio)
    else if k.packetCount > k.fileBytes || k.totalFrames > k.packetCount * 480 % WORD then Failure(ClaimsTooMuch)
    else if k.indexCount == 0 || k.indexInterval == 0 then Failure(NoIndex)
    else if k.indexCount > (k.packetCount + k.indexInterval - 1) % WORD / k.indexInterval then Failure(IndexTooLong)
    else if k.indexCount > (k.fileBytes - HEADER) / 4 then Failure(IndexPastEnd)
    else if k.dataOffset != (HEADER + k.indexCount * 4) % WORD || k.dataOffset >= k.fileBytes then
      Failure(PacketsElsewhere)
    else Success(k)
  }

  /** Which headers are accepted, byte by byte, and what is read from them: one 24 kHz channel in frames of 480
      samples, packets that fit a slot, something to play and no more of it than the packets hold, and an index with
      at most an entry for every interval begun, that stands whole between the header and the packets. */
  lemma ParseAcceptsExactly(h: seq<Byte>, size: Word)
    requires |h| >= 36
    ensures var packets, samples, interval, entries := Field32(h, 16), Field32(h, 20), Field16(h, 26), Field32(h, 28);
      Parse(h, size).Success? <==>
        && size >= 36 && h[0] == 0x50 && h[1] == 0x4F && h[2] == 0x4B && h[3] == 0x31
        && Field16(h, 4) == 1 && Field16(h, 6) == 1 && Field32(h, 8) == 24000 && Field16(h, 12) == 480
        && 1 <= Field16(h, 14) <= 2046
        && 1 <= packets <= size && 1 <= samples <= packets * 480 % 0x1_0000_0000
        && interval > 0 && 1 <= entries <= (packets + interval - 1) % 0x1_0000_0000 / interval
        && 36 + 4 * entries == Field32(h, 32) < size
    ensures var k := Pak(Field16(h, 14), Field32(h, 16), Field32(h, 20), Field16(h, 24), Field16(h, 26),
                         Field32(h, 28), Field32(h, 32), size);
      Parse(h, size).Success? ==> Parse(h, size).value == k
  {
    HeaderFields(h);
    assert h[0..4] == MAGIC <==> h[0] == 0x50 && h[1] == 0x4F && h[2] == 0x4B && h[3] == 0x31;
    var k := Pak(Field16(h, 14), Field32(h, 16), Field32(h, 20), Field16(h, 24), Field16(h, 26), Field32(h, 28),
                 Field32(h, 32), size);
    hide Field, Field16, Field32, Check;
    if size >= HEADER { CheckAccepts(k); }
  }

  lemma CheckAccepts(k: Pak)
    requires HEADER <= k.fileBytes < WORD && k.dataOffset < WORD && k.indexCount < WORD
    ensures Check(k).Success? <==>
      && 1 <= k.maxPacket <= 2046 && 1 <= k.packetCount <= k.fileBytes
      && 1 <= k.totalFrames <= k.packetCount * 480 % 0x1_0000_0000
      && k.indexInterval > 0
      && 1 <= k.indexCount <= (k.packetCount + k.indexInterval - 1) % 0x1_0000_0000 / k.indexInterval
      && 36 + 4 * k.indexCount == k.dataOffset < k.fileBytes
    ensures Check(k).Success? ==> Check(k).value == k
  {
  }

  lemma HeaderFields(h: seq<Byte>)
    requires |h| >= HEADER
    ensures Field(h, 4, 2) == Field16(h, 4) && Field(h, 6, 2) == Field16(h, 6) && Field(h, 8, 4) == Field32(h, 8)
    ensures Field(h, 12, 2) == Field16(h, 12) && Field(h, 14, 2) == Field16(h, 14)
    ensures Field(h, 16, 4) == Field32(h, 16) && Field(h, 20, 4) == Field32(h, 20)
    ensures Field(h, 24, 2) == Field16(h, 24) && Field(h, 26, 2) == Field16(h, 26)
    ensures Field(h, 28, 4) == Field32(h, 28) && Field(h, 32, 4) == Field32(h, 32)
  {
    hide Field16, Field32, Unpack;
    FieldsAreBytes(h, 4);
    FieldsAreBytes(h, 6);
    FieldsAreBytes(h, 8);
    FieldsAreBytes(h, 12);
    FieldsAreBytes(h, 14);
    FieldsAreBytes(h, 16);
    FieldsAreBytes(h, 20);
    FieldsAreBytes(h, 24);
    FieldsAreBytes(h, 26);
    FieldsAreBytes(h, 28);
    FieldsAreBytes(h, 32);
  }

  /** What MakeAsset writes for a WAV of fewer than 2^31 samples, as long as sizes and offsets fit 32 bits. */
  predicate Written(samples: nat, lookahead: nat, packets: seq<seq<Byte>>) {
    && samples < 0x8000_0000 && lookahead < 0x1_0000 && |packets| == Packets(samples + lookahead) && Encoded(packets)
    && DataOffset(|packets|) + |Body(packets)| < WORD
  }

  function PakOf(samples: nat, lookahead: nat, packets: seq<seq<Byte>>): Pak {
    Pak(MaxLength(packets), |packets|, samples, lookahead,
        INTERVAL, Entries(|packets|), DataOffset(|packets|), |File(samples, lookahead, packets)|)
  }

  lemma {:induction false} BodyIsLong(packets: seq<seq<Byte>>)
    requires Encoded(packets)
    ensures |Body(packets)| >= 3 * |packets|
  {
    if packets == [] {
    } else {
      BodyIsLong(packets[..|packets| - 1]);
    }
  }

  lemma FileLayout(samples: nat, lookahead: nat, packets: seq<seq<Byte>>)
    ensures var file, index, at := File(samples, lookahead, packets), Index(packets), DataOffset(|packets|);
      && |file| == at + |Body(packets)| && Holds(file, at, packets)
      && file[..HEADER] == HeaderBytes(MaxLength(packets), |packets|, samples, lookahead)
      && file[HEADER..at] == IndexBytes(index)
  {
    IndexSize(Index(packets));
    hide HeaderBytes, IndexBytes, Index, Body, MaxLength;
    var header := HeaderBytes(MaxLength(packets), |packets|, samples, lookahead);
    ThreeParts(header, IndexBytes(Index(packets)), Body(packets));
  }

  lemma ThreeParts(a: seq<Byte>, b: seq<Byte>, c: seq<Byte>)
    ensures var s := a + b + c;
      s[..|a|] == a && s[|a|..|a| + |b|] == b && s[|a| + |b|..] == c
  {
  }

  lemma HeaderReadsBack(rest: seq<Byte>, maxPacket: nat, packets: nat, samples: nat, lookahead: nat)
    requires maxPacket < 0x1_0000 && packets < WORD && samples < WORD && lookahead < 0x1_0000 &&
      DataOffset(packets) < WORD
    ensures var h := HeaderBytes(maxPacket, packets, samples, lookahead) + rest;
      && h[0..4] == MAGIC && Field(h, 4, 2) == 1 && Field(h, 6, 2) == 1 && Field(h, 8, 4) == RATE &&
        Field(h, 12, 2) == FRAME
      && Field(h, 14, 2) == maxPacket && Field(h, 16, 4) == packets && Field(h, 20, 4) == samples
      && Field(h, 24, 2) == lookahead && Field(h, 26, 2) == INTERVAL
      && Field(h, 28, 4) == Entries(packets) && Field(h, 32, 4) == DataOffset(packets)
  {
    Widths();
    hide Pack, Unpack, Entries, DataOffset;
    var entries, dataOffset := Entries(packets), DataOffset(packets);
    var b := HeaderBytes(maxPacket, packets, samples, lookahead);
    var h := b + rest;
    assert b[0..4] == MAGIC && b[4..6] == Pack(1, 2) && b[6..8] == Pack(1, 2) && b[8..12] == Pack(RATE, 4);
    assert b[12..14] == Pack(FRAME, 2) && b[14..16] == Pack(maxPacket, 2) && b[16..20] == Pack(packets, 4);
    assert b[20..24] == Pack(samples, 4) && b[24..26] == Pack(lookahead, 2) && b[26..28] == Pack(INTERVAL, 2);
    assert b[28..32] == Pack(entries, 4) && b[32..36] == Pack(dataOffset, 4);
    assert h[..|b|] == b;
    HeaderSlice(h, b);
    UnpackPack(1, 2);
    UnpackPack(RATE, 4);
    UnpackPack(FRAME, 2);
    UnpackPack(maxPacket, 2);
    UnpackPack(packets, 4);
    UnpackPack(samples, 4);
    UnpackPack(lookahead, 2);
    UnpackPack(INTERVAL, 2);
    UnpackPack(entries, 4) by { assert entries < WORD by { SmallerEntries(packets); } }
    UnpackPack(dataOffset, 4);
  }

  lemma SmallerEntries(packets: nat)
    ensures Entries(packets) <= DataOffset(packets)
  {
  }

  lemma HeaderSlice(h: seq<Byte>, b: seq<Byte>)
    requires |h| >= |b| && h[..|b|] == b
    ensures forall i, j :: 0 <= i <= j <= |b| ==> h[i..j] == b[i..j]
  {
    forall i, j | 0 <= i <= j <= |b| ensures h[i..j] == b[i..j] { SubSlice(h, 0, b, i, j - i); }
  }

  lemma FieldsAgree(k: Pak, lookahead: nat)
    requires k.totalFrames < 0x8000_0000 && lookahead < 0x1_0000 && k.packetCount == Packets(k.totalFrames + lookahead)
    requires k.packetCount > 0 ==> 1 <= k.maxPacket <= MAX_PACKET
    requires k.indexInterval == INTERVAL && k.indexCount == Entries(k.packetCount) &&
      k.dataOffset == DataOffset(k.packetCount)
    requires k.dataOffset + 3 * k.packetCount <= k.fileBytes < WORD
    ensures Check(k) == Success(k) <==> k.totalFrames > 0
    ensures Check(k).Success? ==> Check(k) == Success(k)
  {
    if k.packetCount > 0 {
      assert k.packetCount * 480 < WORD && k.totalFrames <= k.packetCount * 480;
      assert k.indexCount == (k.packetCount + 4) / 5;
    }
  }

  /** The whole header check on a written file. */
  function ParseFile(samples: nat, lookahead: nat, packets: seq<seq<Byte>>): Result<Pak, Refusal>
    requires Written(samples, lookahead, packets)
  {
    var file := File(samples, lookahead, packets);
    Parse(file, |file|)
  }

  /** The firmware accepts what the tool writes exactly when there is a sample to play, and reads the fields
      that went in. */
  lemma WrittenIsAccepted(samples: nat, lookahead: nat, packets: seq<seq<Byte>>)
    requires Written(samples, lookahead, packets)
    ensures ParseFile(samples, lookahead, packets).Success? <==> samples > 0
    ensures samples > 0 ==> ParseFile(samples, lookahead, packets) == Success(PakOf(samples, lookahead, packets))
  {
    var file := File(samples, lookahead, packets);
    FileLayout(samples, lookahead, packets);
    BodyIsLong(packets);
    MaxLengthFits(packets);
    HeaderReadsBack(file[HEADER..], MaxLength(packets), |packets|, samples, lookahead);
    assert file == HeaderBytes(MaxLength(packets), |packets|, samples, lookahead) + file[HEADER..]
      by { assert file == file[..HEADER] + file[HEADER..]; }
    FieldsAgree(PakOf(samples, lookahead, packets), lookahead);
    hide File, Body, MaxLength, HeaderBytes, IndexBytes, Field, Holds, Index, Check, Entries, DataOffset, Packets;
  }

  // ------------------------------------------------------------ the seek index

  lemma IndexReadsBack(samples: nat, lookahead: nat, packets: seq<seq<Byte>>, i: nat)
    requires Written(samples, lookahead, packets) && i < Entries(|packets|)
    ensures var file, at := File(samples, lookahead, packets), DataOffset(|packets|);
      && First(i) < |packets| && HEADER + i * 4 + 4 <= |file|
      && Field(file, HEADER + i * 4, 4) == at + Offset(packets, First(i)) < |file|
  {
    var file, index := File(samples, lookahead, packets), Index(packets);
    FileLayout(samples, lookahead, packets);
    IndexSize(index);
    IndexRecord(index, i);
    PacketStands(packets, First(i));
    Widths();
    UnpackPack(index[i], 4);
    hide File, Body, Offset, IndexBytes, Pack, Unpack;
    SubSlice(file, HEADER, IndexBytes(index), i * 4, 4);
  }

  lemma IndexRecord(index: seq<nat>, i: nat)
    requires i < |index|
    ensures |IndexBytes(index)| == 4 * |index| && IndexBytes(index)[i * 4..i * 4 + 4] == Pack(index[i], 4)
  {
    hide Pack;
    TimesIsProduct(i, 4);
    TimesIsProduct(|index|, 4);
    RecordAt(seq(|index|, j requires 0 <= j < |index| => Pack(index[j], 4)), 4, i);
  }

  /** A written file, byte by byte: the header... */
  lemma WrittenHeader(samples: nat, lookahead: nat, packets: seq<seq<Byte>>, f: seq<Byte>)
    requires Written(samples, lookahead, packets) && packets != [] && f == File(samples, lookahead, packets)
    ensures |f| >= 36 && f[0] == 0x50 && f[1] == 0x4F && f[2] == 0x4B && f[3] == 0x31
    ensures Field16(f, 4) == 1 && Field16(f, 6) == 1 && Field32(f, 8) == 24000 && Field16(f, 12) == 480
    ensures forall p :: 0 <= p < |packets| ==> |packets[p]| <= Field16(f, 14)
    ensures exists p :: 0 <= p < |packets| && |packets[p]| == Field16(f, 14)
    ensures 480 * (|packets| - 1) < samples + lookahead <= 480 * |packets|
    ensures Field32(f, 16) == |packets| && Field32(f, 20) == samples && Field16(f, 24) == lookahead
    ensures Field16(f, 26) == 5 && Field32(f, 28) == (|packets| + 4) / 5 && Field32(f, 32) == 36 + 4 * Field32(f, 28)
  {
    var m := MaxLength(packets);
    MaxLengthFits(packets);
    LongestStands(packets);
    FileLayout(samples, lookahead, packets);
    hide File, Body, MaxLength, HeaderBytes, IndexBytes, Index, Field, Field16, Field32, Holds;
    HeaderReadsBack(f[HEADER..], m, |packets|, samples, lookahead);
    assert f == f[..HEADER] + f[HEADER..];
    HeaderFields(f);
    assert f[0..4] == MAGIC;
    assert f[0] == f[0..4][0] && f[1] == f[0..4][1] && f[2] == f[0..4][2] && f[3] == f[0..4][3];
  }

  /** ... then an entry for every fifth packet that says where the packet begins, then the packets. */
  lemma WrittenIndex(samples: nat, lookahead: nat, packets: seq<seq<Byte>>, i: nat, f: seq<Byte>)
    requires Written(samples, lookahead, packets) && f == File(samples, lookahead, packets)
    ensures var data := 36 + (|packets| + 4) / 5 * 4;
      && |f| == data + |Body(packets)| && f[data..] == Body(packets)
      && (i < (|packets| + 4) / 5 ==> Field32(f, 36 + 4 * i) == data + |Body(packets[..5 * i])|)
  {
    FileLayout(samples, lookahead, packets);
    hide File, Body, HeaderBytes, IndexBytes, Index, Field, Field32, MaxLength;
    if i < Entries(|packets|) {
      IndexReadsBack(samples, lookahead, packets, i);
      FieldIs32(f, HEADER + i * 4);
    }
  }

  lemma FieldIs32(f: seq<Byte>, at: nat)
    requires at + 4 <= |f|
    ensures Field(f, at, 4) == Field32(f, at)
  {
    hide Field32, Unpack;
    FieldsAreBytes(f, at);
  }

  /** The body as its packets: each behind its length, the low byte first. */
  lemma BodyOfOneMore(packets: seq<seq<Byte>>, packet: seq<Byte>)
    ensures Body([]) == []
    ensures |packet| < 0x1_0000 ==>
      Body(packets + [packet]) == Body(packets) + ([|packet| % 256, |packet| / 256] + packet)
  {
    assert (packets + [packet])[..|packets|] == packets;
    if |packet| < 0x1_0000 { assert Pack(|packet|, 2) == [|packet| % 256, |packet| / 256]; }
  }

  lemma {:induction false} LongestStands(packets: seq<seq<Byte>>)
    requires packets != []
    ensures exists p :: 0 <= p < |packets| && |packets[p]| == MaxLength(packets)
  {
    var n := |packets| - 1;
    if |packets[n]| > MaxLength(packets[..n]) || n == 0 {
      assert |packets[n]| == MaxLength(packets);
    } else {
      LongestStands(packets[..n]);
      var p :| 0 <= p < n && |packets[..n][p]| == MaxLength(packets[..n]);
      assert |packets[p]| == MaxLength(packets);
    }
  }

  /** Entry i of the index, as the file holds it. */
  function Entry(file: seq<Byte>, i: nat): nat
    requires HEADER + i * 4 + 4 <= |file|
  {
    Field(file, HEADER + i * 4, 4)
  }

  /** Packet p, behind its length, at the given place. */
  predicate PacketAt(file: seq<Byte>, at: nat, packet: seq<Byte>) {
    at + 2 + |packet| <= |file| && LengthAt(file, at) == |packet| && file[at + 2..at + 2 + |packet|] == packet
  }

  /** The index and the scan lead to the same place, and the packet is there. */
  predicate Reaches(file: seq<Byte>, base: nat, p: nat, packet: seq<Byte>) {
    && HEADER + GroupOf(p) * 4 + 4 <= |file|
    && var at := Walk(file, Entry(file, GroupOf(p)), p % 5);
    at.Some? && at == Walk(file, base, p) && PacketAt(file, at.value, packet)
  }

  /** For every packet p: p % 5 packets on from the index entry p / 5 is where p packets from the data offset
      lead, and packet p is there. */
  lemma IndexMeetsScan(samples: nat, lookahead: nat, packets: seq<seq<Byte>>, p: nat)
    requires Written(samples, lookahead, packets) && p < |packets|
    ensures Reaches(File(samples, lookahead, packets), DataOffset(|packets|), p, packets[p])
  {
    hide File, Body, Holds, Entry, Reaches, Index;
    WrittenHolds(samples, lookahead, packets);
    EntryIsGroup(samples, lookahead, packets, GroupOf(p));
    Reach(File(samples, lookahead, packets), DataOffset(|packets|), packets, p);
  }

  lemma Reach(file: seq<Byte>, base: nat, packets: seq<seq<Byte>>, p: nat)
    requires Holds(file, base, packets) && Encoded(packets) && p < |packets| && First(GroupOf(p)) < |packets|
    requires HEADER + GroupOf(p) * 4 + 4 <= |file| &&
      Entry(file, GroupOf(p)) == base + Offset(packets, First(GroupOf(p)))
    ensures Reaches(file, base, p, packets[p])
  {
    hide Holds, Encoded, Offset, Entry, Walk, PacketAt;
    WalkFollows(file, base, packets, First(GroupOf(p)), p % 5);
    OffsetOfNone(packets);
    WalkFollows(file, base, packets, 0, p);
    MeetsAt(file, base, packets, p);
  }

  lemma WrittenHolds(samples: nat, lookahead: nat, packets: seq<seq<Byte>>)
    requires Written(samples, lookahead, packets)
    ensures var file, at := File(samples, lookahead, packets), DataOffset(|packets|);
      Holds(file, at, packets) && at == HEADER + Entries(|packets|) * 4 <= |file| && Encoded(packets)
  {
    hide File, Body;
    FileLayout(samples, lookahead, packets);
  }

  lemma EntryIsGroup(samples: nat, lookahead: nat, packets: seq<seq<Byte>>, i: nat)
    requires Written(samples, lookahead, packets) && i < Entries(|packets|)
    ensures var file := File(samples, lookahead, packets);
      && First(i) < |packets| && HEADER + i * 4 + 4 <= |file|
      && Entry(file, i) == DataOffset(|packets|) + Offset(packets, First(i)) < |file|
  {
    hide File, Offset, Field, Body, Index;
    IndexReadsBack(samples, lookahead, packets, i);
  }

  lemma MeetsAt(file: seq<Byte>, base: nat, packets: seq<seq<Byte>>, p: nat)
    requires Holds(file, base, packets) && Encoded(packets) && p < |packets|
    ensures PacketAt(file, base + Offset(packets, p), packets[p])
  {
    MeetsPacket(file, base, packets, p);
  }

  lemma OffsetOfNone(packets: seq<seq<Byte>>)
    ensures Offset(packets, 0) == 0
  {
  }

  datatype Place = Place(start: int, byte: nat, skip: nat)

  function PlaceOf(k: Pak, entry: nat): Place {
    var first := entry * k.indexInterval * 480 % WORD;
    if entry > 0 then Place((first - k.preSkip) % WORD, 0, 0) else Place(0, 0, k.preSkip)
  }

  /** player_locate_opus(): where to read from for a seek, the position it moves back to and the samples to
      drop, in 32-bit arithmetic. */
  function Locate(file: seq<Byte>, k: Pak, start: Word): Result<Place, Refusal>
    requires 0 < k.indexCount && k.indexInterval > 0 && HEADER + k.indexCount * 4 <= |file|
  {
    var packet := (start + k.preSkip) % WORD / 480;
    var entry := if packet / k.indexInterval >= k.indexCount then k.indexCount - 1 else packet / k.indexInterval;
    var offset := Entry(file, entry);
    if offset < k.dataOffset || offset >= k.fileBytes then Failure(EntryOutside)
    else Success(PlaceOf(k, entry).(byte := offset))
  }

  /** In any file with an accepted header, whatever its index holds: the entry read is that of the interval the
      sample falls in, or the last, and a seek ends inside the packets or is refused. */
  lemma LocateReadsTheEntry(file: seq<Byte>, k: Pak, start: Word, e: nat)
    requires 0 < k.indexCount && k.indexInterval > 0 && 36 + k.indexCount * 4 <= |file|
    requires var interval := (start + k.preSkip) % 0x1_0000_0000 / 480 / k.indexInterval;
      e == if interval < k.indexCount then interval else k.indexCount - 1
    ensures var offset, r := Field32(file, 36 + 4 * e), Locate(file, k, start);
      if k.dataOffset <= offset < k.fileBytes then
        && r.Success? && r.value.byte == offset
        && (e == 0 ==> r.value.start == 0 && r.value.skip == k.preSkip)
        && (e > 0 ==> r.value.skip == 0)
      else r == Failure(EntryOutside)
  {
    hide Field, Field32;
    FieldIs32(file, HEADER + e * 4);
  }

  /** The position names the sample that comes out first, at most one group before the one asked for. */
  predicate Lands(start: nat, lookahead: nat, group: nat, place: Place) {
    && place.start + lookahead == 2400 * group + place.skip
    && place.start <= start < place.start + 2400
  }

  lemma PlaceLands(k: Pak, start: nat, group: nat)
    requires k.indexInterval == INTERVAL && k.preSkip < 0x1_0000 && start < 0x8000_0000
    requires group == GroupOf((start + k.preSkip) / 480)
    ensures Lands(start, k.preSkip, group, PlaceOf(k, group)) <==> group == 0 || k.preSkip <= 2400 * group
  {
  }

  /** A seek to a playable sample reads on from where the scan finds its group of five packets. The position it
      reports is exact precisely unless the lookahead reaches past the start of that group, entry 0 apart. */
  lemma SeekLands(samples: nat, lookahead: nat, packets: seq<seq<Byte>>, start: nat)
    requires Written(samples, lookahead, packets) && start < samples
    ensures var file, k := File(samples, lookahead, packets), PakOf(samples, lookahead, packets);
      && k.indexCount > 0 && HEADER + k.indexCount * 4 <= |file|
      && var place, group := Locate(file, k, start), GroupOf((start + lookahead) / 480);
      && place.Success? && Walk(file, k.dataOffset, First(group)) == Some(place.value.byte)
      && (Lands(start, lookahead, group, place.value) <==> group == 0 || lookahead <= 2400 * group)
  {
    hide File, Body, Holds, Entry, Index, Lands, Locate, Walk, Offset, MaxLength;
    var file, k := File(samples, lookahead, packets), PakOf(samples, lookahead, packets);
    GroupInside(samples, lookahead, start);
    WrittenHolds(samples, lookahead, packets);
    EntryIsGroup(samples, lookahead, packets, GroupOf((start + lookahead) / 480));
    OffsetOfNone(packets);
    WalkFollows(file, k.dataOffset, packets, 0, First(GroupOf((start + lookahead) / 480)));
    LocateInside(file, k, start);
  }

  /** A seek in the written file ends where the scan finds the group, and the position it reports is right. */
  predicate SeekIsExact(samples: nat, lookahead: nat, packets: seq<seq<Byte>>, start: nat) {
    var file, k, group := File(samples, lookahead, packets), PakOf(samples, lookahead, packets),
      GroupOf((start + lookahead) / 480);
    && start < WORD && 0 < k.indexCount && HEADER + k.indexCount * 4 <= |file|
    && Locate(file, k, start).Success? && Lands(start, lookahead, group, Locate(file, k, start).value)
  }

  /** Every playable sample can be sought exactly if and only if the lookahead is less than one group of packets
      or a whole number of them. */
  lemma EverySeekIsExact(samples: nat, lookahead: nat, packets: seq<seq<Byte>>)
    requires Written(samples, lookahead, packets) && samples > 0
    ensures (forall start :: 0 <= start < samples ==> SeekIsExact(samples, lookahead, packets, start))
            <==> lookahead < 2400 || lookahead % 2400 == 0
  {
    hide SeekIsExact, Written;
    SeekExactness(samples, lookahead, packets, 0);
    forall start | 0 <= start < samples && (lookahead < 2400 || lookahead % 2400 == 0)
      ensures SeekIsExact(samples, lookahead, packets, start)
    {
      SeekExactness(samples, lookahead, packets, start);
    }
  }

  lemma SeekExactness(samples: nat, lookahead: nat, packets: seq<seq<Byte>>, start: nat)
    requires Written(samples, lookahead, packets) && start < samples
    ensures lookahead < 2400 || lookahead % 2400 == 0 ==> SeekIsExact(samples, lookahead, packets, start)
    ensures start == 0 && lookahead >= 2400 && lookahead % 2400 != 0 ==>
      !SeekIsExact(samples, lookahead, packets, start)
  {
    hide *;
    SeekDecided(samples, lookahead, packets, start);
    GroupAfter(start, lookahead);
  }

  lemma SeekDecided(samples: nat, lookahead: nat, packets: seq<seq<Byte>>, start: nat)
    requires Written(samples, lookahead, packets) && start < samples
    ensures var group := GroupOf((start + lookahead) / 480);
      SeekIsExact(samples, lookahead, packets, start) <==> group == 0 || lookahead <= 2400 * group
  {
    hide Written, File, PakOf, Locate, Body, Lands, GroupOf, Walk;
    StartFits(samples, lookahead, packets);
    SeekLands(samples, lookahead, packets, start);
  }

  lemma StartFits(samples: nat, lookahead: nat, packets: seq<seq<Byte>>)
    requires Written(samples, lookahead, packets)
    ensures samples < WORD
  {
  }

  lemma GroupAfter(start: nat, lookahead: nat)
    ensures var group := GroupOf((start + lookahead) / 480);
      (lookahead < 2400 || lookahead % 2400 == 0 ==> group == 0 || lookahead <= 2400 * group)
      && (start == 0 && lookahead >= 2400 && lookahead % 2400 != 0 ==> group > 0 && lookahead > 2400 * group)
  {
  }

  lemma {:induction false} BodyIsShort(packets: seq<seq<Byte>>)
    requires Encoded(packets)
    ensures |Body(packets)| <= 1502 * |packets|
  {
    if packets == [] {
    } else {
      BodyIsShort(packets[..|packets| - 1]);
    }
  }

  /** With a lookahead of 3000 samples a seek to the very start misses. */
  lemma SeekCanMiss()
    ensures exists packets :: Written(1, 3000, packets) && !SeekIsExact(1, 3000, packets, 0)
  {
    hide SeekIsExact, Body;
    var packets: seq<seq<Byte>> := seq(7, _ => [0xF8]);
    BodyIsShort(packets);
    FileLayout(1, 3000, packets);
    assert Written(1, 3000, packets);
    SeekExactness(1, 3000, packets, 0);
  }

  lemma NoWrap(file: seq<Byte>, k: Pak, start: nat, group: nat)
    requires k.indexInterval == 5 && k.preSkip < 0x1_0000 && start < 0x8000_0000 && HEADER + k.indexCount * 4 <= |file|
    requires group == GroupOf((start + k.preSkip) / 480) < k.indexCount &&
      k.dataOffset <= Entry(file, group) < k.fileBytes
    ensures Locate(file, k, start) == Success(PlaceOf(k, group).(byte := Entry(file, group)))
  {
    hide Entry, PlaceOf;
  }

  lemma LocateInside(file: seq<Byte>, k: Pak, start: nat)
    requires k.indexInterval == 5 && k.preSkip < 0x1_0000 && start < 0x8000_0000 && HEADER + k.indexCount * 4 <= |file|
    requires GroupOf((start + k.preSkip) / 480) < k.indexCount
    requires k.dataOffset <= Entry(file, GroupOf((start + k.preSkip) / 480)) < k.fileBytes
    ensures var group, place := GroupOf((start + k.preSkip) / 480), Locate(file, k, start);
      && place.Success? && place.value.byte == Entry(file, group)
      && (Lands(start, k.preSkip, group, place.value) <==> group == 0 || k.preSkip <= 2400 * group)
  {
    hide Entry, Lands, GroupOf, PlaceOf;
    var group := GroupOf((start + k.preSkip) / 480);
    PlaceLands(k, start, group);
    LandsAnywhere(k, group, Entry(file, group), start);
    assert Locate(file, k, start) == Success(PlaceOf(k, group).(byte := Entry(file, group)))
      by { NoWrap(file, k, start, group); }
    hide Locate;
    assert PlaceOf(k, group).(byte := Entry(file, group)).byte == Entry(file, group);
  }

  lemma LandsAnywhere(k: Pak, group: nat, byte: nat, start: nat)
    ensures Lands(start, k.preSkip, group, PlaceOf(k, group).(byte := byte)) <==>
      Lands(start, k.preSkip, group, PlaceOf(k, group))
  {
  }

  lemma GroupInside(samples: nat, lookahead: nat, start: nat)
    requires start < samples
    ensures GroupOf((start + lookahead) / 480) < Entries(Packets(samples + lookahead))
    ensures First(GroupOf((start + lookahead) / 480)) < Packets(samples + lookahead)
  {
  }

  // ------------------------------------------------------------ playing slot by slot

  /** How many bytes from at on are whole packets: where opus_pak_whole() stops. */
  function WholeFrom(buf: seq<Byte>, at: nat): (end: nat)
    requires at <= |buf|
    ensures at <= end <= |buf|
    decreases |buf| - at
  {
    if at + 2 > |buf| || LengthAt(buf, at) == 0 || at + 2 + LengthAt(buf, at) > |buf| then at
    else WholeFrom(buf, at + 2 + LengthAt(buf, at))
  }

  /** Of any bytes: what is taken are whole packets, none of them empty, and what follows begins with no other. */
  lemma WholeIsPackets(buf: seq<Byte>)
    ensures var end := WholeFrom(buf, 0);
      && (exists packets :: (forall p :: 0 <= p < |packets| ==> 1 <= |packets[p]| < 0x1_0000) &&
            buf[..end] == Body(packets))
      && (end + 2 <= |buf| ==> LengthAt(buf, end) == 0 || end + 2 + LengthAt(buf, end) > |buf|)
  {
    var packets := PacketsFrom(buf, 0, []);
    assert buf[..0] == [];
  }

  /** Collects the packets met from a place on, behind those already met. */
  lemma {:induction false} PacketsFrom(buf: seq<Byte>, at: nat, met: seq<seq<Byte>>) returns (packets: seq<seq<Byte>>)
    requires at <= |buf| && buf[..at] == Body(met) && forall p :: 0 <= p < |met| ==> 1 <= |met[p]| < 0x1_0000
    ensures var end := WholeFrom(buf, at);
      && buf[..end] == Body(packets) && (forall p :: 0 <= p < |packets| ==> 1 <= |packets[p]| < 0x1_0000)
      && (end + 2 <= |buf| ==> LengthAt(buf, end) == 0 || end + 2 + LengthAt(buf, end) > |buf|)
    decreases |buf| - at
  {
    if at + 2 > |buf| || LengthAt(buf, at) == 0 || at + 2 + LengthAt(buf, at) > |buf| {
      packets := met;
    } else {
      var next := at + 2 + LengthAt(buf, at);
      assert WholeFrom(buf, at) == WholeFrom(buf, next);
      var more := met + [buf[at + 2..next]];
      OnePacketMore(buf, at, met);
      hide *;
      packets := PacketsFrom(buf, next, more);
    }
  }

  lemma OnePacketMore(buf: seq<Byte>, at: nat, met: seq<seq<Byte>>)
    requires at + 2 <= |buf| && at + 2 + LengthAt(buf, at) <= |buf| && buf[..at] == Body(met)
    ensures var next := at + 2 + LengthAt(buf, at); buf[..next] == Body(met + [buf[at + 2..next]])
  {
    var n := LengthAt(buf, at);
    LengthBytes(buf, at);
    hide *;
    var packet := buf[at + 2..at + 2 + n];
    BodyOfOneMore(met, packet);
    Joined(buf, at, at + 2, at + 2 + n);
    Pair(buf, at);
  }

  lemma Joined(s: seq<Byte>, a: nat, b: nat, c: nat)
    requires a <= b <= c <= |s|
    ensures s[..c] == s[..a] + (s[a..b] + s[b..c])
  {
  }

  lemma Pair(s: seq<Byte>, at: nat)
    requires at + 2 <= |s|
    ensures s[at..at + 2] == [s[at], s[at + 1]]
  {
  }

  lemma LengthBytes(buf: seq<Byte>, at: nat)
    requires at + 2 <= |buf|
    ensures LengthAt(buf, at) % 256 == buf[at] && LengthAt(buf, at) / 256 == buf[at + 1]
  {
  }

  method Whole(buf: seq<Byte>) returns (at: nat)
    ensures at == WholeFrom(buf, 0)
  {
    at := 0;
    while true
      invariant at <= |buf| && WholeFrom(buf, 0) == WholeFrom(buf, at)
      decreases |buf| - at
    {
      if at + 2 > |buf| { return; }
      var n := LengthAt(buf, at);
      if n == 0 || at + 2 + n > |buf| { return; }
      at := at + 2 + n;
    }
  }

  /** The packets from p on that end by the given place in the body. */
  function Fitting(packets: seq<seq<Byte>>, p: nat, end: nat): (q: nat)
    requires p <= |packets| && Offset(packets, p) <= end
    ensures p <= q <= |packets| && Offset(packets, q) <= end
    ensures q == |packets| || Offset(packets, q + 1) > end
    decreases |packets| - p
  {
    if p == |packets| || Offset(packets, p + 1) > end then p else Fitting(packets, p + 1, end)
  }

  /** A window of the body that begins at packet p is cut after the last packet that fits it. */
  lemma {:induction false} WholeCutsAtPackets(packets: seq<seq<Byte>>, body: seq<Byte>, p: nat, end: nat, q: nat)
    requires body == Body(packets) && Encoded(packets) && p <= q <= |packets|
    requires Offset(packets, p) <= Offset(packets, q) <= end <= |body|
    ensures var from := Offset(packets, p);
      from + WholeFrom(body[from..end], Offset(packets, q) - from) == Offset(packets, Fitting(packets, q, end))
    decreases |packets| - q
  {
    hide Body, Offset, LengthAt;
    var from, at := Offset(packets, p), Offset(packets, q);
    var buf := body[from..end];
    if q < |packets| {
      WindowMeets(packets, body, p, end, q);
      if Offset(packets, q + 1) <= end { WholeCutsAtPackets(packets, body, p, end, q + 1); }
    } else {
      WholeBody(packets);
    }
  }

  lemma BodyMeets(packets: seq<seq<Byte>>, body: seq<Byte>, q: nat)
    requires body == Body(packets) && Encoded(packets) && q < |packets|
    ensures var at, n := Offset(packets, q), |packets[q]|;
      at + 2 + n == Offset(packets, q + 1) <= |body| && LengthAt(body, at) == n >= 1
  {
    assert |packets[q]| >= 1;
    HoldsItself(packets);
    hide Body, Offset, LengthAt, Encoded, Holds;
    MeetsPacket(body, 0, packets, q);
  }

  lemma HoldsItself(packets: seq<seq<Byte>>)
    ensures Holds(Body(packets), 0, packets)
  {
  }

  lemma SameLength(s: seq<Byte>, from: nat, end: nat, at: nat)
    requires from <= at && at + 2 <= end <= |s|
    ensures LengthAt(s[from..end], at - from) == LengthAt(s, at)
  {
  }

  lemma WindowMeets(packets: seq<seq<Byte>>, body: seq<Byte>, p: nat, end: nat, q: nat)
    requires body == Body(packets) && Encoded(packets) && p <= q < |packets|
    requires Offset(packets, p) <= Offset(packets, q) <= end <= |body|
    ensures var from, at := Offset(packets, p), Offset(packets, q);
      && Offset(packets, q + 1) == at + 2 + |packets[q]| && |packets[q]| >= 1
      && (at + 2 <= end ==> LengthAt(body[from..end], at - from) == |packets[q]|)
  {
    hide *;
    BodyMeets(packets, body, q);
    var from, at := Offset(packets, p), Offset(packets, q);
    if at + 2 <= end { SameLength(body, from, end, at); }
  }

  datatype Slot = Slot(bytes: seq<Byte>, last: bool)

  /** player_feed_opus(): the slots published while free ones remain, and where reading goes on. */
  function Fill(file: seq<Byte>, end: nat, feed: nat, free: nat): (r: (seq<Slot>, nat))
    requires end <= |file|
    decreases free
  {
    if feed >= end || free == 0 then ([], feed)
    else
      var got := if end - feed < SLOT then end - feed else SLOT;
      var buf := file[feed..feed + got];
      var whole := WholeFrom(buf, 0);
      var last := feed + got >= end;
      if whole == 0 then ([Slot([], true)], end)
      else
        var rest := Fill(file, end, if last then end else feed + whole, free - 1);
        ([Slot(buf[..whole], last)] + rest.0, rest.1)
  }

  /** Where no whole packet is met the player gives up: one empty slot, flagged as the last, and nothing more is
      read. */
  lemma FillGivesUp(file: seq<Byte>, end: nat, feed: nat, free: nat)
    requires end <= |file| && feed < end && free > 0
    requires var window := if end - feed < 2048 then end - feed else 2048;
      window < 2 || LengthAt(file, feed) == 0 || 2 + LengthAt(file, feed) > window
    ensures Fill(file, end, feed, free) == ([Slot([], true)], end)
  {
    var got := if end - feed < SLOT then end - feed else SLOT;
    var buf := file[feed..feed + got];
    if got >= 2 { SameLength(file, feed, feed + got, feed); }
    assert WholeFrom(buf, 0) == 0;
  }

  /** The slots hold packets p to q in order, each slot a run of whole packets, flagged as the last exactly when
      it ends the body. */
  ghost predicate Plays(slots: seq<Slot>, packets: seq<seq<Byte>>, p: nat, q: nat)
    requires p <= q <= |packets|
    decreases |slots|
  {
    if slots == [] then p == q
    else exists m :: p < m <= q && SlotHolds(slots[0], packets, p, m) && Plays(slots[1..], packets, m, q)
  }

  ghost predicate SlotHolds(slot: Slot, packets: seq<seq<Byte>>, p: nat, m: nat)
    requires p <= m <= |packets|
  {
    var from, to := Offset(packets, p), Offset(packets, m);
    && from <= to <= |Body(packets)| && to - from <= SLOT
    && slot.bytes == Body(packets)[from..to] && (slot.last <==> m == |packets|)
  }

  /** Where reading stands after the given number of slots. */
  function Reached(packets: seq<seq<Byte>>, p: nat, free: nat): (q: nat)
    requires p <= |packets|
    ensures p <= q <= |packets|
    decreases free
  {
    if p == |packets| || free == 0 then p else Reached(packets, Fitting(packets, p, Offset(packets, p) + SLOT),
      free - 1)
  }

  lemma {:induction false} ReachesEnd(packets: seq<seq<Byte>>, p: nat, free: nat)
    requires Encoded(packets) && p <= |packets| <= p + free
    ensures Reached(packets, p, free) == |packets|
    decreases free
  {
    hide Offset;
    if p < |packets| {
      BodyGrows(packets, p);
      ReachesEnd(packets, Fitting(packets, p, Offset(packets, p) + SLOT), free - 1);
    }
  }

  lemma SlotIsWhole(packets: seq<seq<Byte>>, body: seq<Byte>, p: nat)
    requires body == Body(packets) && Encoded(packets) && p < |packets|
    ensures Offset(packets, p) < |body|
    ensures var from, m := Offset(packets, p), Fitting(packets, p, Offset(packets, p) + SLOT);
      var to := if from + SLOT < |body| then from + SLOT else |body|;
      && p < m && Offset(packets, m) == from + WholeFrom(body[from..to], 0)
      && (to == |body| <==> m == |packets|)
  {
    hide Body, WholeFrom, Offset;
    var from := Offset(packets, p);
    var to := if from + SLOT < |body| then from + SLOT else |body|;
    BodyGrows(packets, p);
    OffsetsRise(packets, p);
    WholeCutsAtPackets(packets, body, p, to, p);
    WholeBody(packets);
    FittingAtEnd(packets, p, from + SLOT);
    OffsetsRise(packets, Fitting(packets, p, from + SLOT));
  }

  lemma OffsetsRise(packets: seq<seq<Byte>>, p: nat)
    requires Encoded(packets) && p <= |packets|
    ensures Offset(packets, p) <= |Body(packets)|
    ensures p < |packets| ==> Offset(packets, p) < Offset(packets, p + 1) <= |Body(packets)|
  {
    hide Offset, Body;
    WholeBody(packets);
    if p < |packets| { PacketStands(packets, p); }
  }

  /** Past the end of the body there is nothing more to fit. */
  lemma {:induction false} FittingAtEnd(packets: seq<seq<Byte>>, p: nat, end: nat)
    requires Encoded(packets) && p <= |packets| && Offset(packets, p) <= end
    ensures var size := |Body(packets)|;
      && Offset(packets, p) <= size
      && Fitting(packets, p, end) == Fitting(packets, p, if end < size then end else size)
    decreases |packets| - p
  {
    hide Offset, Body;
    OffsetsRise(packets, p);
    if p < |packets| && Offset(packets, p + 1) <= end { FittingAtEnd(packets, p + 1, end); }
  }

  /** Reading a file that holds the body plays every packet once, in order, whole, and never gives up; as many
      slots as packets are always enough. */
  lemma {:induction false} FillPlays(file: seq<Byte>, base: nat, packets: seq<seq<Byte>>, p: nat, free: nat)
    requires Holds(file, base, packets) && Encoded(packets) && p <= |packets|
    ensures var r, q := Fill(file, |file|, base + Offset(packets, p), free), Reached(packets, p, free);
      && Plays(r.0, packets, p, q) && r.1 == base + Offset(packets, q)
      && (free >= |packets| - p ==> q == |packets|)
    decreases free
  {
    hide Offset, Holds, WholeFrom, SlotHolds, Fitting, Encoded, Fill;
    if free >= |packets| - p { ReachesEnd(packets, p, free); }
    if p < |packets| && free > 0 {
      var m := Fitting(packets, p, Offset(packets, p) + SLOT);
      FillStep(file, base, packets, p, free);
      FillPlays(file, base, packets, m, free - 1);
      var r := Fill(file, |file|, base + Offset(packets, p), free);
      assert r.0[1..] == Fill(file, |file|, base + Offset(packets, m), free - 1).0;
    } else {
      NothingToFill(file, base, packets, p, free);
    }
  }

  lemma NothingToFill(file: seq<Byte>, base: nat, packets: seq<seq<Byte>>, p: nat, free: nat)
    requires Holds(file, base, packets) && p <= |packets| && (p == |packets| || free == 0)
    ensures Fill(file, |file|, base + Offset(packets, p), free) == ([], base + Offset(packets, p))
  {
    WholeBody(packets);
    hide Offset, Body;
  }

  lemma FillStep(file: seq<Byte>, base: nat, packets: seq<seq<Byte>>, p: nat, free: nat)
    requires Holds(file, base, packets) && Encoded(packets) && p < |packets| && free > 0
    ensures var m := Fitting(packets, p, Offset(packets, p) + SLOT);
      var r, rest := Fill(file, |file|, base + Offset(packets, p), free),
        Fill(file, |file|, base + Offset(packets, m), free - 1);
      && p < m && r.0 != [] && SlotHolds(r.0[0], packets, p, m) && r == ([r.0[0]] + rest.0, rest.1)
  {
    hide Offset, WholeFrom, Body;
    var body, from := Body(packets), Offset(packets, p);
    var to := if from + SLOT < |body| then from + SLOT else |body|;
    var m := Fitting(packets, p, from + SLOT);
    SlotIsWhole(packets, body, p);
    OffsetsRise(packets, m);
    WholeBody(packets);
    hide Fitting;
    assert |file| == base + |body|;
    var buf := file[base + from..base + to];
    SubSlice(file, base, body, from, to - from) by { assert file[base..base + |body|] == body; }
    hide Encoded, Holds;
    var whole := WholeFrom(buf, 0);
    assert whole == Offset(packets, m) - from > 0 by { BodyGrows(packets, p); LaterOffset(packets, p + 1, m); }
    PrefixOfSlice(body, from, to, whole);
    var slot := Fill(file, |file|, base + from, free).0[0];
    assert slot.bytes == buf[..whole];
  }

  lemma PrefixOfSlice(s: seq<Byte>, from: nat, to: nat, n: nat)
    requires from + n <= to <= |s|
    ensures s[from..to][..n] == s[from..from + n]
  {
  }

  lemma LaterOffset(packets: seq<seq<Byte>>, p: nat, q: nat)
    requires p <= q <= |packets|
    ensures Offset(packets, p) <= Offset(packets, q)
  {
    BodyBegins(packets, p, q);
  }

  /** The player's reading side: the file, the end of its packets and the place it has read to. */
  class Player {
    const file: seq<Byte>
    const end: nat
    var feed: nat
    var ring: seq<Slot>

    constructor (file: seq<Byte>, dataOffset: nat)
      requires dataOffset <= |file|
      ensures this.file == file && end == |file| && feed == dataOffset && ring == []
    {
      this.file, this.end, this.feed, this.ring := file, |file|, dataOffset, [];
    }

    method FeedOpus(free: nat)
      requires end <= |file|
      modifies this
      ensures var r := Fill(file, end, old(feed), free);
        ring == old(ring) + r.0 && feed == r.1
    {
      hide WholeFrom;
      hide Fill;
      ghost var before, done := ring, [];
      var left: nat := free;
      NoSlots(file, end, feed, free, before);
      while true
        invariant left <= free && ring == before + done
        invariant Extends(Fill(file, end, old(feed), free), done, Fill(file, end, feed, left))
        decreases left
      {
        FillNext(file, end, feed, left);
        if feed >= end || left == 0 { break; }
        var want, remaining := SLOT, end - feed;
        if want > remaining { want := remaining; }
        var buf := file[feed..feed + want];
        var whole := Whole(buf);
        var last := feed + want >= end;
        var slot := if whole == 0 then Slot([], true) else Slot(buf[..whole], last);
        feed := if whole == 0 || last then end else feed + whole;
        left := left - 1;
        FillNext(file, end, feed, left);
        Regroup(before, done, [slot]);
        Regroup(done, [slot], Fill(file, end, feed, left).0);
        ring := ring + [slot];
        done := done + [slot];
        if whole == 0 { break; }
      }
      assert done + [] == done;
    }
  }

  predicate Extends(goal: (seq<Slot>, nat), done: seq<Slot>, rest: (seq<Slot>, nat)) { goal == (done + rest.0, rest.1) }

  lemma NoSlots(file: seq<Byte>, end: nat, feed: nat, free: nat, ring: seq<Slot>)
    requires end <= |file|
    ensures Extends(Fill(file, end, feed, free), [], Fill(file, end, feed, free)) && ring + [] == ring
  {
    hide Fill;
    var r := Fill(file, end, feed, free);
    assert [] + r.0 == r.0;
  }

  /** One slot, then the rest. */
  lemma FillNext(file: seq<Byte>, end: nat, feed: nat, free: nat)
    requires end <= |file|
    ensures feed >= end || free == 0 ==> Fill(file, end, feed, free) == ([], feed)
    ensures feed < end && free > 0 ==>
      (var got := if end - feed < SLOT then end - feed else SLOT;
       var whole, last := WholeFrom(file[feed..feed + got], 0), feed + got >= end;
       Extends(Fill(file, end, feed, free), [if whole == 0 then Slot([], true)
         else Slot(file[feed..feed + got][..whole], last)],
               Fill(file, end, if whole == 0 || last then end else feed + whole, free - 1)))
  {
    hide WholeFrom;
    if feed < end && free > 0 {
      assert Fill(file, end, end, free - 1) == ([], end);
      assert [Slot([], true)] + [] == [Slot([], true)];
    }
  }
}
