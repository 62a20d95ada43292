/**
 The "JPF1" glyph table of tools/make_jpfont.py: build() writes it, parse_image() checks it, and lookup()
 finds a codepoint's glyph in it by binary search.
 */
module FontImage {
  import opened Options
  import opened Bits
  import opened Bytes
  import opened Records

  /** Any checksum; zlib.crc32 is one. */
  type Checksum = seq<Byte> -> Word

  const MAGIC: nat := 0x3146504A
  const VERSION: nat := 1
  const HEADER: nat := 32

  datatype Glyph = Glyph(cp: nat, advance: nat, rows: seq<nat>)

  datatype Mapped = Mapped(cp: nat, advance: nat, flags: nat)

  datatype Info = Info(cellW: nat, cellH: nat, baseline: nat, count: nat, cmap: seq<Mapped>, bitmapOff: nat)

  datatype Error = Truncated | BadMagic | BadChecksum | BadSize | BadAlignment | NotAscending

  function RowBytes(cellW: nat): nat { (cellW + 7) / 8 }

  function GlyphBytes(cellW: nat, cellH: nat): nat { Times(cellH, RowBytes(cellW)) }

  /** The box drawn for what has no glyph. */
  function Tofu(cellW: nat, cellH: nat): (rows: seq<nat>)
    requires cellW > 0
    ensures |rows| == cellH
  {
    seq(cellH, r requires 0 <= r < cellH => TofuRow(cellW, cellH, r))
  }

  /** Only the border of the cell is drawn. */
  lemma TofuIsTheBorder(cellW: nat, cellH: nat, r: nat, c: nat)
    requires cellW > 0 && r < cellH && c < cellW
    ensures Bit(Tofu(cellW, cellH)[r], cellW - 1 - c) <==> r == 0 || r == cellH - 1 || c == 0 || c == cellW - 1
  {
    hide Bit, Or, Shl, Pow2;
    var k := cellW - 1 - c;
    ShlOne(cellW);
    BitOfOnes(cellW, k);
    BitOfOr(Shl(1, cellW - 1), 1, k);
    BitOfShiftedLeft(1, cellW - 1, k);
    BitOfOne(k);
    BitOfOne(0);
  }

  function TofuRow(cellW: nat, cellH: nat, r: nat): nat
    requires cellW > 0
  {
    if r == 0 || r == cellH - 1 then Shl(1, cellW) - 1 else Or(Shl(1, cellW - 1), 1)
  }

  /** int.to_bytes(k, "big") and int.from_bytes(.., "big"). */
  function PackBig(n: nat, k: nat): (s: seq<Byte>)
    ensures |s| == k
  {
    if k == 0 then [] else PackBig(n / 256, k - 1) + [n % 256]
  }

  function UnpackBig(s: seq<Byte>): nat {
    if s == [] then 0 else 256 * UnpackBig(s[..|s| - 1]) + s[|s| - 1]
  }

  lemma {:induction false} UnpackPackBig(n: nat, k: nat)
    requires n < Pow256(k)
    ensures UnpackBig(PackBig(n, k)) == n
  {
    if k == 0 {
    } else {
      UnpackPackBig(n / 256, k - 1);
      assert PackBig(n, k)[..k - 1] == PackBig(n / 256, k - 1);
    }
  }

  lemma {:induction false} BytesAreBits(k: nat)
    ensures Pow256(k) == Pow2(8 * k)
  {
    if k == 0 {
    } else {
      BytesAreBits(k - 1);
      assert Pow2(8 * k) == 256 * Pow2(8 * k - 8) by {
        var p := Pow2(8 * k - 8);
        assert Pow2(8 * k - 7) == 2 * p && Pow2(8 * k - 6) == 4 * p && Pow2(8 * k - 5) == 8 * p &&
          Pow2(8 * k - 4) == 16 * p;
        assert Pow2(8 * k - 3) == 32 * p && Pow2(8 * k - 2) == 64 * p && Pow2(8 * k - 1) == 128 * p;
      }
    }
  }

  // ------------------------------------------------------------ the image

  function CmapEntry(g: Glyph): (s: seq<Byte>)
    ensures |s| == 4
  {
    Pack(g.cp, 2) + Pack(g.advance, 1) + Pack(0, 1)
  }

  /** The bits a row is moved up by, so that its leftmost pixel is the highest bit of its bytes. */
  function Padding(cellW: nat): nat { RowBytes(cellW) * 8 - cellW }

  function PackRow(row: nat, cellW: nat): (s: seq<Byte>)
    ensures |s| == RowBytes(cellW)
  {
    PackBig(Shl(row, Padding(cellW)), RowBytes(cellW))
  }

  function UnpackRow(s: seq<Byte>, cellW: nat): nat { Shr(UnpackBig(s), Padding(cellW)) }

  lemma RowReadsBack(row: nat, cellW: nat)
    requires row < Pow2(cellW)
    ensures UnpackRow(PackRow(row, cellW), cellW) == row
  {
    ShlFits(row, cellW, Padding(cellW));
    BytesAreBits(RowBytes(cellW));
    UnpackPackBig(Shl(row, Padding(cellW)), RowBytes(cellW));
    ShiftBack(row, Padding(cellW));
  }

  function Cmap(glyphs: seq<Glyph>): seq<Byte> {
    Concat(seq(|glyphs|, k requires 0 <= k < |glyphs| => CmapEntry(glyphs[k])))
  }

  /** One glyph's bitmap. */
  function GlyphBits(rows: seq<nat>, cellW: nat): seq<Byte> {
    Concat(seq(|rows|, r requires 0 <= r < |rows| => PackRow(rows[r], cellW)))
  }

  function Bitmap(glyphs: seq<Glyph>, cellW: nat): seq<Byte> {
    Concat(seq(|glyphs|, k requires 0 <= k < |glyphs| => GlyphBits(glyphs[k].rows, cellW)))
  }

  function BitmapOff(count: nat): nat { (HEADER + count * 4 + 3) / 4 * 4 }

  function Body(glyphs: seq<Glyph>, cellW: nat): seq<Byte> {
    Cmap(glyphs) + seq(BitmapOff(|glyphs|) - HEADER - 4 * |glyphs|, _ => 0) + Bitmap(glyphs, cellW)
  }

  function HeaderBytes(cellW: nat, cellH: nat, baseline: nat, count: nat, crc: nat): (s: seq<Byte>)
    ensures |s| == HEADER
  {
    Pack(MAGIC, 4) + Pack(VERSION, 2) + Pack(cellW, 2) + Pack(cellH, 2) + Pack(baseline, 2)
    + Pack(count, 4) + Pack(HEADER, 4) + Pack(BitmapOff(count), 4) + Pack(Times(count, GlyphBytes(cellW, cellH)), 4) +
      Pack(crc, 4)
  }

  function Image(crc: Checksum, cellW: nat, cellH: nat, baseline: nat, glyphs: seq<Glyph>): seq<Byte> {
    var body := Body(glyphs, cellW);
    HeaderBytes(cellW, cellH, baseline, |glyphs|, crc(body)) + body
  }

  /** A font build() can write: every field fits its place, every glyph its cell. */
  ghost predicate Writable(cellW: nat, cellH: nat, baseline: nat, glyphs: seq<Glyph>) {
    && 0 < cellW < 0x1_0000 && cellH < 0x1_0000 && baseline < 0x1_0000
    && |glyphs| < WORD && BitmapOff(|glyphs|) < WORD && Times(|glyphs|, GlyphBytes(cellW, cellH)) < WORD
    && forall k :: 0 <= k < |glyphs| ==> Fits(glyphs[k], cellW, cellH)
  }

  ghost predicate Fits(g: Glyph, cellW: nat, cellH: nat) {
    g.cp < 0x1_0000 && g.advance < 256 && |g.rows| == cellH && forall r :: 0 <= r < cellH ==> g.rows[r] < Pow2(cellW)
  }

  // ------------------------------------------------------------ parsing

  function Field(img: seq<Byte>, at: nat, size: nat): nat
    requires at + size <= |img|
  {
    Unpack(img[at..at + size])
  }

  function CmapAt(img: seq<Byte>, at: nat): Mapped
    requires at + 4 <= |img|
  {
    Mapped(Field(img, at, 2), Field(img, at + 2, 1), Field(img, at + 3, 1))
  }

  predicate Ascending(cmap: seq<Mapped>) {
    forall k :: 0 <= k < |cmap| - 1 ==> cmap[k].cp < cmap[k + 1].cp
  }

  /** parse_image(), with the exceptions as errors. */
  function Parse(crc: Checksum, img: seq<Byte>): Result<Info, Error> {
    if |img| < HEADER then Failure(Truncated)
    else if Field(img, 0, 4) != MAGIC || Field(img, 4, 2) != VERSION then Failure(BadMagic)
    else if crc(img[HEADER..]) != Field(img, 28, 4) then Failure(BadChecksum)
    else
      var cellW, cellH, count := Field(img, 6, 2), Field(img, 8, 2), Field(img, 12, 4);
      var cmapOff, bitmapOff, bitmapLen := Field(img, 16, 4), Field(img, 20, 4), Field(img, 24, 4);
      if bitmapLen != Times(count, GlyphBytes(cellW, cellH)) || bitmapOff + bitmapLen != |img| then Failure(BadSize)
      else if bitmapOff % 4 != 0 then Failure(BadAlignment)
      else if cmapOff + count * 4 > |img| && count > 0 then Failure(Truncated)
      else
        var cmap := CmapOf(img, cmapOff, count);
        if !Ascending(cmap) then Failure(NotAscending)
        else Success(Info(cellW, cellH, Field(img, 10, 2), count, cmap, bitmapOff))
  }

  function CmapOf(img: seq<Byte>, off: nat, count: nat): (cmap: seq<Mapped>)
    requires count == 0 || off + count * 4 <= |img|
    ensures |cmap| == count
  {
    seq(count, k requires 0 <= k < count => CmapAt(img, off + k * 4))
  }

  method ParseImage(crc: Checksum, img: seq<Byte>) returns (r: Result<Info, Error>)
    ensures r == Parse(crc, img)
  {
    hide Unpack, Times, GlyphBytes, RowBytes;
    if |img| < HEADER { return Failure(Truncated); }
    if Field(img, 0, 4) != MAGIC || Field(img, 4, 2) != VERSION { return Failure(BadMagic); }
    if crc(img[HEADER..]) != Field(img, 28, 4) { return Failure(BadChecksum); }
    var cellW, cellH, count := Field(img, 6, 2), Field(img, 8, 2), Field(img, 12, 4);
    var cmapOff, bitmapOff, bitmapLen := Field(img, 16, 4), Field(img, 20, 4), Field(img, 24, 4);
    if bitmapLen != Times(count, GlyphBytes(cellW, cellH)) || bitmapOff + bitmapLen != |img| {
      return Failure(BadSize);
    }
    if bitmapOff % 4 != 0 { return Failure(BadAlignment); }
    var cmap: seq<Mapped> := [];
    var i := 0;
    while i < count
      invariant 0 <= i <= count && |cmap| == i && (i == 0 || cmapOff + i * 4 <= |img|)
      invariant forall k :: 0 <= k < i ==> cmapOff + k * 4 + 4 <= |img| && cmap[k] == CmapAt(img, cmapOff + k * 4)
    {
      if cmapOff + i * 4 + 4 > |img| { return Failure(Truncated); }
      cmap := cmap + [CmapAt(img, cmapOff + i * 4)];
      i := i + 1;
    }
    assert cmap == CmapOf(img, cmapOff, count);
    var k := 0;
    while k + 1 < |cmap|
      invariant 0 <= k && (k < |cmap| || k == 0)
      invariant forall j :: 0 <= j < k ==> cmap[j].cp < cmap[j + 1].cp
    {
      if cmap[k].cp >= cmap[k + 1].cp { return Failure(NotAscending); }
      k := k + 1;
    }
    return Success(Info(cellW, cellH, Field(img, 10, 2), count, cmap, bitmapOff));
  }

  // ------------------------------------------------------------ lookup

  /** The Python slice s[a:a + size]: what lies past the end is left out. */
  function Slice(s: seq<Byte>, a: nat, size: nat): seq<Byte> {
    if a >= |s| then [] else if a + size >= |s| then s[a..] else s[a..a + size]
  }

  function RowOf(info: Info, img: seq<Byte>, off: nat, r: nat): nat {
    UnpackRow(Slice(img, off + Times(r, RowBytes(info.cellW)), RowBytes(info.cellW)), info.cellW)
  }

  function GlyphOff(info: Info, gid: nat): nat { info.bitmapOff + Times(gid, GlyphBytes(info.cellW, info.cellH)) }

  /** The rows of glyph gid, read from the bitmap. */
  function RowsAt(info: Info, img: seq<Byte>, gid: nat): (rows: seq<nat>)
    ensures |rows| == info.cellH
  {
    seq(info.cellH, r requires 0 <= r < info.cellH => RowOf(info, img, GlyphOff(info, gid), r))
  }

  /** What a scan of the map finds: the entry of the codepoint, or the tofu box. */
  ghost predicate Finds(info: Info, cp: nat, gid: nat, advance: nat) {
    if exists k :: 0 <= k < |info.cmap| && info.cmap[k].cp == cp
    then gid < |info.cmap| && info.cmap[gid].cp == cp && advance == info.cmap[gid].advance
    else gid == 0 && advance == info.cellW
  }

  lemma {:induction false} AscendingFar(cmap: seq<Mapped>, a: nat, b: nat)
    requires Ascending(cmap) && a < b < |cmap|
    ensures cmap[a].cp < cmap[b].cp
    decreases b
  {
    if a < b - 1 { AscendingFar(cmap, a, b - 1); }
  }

  lemma AllBelow(cmap: seq<Mapped>, mid: nat)
    requires Ascending(cmap) && mid < |cmap|
    ensures forall k :: 0 <= k < mid ==> cmap[k].cp < cmap[mid].cp
    ensures forall k :: mid < k < |cmap| ==> cmap[mid].cp < cmap[k].cp
  {
    forall k | 0 <= k < |cmap| && k != mid
      ensures if k < mid then cmap[k].cp < cmap[mid].cp else cmap[mid].cp < cmap[k].cp
    {
      if k < mid { AscendingFar(cmap, k, mid); } else { AscendingFar(cmap, mid, k); }
    }
  }

  /** lookup(): binary search agrees with the scan. */
  method Lookup(info: Info, img: seq<Byte>, cp: nat) returns (gid: nat, advance: nat, rows: seq<nat>)
    requires Ascending(info.cmap)
    ensures Finds(info, cp, gid, advance)
    ensures rows == RowsAt(info, img, gid)
  {
    var cmap := info.cmap;
    var lo, hi := 0, |cmap|;
    hide RowsAt, Ascending;
    while lo < hi
      invariant 0 <= lo <= hi <= |cmap|
      invariant forall k :: 0 <= k < lo ==> cmap[k].cp < cp
      invariant forall k :: hi <= k < |cmap| ==> cmap[k].cp >= cp
    {
      var mid := (lo + hi) / 2;
      AllBelow(cmap, mid);
      if cmap[mid].cp < cp { lo := mid + 1; } else { hi := mid; }
    }
    if lo < |cmap| { AllBelow(cmap, lo); }
    if lo < |cmap| && cmap[lo].cp == cp {
      gid, advance := lo, cmap[lo].advance;
    } else {
      gid, advance := 0, info.cellW;
    }
    rows := ReadRows(info, img, gid);
  }

  method ReadRows(info: Info, img: seq<Byte>, gid: nat) returns (rows: seq<nat>)
    ensures rows == RowsAt(info, img, gid)
  {
    hide RowOf, GlyphOff;
    var off := GlyphOff(info, gid);
    rows := [];
    for r := 0 to info.cellH
      invariant |rows| == r && forall k :: 0 <= k < r ==> rows[k] == RowOf(info, img, off, k)
    {
      rows := rows + [RowOf(info, img, off, r)];
    }
  }

  // ------------------------------------------------------------ building

  datatype Entry = Entry(advance: nat, rows: seq<nat>)

  /** The glyphs build() writes: the tofu box under U+0000, then the table by ascending codepoint. */
  ghost predicate Lists(glyphs: seq<Glyph>, cellW: nat, cellH: nat, table: map<nat, Entry>) {
    && cellW > 0 && |glyphs| == |table| + 1 && glyphs[0] == Glyph(0, cellW, Tofu(cellW, cellH))
    && (forall k :: 1 <= k < |glyphs| ==> glyphs[k].cp in table && glyphs[k] == GlyphOf(table, glyphs[k].cp))
    && (forall a, b :: 1 <= a < b < |glyphs| ==> glyphs[a].cp < glyphs[b].cp)
    && (forall cp :: cp in table ==> exists k :: 1 <= k < |glyphs| && glyphs[k].cp == cp)
  }

  predicate Sorted(s: seq<nat>) { forall a, b :: 0 <= a < b < |s| ==> s[a] < s[b] }

  lemma {:induction false} SortedIsUnique(a: seq<nat>, b: seq<nat>)
    requires |a| == |b| && Sorted(a) && Sorted(b) && forall x :: x in a <==> x in b
    ensures a == b
    decreases |a|
  {
    if a == [] {
    } else {
      var m, n := |a| - 1, |b| - 1;
      assert a[m] in b && b[n] in a;
      assert a[m] == b[n];
      forall x ensures x in a[..m] <==> x in b[..n] {
        assert x in a[..m] <==> x in a && x != a[m];
        assert x in b[..n] <==> x in b && x != b[n];
      }
      SortedIsUnique(a[..m], b[..n]);
      assert a == a[..m] + [a[m]] && b == b[..n] + [b[n]];
    }
  }

  /** The codepoints of the table's glyphs. */
  function Codepoints(glyphs: seq<Glyph>): (cps: seq<nat>) {
    seq(|glyphs|, k requires 0 <= k < |glyphs| => glyphs[k].cp)
  }

  lemma ListedCodepoints(glyphs: seq<Glyph>, cellW: nat, cellH: nat, table: map<nat, Entry>)
    requires Lists(glyphs, cellW, cellH, table)
    ensures |glyphs| > 0 && Sorted(Codepoints(glyphs[1..])) && forall x :: x in Codepoints(glyphs[1..]) <==> x in table
  {
    hide Tofu, GlyphOf;
    var cps := Codepoints(glyphs[1..]);
    forall j | 0 <= j < |cps| ensures cps[j] == glyphs[j + 1].cp { CodepointAt(glyphs, j + 1); }
    hide Codepoints;
    forall x | x in table ensures x in cps {
      var k :| 1 <= k < |glyphs| && glyphs[k].cp == x;
      assert cps[k - 1] == x;
    }
  }

  lemma CodepointAt(glyphs: seq<Glyph>, k: nat)
    requires 0 < k < |glyphs|
    ensures |Codepoints(glyphs[1..])| == |glyphs| - 1 && Codepoints(glyphs[1..])[k - 1] == glyphs[k].cp
  {
  }

  /** There is only one such list. */
  lemma ListsIsUnique(a: seq<Glyph>, b: seq<Glyph>, cellW: nat, cellH: nat, table: map<nat, Entry>)
    requires Lists(a, cellW, cellH, table) && Lists(b, cellW, cellH, table)
    ensures a == b
  {
    hide Tofu;
    ListedCodepoints(a, cellW, cellH, table);
    ListedCodepoints(b, cellW, cellH, table);
    SortedIsUnique(Codepoints(a[1..]), Codepoints(b[1..]));
    hide Sorted, Codepoints;
    forall k | 0 <= k < |a| ensures a[k] == b[k] {
      if k > 0 {
        CodepointAt(a, k);
        CodepointAt(b, k);
      }
    }
  }

  function GlyphOf(table: map<nat, Entry>, cp: nat): Glyph
    requires cp in table
  {
    Glyph(cp, table[cp].advance, table[cp].rows)
  }

  /** sorted(table). */
  method SortedKeys(keys: set<nat>) returns (cps: seq<nat>)
    ensures Sorted(cps) && |cps| == |keys| && forall cp :: cp in cps <==> cp in keys
  {
    cps := [];
    var rest := keys;
    while rest != {}
      invariant rest <= keys && |cps| + |rest| == |keys|
      invariant forall a, b :: 0 <= a < b < |cps| ==> cps[a] < cps[b]
      invariant forall cp :: cp in cps <==> cp in keys - rest
      decreases |rest|
    {
      var cp :| cp in rest;
      cps := Insert(cps, cp);
      rest := rest - {cp};
    }
  }

  method Insert(s: seq<nat>, x: nat) returns (t: seq<nat>)
    requires x !in s && forall a, b :: 0 <= a < b < |s| ==> s[a] < s[b]
    ensures |t| == |s| + 1 && forall a, b :: 0 <= a < b < |t| ==> t[a] < t[b]
    ensures forall cp :: cp in t <==> cp in s || cp == x
  {
    var i := 0;
    while i < |s| && s[i] < x
      invariant 0 <= i <= |s| && forall k :: 0 <= k < i ==> s[k] < x
    {
      i := i + 1;
    }
    t := s[..i] + [x] + s[i..];
    assert s == s[..i] + s[i..];
    Inserted(s[..i], x, s[i..]);
  }

  lemma Inserted(a: seq<nat>, x: nat, b: seq<nat>)
    requires forall i, j :: 0 <= i < j < |a + b| ==> (a + b)[i] < (a + b)[j]
    requires (a != [] ==> a[|a| - 1] < x) && (b != [] ==> x < b[0])
    ensures forall i, j :: 0 <= i < j < |a + [x] + b| ==> (a + [x] + b)[i] < (a + [x] + b)[j]
    ensures forall cp :: cp in a + [x] + b <==> cp in a + b || cp == x
  {
    var s, t := a + b, a + [x] + b;
    forall i, j | 0 <= i < j < |t| ensures t[i] < t[j] {
      if i < |a| {
        assert t[i] == s[i] <= s[|a| - 1];
        if j > |a| { assert t[j] == s[j - 1]; } else if j < |a| { assert t[j] == s[j]; }
      } else if i == |a| {
        assert t[j] == s[j - 1] >= s[|a|];
      } else {
        assert t[i] == s[i - 1] && t[j] == s[j - 1];
      }
    }
  }

  method Build(crc: Checksum, cellW: nat, cellH: nat, baseline: nat, table: map<nat, Entry>)
    returns (img: seq<Byte>)
    requires cellW > 0
    ensures exists glyphs :: Lists(glyphs, cellW, cellH, table) && img == Image(crc, cellW, cellH, baseline, glyphs)
  {
    hide Cmap, Bitmap, HeaderBytes, Lists, BitmapOff;
    var all := ListGlyphs(cellW, cellH, table);
    var cmap := WriteCmap(all);
    var bits := WriteBitmap(all, cellW);
    CmapSize(all);
    var body := cmap + seq(BitmapOff(|all|) - HEADER - |cmap|, _ => 0) + bits;
    img := HeaderBytes(cellW, cellH, baseline, |all|, crc(body)) + body;
  }

  method ListGlyphs(cellW: nat, cellH: nat, table: map<nat, Entry>) returns (glyphs: seq<Glyph>)
    requires cellW > 0
    ensures Lists(glyphs, cellW, cellH, table)
  {
    hide Tofu, Lists;
    var cps := SortedKeys(table.Keys);
    hide Sorted, TableGlyphs;
    assert forall cp :: cp in cps ==> cp in table;
    glyphs := [Glyph(0, cellW, Tofu(cellW, cellH))] + TableGlyphs(cps, table);
    ListsKeys(cellW, cellH, table, cps);
  }

  function TableGlyphs(cps: seq<nat>, table: map<nat, Entry>): (glyphs: seq<Glyph>)
    requires forall cp :: cp in cps ==> cp in table
    ensures |glyphs| == |cps| && forall k :: 0 <= k < |cps| ==> glyphs[k] == GlyphOf(table, cps[k])
  {
    seq(|cps|, k requires 0 <= k < |cps| => GlyphOf(table, cps[k]))
  }

  lemma ListsKeys(cellW: nat, cellH: nat, table: map<nat, Entry>, cps: seq<nat>)
    requires cellW > 0 && Sorted(cps) && |cps| == |table.Keys| && forall cp :: cp in cps <==> cp in table
    ensures Lists([Glyph(0, cellW, Tofu(cellW, cellH))] + TableGlyphs(cps, table), cellW, cellH, table)
  {
    hide Tofu, TableGlyphs;
    var glyphs := [Glyph(0, cellW, Tofu(cellW, cellH))] + TableGlyphs(cps, table);
    assert |table| == |table.Keys|;
    assert forall k :: 1 <= k < |glyphs| ==> glyphs[k] == TableGlyphs(cps, table)[k - 1] == GlyphOf(table, cps[k - 1]);
    forall cp | cp in table ensures exists k :: 1 <= k < |glyphs| && glyphs[k].cp == cp {
      var k :| 0 <= k < |cps| && cps[k] == cp;
      assert glyphs[k + 1].cp == cp;
    }
  }

  method WriteCmap(glyphs: seq<Glyph>) returns (cmap: seq<Byte>)
    ensures cmap == Cmap(glyphs)
  {
    hide CmapEntry;
    cmap := [];
    for k := 0 to |glyphs|
      invariant cmap == Cmap(glyphs[..k])
    {
      CmapGrows(glyphs, k);
      cmap := cmap + CmapEntry(glyphs[k]);
    }
    assert glyphs[..|glyphs|] == glyphs;
  }

  method WriteBitmap(glyphs: seq<Glyph>, cellW: nat) returns (bits: seq<Byte>)
    ensures bits == Bitmap(glyphs, cellW)
  {
    hide GlyphBits, PackRow;
    bits := [];
    for k := 0 to |glyphs|
      invariant bits == Bitmap(glyphs[..k], cellW)
    {
      BitmapGrows(glyphs, cellW, k);
      var rows := glyphs[k].rows;
      ghost var before := bits;
      EmptyBits(cellW);
      assert before + [] == before && rows[..0] == [];
      for r := 0 to |rows|
        invariant bits == before + GlyphBits(rows[..r], cellW)
      {
        BitsGrow(rows, cellW, r);
        assert before + (GlyphBits(rows[..r], cellW) + PackRow(rows[r], cellW)) == bits + PackRow(rows[r], cellW);
        bits := bits + PackRow(rows[r], cellW);
      }
      assert rows[..|rows|] == rows;
    }
    assert glyphs[..|glyphs|] == glyphs;
  }

  lemma CmapSize(glyphs: seq<Glyph>)
    ensures |Cmap(glyphs)| == 4 * |glyphs| && BitmapOff(|glyphs|) == HEADER + 4 * |glyphs|
  {
    TimesIsProduct(|glyphs|, 4);
    RecordAt(seq(|glyphs|, k requires 0 <= k < |glyphs| => CmapEntry(glyphs[k])), 4, |glyphs|);
  }

  lemma CmapGrows(glyphs: seq<Glyph>, k: nat)
    requires k < |glyphs|
    ensures Cmap(glyphs[..k + 1]) == Cmap(glyphs[..k]) + CmapEntry(glyphs[k])
  {
    var parts := seq(k + 1, j requires 0 <= j < k + 1 => CmapEntry(glyphs[..k + 1][j]));
    assert parts[..k] == seq(k, j requires 0 <= j < k => CmapEntry(glyphs[..k][j]));
  }

  lemma BitmapGrows(glyphs: seq<Glyph>, cellW: nat, k: nat)
    requires k < |glyphs|
    ensures Bitmap(glyphs[..k + 1], cellW) == Bitmap(glyphs[..k], cellW) + GlyphBits(glyphs[k].rows, cellW)
  {
    var parts := seq(k + 1, j requires 0 <= j < k + 1 => GlyphBits(glyphs[..k + 1][j].rows, cellW));
    assert parts[..k] == seq(k, j requires 0 <= j < k => GlyphBits(glyphs[..k][j].rows, cellW));
  }

  lemma EmptyBits(cellW: nat)
    ensures GlyphBits([], cellW) == []
  {
  }

  lemma BitsGrow(rows: seq<nat>, cellW: nat, r: nat)
    requires r < |rows|
    ensures GlyphBits(rows[..r + 1], cellW) == GlyphBits(rows[..r], cellW) + PackRow(rows[r], cellW)
  {
    var parts := seq(r + 1, j requires 0 <= j < r + 1 => PackRow(rows[..r + 1][j], cellW));
    assert parts[..r] == seq(r, j requires 0 <= j < r => PackRow(rows[..r][j], cellW));
  }

  // ------------------------------------------------------------ main results

  /** The header's fields read back what build() packed. */
  lemma HeaderReadsBack(cellW: nat, cellH: nat, baseline: nat, count: nat, crc: nat, body: seq<Byte>)
    requires cellW < 0x1_0000 && cellH < 0x1_0000 && baseline < 0x1_0000 && count < WORD && crc < WORD
    requires BitmapOff(count) < WORD && Times(count, GlyphBytes(cellW, cellH)) < WORD
    ensures var img := HeaderBytes(cellW, cellH, baseline, count, crc) + body;
      && img[HEADER..] == body
      && Field(img, 0, 4) == MAGIC && Field(img, 4, 2) == VERSION
      && Field(img, 6, 2) == cellW && Field(img, 8, 2) == cellH && Field(img, 10, 2) == baseline
      && Field(img, 12, 4) == count && Field(img, 16, 4) == HEADER && Field(img, 20, 4) == BitmapOff(count)
      && Field(img, 24, 4) == Times(count, GlyphBytes(cellW, cellH)) && Field(img, 28, 4) == crc
  {
    var img := HeaderBytes(cellW, cellH, baseline, count, crc) + body;
    var length := Times(count, GlyphBytes(cellW, cellH));
    Widths();
    hide Pack, Unpack, BitmapOff, GlyphBytes;
    assert img[HEADER..] == body;
    assert img[0..4] == Pack(MAGIC, 4) && img[4..6] == Pack(VERSION, 2);
    assert img[6..8] == Pack(cellW, 2) && img[8..10] == Pack(cellH, 2) && img[10..12] == Pack(baseline, 2);
    assert img[12..16] == Pack(count, 4) && img[16..20] == Pack(HEADER, 4) && img[20..24] == Pack(BitmapOff(count), 4);
    assert img[24..28] == Pack(length, 4) && img[28..32] == Pack(crc, 4);
    UnpackPack(MAGIC, 4);
    UnpackPack(VERSION, 2);
    UnpackPack(cellW, 2);
    UnpackPack(cellH, 2);
    UnpackPack(baseline, 2);
    UnpackPack(count, 4);
    UnpackPack(HEADER, 4);
    UnpackPack(BitmapOff(count), 4);
    UnpackPack(length, 4);
    UnpackPack(crc, 4);
  }

  lemma CmapReadsBack(glyphs: seq<Glyph>, img: seq<Byte>, k: nat)
    requires k < |glyphs| && |img| >= HEADER + 4 * |glyphs| && img[HEADER..HEADER + 4 * |glyphs|] == Cmap(glyphs)
    requires glyphs[k].cp < 0x1_0000 && glyphs[k].advance < 256
    ensures CmapAt(img, HEADER + k * 4) == Mapped(glyphs[k].cp, glyphs[k].advance, 0)
  {
    CmapRecord(glyphs, k);
    hide CmapEntry, Cmap, CmapAt;
    SubSlice(img, HEADER, Cmap(glyphs), k * 4, 4);
    EntryReadsBack(img, HEADER + k * 4, glyphs[k]);
  }

  lemma CmapRecord(glyphs: seq<Glyph>, k: nat)
    requires k < |glyphs|
    ensures |Cmap(glyphs)| == 4 * |glyphs| && Cmap(glyphs)[k * 4..k * 4 + 4] == CmapEntry(glyphs[k])
  {
    hide CmapEntry;
    TimesIsProduct(k, 4);
    TimesIsProduct(|glyphs|, 4);
    RecordAt(seq(|glyphs|, j requires 0 <= j < |glyphs| => CmapEntry(glyphs[j])), 4, k);
  }

  lemma EntryReadsBack(img: seq<Byte>, at: nat, g: Glyph)
    requires at + 4 <= |img| && img[at..at + 4] == CmapEntry(g) && g.cp < 0x1_0000 && g.advance < 256
    ensures CmapAt(img, at) == Mapped(g.cp, g.advance, 0)
  {
    Widths();
    hide Pack, Unpack;
    var entry := CmapEntry(g);
    SubSlice(img, at, entry, 0, 2);
    SubSlice(img, at, entry, 2, 1);
    SubSlice(img, at, entry, 3, 1);
    assert entry[0..2] == Pack(g.cp, 2) && entry[2..3] == Pack(g.advance, 1) && entry[3..4] == Pack(0, 1);
    UnpackPack(g.cp, 2);
    UnpackPack(g.advance, 1);
    UnpackPack(0, 1);
  }

  lemma BitmapReadsBack(info: Info, glyphs: seq<Glyph>, img: seq<Byte>, gid: nat)
    requires gid < |glyphs| && forall k :: 0 <= k < |glyphs| ==> Fits(glyphs[k], info.cellW, info.cellH)
    requires info.bitmapOff <= |img| && img[info.bitmapOff..] == Bitmap(glyphs, info.cellW)
    ensures RowsAt(info, img, gid) == glyphs[gid].rows
  {
    var w, h, rows := info.cellW, info.cellH, glyphs[gid].rows;
    GlyphAt(info, glyphs, img, gid);
    assert Fits(glyphs[gid], w, h);
    hide Bitmap, GlyphBits, GlyphBytes, GlyphOff, RowOf, Slice, Times;
    forall r | 0 <= r < h ensures RowsAt(info, img, gid)[r] == rows[r] {
      RowAt(info, img, GlyphOff(info, gid), rows, r);
    }
  }

  lemma GlyphAt(info: Info, glyphs: seq<Glyph>, img: seq<Byte>, gid: nat)
    requires gid < |glyphs| && forall k :: 0 <= k < |glyphs| ==> Fits(glyphs[k], info.cellW, info.cellH)
    requires info.bitmapOff <= |img| && img[info.bitmapOff..] == Bitmap(glyphs, info.cellW)
    ensures var off, size := GlyphOff(info, gid), GlyphBytes(info.cellW, info.cellH);
      off + size <= |img| && img[off..off + size] == GlyphBits(glyphs[gid].rows, info.cellW)
  {
    var w, h := info.cellW, info.cellH;
    BitmapSize(glyphs, w, h, gid);
    hide Bitmap, GlyphBits, GlyphBytes, Times, Fits;
    SubTail(img, info.bitmapOff, Bitmap(glyphs, w), Times(gid, GlyphBytes(w, h)), GlyphBytes(w, h));
  }

  lemma SubTail(img: seq<Byte>, off: nat, data: seq<Byte>, a: nat, size: nat)
    requires off <= |img| && img[off..] == data && a + size <= |data|
    ensures off + a + size <= |img| && img[off + a..off + a + size] == data[a..a + size]
  {
    assert img[off..off + |data|] == data;
    SubSlice(img, off, data, a, size);
  }

  /** Glyphs are records of one size in the bitmap. */
  lemma BitmapSize(glyphs: seq<Glyph>, w: nat, h: nat, gid: nat)
    requires gid < |glyphs| && forall k :: 0 <= k < |glyphs| ==> Fits(glyphs[k], w, h)
    ensures var size := GlyphBytes(w, h);
      && |Bitmap(glyphs, w)| == Times(|glyphs|, size) && Times(gid, size) + size <= Times(|glyphs|, size)
      && Bitmap(glyphs, w)[Times(gid, size)..Times(gid, size) + size] == GlyphBits(glyphs[gid].rows, w)
  {
    hide GlyphBits;
    forall k | 0 <= k < |glyphs| ensures |GlyphBits(glyphs[k].rows, w)| == GlyphBytes(w, h) {
      assert Fits(glyphs[k], w, h);
      GlyphSize(glyphs[k].rows, w, 0);
    }
    RecordAt(seq(|glyphs|, k requires 0 <= k < |glyphs| => GlyphBits(glyphs[k].rows, w)), GlyphBytes(w, h), gid);
  }

  /** Rows are records of one size in a glyph. */
  lemma GlyphSize(rows: seq<nat>, w: nat, r: nat)
    ensures var size := RowBytes(w);
      && |GlyphBits(rows, w)| == GlyphBytes(w, |rows|)
      && (r < |rows| ==>
            && Times(r, size) + size <= GlyphBytes(w, |rows|)
            && GlyphBits(rows, w)[Times(r, size)..Times(r, size) + size] == PackRow(rows[r], w))
  {
    hide PackRow;
    RecordAt(seq(|rows|, j requires 0 <= j < |rows| => PackRow(rows[j], w)), RowBytes(w), r);
  }

  lemma RowAt(info: Info, img: seq<Byte>, off: nat, rows: seq<nat>, r: nat)
    requires r < |rows| == info.cellH && rows[r] < Pow2(info.cellW)
    requires var size := GlyphBytes(info.cellW, info.cellH);
      off + size <= |img| && img[off..off + size] == GlyphBits(rows, info.cellW)
    ensures RowOf(info, img, off, r) == rows[r]
  {
    hide GlyphBytes, GlyphBits, RowBytes, UnpackRow, Slice, PackRow, Pow2, Times;
    var w, size := info.cellW, RowBytes(info.cellW);
    GlyphSize(rows, w, r);
    SubSlice(img, off, GlyphBits(rows, w), Times(r, size), size);
    SliceInside(img, off + Times(r, size), size);
    RowReadsBack(rows[r], w);
  }

  lemma SliceInside(s: seq<Byte>, a: nat, size: nat)
    requires a + size <= |s|
    ensures Slice(s, a, size) == s[a..a + size]
  {
  }

  /** A table that does not map U+0000 gives an image parse_image() accepts; with U+0000 in it the map is
      not ascending, and that is the only way it fails. */
  lemma ParseAcceptsBuild(crc: Checksum, cellW: nat, cellH: nat, baseline: nat, table: map<nat, Entry>,
    glyphs: seq<Glyph>)
    requires Lists(glyphs, cellW, cellH, table) && Writable(cellW, cellH, baseline, glyphs)
    ensures var img := Image(crc, cellW, cellH, baseline, glyphs);
      if 0 in table then Parse(crc, img) == Failure(NotAscending)
      else Parse(crc, img) == Success(Info(cellW, cellH, baseline, |glyphs|, MapOf(glyphs), BitmapOff(|glyphs|)))
  {
    hide Image, Field, Body, Bitmap, Cmap, CmapAt, GlyphBytes, BitmapOff, Lists;
    var img := Image(crc, cellW, cellH, baseline, glyphs);
    assert |glyphs| > 0 by { ListsSome(glyphs, cellW, cellH, table); }
    ImageLayout(crc, cellW, cellH, baseline, glyphs);
    forall k | 0 <= k < |glyphs| ensures CmapAt(img, HEADER + k * 4) == MapOf(glyphs)[k] {
      assert Fits(glyphs[k], cellW, cellH);
      CmapReadsBack(glyphs, img, k);
    }
    assert CmapOf(img, HEADER, |glyphs|) == MapOf(glyphs);
    MapAscends(glyphs, cellW, cellH, table);
  }

  lemma ListsSome(glyphs: seq<Glyph>, cellW: nat, cellH: nat, table: map<nat, Entry>)
    requires Lists(glyphs, cellW, cellH, table)
    ensures |glyphs| > 0
  {
  }

  function MapOf(glyphs: seq<Glyph>): seq<Mapped> {
    seq(|glyphs|, k requires 0 <= k < |glyphs| => Mapped(glyphs[k].cp, glyphs[k].advance, 0))
  }

  lemma {:induction false} FallsSomewhere(cmap: seq<Mapped>, k: nat)
    requires 0 < k < |cmap| && cmap[k].cp <= cmap[0].cp
    ensures !Ascending(cmap)
  {
    if k > 1 && cmap[k - 1].cp < cmap[k].cp {
      FallsSomewhere(cmap, k - 1);
    } else {
      assert !(cmap[k - 1].cp < cmap[(k - 1) + 1].cp);
    }
  }

  lemma MapAscends(glyphs: seq<Glyph>, cellW: nat, cellH: nat, table: map<nat, Entry>)
    requires Lists(glyphs, cellW, cellH, table)
    ensures Ascending(MapOf(glyphs)) <==> 0 !in table
  {
    hide Tofu;
    var cmap := MapOf(glyphs);
    if 0 in table {
      var k :| 1 <= k < |glyphs| && glyphs[k].cp == 0;
      FallsSomewhere(cmap, k);
    } else {
      forall k | 0 <= k < |cmap| - 1 ensures cmap[k].cp < cmap[k + 1].cp {
        if k == 0 { assert glyphs[1].cp in table; }
      }
    }
  }

  lemma ImageLayout(crc: Checksum, cellW: nat, cellH: nat, baseline: nat, glyphs: seq<Glyph>)
    requires |glyphs| > 0 && Writable(cellW, cellH, baseline, glyphs)
    ensures var img, n := Image(crc, cellW, cellH, baseline, glyphs), |glyphs|;
      && |img| == BitmapOff(n) + Times(n, GlyphBytes(cellW, cellH)) && BitmapOff(n) == HEADER + 4 * n
      && img[HEADER..HEADER + 4 * n] == Cmap(glyphs) && img[BitmapOff(n)..] == Bitmap(glyphs, cellW)
      && img[HEADER..] == Body(glyphs, cellW)
      && Field(img, 0, 4) == MAGIC && Field(img, 4, 2) == VERSION
      && Field(img, 6, 2) == cellW && Field(img, 8, 2) == cellH && Field(img, 10, 2) == baseline
      && Field(img, 12, 4) == n && Field(img, 16, 4) == HEADER && Field(img, 20, 4) == BitmapOff(n)
      && Field(img, 24, 4) == Times(n, GlyphBytes(cellW, cellH)) && Field(img, 28, 4) == crc(Body(glyphs, cellW))
  {
    hide Cmap, Bitmap, HeaderBytes, Field, GlyphBytes, BitmapOff;
    var body := Body(glyphs, cellW);
    HeaderReadsBack(cellW, cellH, baseline, |glyphs|, crc(body), body);
    CmapSize(glyphs);
    BitmapSize(glyphs, cellW, cellH, 0);
    BodyLayout(Image(crc, cellW, cellH, baseline, glyphs), body, Cmap(glyphs), Bitmap(glyphs, cellW));
  }

  lemma BodyLayout(img: seq<Byte>, body: seq<Byte>, cmap: seq<Byte>, bits: seq<Byte>)
    requires |img| >= HEADER && img[HEADER..] == body && body == cmap + [] + bits
    ensures |img| == HEADER + |cmap| + |bits|
    ensures img[HEADER..HEADER + |cmap|] == cmap && img[HEADER + |cmap|..] == bits
  {
    assert img[HEADER..HEADER + |cmap|] == body[..|cmap|];
    assert img[HEADER + |cmap|..] == body[|cmap|..];
  }

  /** Which images are accepted, byte by byte: the magic and the version, the checksum of all behind the header, a
      bitmap of whole glyphs that ends the file and begins at a multiple of four, and a map that lies inside and
      ascends strictly; and what is read from an accepted one. */
  lemma ParseAcceptsExactly(crc: Checksum, img: seq<Byte>)
    requires |img| >= 32
    ensures var count, cmapOff, bitmapOff := Field32(img, 12), Field32(img, 16), Field32(img, 20);
      Parse(crc, img).Success? <==>
        && img[0] == 0x4A && img[1] == 0x50 && img[2] == 0x46 && img[3] == 0x31 && Field16(img, 4) == 1
        && crc(img[32..]) == Field32(img, 28)
        && Field32(img, 24) == count * (Field16(img, 8) * ((Field16(img, 6) + 7) / 8))
        && bitmapOff + Field32(img, 24) == |img| && bitmapOff % 4 == 0
        && (count > 0 ==> cmapOff + 4 * count <= |img|)
        && forall k :: 0 < k < count ==> MapKey(img, cmapOff, k - 1) < MapKey(img, cmapOff, k)
    ensures Parse(crc, img).Success? ==>
      var info, cmapOff := Parse(crc, img).value, Field32(img, 16);
      && info.cellW == Field16(img, 6) && info.cellH == Field16(img, 8) && info.baseline == Field16(img, 10)
      && info.bitmapOff == Field32(img, 20) && info.count == Field32(img, 12) == |info.cmap|
      && forall k :: 0 <= k < info.count ==>
           && cmapOff + k * 4 + 4 <= |img| && info.cmap[k].cp == MapKey(img, cmapOff, k)
           && info.cmap[k].advance == img[cmapOff + k * 4 + 2] && info.cmap[k].flags == img[cmapOff + k * 4 + 3]
  {
    var cmapOff, count := Field32(img, 16), Field32(img, 12);
    HeaderFields(img);
    MagicBytes(img);
    TimesIsProduct(Field16(img, 8), RowBytes(Field16(img, 6)));
    TimesIsProduct(count, GlyphBytes(Field16(img, 6), Field16(img, 8)));
    hide Field, Times, Field16, Field32, CmapAt, MapKey, Ascending;
    if count > 0 && cmapOff + 4 * count <= |img| {
      MapKeys(img, cmapOff, count);
      AscendingKeys(CmapOf(img, cmapOff, count), img, cmapOff);
    } else if count == 0 {
      NoneAscend(CmapOf(img, cmapOff, count));
    }
  }

  /** The codepoint of entry k of a map at the given place. */
  function MapKey(img: seq<Byte>, off: nat, k: nat): nat {
    if off + k * 4 + 2 <= |img| then Field16(img, off + k * 4) else 0
  }

  lemma MapKeys(img: seq<Byte>, off: nat, count: nat)
    requires off + 4 * count <= |img|
    ensures forall k :: 0 <= k < count ==>
      var m := CmapOf(img, off, count)[k];
      m.cp == MapKey(img, off, k) && m.advance == img[off + k * 4 + 2] && m.flags == img[off + k * 4 + 3]
  {
    hide Field16, CmapAt;
    forall k | 0 <= k < count
      ensures var m := CmapOf(img, off, count)[k];
        m.cp == MapKey(img, off, k) && m.advance == img[off + k * 4 + 2] && m.flags == img[off + k * 4 + 3]
    {
      EntryBytes(img, off + k * 4);
    }
  }

  lemma NoneAscend(cmap: seq<Mapped>)
    ensures |cmap| <= 1 ==> Ascending(cmap)
  {
  }

  lemma AscendingKeys(cmap: seq<Mapped>, img: seq<Byte>, off: nat)
    requires forall k :: 0 <= k < |cmap| ==> cmap[k].cp == MapKey(img, off, k)
    ensures Ascending(cmap) <==> forall k :: 0 < k < |cmap| ==> MapKey(img, off, k - 1) < MapKey(img, off, k)
  {
    hide MapKey;
    if Ascending(cmap) {
      forall k | 0 < k < |cmap| ensures MapKey(img, off, k - 1) < MapKey(img, off, k) {
        assert cmap[k - 1].cp < cmap[(k - 1) + 1].cp;
      }
    } else {
      var k :| 0 <= k < |cmap| - 1 && !(cmap[k].cp < cmap[k + 1].cp);
      assert !(MapKey(img, off, (k + 1) - 1) < MapKey(img, off, k + 1));
    }
  }

  lemma EntryBytes(img: seq<Byte>, at: nat)
    requires at + 4 <= |img|
    ensures CmapAt(img, at) == Mapped(Field16(img, at), img[at + 2], img[at + 3])
  {
    hide Field16, Field32, Unpack;
    FieldsAreBytes(img, at);
    FieldsAreBytes(img, at + 2);
    FieldsAreBytes(img, at + 3);
  }

  lemma HeaderFields(img: seq<Byte>)
    requires |img| >= 32
    ensures Field(img, 0, 4) == Field32(img, 0)
    ensures Field(img, 4, 2) == Field16(img, 4) && Field(img, 6, 2) == Field16(img, 6)
    ensures Field(img, 8, 2) == Field16(img, 8) && Field(img, 10, 2) == Field16(img, 10)
    ensures Field(img, 12, 4) == Field32(img, 12) && Field(img, 16, 4) == Field32(img, 16)
    ensures Field(img, 20, 4) == Field32(img, 20) && Field(img, 24, 4) == Field32(img, 24)
    ensures Field(img, 28, 4) == Field32(img, 28)
  {
    hide Field16, Field32, Unpack;
    FieldsAreBytes(img, 0);
    FieldsAreBytes(img, 4);
    FieldsAreBytes(img, 6);
    FieldsAreBytes(img, 8);
    FieldsAreBytes(img, 10);
    FieldsAreBytes(img, 12);
    FieldsAreBytes(img, 16);
    FieldsAreBytes(img, 20);
    FieldsAreBytes(img, 24);
    FieldsAreBytes(img, 28);
  }

  lemma MagicBytes(img: seq<Byte>)
    requires |img| >= 4
    ensures Field32(img, 0) == MAGIC <==> img[0] == 0x4A && img[1] == 0x50 && img[2] == 0x46 && img[3] == 0x31
  {
  }

  /** Pixel c of a packed row, counted from the left, is bit 7 - c % 8 of its byte c / 8; the bits that fill up the
      last byte are clear. */
  lemma PixelInRow(row: nat, cellW: nat, c: nat)
    requires row < Pow2(cellW) && c < 8 * ((cellW + 7) / 8)
    ensures |PackRow(row, cellW)| == (cellW + 7) / 8
    ensures Bit(PackRow(row, cellW)[c / 8], 7 - c % 8) <==> c < cellW && Bit(row, cellW - 1 - c)
  {
    hide Bit, Shl;
    BitInBytes(Shl(row, Padding(cellW)), RowBytes(cellW), c);
    BitOfShiftedLeft(row, Padding(cellW), 8 * RowBytes(cellW) - 1 - c);
  }

  lemma {:induction false} BitInBytes(n: nat, k: nat, c: nat)
    requires c < 8 * k
    ensures Bit(PackBig(n, k)[c / 8], 7 - c % 8) == Bit(n, 8 * k - 1 - c)
  {
    hide Bit;
    if c / 8 == k - 1 {
      assert Pow2(8) == 256;
      BitOfRest(n, 8, 7 - c % 8);
    } else {
      BitInBytes(n / 256, k - 1, c);
      BitOfQuotient(n, 8 * (k - 1) - 1 - c);
    }
  }

  /** Where everything stands in a written image: the map entries from byte 32 on, four bytes each... */
  lemma EntryInImage(crc: Checksum, cellW: nat, cellH: nat, baseline: nat, glyphs: seq<Glyph>, g: nat, img: seq<Byte>)
    requires Writable(cellW, cellH, baseline, glyphs) && g < |glyphs|
    requires img == Image(crc, cellW, cellH, baseline, glyphs)
    ensures |img| == 32 + 4 * |glyphs| + |glyphs| * (cellH * ((cellW + 7) / 8))
    ensures 36 + 4 * g <= |img| && Field16(img, 32 + 4 * g) == glyphs[g].cp
    ensures img[34 + 4 * g] == glyphs[g].advance && img[35 + 4 * g] == 0
  {
    assert Fits(glyphs[g], cellW, cellH);
    ImageLayout(crc, cellW, cellH, baseline, glyphs);
    Strides(cellW, cellH, |glyphs|, g, 0);
    assert BitmapOff(|glyphs|) <= |img|;
    hide *;
    EntryStands(img, glyphs, g);
  }

  lemma EntryStands(img: seq<Byte>, glyphs: seq<Glyph>, g: nat)
    requires g < |glyphs| && |img| >= HEADER + 4 * |glyphs| && img[HEADER..HEADER + 4 * |glyphs|] == Cmap(glyphs)
    requires glyphs[g].cp < 0x1_0000 && glyphs[g].advance < 256
    ensures Field16(img, 32 + 4 * g) == glyphs[g].cp && img[34 + 4 * g] == glyphs[g].advance && img[35 + 4 * g] == 0
  {
    hide Cmap, CmapAt, Field16;
    CmapReadsBack(glyphs, img, g);
    EntryBytes(img, HEADER + g * 4);
  }

  /** ... and behind them the rows of the glyphs, the leftmost pixel the highest bit. */
  lemma PixelInImage(crc: Checksum, cellW: nat, cellH: nat, baseline: nat, glyphs: seq<Glyph>, g: nat, r: nat, c: nat,
                     img: seq<Byte>, at: nat)
    requires Writable(cellW, cellH, baseline, glyphs) && g < |glyphs| && r < cellH && c < 8 * ((cellW + 7) / 8)
    requires img == Image(crc, cellW, cellH, baseline, glyphs)
    requires at == 32 + 4 * |glyphs| + (g * cellH + r) * ((cellW + 7) / 8) + c / 8
    ensures at < |img| && r < |glyphs[g].rows|
    ensures Bit(img[at], 7 - c % 8) <==> c < cellW && Bit(glyphs[g].rows[r], cellW - 1 - c)
  {
    assert Fits(glyphs[g], cellW, cellH);
    ImageLayout(crc, cellW, cellH, baseline, glyphs);
    Strides(cellW, cellH, |glyphs|, g, r);
    hide *;
    RowStands(img, glyphs, cellW, cellH, g, r);
    PixelStands(img, at - c / 8, glyphs[g].rows[r], cellW, c);
  }

  lemma PixelStands(img: seq<Byte>, at: nat, row: nat, cellW: nat, c: nat)
    requires row < Pow2(cellW) && c < 8 * ((cellW + 7) / 8)
    requires at + RowBytes(cellW) <= |img| && img[at..at + RowBytes(cellW)] == PackRow(row, cellW)
    ensures at + c / 8 < |img| && (Bit(img[at + c / 8], 7 - c % 8) <==> c < cellW && Bit(row, cellW - 1 - c))
  {
    hide Bit, PackRow, Pow2;
    PixelInRow(row, cellW, c);
    assert img[at..at + RowBytes(cellW)][c / 8] == img[at + c / 8];
  }

  lemma Strides(w: nat, h: nat, n: nat, g: nat, r: nat)
    ensures var bytes := (w + 7) / 8;
      && Times(n, GlyphBytes(w, h)) == n * (h * bytes)
      && Times(g, GlyphBytes(w, h)) + Times(r, RowBytes(w)) == (g * h + r) * bytes
  {
    var bytes := RowBytes(w);
    TimesIsProduct(h, bytes);
    TimesIsProduct(n, GlyphBytes(w, h));
    TimesIsProduct(g, GlyphBytes(w, h));
    TimesIsProduct(r, bytes);
    RowPlace(g, h, r, bytes);
  }

  lemma RowPlace(g: nat, h: nat, r: nat, bytes: nat)
    ensures g * (h * bytes) + r * bytes == (g * h + r) * bytes
  {
  }

  lemma RowStands(img: seq<Byte>, glyphs: seq<Glyph>, cellW: nat, cellH: nat, g: nat, r: nat)
    requires g < |glyphs| && r < cellH && forall k :: 0 <= k < |glyphs| ==> Fits(glyphs[k], cellW, cellH)
    requires BitmapOff(|glyphs|) <= |img| && img[BitmapOff(|glyphs|)..] == Bitmap(glyphs, cellW)
    ensures var size := RowBytes(cellW);
      var at := BitmapOff(|glyphs|) + Times(g, GlyphBytes(cellW, cellH)) + Times(r, size);
      && r < |glyphs[g].rows| && at + size <= |img| && img[at..at + size] == PackRow(glyphs[g].rows[r], cellW)
  {
    var info := Info(cellW, cellH, 0, 0, [], BitmapOff(|glyphs|));
    assert Fits(glyphs[g], cellW, cellH);
    GlyphAt(info, glyphs, img, g);
    hide Bitmap, GlyphBits, GlyphBytes, PackRow, Times, BitmapOff;
    GlyphSize(glyphs[g].rows, cellW, r);
    SubSlice(img, GlyphOff(info, g), GlyphBits(glyphs[g].rows, cellW), Times(r, RowBytes(cellW)), RowBytes(cellW));
  }

  /** The whole round trip: what binary search returns for a codepoint is its entry in the table, and
      for any other codepoint glyph 0 with the tofu rows. */
  lemma LookupReadsTheTable(crc: Checksum, cellW: nat, cellH: nat, baseline: nat, table: map<nat, Entry>,
                            glyphs: seq<Glyph>, cp: nat, gid: nat, advance: nat)
    requires Lists(glyphs, cellW, cellH, table) && Writable(cellW, cellH, baseline, glyphs) && 0 !in table
    ensures var img := Image(crc, cellW, cellH, baseline, glyphs);
      && Parse(crc, img).Success?
      && var info, rows := Parse(crc, img).value, RowsAt(Parse(crc, img).value, img, gid);
      Finds(info, cp, gid, advance) ==>
        if cp in table then Entry(advance, rows) == table[cp]
        else gid == 0 && advance == cellW && rows == Tofu(cellW, cellH)
  {
    hide Tofu, RowsAt, Image, Parse, Finds;
    var img := Image(crc, cellW, cellH, baseline, glyphs);
    ParseAcceptsBuild(crc, cellW, cellH, baseline, table, glyphs);
    ImageLayout(crc, cellW, cellH, baseline, glyphs);
    var info := Parse(crc, img).value;
    if Finds(info, cp, gid, advance) {
      FoundGlyph(info, glyphs, table, cp, gid, advance);
      BitmapReadsBack(info, glyphs, img, gid);
    }
  }

  /** In the map of a built font the codepoint's entry is found, or else the tofu box. */
  lemma FoundGlyph(info: Info, glyphs: seq<Glyph>, table: map<nat, Entry>, cp: nat, gid: nat, advance: nat)
    requires Lists(glyphs, info.cellW, info.cellH, table) && 0 !in table && info.cmap == MapOf(glyphs)
    requires Finds(info, cp, gid, advance)
    ensures gid < |glyphs|
    ensures if cp in table then Entry(advance, glyphs[gid].rows) == table[cp]
            else gid == 0 && advance == info.cellW && glyphs[gid].rows == Tofu(info.cellW, info.cellH)
  {
    hide Tofu;
    if cp in table {
      var k :| 1 <= k < |glyphs| && glyphs[k].cp == cp;
      assert info.cmap[k].cp == cp;
      assert gid < |glyphs| && glyphs[gid].cp == cp;
    } else {
      assert forall k :: 0 <= k < |glyphs| && glyphs[k].cp == cp ==> k == 0;
    }
  }
}
