/** place() of tools/make_jpfont.py: a BDF glyph put into its cell by its bounding box, clipped. */
module GlyphPlacement {
  import opened Bits

  /** A glyph's bounding box: size, and offset of its bottom-left corner from the baseline origin. */
  datatype Box = Box(w: nat, h: nat, xoff: int, yoff: int)

  /** The bytes of a glyph row. */
  function SourceBytes(w: nat): nat { (w + 7) / 8 }

  /** The cell row the box's top row lands on. */
  function Top(box: Box, ascent: int): int { ascent - (box.yoff + box.h) }

  /** Pixel (i, j) of the glyph: rows run down from the top, the leftmost pixel is the highest of the
      row's whole bytes, and nothing stands outside the box. */
  predicate GlyphPixel(box: Box, rows: seq<nat>, i: int, j: int) {
    0 <= i < |rows| && 0 <= j < box.w && Bit(rows[i], SourceBytes(box.w) * 8 - 1 - j)
  }

  /** Pixel c of a cell row, the leftmost the highest bit. */
  predicate CellPixel(row: nat, c: nat, cellW: nat)
    requires c < cellW
  {
    Bit(row, cellW - 1 - c)
  }

  /** A glyph row moved into its cell. */
  function Placed(bits: nat, box: Box, cellW: nat): nat {
    var v := And(Shr(bits, SourceBytes(box.w) * 8 - box.w), Pow2(box.w) - 1);
    var shift := cellW - box.w - box.xoff;
    And(if shift >= 0 then Shl(v, shift) else Shr(v, -shift), Pow2(cellW) - 1)
  }

  /** Whichever way the row is shifted, pixel c of the cell is pixel c - xoff of the glyph. */
  lemma PlacedPixel(bits: nat, box: Box, cellW: nat, c: nat)
    requires c < cellW
    ensures CellPixel(Placed(bits, box, cellW), c, cellW) == GlyphPixel(box, [bits], 0, c - box.xoff)
    ensures Placed(bits, box, cellW) < Pow2(cellW)
  {
    hide Bit, And, Pow2, Shl, Shr;
    var down, w, k := SourceBytes(box.w) * 8 - box.w, box.w, cellW - 1 - c;
    var v := And(Shr(bits, down), Pow2(w) - 1);
    var shift := cellW - w - box.xoff;
    if shift >= 0 {
      BitOfMasked(Shl(v, shift), cellW, k);
      BitOfShiftedLeft(v, shift, k);
    } else {
      BitOfMasked(Shr(v, -shift), cellW, k);
      BitOfShiftedRight(v, -shift, k);
    }
    // the bit of v that lands on k
    var b := k - shift;
    if b >= 0 {
      BitOfMasked(Shr(bits, down), w, b);
      BitOfShiftedRight(bits, down, b);
    }
  }

  /** What the cell holds once the first n glyph rows are placed. */
  ghost predicate PlacedSoFar(cell: seq<nat>, box: Box, rows: seq<nat>, ascent: int, cellW: nat, n: nat) {
    forall r :: 0 <= r < |cell| ==>
      var i := r - Top(box, ascent);
      cell[r] == if 0 <= i < n && i < |rows| then Placed(rows[i], box, cellW) else 0
  }

  /** Pixel-exact clipping, for every box and offset: cell pixel (r, c) is set exactly when the glyph has pixel
      (r - top, c - xoff) inside its box, whose top row lands on cell row ascent - (yoff + h). Pixel c of a row is
      bit cellW - 1 - c in the cell, and counted down from the top of the row's whole bytes in the glyph. */
  method Place(box: Box, rows: seq<nat>, ascent: int, cellW: nat, cellH: nat) returns (cell: seq<nat>)
    ensures |cell| == cellH && forall r :: 0 <= r < cellH ==> cell[r] < Pow2(cellW)
    ensures forall r, k :: 0 <= r < cellH && 0 <= k < cellW ==>
      var i, j := r - (ascent - (box.yoff + box.h)), (cellW - 1 - k) - box.xoff;
      Bit(cell[r], k) <==> 0 <= i < |rows| && 0 <= j < box.w && Bit(rows[i], (box.w + 7) / 8 * 8 - 1 - j)
  {
    hide Bit, And, Pow2, Shl, Shr, Placed;
    cell := seq(cellH, _ => 0);
    var top := ascent - (box.yoff + box.h);
    for i := 0 to |rows|
      invariant |cell| == cellH && PlacedSoFar(cell, box, rows, ascent, cellW, i)
    {
      var r := top + i;
      if r < 0 || r >= cellH { continue; }
      var v := Shr(rows[i], SourceBytes(box.w) * 8 - box.w);
      v := And(v, Pow2(box.w) - 1);
      var shift := cellW - box.w - box.xoff;
      if shift >= 0 { v := Shl(v, shift); } else { v := Shr(v, -shift); }
      PlacedIs(rows[i], box, cellW);
      cell := cell[r := Or(cell[r], And(v, Pow2(cellW) - 1))];
    }
    forall r, k | 0 <= r < cellH && 0 <= k < cellW
      ensures Bit(cell[r], k) <==> GlyphPixel(box, rows, r - top, (cellW - 1 - k) - box.xoff)
    {
      if 0 <= r - top < |rows| {
        PlacedPixel(rows[r - top], box, cellW, cellW - 1 - k);
      } else {
        BitOfZero(k);
      }
    }
    forall r | 0 <= r < cellH ensures cell[r] < Pow2(cellW) {
      if 0 <= r - top < |rows| { PlacedFits(rows[r - top], box, cellW); }
    }
  }

  lemma PlacedIs(bits: nat, box: Box, cellW: nat)
    ensures var v := And(Shr(bits, SourceBytes(box.w) * 8 - box.w), Pow2(box.w) - 1);
      var shift := cellW - box.w - box.xoff;
      Placed(bits, box, cellW) == And(if shift >= 0 then Shl(v, shift) else Shr(v, -shift), Pow2(cellW) - 1)
  {
  }

  lemma PlacedFits(bits: nat, box: Box, cellW: nat)
    ensures Placed(bits, box, cellW) < Pow2(cellW)
  {
    hide Bit, And, Pow2, Shl, Shr;
    var v := And(Shr(bits, SourceBytes(box.w) * 8 - box.w), Pow2(box.w) - 1);
    var shift := cellW - box.w - box.xoff;
    BitOfMasked(if shift >= 0 then Shl(v, shift) else Shr(v, -shift), cellW, 0);
  }
}
