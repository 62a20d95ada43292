/**
 The row table of tools/pack_pet_compact.py: every row of 64 four-bit indices as runs, or raw where the
 runs are no shorter, with an offset and a flag for each row; and the firmware's reading of one row in
 main/pet/pet_pixels.c.
 */
module RowPacking {
  import opened Bits
  import opened Bytes

  type Index = i: int | 0 <= i < 16

  const RAW: nat := 0x8000
  const ROW: nat := 64

  /** Two pixels a byte, the even one in the low nibble. */
  function Indices(raw: seq<Byte>): (s: seq<Index>)
    ensures |s| == 2 * |raw|
  {
    seq(2 * |raw|, x requires 0 <= x < 2 * |raw| => if x % 2 == 0 then raw[x / 2] % 16 else raw[x / 2] / 16)
  }

  // ------------------------------------------------------------ runs

  function RunByte(count: nat, index: Index): Byte
    requires 1 <= count <= 16
  {
    (count - 1) * 16 + index
  }

  function RunLength(b: Byte): (n: nat)
    ensures 1 <= n <= 16
  {
    b / 16 + 1
  }

  function RunIndex(b: Byte): Index { b % 16 }

  function Expand(runs: seq<Byte>): seq<Index> {
    if runs == [] then [] else seq(RunLength(runs[0]), _ => RunIndex(runs[0])) + Expand(runs[1..])
  }

  /** How many of the first 16 indices equal the first. */
  function Leading(s: seq<Index>, count: nat): (n: nat)
    requires 1 <= count <= 16 && count <= |s|
    ensures count <= n <= 16 && n <= |s|
    ensures forall k :: count <= k < n ==> s[k] == s[0]
    ensures n == 16 || n == |s| || s[n] != s[0]
    decreases 16 - count
  {
    if count < 16 && count < |s| && s[count] == s[0] then Leading(s, count + 1) else count
  }

  /** The longest run at every step. */
  function Greedy(s: seq<Index>): seq<Byte>
    decreases |s|
  {
    if s == [] then []
    else
      var n := Leading(s, 1);
      [RunByte(n, s[0])] + Greedy(s[n..])
  }

  lemma {:induction false} GreedyExpands(s: seq<Index>)
    ensures Expand(Greedy(s)) == s
    decreases |s|
  {
    hide Leading;
    if s == [] {
    } else {
      var n := Leading(s, 1);
      GreedyExpands(s[n..]);
      var b := RunByte(n, s[0]);
      assert RunLength(b) == n && RunIndex(b) == s[0];
      assert s == s[..n] + s[n..];
      assert seq(n, _ => s[0]) == s[..n];
    }
  }

  /** A shorter remainder never needs more runs. */
  lemma {:induction false} SuffixNeedsNoMore(s: seq<Index>, k: nat)
    requires k <= |s|
    ensures |Greedy(s[k..])| <= |Greedy(s)|
    decreases |s|
  {
    hide Leading;
    if 0 < k < |s| {
      var n := Leading(s, 1);
      if k >= n {
        assert s[k..] == s[n..][k - n..];
        SuffixNeedsNoMore(s[n..], k - n);
      } else {
        var t := s[k..];
        var m := Leading(t, 1);
        assert t[0] == s[k] == s[0] && (m < |t| ==> t[m] == s[k + m]);
        assert k + m >= n;
        assert t[m..] == s[n..][k + m - n..];
        SuffixNeedsNoMore(s[n..], k + m - n);
      }
    } else if k == 0 {
      assert s[k..] == s;
    }
  }

  /** No sequence of runs that encodes the row is shorter than the greedy one. */
  lemma {:induction false} GreedyIsShortest(runs: seq<Byte>, s: seq<Index>)
    requires Expand(runs) == s
    ensures |Greedy(s)| <= |runs|
    decreases |runs|
  {
    hide Leading, Expand, Greedy;
    if s == [] {
      EmptyRow();
    } else {
      assert runs != [] by { if runs == [] { NoRuns(); } }
      var rest := Expand(runs[1..]);
      FirstRun(runs);
      GreedyIsShortest(runs[1..], rest);
      GreedyAhead(s, RunLength(runs[0]), rest);
    }
  }

  /** The greedy run is at least as long as any first run of one index. */
  lemma GreedyAhead(s: seq<Index>, c: nat, rest: seq<Index>)
    requires 1 <= c <= 16 && c <= |s| && s[c..] == rest && forall k :: 0 <= k < c ==> s[k] == s[0]
    ensures |Greedy(s)| <= 1 + |Greedy(rest)|
  {
    hide Leading, Greedy;
    var n := Leading(s, 1);
    LongerThan(s, c);
    SuffixNeedsNoMore(rest, n - c);
    assert s[n..] == s[c..][n - c..];
    GreedyTail(s);
  }

  lemma LongerThan(s: seq<Index>, c: nat)
    requires 1 <= c <= 16 && c <= |s| && forall k :: 0 <= k < c ==> s[k] == s[0]
    ensures c <= Leading(s, 1)
  {
    hide Leading;
  }

  lemma GreedyTail(s: seq<Index>)
    requires s != []
    ensures |Greedy(s)| == 1 + |Greedy(s[Leading(s, 1)..])|
  {
    hide Leading;
  }

  lemma NoRuns()
    ensures Expand([]) == []
  {
  }

  lemma FirstRun(runs: seq<Byte>)
    requires runs != []
    ensures var s, c := Expand(runs), RunLength(runs[0]);
      c <= |s| && s[c..] == Expand(runs[1..]) && forall k :: 0 <= k < c ==> s[k] == s[0]
  {
    var c := RunLength(runs[0]);
    var run: seq<Index> := seq(c, _ => RunIndex(runs[0]));
    assert Expand(runs) == run + Expand(runs[1..]);
    assert forall k :: 0 <= k < c ==> (run + Expand(runs[1..]))[k] == run[k];
  }

  /** The inner loop: how far the run at x reaches. */
  method CountRun(s: seq<Index>, x: nat) returns (count: nat)
    requires x < |s|
    ensures 1 <= count <= 16 && x + count <= |s| && count == Leading(s[x..], 1)
  {
    count := 1;
    while count < 16 && x + count < |s| && s[x + count] == s[x]
      invariant 1 <= count <= 16 && x + count <= |s|
      invariant Leading(s[x..], 1) == Leading(s[x..], count)
    {
      count := count + 1;
    }
  }

  /** The greedy loop of build(). */
  method EncodeRow(s: seq<Index>) returns (runs: seq<Byte>)
    ensures runs == Greedy(s)
  {
    hide Or, Greedy, Leading;
    runs := [];
    var x := 0;
    assert s[0..] == s && [] + Greedy(s) == Greedy(s);
    while x < |s|
      invariant 0 <= x <= |s| && runs + Greedy(s[x..]) == Greedy(s)
    {
      var count := CountRun(s, x);
      GreedyRun(s, x, count);
      PackedRun(count - 1, s[x]);
      var run := Or((count - 1) * 16, s[x]);
      assert runs + ([run] + Greedy(s[x + count..])) == (runs + [run]) + Greedy(s[x + count..]);
      runs := runs + [run];
      x := x + count;
    }
    assert s[x..] == [] && runs + [] == runs;
    EmptyRow();
  }

  lemma GreedyRun(s: seq<Index>, x: nat, count: nat)
    requires x < |s| && 1 <= count <= 16 && x + count <= |s| && Leading(s[x..], 1) == count
    ensures Greedy(s[x..]) == [RunByte(count, s[x])] + Greedy(s[x + count..])
  {
    assert s[x..][count..] == s[x + count..];
  }

  lemma EmptyRow()
    ensures Greedy([]) == []
  {
  }

  lemma PackedRun(h: nat, l: Index)
    ensures Or(h * 16, l) == h * 16 + l
  {
    assert Pow2(4) == 16;
    OrDisjoint(h, l, 4);
  }

  // ------------------------------------------------------------ the row table

  predicate IsPacked(raw: seq<Byte>) { |Greedy(Indices(raw))| < 32 }

  function Stored(raw: seq<Byte>): seq<Byte> { if IsPacked(raw) then Greedy(Indices(raw)) else raw }

  function Streams(raws: seq<seq<Byte>>): seq<Byte> {
    if raws == [] then [] else Streams(raws[..|raws| - 1]) + Stored(raws[|raws| - 1])
  }

  /** The table entry of row k, and after the last row the length of the streams. */
  function Entry(raws: seq<seq<Byte>>, k: nat): nat
    requires k <= |raws|
  {
    |Streams(raws[..k])| + (if k < |raws| && !IsPacked(raws[k]) then RAW else 0)
  }

  ghost predicate Rows(raws: seq<seq<Byte>>) { forall k :: 0 <= k < |raws| ==> |raws[k]| == 32 }

  /** A stored row takes at most 32 bytes. */
  lemma {:induction false} StreamsAreShort(raws: seq<seq<Byte>>, k: nat)
    requires Rows(raws) && k <= |raws|
    ensures |Streams(raws[..k])| <= 32 * k
    ensures k < |raws| ==> |Stored(raws[k])| <= 32 && Streams(raws[..k + 1]) == Streams(raws[..k]) + Stored(raws[k])
  {
    hide Greedy;
    if k < |raws| { assert raws[..k + 1][..k] == raws[..k]; }
    if k == 0 {
    } else {
      StreamsAreShort(raws, k - 1);
    }
  }

  /** With up to 1023 rows no offset reaches the flag: an entry holds both. */
  lemma OffsetsStayBelowTheFlag(raws: seq<seq<Byte>>, k: nat)
    requires Rows(raws) && k <= |raws| < 1024
    ensures Entry(raws, k) % RAW == |Streams(raws[..k])| < RAW
    ensures k < |raws| ==> (Entry(raws, k) >= RAW <==> !IsPacked(raws[k]))
  {
    hide Streams, IsPacked;
    StreamsAreShort(raws, k);
  }

  /** The bytes of row k stand at its offset. */
  lemma {:induction false} RowStandsAtItsOffset(raws: seq<seq<Byte>>, k: nat, n: nat)
    requires k < n <= |raws|
    ensures |Streams(raws[..k])| + |Stored(raws[k])| <= |Streams(raws[..n])|
    ensures Streams(raws[..n])[|Streams(raws[..k])|..][..|Stored(raws[k])|] == Stored(raws[k])
    decreases n
  {
    hide Stored;
    assert raws[..n][..n - 1] == raws[..n - 1];
    if k < n - 1 {
      RowStandsAtItsOffset(raws, k, n - 1);
      var whole, at := Streams(raws[..n - 1]), |Streams(raws[..k])|;
      assert (whole + Stored(raws[n - 1]))[at..][..|Stored(raws[k])|] == whole[at..][..|Stored(raws[k])|];
    }
  }

  /** pet_pixels_row(): runs until the row is full. */
  function ReadRuns(data: seq<Byte>, need: nat): seq<Index> {
    if need == 0 || data == [] then []
    else if RunLength(data[0]) >= need then seq(need, _ => RunIndex(data[0]))
    else seq(RunLength(data[0]), _ => RunIndex(data[0])) + ReadRuns(data[1..], need - RunLength(data[0]))
  }

  lemma {:induction false} ReadRunsStopsInTime(runs: seq<Byte>, after: seq<Byte>)
    ensures ReadRuns(runs + after, |Expand(runs)|) == Expand(runs)
  {
    if runs == [] {
    } else {
      assert (runs + after)[1..] == runs[1..] + after;
      ReadRunsStopsInTime(runs[1..], after);
      if |Expand(runs[1..])| == 0 { assert Expand(runs[1..]) == []; }
    }
  }

  /** pet_pixels_row() before the palette: one row from its own table entry. */
  function ReadRow(entries: seq<nat>, streams: seq<Byte>, k: nat): seq<Index>
    requires k < |entries| && entries[k] % RAW <= |streams|
    requires entries[k] >= RAW ==> entries[k] % RAW + 32 <= |streams|
  {
    var at := entries[k] % RAW;
    if entries[k] >= RAW then Indices(streams[at..at + 32]) else ReadRuns(streams[at..], ROW)
  }

  /** The table as build() writes it. */
  ghost predicate IsTable(raws: seq<seq<Byte>>, entries: seq<nat>, streams: seq<Byte>) {
    && Rows(raws) && |raws| < 1024 && streams == Streams(raws)
    && |entries| == |raws| + 1 && forall k :: 0 <= k <= |raws| ==> entries[k] == Entry(raws, k)
  }

  /** Any row is read back from its table entry alone. */
  lemma RowReadsBack(raws: seq<seq<Byte>>, entries: seq<nat>, streams: seq<Byte>, k: nat)
    requires IsTable(raws, entries, streams) && k < |raws|
    ensures var at := entries[k] % RAW; at <= |streams| && (entries[k] >= RAW ==> at + 32 <= |streams|)
    ensures ReadRow(entries, streams, k) == Indices(raws[k])
  {
    hide Greedy, Streams, Expand, ReadRuns, IsPacked, Indices;
    OffsetsStayBelowTheFlag(raws, k);
    RowStandsAtItsOffset(raws, k, |raws|);
    assert raws[..|raws|] == raws;
    var at := |Streams(raws[..k])|;
    StoredReadsBack(raws[k], streams[at..]);
    if !IsPacked(raws[k]) { assert streams[at..at + 32] == streams[at..][..32]; }
  }

  lemma StoredReadsBack(raw: seq<Byte>, data: seq<Byte>)
    requires |raw| == 32 && |Stored(raw)| <= |data| && data[..|Stored(raw)|] == Stored(raw)
    ensures IsPacked(raw) ==> ReadRuns(data, ROW) == Indices(raw)
    ensures !IsPacked(raw) ==> |data| >= 32 && Indices(data[..32]) == Indices(raw)
  {
    hide Greedy, Expand, ReadRuns, Indices;
    var stored := Stored(raw);
    if IsPacked(raw) {
      GreedyExpands(Indices(raw));
      ReadRunsStopsInTime(stored, data[|stored|..]);
      assert data == stored + data[|stored|..];
    }
  }

  /** The firmware's check of the row table, pet_pixels_valid(). */
  ghost predicate RowAccepted(entries: seq<nat>, streams: seq<Byte>, k: nat)
    requires k + 1 < |entries|
  {
    var begin, end := entries[k] % RAW, entries[k + 1] % RAW;
    && begin <= end <= |streams|
    && (if entries[k] >= RAW then end - begin == 32 else |Expand(streams[begin..end])| == ROW)
  }

  /** The sum of the counts in the check's loop is what the runs expand to. */
  lemma {:induction false} RunsAddUp(a: seq<Byte>, b: Byte)
    ensures Expand(a + [b]) == Expand(a) + seq(b / 16 + 1, _ => b % 16)
  {
    if a == [] {
      assert [] + [b] == [b] && [b][1..] == [];
      assert Expand([b]) == seq(b / 16 + 1, _ => b % 16) + Expand([]);
    } else {
      RunsAddUp(a[1..], b);
      assert (a + [b])[1..] == a[1..] + [b];
    }
  }

  /** One row of the loop of pet_pixels_valid(). */
  method CheckRow(entries: seq<nat>, streams: seq<Byte>, k: nat) returns (ok: bool)
    requires k + 1 < |entries|
    ensures ok <==> RowAccepted(entries, streams, k)
  {
    hide Expand;
    var end := entries[k + 1] % RAW;
    var begin := entries[k] % RAW;
    if end < begin || end > |streams| { return false; }
    if entries[k] >= RAW { return end - begin == 32; }
    var count: nat := 0;
    NoRuns();
    assert streams[begin..begin] == [];
    for off := begin to end
      invariant count == |Expand(streams[begin..off])|
    {
      RunsAddUp(streams[begin..off], streams[off]);
      assert streams[begin..off + 1] == streams[begin..off] + [streams[off]];
      count := count + (streams[off] / 16 + 1);
    }
    ok := count == 64;
  }

  /** The loops of pet_pixels_row(), on any row that the check accepts, packed by this program or not: they write
      all 64 pixels and none beyond, from the row's own bytes. */
  method UnpackRow(entries: seq<nat>, streams: seq<Byte>, k: nat) returns (row: seq<Index>)
    requires k + 1 < |entries| && RowAccepted(entries, streams, k)
    ensures |row| == 64 && row == ReadRow(entries, streams, k)
    ensures entries[k] >= RAW ==> forall x :: 0 <= x < 64 ==>
      var b := streams[entries[k] % RAW + x / 2]; row[x] == if x % 2 == 0 then b % 16 else b / 16
    ensures entries[k] < RAW ==> row == Expand(streams[entries[k]..entries[k + 1] % RAW])
  {
    hide Expand, ReadRuns;
    var at, end := entries[k] % RAW, entries[k + 1] % RAW;
    ghost var own := streams[at..end];
    row := [];
    if entries[k] >= RAW {
      for x := 0 to 64
        invariant row == Indices(own)[..x]
      {
        Nibble(own[x / 2]);
        row := row + [And(if x % 2 == 0 then streams[at + x / 2] else streams[at + x / 2] / 16, 15)];
      }
    } else {
      NoRuns();
      assert streams[at..at] == [] && [] + Expand(own) == Expand(own);
      while |row| < 64
        invariant entries[k] % RAW <= at <= end && row == Expand(streams[entries[k] % RAW..at])
        invariant row + Expand(streams[at..end]) == Expand(own)
        decreases end - at
      {
        ghost var rest := streams[at..end];
        if rest == [] { assert false; }
        FirstByte(rest);
        RunsAddUp(streams[entries[k] % RAW..at], streams[at]);
        assert streams[entries[k] % RAW..at + 1] == streams[entries[k] % RAW..at] + [streams[at]];
        assert rest[1..] == streams[at + 1..end];
        row := row + seq(streams[at] / 16 + 1, _ => streams[at] % 16);
        at := at + 1;
      }
      assert Expand(streams[at..end]) == [];
      assert row == Expand(own);
      assert streams[entries[k] % RAW..] == own + streams[end..];
      ReadRunsStopsInTime(own, streams[end..]);
    }
  }

  lemma FirstByte(runs: seq<Byte>)
    requires runs != []
    ensures Expand(runs) == seq(runs[0] / 16 + 1, _ => runs[0] % 16) + Expand(runs[1..])
  {
  }

  /** A row is stored as runs exactly when some runs shorter than its 32 bytes encode it. */
  lemma RunsWhereShorter(raws: seq<seq<Byte>>, entries: seq<nat>, streams: seq<Byte>, k: nat, s: seq<Index>)
    requires IsTable(raws, entries, streams) && k < |raws| && |s| == 64
    requires forall x :: 0 <= x < 64 ==> s[x] == if x % 2 == 0 then raws[k][x / 2] % 16 else raws[k][x / 2] / 16
    ensures entries[k] < 0x8000 <==> exists runs :: |runs| < 32 && Expand(runs) == s
    ensures var at := entries[k] % RAW; at <= |streams| && (entries[k] >= RAW ==> at + 32 <= |streams|)
    ensures ReadRow(entries, streams, k) == s
  {
    var raw := raws[k];
    assert Indices(raw) == s;
    OffsetsStayBelowTheFlag(raws, k);
    RowReadsBack(raws, entries, streams, k);
    assert entries[k] == Entry(raws, k);
    assert IsPacked(raw) <==> |Greedy(s)| < 32;
    hide *;
    GreedyExpands(s);
    if runs :| |runs| < 32 && Expand(runs) == s { GreedyIsShortest(runs, s); }
  }

  lemma TableIsAccepted(raws: seq<seq<Byte>>, entries: seq<nat>, streams: seq<Byte>, k: nat)
    requires IsTable(raws, entries, streams) && k < |raws|
    ensures RowAccepted(entries, streams, k) && entries[0] % RAW == 0
  {
    assert entries[0] == Entry(raws, 0) && entries[k] == Entry(raws, k) && entries[k + 1] == Entry(raws, k + 1);
    assert raws[..|raws|] == raws && |raws[k]| == 32;
    hide *;
    NoRows(raws);
    OffsetsStayBelowTheFlag(raws, 0);
    OffsetsStayBelowTheFlag(raws, k);
    OffsetsStayBelowTheFlag(raws, k + 1);
    StreamsAreShort(raws, k);
    RowStandsAtItsOffset(raws, k, |raws|);
    StoredExpands(raws[k]);
    AcceptedFrom(entries, streams, k, |Streams(raws[..k])|, Stored(raws[k]));
  }

  lemma AcceptedFrom(entries: seq<nat>, streams: seq<Byte>, k: nat, at: nat, stored: seq<Byte>)
    requires k + 1 < |entries| && at + |stored| <= |streams| && streams[at..][..|stored|] == stored
    requires entries[k] % RAW == at && entries[k + 1] % RAW == at + |stored|
    requires if entries[k] >= RAW then |stored| == 32 else |Expand(stored)| == ROW
    ensures RowAccepted(entries, streams, k)
  {
    hide Expand;
    assert streams[at..at + |stored|] == streams[at..][..|stored|];
  }

  lemma StoredExpands(raw: seq<Byte>)
    requires |raw| == 32
    ensures if IsPacked(raw) then |Expand(Stored(raw))| == ROW else |Stored(raw)| == 32
  {
    hide Greedy, Expand, Indices;
    GreedyExpands(Indices(raw));
  }

  // ------------------------------------------------------------ building it

  /** The rows of the bodies, 64 of 32 bytes each. */
  function RowsOf(bodies: seq<seq<Byte>>): (raws: seq<seq<Byte>>)
    requires forall b :: 0 <= b < |bodies| ==> |bodies[b]| == 2048
    ensures |raws| == 64 * |bodies| && Rows(raws)
  {
    seq(64 * |bodies|, r requires 0 <= r < 64 * |bodies| => bodies[r / 64][32 * (r % 64)..32 * (r % 64) + 32])
  }

  /** Row y of body b is the y-th 32 bytes of that body. */
  lemma RowOfBody(bodies: seq<seq<Byte>>, b: nat, y: nat)
    requires (forall k :: 0 <= k < |bodies| ==> |bodies[k]| == 2048) && b < |bodies| && y < 64
    ensures RowsOf(bodies)[64 * b + y] == bodies[b][32 * y..32 * y + 32]
  {
    assert (64 * b + y) / 64 == b && (64 * b + y) % 64 == y;
  }

  method Build(bodies: seq<seq<Byte>>) returns (entries: seq<nat>, streams: seq<Byte>)
    requires |bodies| == 3 && forall b :: 0 <= b < |bodies| ==> |bodies[b]| == 2048
    ensures IsTable(RowsOf(bodies), entries, streams)
  {
    hide Or, Streams, IsPacked, Entry, Greedy, Indices;
    ghost var raws := RowsOf(bodies);
    NoRows(raws);
    entries, streams := [], [];
    for b := 0 to 3
      invariant |entries| == 64 * b && streams == Streams(raws[..64 * b])
      invariant forall k :: 0 <= k < 64 * b ==> entries[k] == Entry(raws, k)
    {
      for y := 0 to 64
        invariant |entries| == 64 * b + y && streams == Streams(raws[..64 * b + y])
        invariant forall k :: 0 <= k < 64 * b + y ==> entries[k] == Entry(raws, k)
      {
        var raw := bodies[b][y * 32..(y + 1) * 32];
        assert raws[64 * b + y] == raw;
        var entry, stored := PackRow(raw, |streams|, raws, 64 * b + y);
        entries, streams := entries + [entry], streams + stored;
      }
    }
    LastEntry(raws);
    entries := entries + [|streams|];
  }

  lemma NoRows(raws: seq<seq<Byte>>)
    ensures Streams(raws[..0]) == []
  {
  }

  lemma LastEntry(raws: seq<seq<Byte>>)
    ensures Entry(raws, |raws|) == |Streams(raws)| && raws[..|raws|] == raws
  {
    assert raws[..|raws|] == raws;
  }

  /** One row of the table: its entry and its bytes. */
  method PackRow(raw: seq<Byte>, offset: nat, ghost raws: seq<seq<Byte>>, ghost r: nat)
    returns (entry: nat, stored: seq<Byte>)
    requires Rows(raws) && r < |raws| < 1024 && raws[r] == raw && offset == |Streams(raws[..r])|
    ensures entry == Entry(raws, r) && Streams(raws[..r + 1]) == Streams(raws[..r]) + stored
  {
    hide Or, Streams, Greedy, Indices;
    var indices := ReadIndices(raw);
    var runs := EncodeRow(indices);
    var packed := |runs| < 32;
    OffsetsStayBelowTheFlag(raws, r);
    StreamsAreShort(raws, r);
    FlaggedOffset(offset);
    entry := Or(offset, if packed then 0 else RAW);
    stored := if packed then runs else raw;
  }

  method ReadIndices(raw: seq<Byte>) returns (s: seq<Index>)
    requires |raw| == 32
    ensures s == Indices(raw)
  {
    s := [];
    for x := 0 to 64
      invariant s == Indices(raw)[..x]
    {
      Nibble(raw[x / 2]);
      s := s + [And(if x % 2 == 0 then raw[x / 2] else raw[x / 2] / 16, 15)];
    }
  }

  lemma Nibble(b: Byte)
    ensures And(b, 15) == b % 16 && And(b / 16, 15) == b / 16
  {
    LowNibble(b);
    LowNibble(b / 16);
  }

  lemma LowNibble(t: nat)
    ensures And(t, 15) == t % 16
  {
    hide And;
    assert And(t / 2 / 2 / 2 / 2, 0) == 0 by { AndZero(t / 2 / 2 / 2 / 2); }
    var a := t / 2;
    var b := a / 2;
    var c := b / 2;
    AndDoubles(c, 1, 0);
    AndDoubles(b, 2, c % 2);
    AndDoubles(a, 4, 2 * (c % 2) + b % 2);
    AndDoubles(t, 8, 2 * (2 * (c % 2) + b % 2) + a % 2);
    HalfOf16(t);
    HalfOf8(a);
    HalfOf4(b);
  }

  lemma HalfOf16(t: nat)
    ensures t % 16 == 2 * ((t / 2) % 8) + t % 2
  {
  }

  lemma HalfOf8(t: nat)
    ensures t % 8 == 2 * ((t / 2) % 4) + t % 2
  {
  }

  lemma HalfOf4(t: nat)
    ensures t % 4 == 2 * ((t / 2) % 2) + t % 2
  {
  }

  lemma FlaggedOffset(n: nat)
    requires n < RAW
    ensures Or(n, RAW) == n + RAW && Or(n, 0) == n
  {
    assert Pow2(15) == RAW;
    OrDisjoint(1, n, 15);
    OrIsSymmetric(n, RAW);
  }

  lemma {:induction false} OrIsSymmetric(a: nat, b: nat)
    ensures Or(a, b) == Or(b, a)
  {
    if a > 0 && b > 0 { OrIsSymmetric(a / 2, b / 2); }
  }
}
