/**
 transcript_tokens() of tools/pet_companion.py: a cursor into a growing file of lines and a table that keeps
 the largest token count of every message.
 */
module TokenLedger {
  import opened Options
  import opened Bytes
  import opened Records

  const LINE_LIMIT: nat := 2 * 1024 * 1024 + 1
  const BATCH: nat := 4 * 1024 * 1024
  const NEWLINE: Byte := 10

  type Line = seq<Byte>

  /** What a line contributes: the digest of its message and its tokens. */
  datatype Record = Record(id: nat, tokens: nat)

  /** The JSON decoding and the checks on the record; None where the loop goes on to the next line. */
  type Parser = Line -> Option<Record>

  type Table = map<nat, nat>

  datatype Cursor = Cursor(inode: nat, offset: nat)

  // ------------------------------------------------------------ lines

  /** One past the first newline from at on, or the end. */
  function LineEnd(s: seq<Byte>, at: nat): (end: nat)
    requires at <= |s|
    ensures at <= end <= |s| && (at < |s| ==> at < end)
    ensures forall k :: at <= k < end - 1 ==> s[k] != NEWLINE
    ensures end == |s| || s[end - 1] == NEWLINE
    decreases |s| - at
  {
    if at == |s| then at else if s[at] == NEWLINE then at + 1 else LineEnd(s, at + 1)
  }

  /** f.readline(LINE_LIMIT) at the given place. */
  function ReadLine(s: seq<Byte>, at: nat): (line: Line)
    requires at <= |s|
    ensures at + |line| <= |s| && line == s[at..at + |line|]
  {
    var end := LineEnd(s, at);
    if end - at <= LINE_LIMIT then s[at..end] else s[at..at + LINE_LIMIT]
  }

  predicate Ends(line: Line) { line != [] && line[|line| - 1] == NEWLINE }

  /** A newline at the end and nowhere else. */
  predicate OneLine(line: Line) { Ends(line) && forall k :: 0 <= k < |line| - 1 ==> line[k] != NEWLINE }

  /** The lines are what s consists of. */
  predicate Splits(lines: seq<Line>, s: seq<Byte>) {
    Concat(lines) == s && forall k :: 0 <= k < |lines| ==> OneLine(lines[k])
  }

  lemma {:induction false} SplitIsUnique(a: seq<Line>, b: seq<Line>, s: seq<Byte>)
    requires Splits(a, s) && Splits(b, s)
    ensures a == b
    decreases |a|
  {
    if a == [] {
      if b != [] { LastLine(b); }
    } else {
      LastLine(a);
      if b == [] { assert false; }
      LastLine(b);
      var m, n := |a| - 1, |b| - 1;
      var x, y := Concat(a[..m]), Concat(b[..n]);
      SameEnd(x, a[m], y, b[n]);
      SplitIsUnique(a[..m], b[..n], x);
      assert a == a[..m] + [a[m]] && b == b[..n] + [b[n]];
    }
  }

  lemma LastLine(lines: seq<Line>)
    requires lines != [] && forall k :: 0 <= k < |lines| ==> OneLine(lines[k])
    ensures var n := |lines| - 1;
      Concat(lines) == Concat(lines[..n]) + lines[n] && lines[n] != []
      && (Concat(lines[..n]) == [] || Ends(Concat(lines[..n])))
  {
    var n := |lines| - 1;
    if n > 0 {
      assert lines[..n][..n - 1] == lines[..n - 1];
      var head := Concat(lines[..n - 1]);
      assert Concat(lines[..n]) == head + lines[n - 1];
      assert OneLine(lines[n - 1]);
      assert (head + lines[n - 1])[|head| + |lines[n - 1]| - 1] == NEWLINE;
    }
  }

  lemma SameEnd(x: seq<Byte>, a: Line, y: seq<Byte>, b: Line)
    requires x + a == y + b && OneLine(a) && OneLine(b) && (x == [] || Ends(x)) && (y == [] || Ends(y))
    ensures x == y && a == b
  {
    EndsInside(x, a, y, b);
    EndsInside(y, b, x, a);
    assert |x| == |y|;
    assert x == (x + a)[..|x|] && y == (y + b)[..|y|];
    assert a == (x + a)[|x|..] && b == (y + b)[|y|..];
  }

  lemma EndsInside(x: seq<Byte>, a: Line, y: seq<Byte>, b: Line)
    requires x + a == y + b && OneLine(a) && (y == [] || Ends(y)) && b != []
    ensures |y| <= |x|
  {
    assert y != [] ==> (x + a)[|y| - 1] == (y + b)[|y| - 1] == NEWLINE;
  }

  /** A line that ends is read whole; one longer than the limit is not. */
  lemma ReadLineEnds(s: seq<Byte>, at: nat)
    requires at <= |s|
    ensures var line, end := ReadLine(s, at), LineEnd(s, at);
      Ends(line) <==> at < end && s[end - 1] == NEWLINE && end - at <= LINE_LIMIT
    ensures Ends(ReadLine(s, at)) ==> OneLine(ReadLine(s, at)) && at + |ReadLine(s, at)| == LineEnd(s, at)
  {
    hide LineEnd;
    var line, end := ReadLine(s, at), LineEnd(s, at);
    if end - at > LINE_LIMIT { assert line[LINE_LIMIT - 1] == s[at + LINE_LIMIT - 1]; }
  }

  // ------------------------------------------------------------ the table

  /** insert .. on conflict do update set tokens = max(tokens, excluded.tokens) */
  function Upsert(table: Table, record: Option<Record>): Table {
    match record
    case None => table
    case Some(r) => if r.id in table && table[r.id] >= r.tokens then table else table[r.id := r.tokens]
  }

  function Apply(parse: Parser, table: Table, lines: seq<Line>): Table {
    if lines == [] then table else Upsert(Apply(parse, table, lines[..|lines| - 1]), parse(lines[|lines| - 1]))
  }

  /** The table holds for every message the largest count that a line of it states, and nothing else. */
  ghost predicate HighWater(parse: Parser, table: Table, lines: seq<Line>) {
    && (forall id :: id in table ==> exists line :: line in lines && parse(line) == Some(Record(id, table[id])))
    && (forall line :: line in lines && parse(line).Some? ==>
          parse(line).value.id in table && parse(line).value.tokens <= table[parse(line).value.id])
  }

  lemma UpsertRises(parse: Parser, table: Table, lines: seq<Line>, line: Line)
    requires HighWater(parse, table, lines)
    ensures HighWater(parse, Upsert(table, parse(line)), lines + [line])
  {
    var after, all := Upsert(table, parse(line)), lines + [line];
    forall id | id in after ensures exists l :: l in all && parse(l) == Some(Record(id, after[id])) {
      if id in table && after[id] == table[id] {
        var l :| l in lines && parse(l) == Some(Record(id, table[id]));
        assert l in all;
      } else {
        assert line in all;
      }
    }
  }

  lemma {:induction false} ApplyIsHighWater(parse: Parser, lines: seq<Line>)
    ensures HighWater(parse, Apply(parse, map[], lines), lines)
  {
    if lines == [] {
    } else {
      var n := |lines| - 1;
      ApplyIsHighWater(parse, lines[..n]);
      UpsertRises(parse, Apply(parse, map[], lines[..n]), lines[..n], lines[n]);
      assert lines == lines[..n] + [lines[n]];
    }
  }

  /** Neither order nor repetition matters: the lines as a set decide the table. */
  lemma SameLinesSameTable(parse: Parser, s: Table, t: Table, a: seq<Line>, b: seq<Line>)
    requires HighWater(parse, s, a) && HighWater(parse, t, b) && forall line :: line in a <==> line in b
    ensures s == t
  {
    forall id ensures id in s ==> id in t && s[id] <= t[id] { Below(parse, s, t, a, b, id); }
    forall id ensures id in t ==> id in s && t[id] <= s[id] { Below(parse, t, s, b, a, id); }
  }

  lemma Below(parse: Parser, s: Table, t: Table, a: seq<Line>, b: seq<Line>, id: nat)
    requires HighWater(parse, s, a) && HighWater(parse, t, b) && forall line :: line in a ==> line in b
    ensures id in s ==> id in t && s[id] <= t[id]
  {
    if id in s {
      var line :| line in a && parse(line) == Some(Record(id, s[id]));
      assert line in b;
    }
  }

  lemma {:induction false} ApplyAppends(parse: Parser, table: Table, a: seq<Line>, b: seq<Line>)
    ensures Apply(parse, Apply(parse, table, a), b) == Apply(parse, table, a + b)
    decreases |b|
  {
    if b == [] {
      assert a + b == a;
    } else {
      var n := |b| - 1;
      ApplyAppends(parse, table, a, b[..n]);
      assert (a + b)[..|a + b| - 1] == a + b[..n];
    }
  }

  /** Reading lines again changes nothing. */
  lemma ReadingAgainChangesNothing(parse: Parser, lines: seq<Line>, again: seq<Line>)
    requires forall line :: line in again ==> line in lines
    ensures Apply(parse, Apply(parse, map[], lines), again) == Apply(parse, map[], lines)
  {
    ApplyAppends(parse, map[], lines, again);
    ApplyIsHighWater(parse, lines);
    ApplyIsHighWater(parse, lines + again);
    SameLinesSameTable(parse, Apply(parse, map[], lines), Apply(parse, map[], lines + again), lines, lines + again);
  }

  // ------------------------------------------------------------ the sum

  ghost function Sum(table: Table): nat {
    if table == map[] then 0
    else
      var id :| id in table;
      table[id] + Sum(table - {id})
  }

  lemma {:induction false} SumSplits(table: Table, id: nat)
    requires id in table
    ensures Sum(table) == table[id] + Sum(table - {id})
    decreases |table|
  {
    var k :| k in table && Sum(table) == table[k] + Sum(table - {k});
    if k != id {
      SumSplits(table - {k}, id);
      SumSplits(table - {id}, k);
      assert table - {k} - {id} == table - {id} - {k};
    }
  }

  /** A record adds what it raises its message's count by, and never takes away. */
  lemma UpsertSum(table: Table, r: Record)
    ensures var was := if r.id in table then table[r.id] else 0;
      Sum(Upsert(table, Some(r))) == Sum(table) + if r.tokens > was then r.tokens - was else 0
  {
    var after := Upsert(table, Some(r));
    SumSplits(after, r.id);
    if r.id in table {
      SumSplits(table, r.id);
      assert after - {r.id} == table - {r.id};
    } else {
      assert after - {r.id} == table;
    }
  }

  lemma {:induction false} SumGrows(parse: Parser, table: Table, lines: seq<Line>)
    ensures Sum(Apply(parse, table, lines)) >= Sum(table)
  {
    if lines == [] {
    } else {
      var n := |lines| - 1;
      SumGrows(parse, table, lines[..n]);
      if parse(lines[n]).Some? { UpsertSum(Apply(parse, table, lines[..n]), parse(lines[n]).value); }
    }
  }

  // ------------------------------------------------------------ one call

  /** The lines one call reads from the given place, having read so many bytes already. */
  function LinesFrom(s: seq<Byte>, at: nat, processed: nat): seq<Line>
    requires at <= |s|
    decreases |s| - at
  {
    if processed >= BATCH then []
    else
      var line := ReadLine(s, at);
      if !Ends(line) then [] else [line] + LinesFrom(s, at + |line|, processed + |line|)
  }

  function EndFrom(s: seq<Byte>, at: nat, processed: nat): (end: nat)
    requires at <= |s|
    ensures at <= end <= |s|
    decreases |s| - at
  {
    if processed >= BATCH then at
    else
      var line := ReadLine(s, at);
      if !Ends(line) then at else EndFrom(s, at + |line|, processed + |line|)
  }

  /** Where a call begins: at its cursor, unless the file was replaced or is now shorter. */
  function Start(cursors: map<nat, Cursor>, path: nat, inode: nat, size: nat): (at: nat)
    ensures at <= size
  {
    if path in cursors && cursors[path].inode == inode && size >= cursors[path].offset then cursors[path].offset else 0
  }

  lemma {:induction false} LinesConcat(lines: seq<Line>, line: Line)
    ensures Concat([line] + lines) == line + Concat(lines)
  {
    if lines == [] {
      assert [line] + lines == [line] && [line][..0] == [];
      assert line + [] == line && [] + line == line;
    } else {
      var n := |lines| - 1;
      LinesConcat(lines[..n], line);
      assert ([line] + lines)[..n + 1] == [line] + lines[..n];
      assert (line + Concat(lines[..n])) + lines[n] == line + (Concat(lines[..n]) + lines[n]);
    }
  }

  /** A call reads whole lines, every byte up to where it stops. */
  lemma {:induction false} CallReadsLines(s: seq<Byte>, at: nat, processed: nat)
    requires at <= |s|
    ensures Splits(LinesFrom(s, at, processed), s[at..EndFrom(s, at, processed)])
    decreases |s| - at
  {
    hide ReadLine;
    var line := ReadLine(s, at);
    if processed < BATCH && Ends(line) {
      var next := at + |line|;
      CallReadsLines(s, next, processed + |line|);
      ReadLineEnds(s, at);
      var end := EndFrom(s, next, processed + |line|);
      LinesConcat(LinesFrom(s, next, processed + |line|), line);
      assert s[at..end] == s[at..next] + s[next..end];
    }
  }

  /** A call moves on exactly when its next line is complete and not past the limit. */
  lemma AdvancesOnCompleteLines(s: seq<Byte>, at: nat)
    requires at <= |s|
    ensures var end := LineEnd(s, at);
      EndFrom(s, at, 0) > at <==> at < end && s[end - 1] == NEWLINE && end - at <= LINE_LIMIT
  {
    ReadLineEnds(s, at);
    hide ReadLine, LineEnd;
  }

  /** A call stops only where no line can be read or after a batch. */
  lemma {:induction false} CallReadsABatch(s: seq<Byte>, at: nat, processed: nat)
    requires at <= |s|
    ensures var end := EndFrom(s, at, processed);
      !Ends(ReadLine(s, end)) || processed + end - at >= BATCH
    decreases |s| - at
  {
    hide ReadLine;
    var line := ReadLine(s, at);
    if processed < BATCH && Ends(line) { CallReadsABatch(s, at + |line|, processed + |line|); }
  }

  /** A line past the limit holds the cursor for ever, whatever is appended. */
  lemma OverlongLineHolds(s: seq<Byte>, more: seq<Byte>, at: nat)
    requires at + LINE_LIMIT <= |s| && forall k :: at <= k < at + LINE_LIMIT ==> s[k] != NEWLINE
    ensures EndFrom(s + more, at, 0) == at
  {
    var t := s + more;
    ReadLineEnds(t, at);
    hide ReadLine;
    var end := LineEnd(t, at);
    assert at < end <= |s| ==> t[end - 1] == s[end - 1];
  }

  /** Where n calls on the same bytes end. */
  function EndAfter(s: seq<Byte>, at: nat, n: nat): (end: nat)
    requires at <= |s|
    ensures at <= end <= |s|
  {
    if n == 0 then at else EndFrom(s, EndAfter(s, at, n - 1), 0)
  }

  /** Calls catch up: after n of them either n batches are read or no further line can be. */
  lemma {:induction false} CallsCatchUp(s: seq<Byte>, at: nat, n: nat)
    requires at <= |s|
    ensures var end := EndAfter(s, at, n);
      (n > 0 && !Ends(ReadLine(s, end))) || end - at >= Times(n, BATCH)
  {
    hide ReadLine;
    if n == 0 {
    } else {
      CallsCatchUp(s, at, n - 1);
      CallReadsABatch(s, EndAfter(s, at, n - 1), 0);
    }
  }

  // ------------------------------------------------------------ runs

  /** One call: the file it is given, and what the file holds then. */
  datatype Call = Call(path: nat, inode: nat, content: seq<Byte>)

  datatype State = State(cursors: map<nat, Cursor>, messages: Table)

  function LinesOf(state: State, call: Call): seq<Line> {
    LinesFrom(call.content, Start(state.cursors, call.path, call.inode, |call.content|), 0)
  }

  function Step(parse: Parser, state: State, call: Call): State {
    var end := EndFrom(call.content, Start(state.cursors, call.path, call.inode, |call.content|), 0);
    State(state.cursors[call.path := Cursor(call.inode, end)], Apply(parse, state.messages, LinesOf(state, call)))
  }

  function Run(parse: Parser, calls: seq<Call>): State {
    if calls == [] then State(map[], map[]) else Step(parse, Run(parse, calls[..|calls| - 1]), calls[|calls| - 1])
  }

  /** Every line that the calls read, in the order they read them. */
  function Read(parse: Parser, calls: seq<Call>): seq<Line> {
    if calls == [] then []
    else Read(parse, calls[..|calls| - 1]) + LinesOf(Run(parse, calls[..|calls| - 1]), calls[|calls| - 1])
  }

  /** After any calls on any files, however they were appended to, replaced or cut short between them, the table
      is the high-water mark over all lines read, and a further call never lowers the total. */
  lemma {:induction false} TableIsHighWater(parse: Parser, calls: seq<Call>)
    ensures var table := Run(parse, calls).messages;
      table == Apply(parse, map[], Read(parse, calls)) && HighWater(parse, table, Read(parse, calls))
    ensures calls != [] ==> Sum(Run(parse, calls).messages) >= Sum(Run(parse, calls[..|calls| - 1]).messages)
  {
    hide LinesFrom, HighWater, LinesOf;
    ApplyIsHighWater(parse, Read(parse, calls));
    if calls == [] {
    } else {
      var before, call := calls[..|calls| - 1], calls[|calls| - 1];
      TableIsHighWater(parse, before);
      ApplyAppends(parse, map[], Read(parse, before), LinesOf(Run(parse, before), call));
      SumGrows(parse, Run(parse, before).messages, LinesOf(Run(parse, before), call));
    }
  }

  /** What one call does, in full: it goes on from its file's cursor if the file is the same and no shorter, and
      from the beginning if not; it applies the lines between there and its new cursor to the table, leaves every
      other cursor alone, and stops past a batch or where no complete line follows within the limit. */
  lemma OneCall(parse: Parser, state: State, call: Call, at: nat)
    requires at ==
      if call.path in state.cursors && state.cursors[call.path].inode == call.inode
        && state.cursors[call.path].offset <= |call.content|
      then state.cursors[call.path].offset else 0
    ensures var after := Step(parse, state, call);
      && after.cursors.Keys == state.cursors.Keys + {call.path}
      && (forall other :: other in state.cursors && other != call.path ==>
            after.cursors[other] == state.cursors[other])
      && after.cursors[call.path].inode == call.inode
      && var end := after.cursors[call.path].offset;
         && at <= end <= |call.content| && end - at < 4 * 1024 * 1024 + (2 * 1024 * 1024 + 1)
         && (exists lines :: Splits(lines, call.content[at..end])
               && after.messages == Apply(parse, state.messages, lines))
         && (end - at < 4 * 1024 * 1024 ==>
               forall k :: end <= k < |call.content| && k < end + (2 * 1024 * 1024 + 1) ==> call.content[k] != 0x0a)
  {
    hide LinesFrom, EndFrom, Apply, Splits;
    var end := EndFrom(call.content, at, 0);
    CallReadsLines(call.content, at, 0);
    CallReadsABatch(call.content, at, 0);
    BatchIsBounded(call.content, at, 0);
    if end - at < BATCH { NothingToRead(call.content, end); }
  }

  lemma {:induction false} BatchIsBounded(s: seq<Byte>, at: nat, processed: nat)
    requires at <= |s| && processed < BATCH + LINE_LIMIT
    ensures processed + EndFrom(s, at, processed) - at < BATCH + LINE_LIMIT
    decreases |s| - at
  {
    hide ReadLine, Ends;
    var line := ReadLine(s, at);
    if processed < BATCH && Ends(line) {
      LineFits(s, at);
      EndsSome(line);
      BatchIsBounded(s, at + |line|, processed + |line|);
    }
  }

  lemma LineFits(s: seq<Byte>, at: nat)
    requires at <= |s|
    ensures |ReadLine(s, at)| <= LINE_LIMIT
  {
  }

  lemma NothingToRead(s: seq<Byte>, at: nat)
    requires at <= |s| && !Ends(ReadLine(s, at))
    ensures forall k :: at <= k < |s| && k < at + LINE_LIMIT ==> s[k] != NEWLINE
  {
    ReadLineEnds(s, at);
    hide ReadLine;
  }

  /** A file not seen before, put in another's place or cut short is read from its first line. */
  lemma ReplacedIsReadAnew(parse: Parser, state: State, call: Call, lines: seq<Line>)
    requires call.path in state.cursors ==>
      state.cursors[call.path].inode != call.inode || |call.content| < state.cursors[call.path].offset
    requires call.path in Step(parse, state, call).cursors
      && Step(parse, state, call).cursors[call.path].offset <= |call.content|
      && Splits(lines, call.content[..Step(parse, state, call).cursors[call.path].offset])
    ensures Step(parse, state, call).messages == Apply(parse, state.messages, lines)
  {
    hide Step, Apply, Splits;
    OneCall(parse, state, call, 0);
    var after := Step(parse, state, call);
    var end := after.cursors[call.path].offset;
    assert call.content[0..end] == call.content[..end];
    var read :| Splits(read, call.content[0..end]) && after.messages == Apply(parse, state.messages, read);
    SplitIsUnique(lines, read, call.content[..end]);
  }

  /** A call that starts over on lines already read leaves the table as it was. */
  lemma RestartKeepsTheTable(parse: Parser, calls: seq<Call>, call: Call)
    requires forall line :: line in LinesOf(Run(parse, calls), call) ==> line in Read(parse, calls)
    ensures Step(parse, Run(parse, calls), call).messages == Run(parse, calls).messages
  {
    hide LinesOf, HighWater;
    TableIsHighWater(parse, calls);
    ReadingAgainChangesNothing(parse, Read(parse, calls), LinesOf(Run(parse, calls), call));
  }

  /** Calls on one file that is only appended to. */
  predicate Growing(calls: seq<Call>) {
    forall j, k :: 0 <= j < k < |calls| ==>
      calls[j].path == calls[k].path && calls[j].inode == calls[k].inode && calls[j].content <= calls[k].content
  }

  lemma {:induction false} ConcatAppends(a: seq<Line>, b: seq<Line>)
    ensures Concat(a + b) == Concat(a) + Concat(b)
    decreases |b|
  {
    if b == [] {
      assert a + b == a;
    } else {
      var n := |b| - 1;
      ConcatAppends(a, b[..n]);
      assert (a + b)[..|a + b| - 1] == a + b[..n];
      assert (Concat(a) + Concat(b[..n])) + b[n] == Concat(a) + (Concat(b[..n]) + b[n]);
    }
  }

  lemma SplitsAppend(a: seq<Line>, s: seq<Byte>, b: seq<Line>, t: seq<Byte>)
    requires Splits(a, s) && Splits(b, t)
    ensures Splits(a + b, s + t)
  {
    ConcatAppends(a, b);
  }

  /** On a file that is only appended to the lines read are those of its first `offset` bytes, each once. */
  lemma {:induction false} GrowingIsReadOnce(parse: Parser, calls: seq<Call>)
    requires calls != [] && Growing(calls)
    ensures var state, last := Run(parse, calls), calls[|calls| - 1];
      && state.cursors.Keys == {last.path} && state.cursors[last.path].inode == last.inode
      && state.cursors[last.path].offset <= |last.content|
      && Splits(Read(parse, calls), last.content[..state.cursors[last.path].offset])
    decreases |calls|
  {
    hide LinesFrom, EndFrom, Apply, Splits;
    var before, call := calls[..|calls| - 1], calls[|calls| - 1];
    var state := Run(parse, before);
    var at := Start(state.cursors, call.path, call.inode, |call.content|);
    var end := EndFrom(call.content, at, 0);
    CallReadsLines(call.content, at, 0);
    if before == [] {
      assert call.content[0..end] == call.content[..end];
      assert Read(parse, calls) == LinesOf(state, call);
    } else {
      GrowingIsReadOnce(parse, before);
      var prior := before[|before| - 1];
      assert prior.content <= call.content by { assert prior == calls[|calls| - 2]; }
      assert prior.content[..at] == call.content[..at];
      SplitsAppend(Read(parse, before), call.content[..at], LinesOf(state, call), call.content[at..end]);
      assert call.content[..at] + call.content[at..end] == call.content[..end];
    }
  }

  /** The cursor and the table agree with one full read: whatever the appends, the partial last lines and the
      bounded calls, the table is that of the lines before the cursor read once from an empty table. */
  lemma AgreesWithOneRead(parse: Parser, calls: seq<Call>, lines: seq<Line>)
    requires calls != [] && Growing(calls)
    requires var last := calls[|calls| - 1];
      last.path in Run(parse, calls).cursors && Run(parse, calls).cursors[last.path].offset <= |last.content|
      && Splits(lines, last.content[..Run(parse, calls).cursors[last.path].offset])
    ensures Run(parse, calls).messages == Apply(parse, map[], lines)
  {
    hide Splits, Run, Read, Apply;
    var last := calls[|calls| - 1];
    GrowingIsReadOnce(parse, calls);
    SplitIsUnique(lines, Read(parse, calls), last.content[..Run(parse, calls).cursors[last.path].offset]);
    TableIsHighWater(parse, calls);
  }

  // ------------------------------------------------------------ the companion's state

  /** select sum(tokens): nothing for an empty table. */
  method SumTokens(table: Table) returns (total: Option<nat>)
    ensures total == if table == map[] then None else Some(Sum(table))
  {
    if table == map[] { return None; }
    var rest, sum := table, 0;
    while rest != map[]
      invariant sum + Sum(rest) == Sum(table)
      decreases |rest|
    {
      var id :| id in rest;
      SumSplits(rest, id);
      sum := sum + rest[id];
      rest := rest - {id};
    }
    total := Some(sum);
  }

  /** The tables of the metrics database. */
  class Ledger {
    var cursors: map<nat, Cursor>
    var messages: Table

    constructor ()
      ensures cursors == map[] && messages == map[]
    {
      cursors, messages := map[], map[];
    }

    /** One call; no file is one that is missing or not a transcript. */
    method TranscriptTokens(parse: Parser, file: Option<Call>) returns (total: Option<nat>)
      modifies this
      ensures file.None? ==> total == None && cursors == old(cursors) && messages == old(messages)
      ensures file.Some? ==>
        && State(cursors, messages) == Step(parse, old(State(cursors, messages)), file.value)
        && total == if messages == map[] then None else Some(Sum(messages))
    {
      hide LinesFrom, EndFrom, Apply;
      if file.None? { return None; }
      var path, inode, content := file.value.path, file.value.inode, file.value.content;
      var offset := 0;
      if path in cursors && cursors[path].inode == inode && |content| >= cursors[path].offset {
        offset := cursors[path].offset;
      }
      offset := ReadOn(parse, content, offset);
      cursors := cursors[path := Cursor(inode, offset)];
      total := SumTokens(messages);
    }

    /** The loop of the call, from the given offset. */
    method ReadOn(parse: Parser, content: seq<Byte>, start: nat) returns (offset: nat)
      requires start <= |content|
      modifies this`messages
      ensures offset == EndFrom(content, start, 0)
      ensures messages == Apply(parse, old(messages), LinesFrom(content, start, 0))
    {
      hide ReadLine, LinesFrom, EndFrom, Apply;
      offset := start;
      var processed: nat := 0;
      ghost var done: seq<Line> := [];
      NoLines(parse, messages, LinesFrom(content, start, 0));
      while true
        invariant offset <= |content|
        invariant done + LinesFrom(content, offset, processed) == LinesFrom(content, start, 0)
        invariant EndFrom(content, offset, processed) == EndFrom(content, start, 0)
        invariant messages == Apply(parse, old(messages), done)
        decreases |content| - offset
      {
        NextLine(content, offset, processed, done);
        if processed >= BATCH { break; }
        var line := ReadLine(content, offset);
        if !Ends(line) { break; }
        OneMore(parse, old(messages), done, line);
        processed := processed + |line|;
        offset := offset + |line|;
        done := done + [line];
        messages := Upsert(messages, parse(line));
      }
    }
  }

  /** One line of the loop. */
  lemma NextLine(s: seq<Byte>, at: nat, processed: nat, done: seq<Line>)
    requires at <= |s|
    ensures processed >= BATCH || !Ends(ReadLine(s, at)) ==>
      done + LinesFrom(s, at, processed) == done && EndFrom(s, at, processed) == at
    ensures processed < BATCH && Ends(ReadLine(s, at)) ==>
      (var line := ReadLine(s, at);
       && done + LinesFrom(s, at, processed) == (done + [line]) + LinesFrom(s, at + |line|, processed + |line|)
       && EndFrom(s, at, processed) == EndFrom(s, at + |line|, processed + |line|))
  {
    hide ReadLine, Ends;
    var line := ReadLine(s, at);
    if processed < BATCH && Ends(line) {
      assert line != [] by { EndsSome(line); }
      var rest := LinesFrom(s, at + |line|, processed + |line|);
      Regroup(done, [line], rest);
      assert LinesFrom(s, at, processed) == [line] + rest;
    } else {
      assert done + [] == done;
    }
  }

  lemma EndsSome(line: Line)
    ensures Ends(line) ==> line != []
  {
  }

  lemma NoLines(parse: Parser, table: Table, lines: seq<Line>)
    ensures Apply(parse, table, []) == table && [] + lines == lines
  {
  }

  lemma OneMore(parse: Parser, table: Table, lines: seq<Line>, line: Line)
    ensures Apply(parse, table, lines + [line]) == Upsert(Apply(parse, table, lines), parse(line))
  {
    assert (lines + [line])[..|lines|] == lines;
  }
}
