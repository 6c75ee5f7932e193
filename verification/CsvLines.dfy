/**
 What the CSV reader makes of any text (src/setops/data/csv_data_provider.cpp): of short and long lines, of
 empty lines, and of the rows that it has counted.
 */
module CsvLines {
  import opened Words
  import opened CsvText
  import opened CsvProvider
  import opened CsvReader
  import opened CsvRoundTrip

  // ---- one line ----

  /** `n` pieces of a line from number `j` on; the last piece stands in for those that are missing. */
  function PiecesFrom(line: string, j: nat, n: nat): (r: Fields)
    ensures |r| == n && forall k :: 0 <= k < n ==> r[k] == PieceOrLast(line, COMMA, j + k)
  {
    seq(n, k requires 0 <= k < n => PieceOrLast(line, COMMA, j + k))
  }

  lemma PiecesStep(line: string, j: nat, n: nat, got: Fields)
    requires n > 0
    ensures (got + [PieceOrLast(line, COMMA, j)]) + PiecesFrom(line, j + 1, n - 1) == got + PiecesFrom(line, j, n)
  {
    assert PiecesFrom(line, j, n) == [PieceOrLast(line, COMMA, j)] + PiecesFrom(line, j + 1, n - 1);
  }

  /** What extracting `n` fields from number `j` on gives. */
  function Taken(line: string, j: nat, n: nat, before: string, got: Fields): (Fields, Stream, string) {
    (got + PiecesFrom(line, j, n), After(line, COMMA, j + n),
     if n == 0 then before else PieceOrLast(line, COMMA, j + n - 1))
  }

  lemma TakenNone(line: string, j: nat, before: string, got: Fields)
    ensures Taken(line, j, 0, before, got) == (got, After(line, COMMA, j), before)
  {
    assert got + PiecesFrom(line, j, 0) == got;
  }

  lemma TakenStep(line: string, j: nat, n: nat, before: string, got: Fields)
    requires n > 0
    ensures var piece := PieceOrLast(line, COMMA, j);
      Taken(line, j + 1, n - 1, piece, got + [piece]) == Taken(line, j, n, before, got)
  {
    PiecesStep(line, j, n, got);
  }

  lemma {:induction false} TakesPieces(line: string, j: nat, n: nat, before: string, got: Fields)
    requires j > 0 ==> before == PieceOrLast(line, COMMA, j - 1)
    ensures TakeFields(After(line, COMMA, j), n, before, got) == Taken(line, j, n, before, got)
    decreases n
  {
    if n > 0 {
      var piece := PieceOrLast(line, COMMA, j);
      ExtractsNext(line, COMMA, j, before);
      TakesPieces(line, j + 1, n - 1, piece, got + [piece]);
      TakenStep(line, j, n, before, got);
    } else {
      TakenNone(line, j, before, got);
    }
  }

  /** The item fields of any line are its first pieces; on a short line the last piece is repeated. */
  lemma FieldsOfLine(line: string, n: nat)
    ensures TakenFields(line, n) == PiecesFrom(line, 0, n)
  {
    TakesPieces(line, 0, n, [], []);
    assert [] + PiecesFrom(line, 0, n) == PiecesFrom(line, 0, n);
  }

  /** Every one of these texts is a number. */
  ghost predicate AllNumbers(texts: Fields) {
    forall k :: 0 <= k < |texts| ==> ParseNumber(texts[k]).Number?
  }

  ghost predicate ValuesOf(values: seq<Word>, texts: Fields) {
    |values| == |texts| && forall k :: 0 <= k < |values| ==> ParseNumber(texts[k]) == Number(values[k])
  }

  /** `k` is the first text that is no number. */
  ghost predicate FirstBad(texts: Fields, k: nat, why: Parsed) {
    k < |texts| && AllNumbers(texts[..k]) && !ParseNumber(texts[k]).Number? && ParseNumber(texts[k]) == why
  }

  lemma FirstBadLater(texts: Fields, k: nat, why: Parsed)
    requires texts != [] && ParseNumber(texts[0]).Number? && FirstBad(texts[1..], k, why)
    ensures FirstBad(texts, k + 1, why)
  {
    assert texts[..k + 1] == [texts[0]] + texts[1..][..k];
  }

  /** What conversion makes of a list of texts. */
  ghost predicate Converts(texts: Fields, got: seq<Word>, r: Numbers) {
    match r
    case Numbers(values) => |values| == |got| + |texts| && values[..|got|] == got && ValuesOf(values[|got|..], texts)
    case Bad(why) => exists k: nat :: FirstBad(texts, k, why)
  }

  lemma ConvertsMore(texts: Fields, w: Word, got: seq<Word>, r: Numbers)
    requires texts != [] && ParseNumber(texts[0]) == Number(w) && Converts(texts[1..], got + [w], r)
    ensures Converts(texts, got, r)
  {
    match r
    case Numbers(values) =>
      assert values[..|got|] == values[..|got| + 1][..|got|];
      forall k | 0 <= k < |texts| ensures ParseNumber(texts[k]) == Number(values[|got|..][k]) {
        if k == 0 {
          assert values[|got|] == values[..|got| + 1][|got|];
        } else {
          assert texts[1..][k - 1] == texts[k] && values[|got| + 1..][k - 1] == values[|got|..][k];
        }
      }
    case Bad(why) =>
      var k: nat :| FirstBad(texts[1..], k, why);
      FirstBadLater(texts, k, why);
  }

  lemma {:induction false} TakesConverted(line: string, j: nat, n: nat, before: string, got: seq<Word>)
    requires j > 0 ==> before == PieceOrLast(line, COMMA, j - 1)
    ensures Converts(PiecesFrom(line, j, n), got, TakeNumbers(After(line, COMMA, j), n, before, got))
    decreases n
  {
    if n > 0 {
      var piece := PieceOrLast(line, COMMA, j);
      ExtractsNext(line, COMMA, j, before);
      assert PiecesFrom(line, j, n)[1..] == PiecesFrom(line, j + 1, n - 1);
      match ParseNumber(piece)
      case Number(w) =>
        TakesConverted(line, j + 1, n - 1, piece, got + [w]);
        ConvertsMore(PiecesFrom(line, j, n), w, got, TakeNumbers(After(line, COMMA, j), n, before, got));
      case other =>
        assert FirstBad(PiecesFrom(line, j, n), 0, other);
    }
  }

  /** The payloads of any line are the numbers that the next pieces spell, or the first of them that spells
      none; on a short line the last piece is read again. */
  lemma NumbersOfLine(line: string, skip: nat, n: nat)
    ensures Converts(PiecesFrom(line, skip, n), [], TakenNumbers(line, skip, n))
  {
    TakesPieces(line, 0, skip, [], []);
    TakesConverted(line, skip, n, if skip == 0 then [] else PieceOrLast(line, COMMA, skip - 1), []);
  }

  // ---- many lines ----

  /** Adds one line after the other to the vectors, up to the first that cannot be converted. */
  function AddLines(lines: Fields, got: Batch): Outcome {
    if lines == [] then Ok(got)
    else
      var added := AddLine(lines[0], got);
      if added.Ok? then AddLines(lines[1..], added.batch) else added
  }

  lemma {:induction false} AddLinesConcat(a: Fields, b: Fields, got: Batch)
    ensures AddLines(a + b, got) == var r := AddLines(a, got); if r.Ok? then AddLines(b, r.batch) else r
  {
    if a == [] {
      assert a + b == b;
    } else {
      assert (a + b)[1..] == a[1..] + b;
      var added := AddLine(a[0], got);
      if added.Ok? {
        AddLinesConcat(a[1..], b, added.batch);
      }
    }
  }

  ghost predicate SameShape(a: Batch, b: Batch) {
    |a.items| == |b.items| && |a.payloads| == |b.payloads|
  }

  /** Every item column of `b` is longer than that of `a` by `n`. */
  ghost predicate Grown(a: Batch, b: Batch, n: nat) {
    SameShape(a, b) && forall c :: 0 <= c < |a.items| ==> |b.items[c]| == |a.items[c]| + n
  }

  /** Lines that are not empty are one row each, and empty ones none. */
  lemma {:induction false} AddLinesGrow(lines: Fields, got: Batch)
    ensures var r := AddLines(lines, got); r.Ok? ==> Grown(got, r.batch, Filled(lines))
  {
    if lines != [] {
      var added := AddLine(lines[0], got);
      if added.Ok? {
        AddLinesGrow(lines[1..], added.batch);
      }
    }
  }

  /** Whatever string was read before, the stream gives `line` and becomes `next`. */
  ghost predicate Yields(s: Stream, line: string, next: Stream) {
    forall before: string :: GetLine(s, NEWLINE, before) == (next, line)
  }

  /** Streams that give the lines one after the other. */
  ghost predicate LineChain(streams: seq<Stream>, lines: Fields) {
    |streams| == |lines| + 1 && forall k :: 0 <= k < |lines| ==> Yields(streams[k], lines[k], streams[k + 1])
  }

  lemma TextChain(text: string) returns (streams: seq<Stream>)
    ensures LineChain(streams, Split(text, NEWLINE)) && streams[0] == Fresh(text)
  {
    var lines := Split(text, NEWLINE);
    streams := seq(|lines| + 1, k requires 0 <= k <= |lines| => After(text, NEWLINE, k));
    forall k | 0 <= k < |lines| ensures Yields(streams[k], lines[k], streams[k + 1]) {
      forall before: string ensures GetLine(streams[k], NEWLINE, before) == (streams[k + 1], lines[k]) {
        ExtractsPiece(text, NEWLINE, k, before);
      }
    }
  }

  lemma ReadsOne(s: Stream, before: string, n: nat, got: Batch, line: string, next: Stream)
    requires n > 0 && Yields(s, line, next)
    ensures var added := AddLine(line, got);
      ReadRows(s, before, n, got) == if added.Ok? then ReadRows(next, line, n - 1, added.batch) else (added, next)
  {
    assert GetLine(s, NEWLINE, before) == (next, line);
  }

  lemma AddsOne(lines: Fields, j: nat, n: nat, got: Batch)
    requires n > 0 && j + n <= |lines|
    ensures var added := AddLine(lines[j], got);
      AddLines(lines[j..j + n], got) == if added.Ok? then AddLines(lines[j + 1..j + n], added.batch) else added
  {
    assert lines[j..j + n][1..] == lines[j + 1..j + n];
  }

  /** A run of lines, wherever it begins. */
  lemma {:induction false} ReadsRun(streams: seq<Stream>, lines: Fields, j: nat, n: nat, before: string, got: Batch)
    requires LineChain(streams, lines) && j + n <= |lines|
    ensures var r := ReadRows(streams[j], before, n, got);
      r.0 == AddLines(lines[j..j + n], got) && (r.0.Ok? ==> r.1 == streams[j + n])
    decreases n
  {
    if n > 0 {
      assert Yields(streams[j], lines[j], streams[j + 1]);
      ReadsOne(streams[j], before, n, got, lines[j], streams[j + 1]);
      AddsOne(lines, j, n, got);
      var added := AddLine(lines[j], got);
      if added.Ok? {
        ReadsRun(streams, lines, j + 1, n - 1, lines[j], added.batch);
      }
    }
  }

  lemma NextOfSize(c: Cursor, rows: nat, width: nat, size: nat, got: Batch, o: Outcome, s: Stream)
    requires c.idx <= rows && size > 0 && |got.payloads| == width
    requires ReadRows(c.stream, [], Min(size, rows - c.idx), got) == (o, s)
    ensures NextBatch(c, rows, |got.items|, width, size, got)
      == (o, Cursor(s, if o.Ok? then c.idx + Min(size, rows - c.idx) else c.idx))
  {
    assert Resized(got.items, |got.items|) == got.items && Resized(got.payloads, width) == got.payloads;
  }

  /** One batch adds the next lines, as many as are asked for and left. */
  lemma BatchAdds(streams: seq<Stream>, lines: Fields, width: nat, k: nat, size: nat, got: Batch)
    requires LineChain(streams, lines) && k <= |lines| && size > 0 && |got.payloads| == width
    ensures var mid, r := k + Min(size, |lines| - k),
        NextBatch(Cursor(streams[k], k), |lines|, |got.items|, width, size, got);
      r.0 == AddLines(lines[k..mid], got)
      && (r.0.Ok? ==> r.1 == Cursor(streams[mid], mid) && SameShape(got, r.0.batch))
  {
    var n := Min(size, |lines| - k);
    var (o, s) := ReadRows(streams[k], [], n, got);
    ReadsRun(streams, lines, k, n, [], got);
    NextOfSize(Cursor(streams[k], k), |lines|, width, size, got, o, s);
    AddLinesGrow(lines[k..k + n], got);
  }

  lemma SplitRun(lines: Fields, a: nat, b: nat, c: nat, got: Batch)
    requires a <= b <= c <= |lines|
    ensures AddLines(lines[a..c], got) ==
      var r := AddLines(lines[a..b], got); if r.Ok? then AddLines(lines[b..c], r.batch) else r
  {
    assert lines[a..c] == lines[a..b] + lines[b..c];
    AddLinesConcat(lines[a..b], lines[b..c], got);
  }

  /** Successive batches: the first one, and what the others make of its outcome. */
  lemma DrainStep(c: Cursor, rows: nat, itemColumns: nat, width: int, sizes: seq<nat>, got: Batch, outcome: Outcome,
      next: Cursor, rest: Outcome)
    requires c.idx <= rows && sizes != []
    requires NextBatch(c, rows, itemColumns, width, sizes[0], got) == (outcome, next)
    requires outcome.Ok? ==>
      next.idx <= rows && Drained(next, rows, itemColumns, width, sizes[1..], outcome.batch).0 == rest
    ensures Drained(c, rows, itemColumns, width, sizes, got).0 == if outcome.Ok? then rest else outcome
  {
  }

  /** Batches of any sizes add the lines one after the other. */
  lemma {:induction false} DrainsRun(streams: seq<Stream>, lines: Fields, width: nat, k: nat, sizes: seq<nat>,
      got: Batch)
    requires LineChain(streams, lines) && k <= |lines| && Positive(sizes) && |got.payloads| == width
    ensures Drained(Cursor(streams[k], k), |lines|, |got.items|, width, sizes, got).0
      == AddLines(lines[k..Reached(k, sizes, |lines|)], got)
    decreases |sizes|
  {
    if sizes == [] {
      assert lines[k..k] == [];
    } else {
      var mid, end := k + Min(sizes[0], |lines| - k), Reached(k, sizes, |lines|);
      var part := AddLines(lines[k..mid], got);
      var (_, next) := NextBatch(Cursor(streams[k], k), |lines|, |got.items|, width, sizes[0], got);
      BatchAdds(streams, lines, width, k, sizes[0], got);
      var rest := if part.Ok? then AddLines(lines[mid..end], part.batch) else part;
      if part.Ok? {
        DrainsRun(streams, lines, width, mid, sizes[1..], part.batch);
      }
      DrainStep(Cursor(streams[k], k), |lines|, |got.items|, width, sizes, got, part, next, rest);
      SplitRun(lines, k, mid, end, got);
    }
  }

  // ---- the whole text ----

  function FirstLine(hasHeader: bool): nat {
    if hasHeader then 1 else 0
  }

  /** The lines that are read as rows: behind a header, as many as there are rows counted. */
  function RowLines(text: string, hasHeader: bool): (r: Fields)
    ensures |r| == CountRows(text, hasHeader)
  {
    CountsOfText(text, hasHeader);
    Split(text, NEWLINE)[FirstLine(hasHeader)..FirstLine(hasHeader) + CountRows(text, hasHeader)]
  }

  lemma PartOfChain(streams: seq<Stream>, lines: Fields, first: nat, rows: nat)
    requires LineChain(streams, lines) && first + rows <= |lines|
    ensures LineChain(streams[first..first + rows + 1], lines[first..first + rows])
  {
    var part, run := streams[first..first + rows + 1], lines[first..first + rows];
    forall k | 0 <= k < rows ensures Yields(part[k], run[k], part[k + 1]) {
      assert Yields(streams[first + k], lines[first + k], streams[first + k + 1]);
    }
  }

  lemma RowChain(text: string, hasHeader: bool) returns (streams: seq<Stream>)
    ensures LineChain(streams, RowLines(text, hasHeader)) && StartOf(text, hasHeader) == Cursor(streams[0], 0)
  {
    var all := TextChain(text);
    var first, rows := FirstLine(hasHeader), CountRows(text, hasHeader);
    CountsOfText(text, hasHeader);
    PartOfChain(all, Split(text, NEWLINE), first, rows);
    streams := all[first..first + rows + 1];
    assert Yields(all[0], Split(text, NEWLINE)[0], all[1]);
  }

  /** On any text, batches of any sizes read the lines behind the header one after the other, as many as
      there were rows counted: lines that are not empty are counted, but all lines are read. */
  lemma AnyTextRead(text: string, hasHeader: bool, itemColumns: nat, width: nat, sizes: seq<nat>)
    requires sizes != [] && Positive(sizes)
    ensures var rows := CountRows(text, hasHeader);
      Drained(StartOf(text, hasHeader), rows, itemColumns, width, sizes, Batch([], [])).0
      == AddLines(RowLines(text, hasHeader)[..Min(Sum(sizes), rows)], Blank(itemColumns, width))
  {
    var streams := RowChain(text, hasHeader);
    FirstBatchResizes(StartOf(text, hasHeader), CountRows(text, hasHeader), itemColumns, width, sizes);
    DrainsRun(streams, RowLines(text, hasHeader), width, 0, sizes, Blank(itemColumns, width));
  }

  ghost predicate NoneEmpty(lines: Fields) {
    forall k :: 0 <= k < |lines| ==> lines[k] != []
  }

  lemma {:induction false} AllFilledIff(lines: Fields)
    ensures Filled(lines) == |lines| <==> NoneEmpty(lines)
  {
    if lines != [] {
      AllFilledIff(lines[1..]);
      if NoneEmpty(lines) {
        assert NoneEmpty(lines[1..]);
      }
      if Filled(lines) == |lines| {
        assert lines == [lines[0]] + lines[1..];
      }
    }
  }

  /** Every item column has `n` entries. */
  ghost predicate ItemRows(got: Batch, n: nat) {
    forall c :: 0 <= c < |got.items| ==> |got.items[c]| == n
  }

  /** Reading until the rows are exhausted gives one row for each line read that is not empty. */
  lemma RowsDelivered(text: string, hasHeader: bool, itemColumns: nat, width: nat, sizes: seq<nat>, got: Batch)
    requires sizes != [] && Positive(sizes) && Sum(sizes) >= CountRows(text, hasHeader)
    requires Drained(StartOf(text, hasHeader), CountRows(text, hasHeader), itemColumns, width, sizes, Batch([], [])).0
      == Ok(got)
    ensures |got.items| == itemColumns && |got.payloads| == width
    ensures ItemRows(got, Filled(RowLines(text, hasHeader)))
  {
    AnyTextRead(text, hasHeader, itemColumns, width, sizes);
    assert RowLines(text, hasHeader)[..CountRows(text, hasHeader)] == RowLines(text, hasHeader);
    AddLinesGrow(RowLines(text, hasHeader), Blank(itemColumns, width));
  }

  /** These are as many rows as were counted if and only if none of the lines read for them is empty: every
      empty line among them costs a row at the end of the text. */
  lemma RowsDeliveredIff(text: string, hasHeader: bool, itemColumns: nat, width: nat, sizes: seq<nat>, got: Batch)
    requires sizes != [] && Positive(sizes) && Sum(sizes) >= CountRows(text, hasHeader) && itemColumns > 0
    requires Drained(StartOf(text, hasHeader), CountRows(text, hasHeader), itemColumns, width, sizes, Batch([], [])).0
      == Ok(got)
    ensures ItemRows(got, CountRows(text, hasHeader)) <==>
      NoneEmpty(RowLines(text, hasHeader))
  {
    RowsDelivered(text, hasHeader, itemColumns, width, sizes, got);
    AllFilledIff(RowLines(text, hasHeader));
    assert |got.items[0]| == Filled(RowLines(text, hasHeader));
  }

  lemma SplitAt(line: string, rest: string)
    requires NEWLINE !in line
    ensures Split(line + [NEWLINE] + rest, NEWLINE) == [line] + Split(rest, NEWLINE)
  {
    IndexAfter(line, NEWLINE, rest);
    assert (line + [NEWLINE] + rest)[..|line|] == line && (line + [NEWLINE] + rest)[|line| + 1..] == rest;
  }

  lemma GapSplit(a: string, b: string)
    requires NEWLINE !in a && NEWLINE !in b
    ensures Split(a + [NEWLINE] + ([NEWLINE] + b), NEWLINE) == [a, [], b]
  {
    assert [NEWLINE] + b == [] + [NEWLINE] + b;
    SplitAt(a, [NEWLINE] + b);
    SplitAt([], b);
    assert Split(b, NEWLINE) == [b];
  }

  /** Two lines with an empty one between them: two rows are counted, and the second one is lost. */
  lemma EmptyLineLosesRow(a: string, b: string, itemColumns: nat, width: nat, sizes: seq<nat>)
    requires NEWLINE !in a && NEWLINE !in b && a != [] && b != []
    requires sizes != [] && Positive(sizes) && Sum(sizes) >= 2
    ensures var text := a + [NEWLINE] + ([NEWLINE] + b);
      CountRows(text, false) == 2
      && Drained(StartOf(text, false), 2, itemColumns, width, sizes, Batch([], [])).0
        == AddLine(a, Blank(itemColumns, width))
  {
    var text := a + [NEWLINE] + ([NEWLINE] + b);
    GapSplit(a, b);
    CountsOfText(text, false);
    assert [a, [], b][1..] == [[], b] && [[], b][1..] == [b] && [b][1..] == [];
    AnyTextRead(text, false, itemColumns, width, sizes);
    assert RowLines(text, false)[..2] == [a] + [[]];
    AddLinesConcat([a], [[]], Blank(itemColumns, width));
    OneLineAdds(a, Blank(itemColumns, width));
  }

  lemma OneLineAdds(a: string, got: Batch)
    ensures AddLines([a], got) == AddLine(a, got)
    ensures AddLines([[]], got) == Ok(got)
  {
    assert [a][1..] == [];
    var empty: Fields := [[]];
    assert empty[1..] == [];
  }
}
