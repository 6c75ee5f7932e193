/** Writing a table and reading it back in batches gives the table (src/setops/data/csv_data_provider.cpp). */
module CsvRoundTrip {
  import opened Words
  import opened CsvText
  import opened CsvProvider
  import opened CsvReader

  ghost predicate Plain(field: string) {
    field != [] && COMMA !in field && NEWLINE !in field
  }

  ghost predicate AllPlain(fields: Fields) {
    forall c :: 0 <= c < |fields| ==> Plain(fields[c])
  }

  /** All columns of a table have the same length. */
  ghost predicate Rectangular(t: Table) {
    && (forall c :: 0 <= c < |t.items| ==> |t.items[c]| == t.rows)
    && (forall c :: 0 <= c < |t.payloads| ==> |t.payloads[c]| == t.rows)
  }

  /** A table the format can carry: some item column, and fields without separators. */
  ghost predicate Carried(t: Table) {
    && t.items != [] && Rectangular(t)
    && (forall c, j :: 0 <= c < |t.items| && 0 <= j < t.rows ==> Plain(t.items[c][j]))
  }

  ghost predicate OneLine(fields: Fields) {
    forall c :: 0 <= c < |fields| ==> NEWLINE !in fields[c]
  }

  function FileText(t: Table, hasHeader: bool, header: Fields): string {
    HeaderText(hasHeader, header) + RowsText(t, 0, t.rows)
  }

  // ---- one line ----

  lemma {:induction false} JoinedCons(field: string, fields: Fields)
    ensures Joined([field] + fields) == if fields == [] then field else field + [COMMA] + Joined(fields)
  {
    if fields == [] {
      assert [field] + fields == [field];
    } else {
      var n := |fields| - 1;
      JoinedCons(field, fields[..n]);
      assert [field] + fields == ([field] + fields[..n]) + [fields[n]];
      JoinedSnoc([field] + fields[..n], fields[n]);
      assert fields == fields[..n] + [fields[n]];
      JoinedSnoc(fields[..n], fields[n]);
    }
  }

  lemma {:induction false} JoinedClean(fields: Fields)
    requires AllPlain(fields)
    ensures NEWLINE !in Joined(fields) && (fields != [] ==> Joined(fields) != [])
  {
    if fields != [] {
      var n := |fields| - 1;
      JoinedClean(fields[..n]);
      assert fields == fields[..n] + [fields[n]];
      JoinedSnoc(fields[..n], fields[n]);
    }
  }

  lemma {:induction false} JoinedOneLine(fields: Fields)
    requires OneLine(fields)
    ensures NEWLINE !in Joined(fields)
  {
    if fields != [] {
      var n := |fields| - 1;
      JoinedOneLine(fields[..n]);
      assert fields == fields[..n] + [fields[n]];
      JoinedSnoc(fields[..n], fields[n]);
    }
  }

  /** The line stream when the fields that are left are `fields`. */
  function Remaining(fields: Fields): Stream {
    if fields == [] then Stream([], true, false) else Fresh(Joined(fields))
  }

  lemma NextField(fields: Fields, before: string)
    requires fields != [] && AllPlain(fields)
    ensures GetLine(Remaining(fields), COMMA, before) == (Remaining(fields[1..]), fields[0])
  {
    assert fields == [fields[0]] + fields[1..];
    JoinedCons(fields[0], fields[1..]);
    if |fields| > 1 {
      GetsField(fields[0], COMMA, Joined(fields[1..]), before);
    } else {
      GetsLast(fields[0], COMMA, before);
    }
  }

  lemma FirstThenRest<T>(got: seq<T>, s: seq<T>, n: nat)
    requires 0 < n <= |s|
    ensures (got + [s[0]]) + s[1..][..n - 1] == got + s[..n] && s[1..][n - 1..] == s[n..]
  {
  }

  /** Whatever string was read before, the stream gives `field` and becomes `next`. */
  ghost predicate GivesField(s: Stream, field: string, next: Stream) {
    forall before: string :: GetLine(s, COMMA, before) == (next, field)
  }

  ghost predicate FieldChain(streams: seq<Stream>, fields: Fields) {
    |streams| == |fields| + 1 && forall k :: 0 <= k < |fields| ==> GivesField(streams[k], fields[k], streams[k + 1])
  }

  lemma {:induction false} TakesChain(streams: seq<Stream>, fields: Fields, i: nat, n: nat, before: string, got: Fields)
    requires FieldChain(streams, fields) && i + n <= |fields|
    ensures TakeFields(streams[i], n, before, got).0 == got + fields[i..i + n]
    ensures TakeFields(streams[i], n, before, got).1 == streams[i + n]
    decreases n
  {
    if n > 0 {
      assert GivesField(streams[i], fields[i], streams[i + 1]);
      TakesChain(streams, fields, i + 1, n - 1, fields[i], got + [fields[i]]);
      assert got + fields[i..i + n] == (got + [fields[i]]) + fields[i + 1..i + n];
    } else {
      assert got + fields[i..i] == got;
    }
  }

  lemma RemainderGives(fields: Fields, k: nat)
    requires k < |fields| && AllPlain(fields)
    ensures GivesField(Remaining(fields[k..]), fields[k], Remaining(fields[k + 1..]))
  {
    var rest := fields[k..];
    assert rest[1..] == fields[k + 1..];
    forall before: string ensures GetLine(Remaining(rest), COMMA, before) == (Remaining(rest[1..]), rest[0]) {
      NextField(rest, before);
    }
  }

  function Remainders(fields: Fields): (streams: seq<Stream>)
    ensures |streams| == |fields| + 1
    ensures forall k :: 0 <= k <= |fields| ==> streams[k] == Remaining(fields[k..])
  {
    seq(|fields| + 1, k requires 0 <= k <= |fields| => Remaining(fields[k..]))
  }

  lemma RemaindersChain(fields: Fields)
    requires AllPlain(fields)
    ensures FieldChain(Remainders(fields), fields)
  {
    forall k | 0 <= k < |fields| ensures GivesField(Remainders(fields)[k], fields[k], Remainders(fields)[k + 1]) {
      RemainderGives(fields, k);
    }
  }

  lemma TakesFields(fields: Fields, n: nat, before: string, got: Fields)
    requires n <= |fields| && AllPlain(fields)
    ensures TakeFields(Remaining(fields), n, before, got).0 == got + fields[..n]
    ensures TakeFields(Remaining(fields), n, before, got).1 == Remaining(fields[n..])
  {
    RemaindersChain(fields);
    assert fields[0..] == fields && fields[0..n] == fields[..n];
    TakesChain(Remainders(fields), fields, 0, n, before, got);
  }

  lemma {:induction false} TakesNumbers(ws: seq<Word>, before: string, got: seq<Word>)
    ensures TakeNumbers(Remaining(Printed(ws)), |ws|, before, got) == Numbers(got + ws)
    decreases |ws|
  {
    if ws != [] {
      var printed, rest, got' := Printed(ws), ws[1..], got + [ws[0]];
      PrintedPlain(ws);
      NextField(printed, before);
      NumberRoundTrip(ws[0]);
      assert printed[1..] == Printed(rest);
      TakesNumbers(rest, printed[0], got');
      FirstThenRest(got, ws, |ws|);
      assert rest[..|rest|] == rest && ws[..|ws|] == ws;
      assert TakeNumbers(Remaining(printed), |ws|, before, got)
        == TakeNumbers(Remaining(printed[1..]), |rest|, printed[0], got');
    } else {
      assert got + ws == got;
    }
  }

  lemma PrintedPlain(ws: seq<Word>)
    ensures AllPlain(Printed(ws))
  {
    forall c | 0 <= c < |ws| ensures Plain(Printed(ws)[c]) {
      NumberRoundTrip(ws[c]);
    }
  }

  lemma LineFields(items: Fields, ws: seq<Word>)
    requires items != [] && AllPlain(items)
    ensures var line := Joined(items + Printed(ws));
      line != [] && NEWLINE !in line && TakenFields(line, |items|) == items
      && TakeFields(Fresh(line), |items|, [], []).1 == Remaining(Printed(ws))
  {
    var fields := items + Printed(ws);
    PrintedPlain(ws);
    assert AllPlain(fields);
    JoinedClean(fields);
    TakesFirst(fields, |items|);
    assert fields[..|items|] == items && fields[|items|..] == Printed(ws);
  }

  lemma TakesFirst(fields: Fields, n: nat)
    requires fields != [] && n <= |fields| && AllPlain(fields)
    ensures TakenFields(Joined(fields), n) == fields[..n]
    ensures TakeFields(Fresh(Joined(fields)), n, [], []).1 == Remaining(fields[n..])
  {
    TakesFields(fields, n, [], []);
    assert [] + fields[..n] == fields[..n];
  }

  lemma NumbersAfter(s: Stream, before: string, ws: seq<Word>, width: nat)
    requires s == Remaining(Printed(ws)) && (width == |ws| || width == 0)
    ensures TakeNumbers(s, width, before, []) == Numbers(ws[..width])
  {
    if width == |ws| {
      AllNumbers(ws, before);
      assert ws[..|ws|] == ws;
    } else {
      assert ws[..0] == [];
    }
  }

  lemma AllNumbers(ws: seq<Word>, before: string)
    ensures TakeNumbers(Remaining(Printed(ws)), |ws|, before, []) == Numbers(ws)
  {
    TakesNumbers(ws, before, []);
    assert [] + ws == ws;
  }

  lemma LineNumbers(line: string, skip: nat, ws: seq<Word>, width: nat)
    requires TakeFields(Fresh(line), skip, [], []).1 == Remaining(Printed(ws)) && (width == |ws| || width == 0)
    ensures TakenNumbers(line, skip, width) == Numbers(ws[..width])
  {
    var (_, s, before) := TakeFields(Fresh(line), skip, [], []);
    NumbersAfter(s, before, ws, width);
  }

  /** A written line parses into the row it was written from; with no payload columns asked for, the
      payloads are passed over. */
  lemma LineRoundTrip(items: Fields, ws: seq<Word>, width: nat)
    requires items != [] && AllPlain(items) && (width == |ws| || width == 0)
    ensures var line := Joined(items + Printed(ws));
      line != [] && NEWLINE !in line && TakenFields(line, |items|) == items
      && TakenNumbers(line, |items|, width) == Numbers(ws[..width])
  {
    LineFields(items, ws);
    LineNumbers(Joined(items + Printed(ws)), |items|, ws, width);
  }

  // ---- a run of lines ----

  /** The vectors after rows `from` up to `until` have been added to `got`. */
  ghost function Extended(got: Batch, t: Table, from: nat, until: nat, width: nat): (r: Batch)
    requires from <= until <= t.rows && Fits(got, t, width)
    ensures Fits(r, t, width)
    ensures forall c :: 0 <= c < |t.items| ==> r.items[c] == got.items[c] + t.items[c][from..until]
    ensures forall c :: 0 <= c < width ==> r.payloads[c] == got.payloads[c] + t.payloads[c][from..until]
  {
    Batch(
      seq(|t.items|, c requires 0 <= c < |t.items| => got.items[c] + t.items[c][from..until]),
      seq(width, c requires 0 <= c < width => got.payloads[c] + t.payloads[c][from..until]))
  }

  /** The vectors have the table's item columns and the payload columns that are read. */
  ghost predicate Fits(got: Batch, t: Table, width: nat) {
    |got.items| == |t.items| && |got.payloads| == width && (width == |t.payloads| || width == 0)
  }

  lemma SameBatch(a: Batch, b: Batch, t: Table, width: nat)
    requires Fits(a, t, width) && Fits(b, t, width)
    requires forall c :: 0 <= c < |t.items| ==> a.items[c] == b.items[c]
    requires forall c :: 0 <= c < width ==> a.payloads[c] == b.payloads[c]
    ensures a == b
  {
    assert a.items == b.items && a.payloads == b.payloads;
  }

  ghost function WithRow(got: Batch, t: Table, j: nat, width: nat): (r: Batch)
    requires j < t.rows && Fits(got, t, width)
    ensures Fits(r, t, width)
    ensures forall c :: 0 <= c < |t.items| ==> r.items[c] == got.items[c] + [t.items[c][j]]
    ensures forall c :: 0 <= c < width ==> r.payloads[c] == got.payloads[c] + [t.payloads[c][j]]
  {
    Batch(Appended(got.items, RowItems(t, j)), Appended(got.payloads, RowPayloads(t, j)[..width]))
  }

  lemma ExtendedStep(got: Batch, t: Table, from: nat, until: nat, width: nat)
    requires from < until <= t.rows && Fits(got, t, width)
    ensures Extended(WithRow(got, t, from, width), t, from + 1, until, width) == Extended(got, t, from, until, width)
  {
    var a, b := Extended(WithRow(got, t, from, width), t, from + 1, until, width), Extended(got, t, from, until, width);
    forall c | 0 <= c < |t.items| ensures a.items[c] == b.items[c] {
      assert t.items[c][from..until] == [t.items[c][from]] + t.items[c][from + 1..until];
    }
    forall c | 0 <= c < width ensures a.payloads[c] == b.payloads[c] {
      assert t.payloads[c][from..until] == [t.payloads[c][from]] + t.payloads[c][from + 1..until];
    }
    SameBatch(a, b, t, width);
  }

  lemma ExtendedNothing(got: Batch, t: Table, at: nat, width: nat)
    requires at <= t.rows && Fits(got, t, width)
    ensures Extended(got, t, at, at, width) == got
  {
    var a := Extended(got, t, at, at, width);
    forall c | 0 <= c < |t.items| ensures a.items[c] == got.items[c] {
      assert t.items[c][at..at] == [];
    }
    forall c | 0 <= c < width ensures a.payloads[c] == got.payloads[c] {
      assert t.payloads[c][at..at] == [];
    }
    SameBatch(a, got, t, width);
  }

  lemma ExtendedTwice(got: Batch, t: Table, a: nat, b: nat, c: nat, width: nat)
    requires a <= b <= c <= t.rows && Fits(got, t, width)
    ensures Extended(Extended(got, t, a, b, width), t, b, c, width) == Extended(got, t, a, c, width)
  {
    var l, r := Extended(Extended(got, t, a, b, width), t, b, c, width), Extended(got, t, a, c, width);
    forall k | 0 <= k < |t.items| ensures l.items[k] == r.items[k] {
      assert t.items[k][a..b] + t.items[k][b..c] == t.items[k][a..c];
    }
    forall k | 0 <= k < width ensures l.payloads[k] == r.payloads[k] {
      assert t.payloads[k][a..b] + t.payloads[k][b..c] == t.payloads[k][a..c];
    }
    SameBatch(l, r, t, width);
  }

  lemma RowComes(t: Table, from: nat, before: string)
    requires Carried(t) && from < t.rows
    ensures GetLine(Fresh(RowsText(t, from, t.rows)), NEWLINE, before)
      == (Fresh(RowsText(t, from + 1, t.rows)), RowText(t, from))
    ensures RowText(t, from) != []
  {
    LineRoundTrip(RowItems(t, from), RowPayloads(t, from), 0);
    GetsField(RowText(t, from), NEWLINE, RowsText(t, from + 1, t.rows), before);
  }

  lemma LineAdds(t: Table, j: nat, width: nat, got: Batch)
    requires Carried(t) && j < t.rows && Fits(got, t, width)
    ensures AddLine(RowText(t, j), got) == Ok(WithRow(got, t, j, width))
  {
    LineRoundTrip(RowItems(t, j), RowPayloads(t, j), width);
  }

  // ---- a chain of lines, whatever they hold ----

  /** Whatever string was read before, the stream gives `line`, which is not empty, and becomes `next`. */
  ghost predicate Gives(s: Stream, line: string, next: Stream) {
    line != [] && !next.fail && forall before: string :: GetLine(s, NEWLINE, before) == (next, line)
  }

  /** Every stream gives its line and becomes the next one; every line takes the vectors to the next ones. */
  ghost predicate Chain(streams: seq<Stream>, lines: Fields, gots: seq<Batch>) {
    && |streams| == |gots| == |lines| + 1
    && (forall k :: 0 <= k < |lines| ==> Gives(streams[k], lines[k], streams[k + 1]))
    && (forall k :: 0 <= k < |lines| ==> AddLine(lines[k], gots[k]) == Ok(gots[k + 1]))
  }

  lemma ChainLink(s: Stream, line: string, got: Batch, streams: seq<Stream>, lines: Fields, gots: seq<Batch>)
    requires Chain(streams, lines, gots) && Gives(s, line, streams[0]) && AddLine(line, got) == Ok(gots[0])
    ensures Chain([s] + streams, [line] + lines, [got] + gots)
    ensures ([s] + streams)[|lines| + 1] == streams[|lines|] && ([got] + gots)[|lines| + 1] == gots[|lines|]
  {
  }

  lemma {:induction false} ReadsChain(streams: seq<Stream>, lines: Fields, gots: seq<Batch>, i: nat, before: string)
    requires Chain(streams, lines, gots) && i <= |lines|
    ensures ReadRows(streams[i], before, |lines| - i, gots[i]) == (Ok(gots[|lines|]), streams[|lines|])
    decreases |lines| - i
  {
    if i < |lines| {
      assert Gives(streams[i], lines[i], streams[i + 1]);
      ReadsChain(streams, lines, gots, i + 1, lines[i]);
    }
  }

  function StreamAt(t: Table, j: nat): Stream
    requires j <= t.rows
  {
    Fresh(RowsText(t, j, t.rows))
  }

  function CursorAt(t: Table, j: nat): Cursor
    requires j <= t.rows
  {
    Cursor(StreamAt(t, j), j)
  }

  lemma RowGives(t: Table, j: nat)
    requires Carried(t) && j < t.rows
    ensures Gives(StreamAt(t, j), RowText(t, j), StreamAt(t, j + 1))
  {
    forall before: string
      ensures RowText(t, j) != [] && GetLine(StreamAt(t, j), NEWLINE, before) == (StreamAt(t, j + 1), RowText(t, j))
    {
      RowComes(t, j, before);
    }
    RowComes(t, j, []);
  }

  /** A chain that takes the rows from `from` up to `until` into `got`. */
  ghost predicate TakesRows(t: Table, from: nat, until: nat, width: nat, got: Batch,
      streams: seq<Stream>, lines: Fields, gots: seq<Batch>)
    requires from <= until <= t.rows && Fits(got, t, width)
  {
    && Chain(streams, lines, gots) && |lines| == until - from
    && streams[0] == StreamAt(t, from) && streams[|lines|] == StreamAt(t, until)
    && gots[0] == got && gots[|lines|] == Extended(got, t, from, until, width)
  }

  lemma TakesNone(t: Table, at: nat, width: nat, got: Batch)
    requires at <= t.rows && Fits(got, t, width)
    ensures TakesRows(t, at, at, width, got, [StreamAt(t, at)], [], [got])
  {
    ExtendedNothing(got, t, at, width);
  }

  lemma TakesOneMore(t: Table, from: nat, until: nat, width: nat, got: Batch,
      streams: seq<Stream>, lines: Fields, gots: seq<Batch>)
    requires Carried(t) && from < until <= t.rows && Fits(got, t, width)
    requires TakesRows(t, from + 1, until, width, WithRow(got, t, from, width), streams, lines, gots)
    ensures TakesRows(t, from, until, width, got, [StreamAt(t, from)] + streams, [RowText(t, from)] + lines,
      [got] + gots)
  {
    RowGives(t, from);
    LineAdds(t, from, width, got);
    ChainLink(StreamAt(t, from), RowText(t, from), got, streams, lines, gots);
    ExtendedStep(got, t, from, until, width);
  }

  /** The rows from `from` up to `until` form a chain. */
  lemma {:induction false} RowsChain(t: Table, from: nat, until: nat, width: nat, got: Batch)
    returns (streams: seq<Stream>, lines: Fields, gots: seq<Batch>)
    requires Carried(t) && from <= until <= t.rows && Fits(got, t, width)
    ensures TakesRows(t, from, until, width, got, streams, lines, gots)
    decreases until - from
  {
    if from == until {
      streams, lines, gots := [StreamAt(t, from)], [], [got];
      TakesNone(t, from, width, got);
    } else {
      streams, lines, gots := RowsChain(t, from + 1, until, width, WithRow(got, t, from, width));
      TakesOneMore(t, from, until, width, got, streams, lines, gots);
      streams, lines, gots := [StreamAt(t, from)] + streams, [RowText(t, from)] + lines, [got] + gots;
    }
  }

  // ---- counting ----

  lemma {:induction false} CountsFields(fields: Fields)
    requires AllPlain(fields)
    ensures CountFields(Remaining(fields)) == |fields|
  {
    if fields != [] {
      NextField(fields, []);
      CountsFields(fields[1..]);
    }
  }

  lemma {:induction false} CountsChain(streams: seq<Stream>, lines: Fields, gots: seq<Batch>, i: nat)
    requires Chain(streams, lines, gots) && i <= |lines|
    ensures CountLines(streams[i]) == |lines| - i + CountLines(streams[|lines|])
    decreases |lines| - i
  {
    if i < |lines| {
      assert Gives(streams[i], lines[i], streams[i + 1]);
      CountsChain(streams, lines, gots, i + 1);
    }
  }

  lemma CountsLines(t: Table, from: nat)
    requires Carried(t) && from <= t.rows
    ensures CountLines(StreamAt(t, from)) == t.rows - from
  {
    var streams, lines, gots := RowsChain(t, from, t.rows, 0, Blank(|t.items|, 0));
    CountsChain(streams, lines, gots, 0);
  }

  /** How many of the comma-separated pieces of a line are not empty. */
  function FilledPieces(line: string): nat {
    Filled(Split(line, COMMA))
  }

  /** Plain names are one piece each. */
  lemma PlainPieces(fields: Fields)
    requires AllPlain(fields)
    ensures FilledPieces(Joined(fields)) == |fields|
  {
    CountsPieces(Joined(fields));
    if fields != [] {
      CountsFields(fields);
    } else {
      assert Joined(fields) == [];
    }
  }

  /** A provider opened on a file without a header, or behind a header line, stands before the first row. */
  lemma OpensAtStart(t: Table, hasHeader: bool, header: Fields)
    requires Carried(t) && (hasHeader ==> header != [] && OneLine(header))
    ensures StartOf(FileText(t, hasHeader, header), hasHeader) == CursorAt(t, 0)
  {
    if hasHeader {
      HeaderLine(t, header);
    } else {
      assert FileText(t, hasHeader, header) == RowsText(t, 0, t.rows);
    }
  }

  lemma HeaderLine(t: Table, header: Fields)
    requires Carried(t) && header != [] && OneLine(header)
    ensures GetLine(Fresh(FileText(t, true, header)), NEWLINE, []) == (StreamAt(t, 0), Joined(header))
  {
    JoinedOneLine(header);
    GetsField(Joined(header), NEWLINE, RowsText(t, 0, t.rows), []);
  }

  lemma FirstLineCounts(text: string, hasHeader: bool, s: Stream, line: string)
    requires GetLine(Fresh(text), NEWLINE, []) == (s, line)
    ensures CountRows(text, hasHeader) == (if hasHeader then 0 else 1) + CountLines(s)
    ensures CountColumns(text) == CountFields(Fresh(line))
  {
  }

  lemma HeaderCounts(t: Table, header: Fields)
    requires Carried(t) && header != [] && OneLine(header)
    ensures CountRows(FileText(t, true, header), true) == t.rows
    ensures CountColumns(FileText(t, true, header)) == FilledPieces(Joined(header))
  {
    HeaderLine(t, header);
    FirstLineCounts(FileText(t, true, header), true, StreamAt(t, 0), Joined(header));
    CountsLines(t, 0);
    CountsPieces(Joined(header));
  }

  lemma RowCounts(t: Table)
    requires Carried(t) && t.rows > 0
    ensures CountRows(FileText(t, false, []), false) == t.rows
    ensures CountColumns(FileText(t, false, [])) == |t.items| + |t.payloads|
  {
    var text := FileText(t, false, []);
    assert text == RowsText(t, 0, t.rows);
    assert GetLine(Fresh(text), NEWLINE, []) == (StreamAt(t, 1), RowText(t, 0)) by {
      RowComes(t, 0, []);
    }
    FirstLineCounts(text, false, StreamAt(t, 1), RowText(t, 0));
    CountsLines(t, 1);
    RowFields(t, 0);
  }

  lemma RowFields(t: Table, j: nat)
    requires Carried(t) && j < t.rows
    ensures CountFields(Fresh(RowText(t, j))) == |t.items| + |t.payloads|
  {
    var fields := RowItems(t, j) + Printed(RowPayloads(t, j));
    PrintedPlain(RowPayloads(t, j));
    CountsFields(fields);
  }

  // ---- batches ----

  /** Successive batches into the same vectors, until an error. */
  function Drained(c: Cursor, rows: nat, itemColumns: nat, width: int, sizes: seq<nat>, got: Batch): (Outcome, Cursor)
    requires c.idx <= rows
    decreases |sizes|
  {
    if sizes == [] then (Ok(got), c)
    else
      var (outcome, c') := NextBatch(c, rows, itemColumns, width, sizes[0], got);
      if outcome.Ok? then Drained(c', rows, itemColumns, width, sizes[1..], outcome.batch) else (outcome, c')
  }

  function Sum(sizes: seq<nat>): nat {
    if sizes == [] then 0 else sizes[0] + Sum(sizes[1..])
  }

  lemma BatchOf(c: Cursor, rows: nat, size: nat, got: Batch, streams: seq<Stream>, lines: Fields, gots: seq<Batch>)
    requires c.idx <= rows && size > 0 && Chain(streams, lines, gots) && |lines| == Min(size, rows - c.idx)
    requires streams[0] == c.stream && gots[0] == got
    ensures NextBatch(c, rows, |got.items|, |got.payloads|, size, got)
      == (Ok(gots[|lines|]), Cursor(streams[|lines|], c.idx + |lines|))
  {
    ReadsChain(streams, lines, gots, 0, []);
    assert Resized(got.items, |got.items|) == got.items && Resized(got.payloads, |got.payloads|) == got.payloads;
  }

  /** Batches that follow one another. */
  ghost predicate Batches(cursors: seq<Cursor>, sizes: seq<nat>, gots: seq<Batch>, rows: nat, itemColumns: nat,
      width: int)
  {
    && |cursors| == |gots| == |sizes| + 1
    && (forall k :: 0 <= k < |cursors| ==> cursors[k].idx <= rows)
    && (forall k :: 0 <= k < |sizes| ==>
      NextBatch(cursors[k], rows, itemColumns, width, sizes[k], gots[k]) == (Ok(gots[k + 1]), cursors[k + 1]))
  }

  lemma {:induction false} DrainsBatches(cursors: seq<Cursor>, sizes: seq<nat>, gots: seq<Batch>, rows: nat,
      itemColumns: nat, width: int, i: nat)
    requires Batches(cursors, sizes, gots, rows, itemColumns, width) && i <= |sizes|
    ensures Drained(cursors[i], rows, itemColumns, width, sizes[i..], gots[i]) == (Ok(gots[|sizes|]), cursors[|sizes|])
    decreases |sizes| - i
  {
    if i < |sizes| {
      DrainsBatches(cursors, sizes, gots, rows, itemColumns, width, i + 1);
      assert sizes[i..][1..] == sizes[i + 1..];
    }
  }

  lemma BatchesLink(c: Cursor, got: Batch, cursors: seq<Cursor>, sizes: seq<nat>, gots: seq<Batch>, rows: nat,
      itemColumns: nat, width: int)
    requires sizes != [] && c.idx <= rows && Batches(cursors, sizes[1..], gots, rows, itemColumns, width)
    requires NextBatch(c, rows, itemColumns, width, sizes[0], got) == (Ok(gots[0]), cursors[0])
    ensures Batches([c] + cursors, sizes, [got] + gots, rows, itemColumns, width)
    ensures ([c] + cursors)[|sizes|] == cursors[|sizes| - 1] && ([got] + gots)[|sizes|] == gots[|sizes| - 1]
  {
    assert [sizes[0]] + sizes[1..] == sizes;
  }

  ghost predicate Positive(sizes: seq<nat>) {
    forall i :: 0 <= i < |sizes| ==> sizes[i] > 0
  }

  /** The sizes that are not zero. */
  function NonZero(sizes: seq<nat>): seq<nat> {
    if sizes == [] then [] else (if sizes[0] > 0 then [sizes[0]] else []) + NonZero(sizes[1..])
  }

  /** Batches of size zero change nothing, not even the number of columns. */
  lemma {:induction false} ZeroBatchesSkipped(c: Cursor, rows: nat, itemColumns: nat, width: int, sizes: seq<nat>,
      got: Batch)
    requires c.idx <= rows
    ensures Positive(NonZero(sizes)) && Sum(NonZero(sizes)) == Sum(sizes)
    ensures Drained(c, rows, itemColumns, width, sizes, got)
      == Drained(c, rows, itemColumns, width, NonZero(sizes), got)
    decreases |sizes|
  {
    if sizes != [] {
      var (outcome, c') := NextBatch(c, rows, itemColumns, width, sizes[0], got);
      ZeroBatchesSkipped(if outcome.Ok? then c' else c, rows, itemColumns, width, sizes[1..],
        if outcome.Ok? then outcome.batch else got);
      if sizes[0] > 0 {
        assert NonZero(sizes)[0] == sizes[0] && NonZero(sizes)[1..] == NonZero(sizes[1..]);
      } else {
        assert NonZero(sizes) == NonZero(sizes[1..]);
      }
    }
  }

  /** The row that batches of these sizes reach from `from`. */
  function Reached(from: nat, sizes: seq<nat>, rows: nat): (r: nat)
    requires from <= rows
    ensures from <= r <= rows && r == from + Min(Sum(sizes), rows - from)
    decreases |sizes|
  {
    if sizes == [] then from else Reached(from + Min(sizes[0], rows - from), sizes[1..], rows)
  }

  /** One batch from row `from`: the next rows, as many as are asked for and left. */
  lemma BatchReads(t: Table, from: nat, until: nat, size: nat, width: nat, got: Batch)
    requires Carried(t) && from <= t.rows && size > 0 && Fits(got, t, width) && until == from + Min(size, t.rows - from)
    ensures NextBatch(CursorAt(t, from), t.rows, |t.items|, width, size, got)
      == (Ok(Extended(got, t, from, until, width)), CursorAt(t, until))
  {
    var streams, lines, gots := RowsChain(t, from, until, width, got);
    BatchOf(CursorAt(t, from), t.rows, size, got, streams, lines, gots);
  }

  /** Batches of any sizes, from row `from` on. */
  lemma {:induction false} RowsBatches(t: Table, from: nat, until: nat, sizes: seq<nat>, width: nat, got: Batch)
    returns (cursors: seq<Cursor>, gots: seq<Batch>)
    requires Carried(t) && from <= t.rows && Positive(sizes) && Fits(got, t, width)
    requires until == Reached(from, sizes, t.rows)
    ensures Batches(cursors, sizes, gots, t.rows, |t.items|, width)
    ensures cursors[0] == CursorAt(t, from) && gots[0] == got
    ensures cursors[|sizes|] == CursorAt(t, until)
    ensures gots[|sizes|] == Extended(got, t, from, until, width)
    decreases |sizes|
  {
    if sizes == [] {
      cursors, gots := [CursorAt(t, from)], [got];
      ExtendedNothing(got, t, from, width);
    } else {
      var mid := from + Min(sizes[0], t.rows - from);
      var rest, mids := RowsBatches(t, mid, until, sizes[1..], width, Extended(got, t, from, mid, width));
      BatchReads(t, from, mid, sizes[0], width, got);
      BatchesLink(CursorAt(t, from), got, rest, sizes, mids, t.rows, |t.items|, width);
      cursors, gots := [CursorAt(t, from)] + rest, [got] + mids;
      ExtendedTwice(got, t, from, mid, until, width);
    }
  }

  // ---- whole files ----

  /** Vectors with all columns and no row. */
  function Blank(itemColumns: nat, width: nat): (r: Batch)
    ensures |r.items| == itemColumns && |r.payloads| == width
    ensures (forall c :: 0 <= c < itemColumns ==> r.items[c] == [])
      && (forall c :: 0 <= c < width ==> r.payloads[c] == [])
  {
    Batch(Resized([], itemColumns), Resized([], width))
  }

  /** The first `n` rows, by column. */
  function FirstRows(t: Table, n: nat, width: nat): (r: Batch)
    requires n <= t.rows && width <= |t.payloads|
  {
    Batch(
      seq(|t.items|, c requires 0 <= c < |t.items| => t.items[c][..n]),
      seq(width, c requires 0 <= c < width => t.payloads[c][..n]))
  }

  lemma FirstRowsExtendBlank(t: Table, n: nat, width: nat)
    requires n <= t.rows && (width == |t.payloads| || width == 0)
    ensures Extended(Blank(|t.items|, width), t, 0, n, width) == FirstRows(t, n, width)
  {
    var a, b := Extended(Blank(|t.items|, width), t, 0, n, width), FirstRows(t, n, width);
    forall c | 0 <= c < |t.items| ensures a.items[c] == b.items[c] {
      assert [] + t.items[c][0..n] == t.items[c][..n];
    }
    forall c | 0 <= c < width ensures a.payloads[c] == b.payloads[c] {
      assert [] + t.payloads[c][0..n] == t.payloads[c][..n];
    }
    SameBatch(a, b, t, width);
  }

  lemma AllRows(t: Table)
    requires Rectangular(t)
    ensures FirstRows(t, t.rows, |t.payloads|) == Batch(t.items, t.payloads)
    ensures FirstRows(t, t.rows, 0) == Batch(t.items, [])
  {
    assert forall c :: 0 <= c < |t.items| ==> t.items[c][..t.rows] == t.items[c];
    assert forall c :: 0 <= c < |t.payloads| ==> t.payloads[c][..t.rows] == t.payloads[c];
    assert FirstRows(t, t.rows, |t.payloads|).items == t.items;
    assert FirstRows(t, t.rows, |t.payloads|).payloads == t.payloads;
    assert FirstRows(t, t.rows, 0).items == t.items;
  }

  /** A first batch into empty vectors gives them their columns. */
  lemma FirstBatchResizes(c: Cursor, rows: nat, itemColumns: nat, width: nat, sizes: seq<nat>)
    requires c.idx <= rows && sizes != [] && Positive(sizes)
    ensures Drained(c, rows, itemColumns, width, sizes, Batch([], []))
      == Drained(c, rows, itemColumns, width, sizes, Blank(itemColumns, width))
  {
    var b := Blank(itemColumns, width);
    assert Resized(b.items, itemColumns) == b.items && Resized(b.payloads, width) == b.payloads;
    assert NextBatch(c, rows, itemColumns, width, sizes[0], Batch([], []))
      == NextBatch(c, rows, itemColumns, width, sizes[0], b);
  }

  lemma DrainsTable(t: Table, width: nat, sizes: seq<nat>)
    requires Carried(t) && sizes != [] && Positive(sizes) && (width == |t.payloads| || width == 0)
    ensures var n := Min(Sum(sizes), t.rows);
      Drained(CursorAt(t, 0), t.rows, |t.items|, width, sizes, Batch([], []))
        == (Ok(FirstRows(t, n, width)), CursorAt(t, n))
  {
    var got := Blank(|t.items|, width);
    var cursors, gots := RowsBatches(t, 0, Reached(0, sizes, t.rows), sizes, width, got);
    DrainsBatches(cursors, sizes, gots, t.rows, |t.items|, width, 0);
    assert sizes[0..] == sizes;
    FirstBatchResizes(CursorAt(t, 0), t.rows, |t.items|, width, sizes);
    FirstRowsExtendBlank(t, Min(Sum(sizes), t.rows), width);
  }

  /** What a caller can check before writing: with a header, it is not empty and its line has as many
      pieces that are not empty as there are columns; without one, there is a row. */
  ghost predicate Readable(t: Table, hasHeader: bool, header: Fields) {
    if hasHeader then header != [] && FilledPieces(Joined(header)) == |t.items| + |t.payloads| else t.rows > 0
  }

  lemma OpensWithCounts(t: Table, hasHeader: bool, header: Fields)
    requires Carried(t) && (hasHeader ==> OneLine(header)) && Readable(t, hasHeader, header)
    ensures CountRows(FileText(t, hasHeader, header), hasHeader) == t.rows
    ensures CountColumns(FileText(t, hasHeader, header)) == |t.items| + |t.payloads|
  {
    if hasHeader {
      HeaderCounts(t, header);
    } else {
      RowCounts(t);
    }
  }

  /** No row and no header line leave an empty file: without a header it counts as one row, and it has no
      column. */
  lemma OpensEmpty(t: Table, hasHeader: bool, header: Fields)
    requires Carried(t) && t.rows == 0 && (hasHeader ==> header == [])
    ensures FileText(t, hasHeader, header) == []
    ensures CountRows([], hasHeader) == (if hasHeader then 0 else 1) && CountColumns([]) == 0
    ensures StartOf([], hasHeader).stream.rest == []
  {
    FirstLineCounts([], hasHeader, Stream([], true, true), []);
  }

  /** A header of no names writes no header line, so the first row is taken for it. */
  lemma FirstRowTaken(t: Table)
    requires Carried(t) && t.rows > 0
    ensures CountRows(FileText(t, true, []), true) == t.rows - 1
  {
    var text := FileText(t, true, []);
    assert text == RowsText(t, 0, t.rows);
    assert GetLine(Fresh(text), NEWLINE, []) == (StreamAt(t, 1), RowText(t, 0)) by {
      RowComes(t, 0, []);
    }
    FirstLineCounts(text, true, StreamAt(t, 1), RowText(t, 0));
    CountsLines(t, 1);
  }

  /** The whole life of a provider with payloads: open, and read batches into empty vectors. */
  ghost function ReadBack(text: string, hasHeader: bool, itemColumns: nat, sizes: seq<nat>): (Outcome, Cursor) {
    Drained(StartOf(text, hasHeader), CountRows(text, hasHeader), itemColumns, CountColumns(text) - itemColumns, sizes,
      Batch([], []))
  }

  /** The same with the reader of items alone. */
  ghost function ReadItemsBack(text: string, hasHeader: bool, itemColumns: nat, sizes: seq<nat>): (Outcome, Cursor) {
    Drained(StartOf(text, hasHeader), CountRows(text, hasHeader), itemColumns, 0, sizes, Batch([], []))
  }

  /** The reader with payloads: any batches give the first rows, and leave the cursor behind them. */
  lemma BatchesGiveRows(t: Table, hasHeader: bool, header: Fields, sizes: seq<nat>)
    requires Carried(t) && (hasHeader ==> OneLine(header)) && Readable(t, hasHeader, header)
    requires sizes != [] && Positive(sizes)
    ensures var n := Min(Sum(sizes), t.rows);
      ReadBack(FileText(t, hasHeader, header), hasHeader, |t.items|, sizes)
      == (Ok(FirstRows(t, n, |t.payloads|)), CursorAt(t, n))
  {
    OpensAtStart(t, hasHeader, header);
    OpensWithCounts(t, hasHeader, header);
    DrainsTable(t, |t.payloads|, sizes);
  }

  // ---- what no reading can do ----

  lemma NegativeWidthFails(c: Cursor, rows: nat, itemColumns: nat, width: int, sizes: seq<nat>, got: Batch)
    requires c.idx <= rows && sizes != [] && Positive(sizes) && width < 0
    ensures Drained(c, rows, itemColumns, width, sizes, got) == (LengthError, c)
  {
    assert NextBatch(c, rows, itemColumns, width, sizes[0], got) == (LengthError, c);
  }

  ghost predicate NoLonger(got: Batch, n: nat) {
    forall c :: 0 <= c < |got.items| ==> |got.items[c]| <= n
  }

  lemma {:induction false} ReadRowsBounds(s: Stream, line: string, n: nat, got: Batch, have: nat)
    requires NoLonger(got, have)
    ensures var o := ReadRows(s, line, n, got).0;
      o.Ok? ==> NoLonger(o.batch, have + n) && |o.batch.payloads| == |got.payloads| && |o.batch.items| == |got.items|
    decreases n
  {
    if n > 0 {
      var (s', text) := GetLine(s, NEWLINE, line);
      var added := AddLine(text, got);
      if added.Ok? {
        ReadRowsBounds(s', text, n - 1, added.batch, have + 1);
      }
    }
  }

  /** However the file looks, the vectors never grow beyond the rows that were counted, and have the
      payload columns that were asked for. */
  lemma {:induction false} DrainedBounds(c: Cursor, rows: nat, itemColumns: nat, width: nat, sizes: seq<nat>,
      got: Batch)
    requires c.idx <= rows && Positive(sizes) && NoLonger(got, c.idx) && (sizes == [] ==> |got.payloads| == width)
    ensures var o := Drained(c, rows, itemColumns, width, sizes, got).0;
      o.Ok? ==> NoLonger(o.batch, rows) && |o.batch.payloads| == width
    decreases |sizes|
  {
    if sizes != [] {
      var n := Min(sizes[0], rows - c.idx);
      var sized := Batch(Resized(got.items, itemColumns), Resized(got.payloads, width));
      ReadRowsBounds(c.stream, [], n, sized, c.idx);
      var (outcome, c') := NextBatch(c, rows, itemColumns, width, sizes[0], got);
      if outcome.Ok? {
        DrainedBounds(c', rows, itemColumns, width, sizes[1..], outcome.batch);
      }
    }
  }

  // ---- the exact conditions ----

  lemma EmptyHeaderLosesRow(t: Table, sizes: seq<nat>, width: nat, text: string)
    requires Carried(t) && t.rows > 0 && Positive(sizes) && sizes != [] && text == FileText(t, true, [])
    ensures var o := Drained(StartOf(text, true), CountRows(text, true), |t.items|, width, sizes, Batch([], [])).0;
      o.Ok? ==> o.batch.items != t.items
  {
    FirstRowTaken(t);
    DrainedBounds(StartOf(text, true), CountRows(text, true), |t.items|, width, sizes, Batch([], []));
  }

  lemma UnreadableFails(t: Table, hasHeader: bool, header: Fields, sizes: seq<nat>)
    requires Carried(t) && (hasHeader ==> OneLine(header)) && !Readable(t, hasHeader, header)
    requires sizes != [] && Positive(sizes)
    ensures ReadBack(FileText(t, hasHeader, header), hasHeader, |t.items|, sizes).0 != Ok(Batch(t.items, t.payloads))
  {
    var text := FileText(t, hasHeader, header);
    var width := CountColumns(text) - |t.items|;
    if width < 0 {
      NegativeWidthFails(StartOf(text, hasHeader), CountRows(text, hasHeader), |t.items|, width, sizes, Batch([], []));
    } else if hasHeader && header == [] && t.rows > 0 {
      EmptyHeaderLosesRow(t, sizes, width, text);
    } else if hasHeader && header != [] {
      HeaderCounts(t, header);
      DrainedBounds(StartOf(text, true), CountRows(text, true), |t.items|, width, sizes, Batch([], []));
    } else {
      OpensEmpty(t, hasHeader, header);
    }
  }

  /** Reading until the rows are exhausted gives the table back if and only if the file is readable. */
  lemma RoundTripIff(t: Table, hasHeader: bool, header: Fields, sizes: seq<nat>)
    requires Carried(t) && (hasHeader ==> OneLine(header))
    requires sizes != [] && Positive(sizes) && Sum(sizes) >= t.rows
    ensures ReadBack(FileText(t, hasHeader, header), hasHeader, |t.items|, sizes).0 == Ok(Batch(t.items, t.payloads))
      <==> Readable(t, hasHeader, header)
  {
    if Readable(t, hasHeader, header) {
      BatchesGiveRows(t, hasHeader, header, sizes);
      AllRows(t);
    } else {
      UnreadableFails(t, hasHeader, header, sizes);
    }
  }

  /** A table of one item column and no row, written without a header, cannot be read back with payloads. */
  lemma EmptyFileFails()
    ensures var t: Table := Table([[]], [], 0);
      Carried(t) && ReadBack(FileText(t, false, []), false, 1, [1]).0 == LengthError
  {
    var t: Table := Table([[]], [], 0);
    OpensEmpty(t, false, []);
    NegativeWidthFails(StartOf([], false), 1, 1, -1, [1], Batch([], []));
  }

  /** A whole file, character by character. */
  lemma WrittenText()
    ensures FileText(Table([["k"]], [[7]], 1), true, ["h", "p"]) == "h,p\nk,7\n"
  {
    var t: Table := Table([["k"]], [[7]], 1);
    TwoJoined("h", "p");
    TwoJoined("k", "7");
    assert RowItems(t, 0) + Printed(RowPayloads(t, 0)) == ["k", "7"] by {
      assert Decimal(7) == "7";
    }
    assert RowsText(t, 0, 1) == RowText(t, 0) + [NEWLINE] + RowsText(t, 1, 1);
    assert "k,7" + ['\n'] + [] == "k,7\n" && "h,p" + ['\n'] == "h,p\n" && "h,p\n" + "k,7\n" == "h,p\nk,7\n";
  }

  lemma TwoJoined(a: string, b: string)
    ensures Joined([a, b]) == a + [','] + b
  {
    assert [a] + [b] == [a, b];
    JoinedSnoc([a], b);
  }

  /** A header that does not name the payload column loses it. */
  lemma ShortHeaderLosesPayload()
    ensures var t: Table := Table([["k"]], [[7]], 1);
      Carried(t) && ReadBack(FileText(t, true, ["h"]), true, 1, [1]).0 != Ok(Batch(t.items, t.payloads))
  {
    var t: Table := Table([["k"]], [[7]], 1);
    PlainPieces(["h"]);
    RoundTripIff(t, true, ["h"], [1]);
  }

  lemma EmptyStreamAdds(s: Stream, n: nat, got: Batch)
    requires s.rest == [] && n <= 1
    ensures ReadRows(s, [], n, got).0 == Ok(got) && ReadRows(s, [], n, got).1.rest == []
  {
    if n == 1 {
      var (s', text) := GetLine(s, NEWLINE, []);
      assert AddLine(text, got) == Ok(got);
      assert ReadRows(s', text, 0, got) == (Ok(got), s');
    }
  }

  lemma {:induction false} EmptyDrains(c: Cursor, rows: nat, itemColumns: nat, sizes: seq<nat>)
    requires c.idx <= rows <= 1 && c.stream.rest == []
    ensures Drained(c, rows, itemColumns, 0, sizes, Blank(itemColumns, 0)).0 == Ok(Blank(itemColumns, 0))
    decreases |sizes|
  {
    if sizes != [] {
      var got := Blank(itemColumns, 0);
      assert Resized(got.items, itemColumns) == got.items && Resized(got.payloads, 0) == got.payloads;
      var n := Min(sizes[0], rows - c.idx);
      EmptyStreamAdds(c.stream, n, got);
      var (outcome, c') := NextBatch(c, rows, itemColumns, 0, sizes[0], got);
      EmptyDrains(c', rows, itemColumns, sizes[1..]);
    }
  }

  lemma EmptyItemsBack(t: Table, hasHeader: bool, header: Fields, sizes: seq<nat>)
    requires Carried(t) && t.rows == 0 && (hasHeader ==> header == []) && sizes != [] && Positive(sizes)
    ensures ReadItemsBack(FileText(t, hasHeader, header), hasHeader, |t.items|, sizes).0 == Ok(Batch(t.items, []))
  {
    OpensEmpty(t, hasHeader, header);
    EmptyDrains(StartOf([], hasHeader), CountRows([], hasHeader), |t.items|, sizes);
    FirstBatchResizes(StartOf([], hasHeader), CountRows([], hasHeader), |t.items|, 0, sizes);
    assert Blank(|t.items|, 0) == Batch(t.items, []);
  }

  lemma WrittenItemsBack(t: Table, hasHeader: bool, header: Fields, sizes: seq<nat>)
    requires Carried(t) && (if hasHeader then header != [] && OneLine(header) else t.rows > 0)
    requires sizes != [] && Positive(sizes) && Sum(sizes) >= t.rows
    ensures ReadItemsBack(FileText(t, hasHeader, header), hasHeader, |t.items|, sizes).0 == Ok(Batch(t.items, []))
  {
    AllRows(t);
    OpensAtStart(t, hasHeader, header);
    if hasHeader {
      HeaderCounts(t, header);
    } else {
      RowCounts(t);
    }
    DrainsTable(t, 0, sizes);
  }

  /** The reader of items alone gives the item columns back, from an empty file too, if and only if no row
      is taken for a header that was not written. */
  lemma ItemsRoundTripIff(t: Table, hasHeader: bool, header: Fields, sizes: seq<nat>)
    requires Carried(t) && (hasHeader ==> OneLine(header))
    requires sizes != [] && Positive(sizes) && Sum(sizes) >= t.rows
    ensures ReadItemsBack(FileText(t, hasHeader, header), hasHeader, |t.items|, sizes).0 == Ok(Batch(t.items, []))
      <==> (hasHeader && header == [] ==> t.rows == 0)
  {
    if t.rows == 0 && (hasHeader ==> header == []) {
      EmptyItemsBack(t, hasHeader, header, sizes);
    } else if hasHeader && header == [] {
      EmptyHeaderLosesRow(t, sizes, 0, FileText(t, true, header));
    } else {
      WrittenItemsBack(t, hasHeader, header, sizes);
    }
  }
}
