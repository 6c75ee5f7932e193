/** Reading CSV in batches (src/setops/data/csv_data_provider.cpp). */
module CsvReader {
  import opened Words
  import opened CsvText
  import opened CsvProvider

  datatype Batch = Batch(items: seq<seq<string>>, payloads: seq<seq<Word>>)

  /** The exceptions that reading can raise: a payload that is no number or too large, and a resize by a
      column count that wrapped below zero. */
  datatype Outcome = Ok(batch: Batch) | BadNumber(why: Parsed) | LengthError

  datatype Cursor = Cursor(stream: Stream, idx: nat)

  // ---- one line ----

  /** Extracts `n` fields; a failing extraction repeats the string of the one before. */
  function TakeFields(s: Stream, n: nat, before: string, got: Fields): (Fields, Stream, string)
    decreases n
  {
    if n == 0 then (got, s, before)
    else
      var (s', field) := GetLine(s, COMMA, before);
      TakeFields(s', n - 1, field, got + [field])
  }

  datatype Numbers = Numbers(values: seq<Word>) | Bad(why: Parsed)

  /** Extracts and converts `n` fields. */
  function TakeNumbers(s: Stream, n: nat, before: string, got: seq<Word>): Numbers
    decreases n
  {
    if n == 0 then Numbers(got)
    else
      var (s', field) := GetLine(s, COMMA, before);
      match ParseNumber(field)
      case Number(w) => TakeNumbers(s', n - 1, field, got + [w])
      case other => Bad(other)
  }

  function TakenFields(line: string, n: nat): (r: Fields) {
    TakeFields(Fresh(line), n, [], []).0
  }

  function TakenNumbers(line: string, skip: nat, n: nat): Numbers {
    var (_, s, before) := TakeFields(Fresh(line), skip, [], []);
    TakeNumbers(s, n, before, [])
  }

  lemma {:induction false} TakeFieldsLength(s: Stream, n: nat, before: string, got: Fields)
    ensures |TakeFields(s, n, before, got).0| == |got| + n
    decreases n
  {
    if n > 0 {
      var (s', field) := GetLine(s, COMMA, before);
      TakeFieldsLength(s', n - 1, field, got + [field]);
    }
  }

  lemma {:induction false} TakeNumbersLength(s: Stream, n: nat, before: string, got: seq<Word>)
    ensures var r := TakeNumbers(s, n, before, got); r.Numbers? ==> |r.values| == |got| + n
    decreases n
  {
    if n > 0 {
      var (s', field) := GetLine(s, COMMA, before);
      match ParseNumber(field)
      case Number(w) => TakeNumbersLength(s', n - 1, field, got + [w]);
      case _ =>
    }
  }

  lemma NumberTaken(s: Stream, n: nat, before: string, got: seq<Word>, w: Word)
    requires n > 0 && ParseNumber(GetLine(s, COMMA, before).1) == Number(w)
    ensures TakeNumbers(s, n, before, got)
      == TakeNumbers(GetLine(s, COMMA, before).0, n - 1, GetLine(s, COMMA, before).1, got + [w])
  {
  }

  method SplitLine(line: string, itemColumns: nat, payloadColumns: nat) returns (fields: Fields, numbers: Numbers)
    ensures fields == TakenFields(line, itemColumns) && |fields| == itemColumns
    ensures numbers == TakenNumbers(line, itemColumns, payloadColumns)
    ensures numbers.Numbers? ==> |numbers.values| == payloadColumns
  {
    var s, text := Fresh(line), [];
    fields := [];
    TakeFieldsLength(s, itemColumns, text, fields);
    for k := 0 to itemColumns
      invariant TakeFields(Fresh(line), itemColumns, [], []) == TakeFields(s, itemColumns - k, text, fields)
    {
      var next := GetLine(s, COMMA, text);
      s, text := next.0, next.1;
      fields := fields + [text];
    }
    assert (fields, s, text) == TakeFields(Fresh(line), itemColumns, [], []);
    var values: seq<Word> := [];
    TakeNumbersLength(s, payloadColumns, text, values);
    for k := 0 to payloadColumns
      invariant TakenNumbers(line, itemColumns, payloadColumns) == TakeNumbers(s, payloadColumns - k, text, values)
    {
      ghost var before, held := s, text;
      var next := GetLine(s, COMMA, text);
      s, text := next.0, next.1;
      match ParseNumber(text) {
        case Number(w) =>
          NumberTaken(before, payloadColumns - k, held, values, w);
          values := values + [w];
        case other =>
          numbers := Bad(other);
          return;
      }
    }
    numbers := Numbers(values);
  }

  // ---- a batch ----

  function Resized<T>(columns: seq<seq<T>>, n: nat): (r: seq<seq<T>>)
    ensures |r| == n
  {
    if n <= |columns| then columns[..n] else columns + seq(n - |columns|, _ => [])
  }

  /** Resizing drops the last columns, or adds empty ones, and leaves the others as they are. */
  lemma ResizedAt<T>(columns: seq<seq<T>>, n: nat, c: nat)
    requires c < n
    ensures Resized(columns, n)[c] == if c < |columns| then columns[c] else []
  {
  }

  function Appended<T>(columns: seq<seq<T>>, row: seq<T>): (r: seq<seq<T>>)
    requires |row| == |columns|
    ensures |r| == |columns| && forall c :: 0 <= c < |r| ==> r[c] == columns[c] + [row[c]]
  {
    seq(|columns|, c requires 0 <= c < |columns| => columns[c] + [row[c]])
  }

  /** Adds one line to the vectors; an empty line adds nothing. */
  function AddLine(text: string, got: Batch): Outcome {
    if text == [] then Ok(got)
    else
      var fields, numbers := TakenFields(text, |got.items|), TakenNumbers(text, |got.items|, |got.payloads|);
      TakeFieldsLength(Fresh(text), |got.items|, [], []);
      NumbersFit(text, |got.items|, |got.payloads|);
      if numbers.Bad? then BadNumber(numbers.why)
      else Ok(Batch(Appended(got.items, fields), Appended(got.payloads, numbers.values)))
  }

  /** Reads `n` lines, or up to the first that cannot be converted. */
  function ReadRows(s: Stream, line: string, n: nat, got: Batch): (Outcome, Stream)
    decreases n
  {
    if n == 0 then (Ok(got), s)
    else
      var (s', text) := GetLine(s, NEWLINE, line);
      var added := AddLine(text, got);
      if added.Ok? then ReadRows(s', text, n - 1, added.batch) else (added, s')
  }

  lemma NumbersFit(line: string, skip: nat, n: nat)
    ensures var r := TakenNumbers(line, skip, n); r.Numbers? ==> |r.values| == n
  {
    var (_, s, before) := TakeFields(Fresh(line), skip, [], []);
    TakeNumbersLength(s, n, before, []);
  }

  function Min(a: nat, b: nat): nat {
    if a < b then a else b
  }

  /** One call of the batch reader: `width` is the number of payload columns it resizes to, if it is not
      negative. The vectors that are passed in are extended. */
  function NextBatch(c: Cursor, rows: nat, itemColumns: nat, width: int, size: nat, got: Batch): (Outcome, Cursor)
    requires c.idx <= rows
  {
    if size == 0 then (Ok(got), c)
    else if width < 0 then (LengthError, c)
    else
      var n := Min(size, rows - c.idx);
      var (outcome, s) := ReadRows(c.stream, [], n,
        Batch(Resized(got.items, itemColumns), Resized(got.payloads, width)));
      (outcome, Cursor(s, if outcome.Ok? then c.idx + n else c.idx))
  }

  // ---- counting ----

  function Left(s: Stream): nat {
    if s.eof || s.fail then 0 else |s.rest| + 1
  }

  lemma LineShortens(s: Stream, delimiter: char, before: string)
    ensures var (s', _) := GetLine(s, delimiter, before); !s'.fail ==> Left(s') < Left(s)
  {
  }

  /** How many fields that are not empty a line has. */
  function CountFields(s: Stream): nat
    decreases Left(s)
  {
    var (s', field) := GetLine(s, COMMA, []);
    LineShortens(s, COMMA, []);
    if s'.fail then 0 else (if field != [] then 1 else 0) + CountFields(s')
  }

  /** How many lines that are not empty are left. */
  function CountLines(s: Stream): nat
    decreases Left(s)
  {
    var (s', line) := GetLine(s, NEWLINE, []);
    LineShortens(s, NEWLINE, []);
    if s'.fail then 0 else (if line != [] then 1 else 0) + CountLines(s')
  }

  function CountRows(text: string, hasHeader: bool): nat {
    (if hasHeader then 0 else 1) + CountLines(GetLine(Fresh(text), NEWLINE, []).0)
  }

  function CountColumns(text: string): nat {
    CountFields(Fresh(GetLine(Fresh(text), NEWLINE, []).1))
  }

  lemma {:induction false} CountsPieces(line: string)
    ensures CountFields(Fresh(line)) == Filled(Split(line, COMMA))
  {
    var i := IndexOf(line, COMMA);
    if line == [] {
      assert GetLine(Fresh(line), COMMA, []).0.fail;
    } else if i < |line| {
      assert GetLine(Fresh(line), COMMA, []) == (Fresh(line[i + 1..]), line[..i]);
      CountsPieces(line[i + 1..]);
    } else {
      assert GetLine(Fresh(line), COMMA, []) == (Stream([], true, false), line);
      assert CountFields(Stream([], true, false)) == 0;
    }
  }

  lemma {:induction false} CountsFilledLines(text: string)
    ensures CountLines(Fresh(text)) == Filled(Split(text, NEWLINE))
  {
    var i := IndexOf(text, NEWLINE);
    if text == [] {
      assert GetLine(Fresh(text), NEWLINE, []).0.fail;
    } else if i < |text| {
      assert GetLine(Fresh(text), NEWLINE, []) == (Fresh(text[i + 1..]), text[..i]);
      CountsFilledLines(text[i + 1..]);
    } else {
      assert GetLine(Fresh(text), NEWLINE, []) == (Stream([], true, false), text);
      assert CountLines(Stream([], true, false)) == 0;
    }
  }

  /** What is counted in any text: the lines after the first that are not empty, one more without a header,
      and the pieces of the first line that are not empty. */
  lemma CountsOfText(text: string, hasHeader: bool)
    ensures CountRows(text, hasHeader) == (if hasHeader then 0 else 1) + Filled(Split(text, NEWLINE)[1..])
    ensures CountColumns(text) == Filled(Split(Split(text, NEWLINE)[0], COMMA))
  {
    GetsFirst(text, NEWLINE, []);
    CountsPieces(Split(text, NEWLINE)[0]);
    if |Split(text, NEWLINE)| > 1 {
      CountsFilledLines(text[IndexOf(text, NEWLINE) + 1..]);
    } else {
      assert CountLines(GetLine(Fresh(text), NEWLINE, []).0) == 0;
    }
  }

  function StartOf(text: string, hasHeader: bool): Cursor {
    Cursor(if hasHeader then GetLine(Fresh(text), NEWLINE, []).0 else Fresh(text), 0)
  }

  method CountRowsAndColumns(text: string, hasHeader: bool) returns (rows: nat, columns: nat)
    ensures rows == CountRows(text, hasHeader) && columns == CountColumns(text)
    ensures rows == (if hasHeader then 0 else 1) + Filled(Split(text, NEWLINE)[1..])
    ensures columns == Filled(Split(Split(text, NEWLINE)[0], COMMA))
  {
    rows, columns := 0, 0;
    var first := GetLine(Fresh(text), NEWLINE, []);
    var ss := Fresh(first.1);
    while true
      invariant columns + CountFields(ss) == CountColumns(text)
      decreases Left(ss)
    {
      LineShortens(ss, COMMA, []);
      var next := GetLine(ss, COMMA, []);
      if next.0.fail {
        break;
      }
      if next.1 != [] {
        columns := columns + 1;
      }
      ss := next.0;
    }
    if !hasHeader {
      rows := rows + 1;
    }
    var s := first.0;
    while true
      invariant rows + CountLines(s) == CountRows(text, hasHeader)
      decreases Left(s)
    {
      LineShortens(s, NEWLINE, []);
      var next := GetLine(s, NEWLINE, []);
      if next.0.fail {
        break;
      }
      if next.1 != [] {
        rows := rows + 1;
      }
      s := next.0;
    }
    CountsOfText(text, hasHeader);
  }

  // ---- the provider object ----

  class CsvDataProvider {
    const text: string
    const hasHeader: bool
    const itemColumns: nat
    var stream: Stream
    var idx: nat
    var rows: nat
    var columns: nat

    /** The cursor stays within the rows that were counted. */
    ghost predicate Valid()
      reads this
    {
      rows == CountRows(text, hasHeader) && columns == CountColumns(text) && idx <= rows
    }

    ghost function Position(): Cursor
      reads this
    {
      Cursor(stream, idx)
    }

    constructor (text: string, hasHeader: bool, itemColumns: nat)
      ensures Valid() && Position() == StartOf(text, hasHeader)
      ensures this.text == text && this.hasHeader == hasHeader && this.itemColumns == itemColumns
    {
      this.text, this.hasHeader, this.itemColumns := text, hasHeader, itemColumns;
      var r, c := CountRowsAndColumns(text, hasHeader);
      rows, columns := r, c;
      stream := if hasHeader then GetLine(Fresh(text), NEWLINE, []).0 else Fresh(text);
      idx := 0;
    }

    method SeekBegin()
      requires Valid()
      modifies this`stream, this`idx
      ensures Valid() && Position() == StartOf(text, hasHeader)
    {
      stream := Fresh(text);
      if hasHeader {
        stream := GetLine(stream, NEWLINE, []).0;
      }
      idx := 0;
    }

    /** The loop that both batch readers share: `n` lines into resized vectors. */
    method ReadLines(n: nat, batch: Batch) returns (outcome: Outcome)
      modifies this`stream
      ensures (outcome, stream) == ReadRows(old(stream), [], n, batch)
    {
      var line := [];
      var got := batch;
      for k := 0 to n
        invariant ReadRows(old(stream), [], n, batch) == ReadRows(stream, line, n - k, got)
      {
        var next := GetLine(stream, NEWLINE, line);
        stream, line := next.0, next.1;
        if line != [] {
          var fields, numbers := SplitLine(line, |got.items|, |got.payloads|);
          if numbers.Bad? {
            return BadNumber(numbers.why);
          }
          got := Batch(Appended(got.items, fields), Appended(got.payloads, numbers.values));
        }
      }
      outcome := Ok(got);
    }

    method GetNextBatchWithPayloads2d(size: nat, got: Batch) returns (outcome: Outcome)
      requires Valid()
      modifies this`stream, this`idx
      ensures Valid()
      ensures (outcome, Position()) == NextBatch(old(Position()), rows, itemColumns, columns - itemColumns, size, got)
    {
      if size == 0 {
        return Ok(got);
      }
      if columns < itemColumns {
        return LengthError;
      }
      var n := Min(size, rows - idx);
      outcome := ReadLines(n, Batch(Resized(got.items, itemColumns), Resized(got.payloads, columns - itemColumns)));
      if outcome.Ok? {
        idx := idx + n;
      }
    }

    method GetNextBatch2d(size: nat, items: seq<seq<string>>) returns (outcome: Outcome)
      requires Valid()
      modifies this`stream, this`idx
      ensures Valid()
      ensures (outcome, Position()) == NextBatch(old(Position()), rows, itemColumns, 0, size, Batch(items, []))
    {
      if size == 0 {
        return Ok(Batch(items, []));
      }
      var n := Min(size, rows - idx);
      var none: seq<seq<Word>> := [];
      assert Resized(none, 0) == none;
      outcome := ReadLines(n, Batch(Resized(items, itemColumns), none));
      if outcome.Ok? {
        idx := idx + n;
      }
    }
  }
}
