/**
 Writing a table as CSV and reading it back in batches (src/setops/data/csv_data_provider.cpp). The
 file is an in-memory text.
 */
module CsvProvider {
  import opened Words
  import opened CsvText

  type Fields = seq<string>

  // ---- writing ----

  function Joined(fields: Fields): string {
    if fields == [] then []
    else if |fields| == 1 then fields[0]
    else Joined(fields[..|fields| - 1]) + [COMMA] + fields[|fields| - 1]
  }

  /** A table is given by its columns. The first item column sets the number of rows; what the other
      columns hold beyond it is not written. */
  datatype AnyTable = Table(items: seq<seq<string>>, payloads: seq<seq<Word>>, rows: nat)
  type Table = t: AnyTable | IsTable(t) ghost witness Table([], [], 0)

  ghost predicate IsTable(t: AnyTable) {
    && (if t.items == [] then t.rows == 0 else t.rows == |t.items[0]|)
    && (forall c :: 0 <= c < |t.items| ==> |t.items[c]| >= t.rows)
    && (forall c :: 0 <= c < |t.payloads| ==> |t.payloads[c]| >= t.rows)
  }

  function RowItems(t: Table, j: nat): (r: Fields)
    requires j < t.rows
    ensures |r| == |t.items| && forall c :: 0 <= c < |r| ==> r[c] == t.items[c][j]
  {
    seq(|t.items|, c requires 0 <= c < |t.items| => t.items[c][j])
  }

  function RowPayloads(t: Table, j: nat): (r: seq<Word>)
    requires j < t.rows
    ensures |r| == |t.payloads| && forall c :: 0 <= c < |r| ==> r[c] == t.payloads[c][j]
  {
    seq<Word>(|t.payloads|, c requires 0 <= c < |t.payloads| => t.payloads[c][j])
  }

  function Printed(ws: seq<Word>): (r: Fields)
    ensures |r| == |ws| && forall c :: 0 <= c < |r| ==> r[c] == Decimal(ws[c])
  {
    seq(|ws|, c requires 0 <= c < |ws| => Decimal(ws[c]))
  }

  function RowText(t: Table, j: nat): string
    requires j < t.rows
  {
    Joined(RowItems(t, j) + Printed(RowPayloads(t, j)))
  }

  /** Rows `from` up to `until`, each ended by a newline. */
  function RowsText(t: Table, from: nat, until: nat): string
    requires from <= until <= t.rows
    decreases until - from
  {
    if from == until then [] else RowText(t, from) + [NEWLINE] + RowsText(t, from + 1, until)
  }

  function HeaderText(hasHeader: bool, header: Fields): string {
    if hasHeader && header != [] then Joined(header) + [NEWLINE] else []
  }

  datatype WriteResult = Written(text: string) | NoItems

  lemma JoinedSnoc(fields: Fields, field: string)
    ensures Joined(fields + [field]) == if fields == [] then field else Joined(fields) + [COMMA] + field
  {
    assert (fields + [field])[..|fields|] == fields;
  }

  lemma Regroup(a: string, b: string, c: string)
    ensures a + (b + c) == (a + b) + c
  {
  }

  lemma FirstRow(t: Table, from: nat, until: nat)
    requires from < until <= t.rows
    ensures RowsText(t, from, until) == (RowText(t, from) + [NEWLINE]) + RowsText(t, from + 1, until)
  {
  }

  /** Appending a last line commutes with putting a line in front. */
  lemma Surround(first: string, middle: string, last: string, front: string, back: string, all: string)
    requires front == first + middle && back == middle + last && all == first + back
    ensures all == front + last
  {
  }

  /** Writing a last row appends its line. */
  ghost predicate OneMoreRow(t: Table, from: nat, until: nat)
    requires from <= until < t.rows
  {
    RowsText(t, from, until + 1) == RowsText(t, from, until) + (RowText(t, until) + [NEWLINE])
  }

  lemma OnlyRow(t: Table, j: nat)
    requires j < t.rows
    ensures OneMoreRow(t, j, j)
  {
    FirstRow(t, j, j + 1);
    assert RowsText(t, j, j) == [] && RowsText(t, j + 1, j + 1) == [];
  }

  lemma OneMoreInFront(t: Table, from: nat, until: nat)
    requires from < until < t.rows && OneMoreRow(t, from + 1, until)
    ensures OneMoreRow(t, from, until)
  {
    FirstRow(t, from, until);
    FirstRow(t, from, until + 1);
    Surround(RowText(t, from) + [NEWLINE], RowsText(t, from + 1, until), RowText(t, until) + [NEWLINE],
      RowsText(t, from, until), RowsText(t, from + 1, until + 1), RowsText(t, from, until + 1));
  }

  lemma {:induction false} RowsTextSnoc(t: Table, from: nat, until: nat)
    requires from <= until < t.rows
    ensures OneMoreRow(t, from, until)
    decreases until - from
  {
    if from < until {
      RowsTextSnoc(t, from + 1, until);
      OneMoreInFront(t, from, until);
    } else {
      OnlyRow(t, from);
    }
  }

  method WriteHeader(hasHeader: bool, header: Fields) returns (text: string)
    ensures text == HeaderText(hasHeader, header)
  {
    text := [];
    if hasHeader {
      for i := 0 to |header|
        invariant text ==
          if i == 0 then []
          else if i == |header| then Joined(header) + [NEWLINE]
          else Joined(header[..i]) + [COMMA]
      {
        JoinedSnoc(header[..i], header[i]);
        assert header[..i] + [header[i]] == header[..i + 1];
        assert header[..|header|] == header;
        text := text + header[i] + [if i != |header| - 1 then COMMA else NEWLINE];
      }
    }
  }

  method WriteItems(t: Table, j: nat) returns (text: string)
    requires t.items != [] && j < t.rows
    ensures text == Joined(RowItems(t, j)) + [if t.payloads == [] then NEWLINE else COMMA]
  {
    text := [];
    ghost var fields := RowItems(t, j);
    var hasPayloads := t.payloads != [];
    for i := 0 to |t.items|
      invariant text ==
        if i == 0 then [] else Joined(fields[..i]) + [if i == |fields| && !hasPayloads then NEWLINE else COMMA]
    {
      JoinedSnoc(fields[..i], fields[i]);
      assert fields[..i] + [fields[i]] == fields[..i + 1];
      if i != |t.items| - 1 {
        text := text + t.items[i][j] + [COMMA];
      } else if hasPayloads {
        text := text + t.items[i][j] + [COMMA];
      } else {
        text := text + t.items[i][j] + [NEWLINE];
      }
    }
    assert fields[..|fields|] == fields;
  }

  lemma JoinedOneMore(items: Fields, printed: Fields, i: nat)
    requires items != [] && i < |printed|
    ensures Joined(items + printed[..i + 1]) == Joined(items + printed[..i]) + [COMMA] + printed[i]
  {
    JoinedSnoc(items + printed[..i], printed[i]);
    assert items + printed[..i] + [printed[i]] == items + printed[..i + 1];
  }

  method WritePayloads(t: Table, j: nat, before: string, ghost items: Fields) returns (text: string)
    requires j < t.rows && items != [] && before == Joined(items) + [if t.payloads == [] then NEWLINE else COMMA]
    ensures text == Joined(items + Printed(RowPayloads(t, j))) + [NEWLINE]
  {
    text := before;
    ghost var printed := Printed(RowPayloads(t, j));
    assert items + printed[..0] == items;
    for i := 0 to |t.payloads|
      invariant text == Joined(items + printed[..i]) + [if i == |t.payloads| then NEWLINE else COMMA]
    {
      JoinedOneMore(items, printed, i);
      text := text + Decimal(t.payloads[i][j]) + [if i != |t.payloads| - 1 then COMMA else NEWLINE];
    }
    assert printed[..|t.payloads|] == printed;
  }

  method WriteDataToFile(t: Table, hasHeader: bool, header: Fields) returns (result: WriteResult)
    ensures t.items == [] <==> result.NoItems?
    ensures t.items != [] ==> result == Written(HeaderText(hasHeader, header) + RowsText(t, 0, t.rows))
  {
    if t.items == [] {
      return NoItems;
    }
    var text := WriteHeader(hasHeader, header);
    for j := 0 to |t.items[0]|
      invariant text == HeaderText(hasHeader, header) + RowsText(t, 0, j)
    {
      var row := WriteItems(t, j);
      row := WritePayloads(t, j, row, RowItems(t, j));
      RowsTextSnoc(t, 0, j);
      Regroup(HeaderText(hasHeader, header), RowsText(t, 0, j), row);
      text := text + row;
    }
    result := Written(text);
  }
}
