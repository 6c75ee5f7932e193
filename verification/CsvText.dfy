/** Text streams as the CSV provider uses them: line extraction, decimal printing and parsing
    (src/setops/data/csv_data_provider.cpp). */
module CsvText {
  import opened Words

  const COMMA: char := ','
  const NEWLINE: char := '\n'

  // ---- extraction ----

  /** What is left to read, and the two state bits that extraction looks at. */
  datatype Stream = Stream(rest: string, eof: bool, fail: bool)

  function Fresh(text: string): Stream {
    Stream(text, false, false)
  }

  function IndexOf(s: string, c: char): (i: nat)
    ensures i <= |s| && c !in s[..i] && (i < |s| ==> s[i] == c)
  {
    if s == [] || s[0] == c then 0 else 1 + IndexOf(s[1..], c)
  }

  /** Extracts up to a delimiter. A stream that has failed or ended leaves the string as it was. */
  function GetLine(s: Stream, delimiter: char, before: string): (Stream, string) {
    if s.eof || s.fail then (s.(fail := true), before)
    else if s.rest == [] then (Stream([], true, true), [])
    else
      var i := IndexOf(s.rest, delimiter);
      if i < |s.rest| then (s.(rest := s.rest[i + 1..]), s.rest[..i]) else (Stream([], true, false), s.rest)
  }

  lemma {:induction false} IndexAfter(a: string, c: char, b: string)
    requires c !in a
    ensures IndexOf(a + [c] + b, c) == |a|
  {
    if a != [] {
      assert (a + [c] + b)[1..] == a[1..] + [c] + b;
      IndexAfter(a[1..], c, b);
    }
  }

  /** A delimited field is extracted, and the delimiter with it. */
  lemma GetsField(field: string, delimiter: char, tail: string, before: string)
    requires delimiter !in field
    ensures GetLine(Fresh(field + [delimiter] + tail), delimiter, before) == (Fresh(tail), field)
  {
    IndexAfter(field, delimiter, tail);
    assert (field + [delimiter] + tail)[..|field|] == field;
    assert (field + [delimiter] + tail)[|field| + 1..] == tail;
  }

  /** The last field, which no delimiter follows, is extracted and ends the stream. */
  lemma GetsLast(field: string, delimiter: char, before: string)
    requires delimiter !in field && field != []
    ensures GetLine(Fresh(field), delimiter, before) == (Stream([], true, false), field)
  {
    assert forall j :: 0 <= j < |field| ==> field[j] in field;
  }

  // ---- the pieces of a text ----

  /** The pieces between the delimiters of a text, empty ones included. */
  function Split(text: string, c: char): (r: seq<string>)
    ensures r != []
  {
    var i := IndexOf(text, c);
    if i < |text| then [text[..i]] + Split(text[i + 1..], c) else [text]
  }

  function Glued(pieces: seq<string>, c: char): string {
    if pieces == [] then [] else if |pieces| == 1 then pieces[0] else pieces[0] + [c] + Glued(pieces[1..], c)
  }

  /** The pieces hold no delimiter, and with delimiters between them they are the text. */
  lemma {:induction false} SplitGlues(text: string, c: char)
    ensures forall k :: 0 <= k < |Split(text, c)| ==> c !in Split(text, c)[k]
    ensures Glued(Split(text, c), c) == text
  {
    var i := IndexOf(text, c);
    if i < |text| {
      SplitGlues(text[i + 1..], c);
      assert text == text[..i] + [c] + text[i + 1..];
      assert Split(text, c)[1..] == Split(text[i + 1..], c);
    }
  }

  /** How many of the pieces are not empty. */
  function Filled(pieces: seq<string>): (n: nat)
    ensures n <= |pieces|
  {
    if pieces == [] then 0 else (if pieces[0] != [] then 1 else 0) + Filled(pieces[1..])
  }

  /** The stream after `j` extractions. */
  function After(text: string, c: char, j: nat): Stream {
    if j == 0 then Fresh(text) else GetLine(After(text, c, j - 1), c, []).0
  }

  lemma AfterNext(text: string, c: char, j: nat)
    ensures After(text, c, j + 1) == GetLine(After(text, c, j), c, []).0
  {
  }

  lemma GetsFirst(t: string, c: char, before: string)
    ensures GetLine(Fresh(t), c, before) == (GetLine(Fresh(t), c, []).0, Split(t, c)[0])
    ensures |Split(t, c)| == 1 ==> GetLine(Fresh(t), c, []).0.eof
    ensures |Split(t, c)| > 1 ==>
      IndexOf(t, c) < |t| && GetLine(Fresh(t), c, []).0 == Fresh(t[IndexOf(t, c) + 1..])
      && Split(t, c)[1..] == Split(t[IndexOf(t, c) + 1..], c)
  {
  }

  /** As long as there are pieces, the stream stands fresh before the text of the rest of them. */
  lemma {:induction false} StandsBefore(text: string, c: char, j: nat) returns (t: string)
    requires j < |Split(text, c)|
    ensures After(text, c, j) == Fresh(t) && Split(t, c) == Split(text, c)[j..]
    decreases j
  {
    if j == 0 {
      t := text;
    } else {
      var t' := StandsBefore(text, c, j - 1);
      GetsFirst(t', c, []);
      AfterNext(text, c, j - 1);
      t := t'[IndexOf(t', c) + 1..];
      assert Split(text, c)[j - 1..][1..] == Split(text, c)[j..];
    }
  }

  /** Extractions give the pieces one after the other. */
  lemma ExtractsPiece(text: string, c: char, j: nat, before: string)
    requires j < |Split(text, c)|
    ensures GetLine(After(text, c, j), c, before) == (After(text, c, j + 1), Split(text, c)[j])
    ensures j == |Split(text, c)| - 1 ==> After(text, c, j + 1).eof
  {
    var t := StandsBefore(text, c, j);
    GetsFirst(t, c, before);
    AfterNext(text, c, j);
  }

  lemma StaysEnded(s: Stream, c: char, before: string)
    requires s.eof
    ensures GetLine(s, c, before) == (s.(fail := true), before)
  {
  }

  /** Behind the last piece every extraction fails and leaves the string as it was. */
  lemma {:induction false} ExtractsNoMore(text: string, c: char, j: nat, before: string)
    requires j >= |Split(text, c)|
    ensures After(text, c, j).eof && GetLine(After(text, c, j), c, before).1 == before
    ensures GetLine(After(text, c, j), c, before).0 == After(text, c, j + 1)
    decreases j
  {
    if j > |Split(text, c)| {
      ExtractsNoMore(text, c, j - 1, []);
      StaysEnded(After(text, c, j - 1), c, []);
    } else {
      ExtractsPiece(text, c, j - 1, []);
    }
    AfterNext(text, c, j);
    StaysEnded(After(text, c, j), c, []);
    StaysEnded(After(text, c, j), c, before);
  }

  /** The piece that extraction number `k` leaves in the string: the last one again when there are no more. */
  function PieceOrLast(text: string, c: char, k: nat): string {
    var pieces := Split(text, c);
    if k < |pieces| then pieces[k] else pieces[|pieces| - 1]
  }

  lemma ExtractsNext(text: string, c: char, j: nat, before: string)
    requires j > 0 ==> before == PieceOrLast(text, c, j - 1)
    ensures GetLine(After(text, c, j), c, before) == (After(text, c, j + 1), PieceOrLast(text, c, j))
  {
    if j < |Split(text, c)| {
      ExtractsPiece(text, c, j, before);
    } else {
      ExtractsNoMore(text, c, j, before);
    }
  }

  // ---- numbers ----

  const DIGITS: string := "0123456789"

  predicate IsDigit(c: char) {
    '0' <= c <= '9'
  }

  function DigitOf(c: char): nat
    requires IsDigit(c)
  {
    (c - '0') as nat
  }

  function CharOf(d: nat): (c: char)
    requires d < 10
    ensures IsDigit(c) && DigitOf(c) == d
  {
    DIGITS[d]
  }

  /** The decimal form that the output stream writes. */
  function Decimal(n: nat): string {
    if n < 10 then [CharOf(n)] else Decimal(n / 10) + [CharOf(n % 10)]
  }

  ghost predicate AllDigits(s: string) {
    forall i :: 0 <= i < |s| ==> IsDigit(s[i])
  }

  function Value(s: string): nat
    requires AllDigits(s)
  {
    if s == [] then 0 else Value(s[..|s| - 1]) * 10 + DigitOf(s[|s| - 1])
  }

  function DigitRun(s: string): (k: nat)
    ensures k <= |s| && AllDigits(s[..k]) && (k < |s| ==> !IsDigit(s[k]))
  {
    if s == [] || !IsDigit(s[0]) then 0
    else
      var k := DigitRun(s[1..]);
      assert s[..k + 1] == [s[0]] + s[1..][..k];
      k + 1
  }

  predicate IsSpace(c: char) {
    c == ' ' || '\t' <= c <= '\r'
  }

  function SkipSpaces(s: string): string {
    if s != [] && IsSpace(s[0]) then SkipSpaces(s[1..]) else s
  }

  /** The characters that count as digits and as spaces, by their codes. */
  lemma CharacterClasses(c: char)
    ensures IsDigit(c) <==> 48 <= c as int <= 57
    ensures IsSpace(c) <==> c as int == 32 || 9 <= c as int <= 13
  {
  }

  datatype Parsed = Number(value: Word) | InvalidArgument | OutOfRange

  /** The library conversion to an unsigned 64-bit number: spaces and a sign may lead, anything may trail. */
  function ParseNumber(text: string): Parsed {
    var s := SkipSpaces(text);
    if s != [] && (s[0] == '-' || s[0] == '+') then ParseDigits(s[0] == '-', s[1..]) else ParseDigits(false, s)
  }

  function ParseDigits(negative: bool, body: string): Parsed {
    var k := DigitRun(body);
    if k == 0 then InvalidArgument
    else if Value(body[..k]) >= MODULUS then OutOfRange
    else if negative then Number(Sub(0, Value(body[..k])))
    else Number(Value(body[..k]))
  }

  ghost predicate AllSpaces(s: string) {
    forall i :: 0 <= i < |s| ==> IsSpace(s[i])
  }

  lemma {:induction false} SpacesSkipped(spaces: string, body: string)
    requires AllSpaces(spaces) && (body != [] ==> !IsSpace(body[0]))
    ensures SkipSpaces(spaces + body) == body
  {
    if spaces != [] {
      assert (spaces + body)[1..] == spaces[1..] + body;
      SpacesSkipped(spaces[1..], body);
    } else {
      assert [] + body == body;
    }
  }

  lemma {:induction false} RunEnds(digits: string, tail: string)
    requires AllDigits(digits) && (tail != [] ==> !IsDigit(tail[0]))
    ensures DigitRun(digits + tail) == |digits|
  {
    if digits != [] {
      assert (digits + tail)[1..] == digits[1..] + tail;
      RunEnds(digits[1..], tail);
    } else {
      assert [] + tail == tail;
    }
  }

  /** The number that digits stand for, if it fits; a minus sign wraps. */
  function FromDigits(negative: bool, digits: string): Parsed
    requires AllDigits(digits)
  {
    if digits == [] then InvalidArgument
    else if Value(digits) >= 0x1_0000_0000_0000_0000 then OutOfRange
    else if negative && Value(digits) > 0 then Number(0x1_0000_0000_0000_0000 - Value(digits))
    else Number(Value(digits))
  }

  /** What conversion makes of any text: leading spaces and one sign, then the digits up to the first
      character that is none. No digit there is an error, and so is a number that does not fit; a minus sign
      wraps. */
  lemma ParsesPrefix(spaces: string, sign: string, digits: string, tail: string)
    requires AllSpaces(spaces) && (sign == "" || sign == "+" || sign == "-") && AllDigits(digits)
    requires tail != [] ==> !IsDigit(tail[0])
    requires digits == [] && sign == "" && tail != [] ==> !IsSpace(tail[0]) && tail[0] != '+' && tail[0] != '-'
    ensures ParseNumber(spaces + sign + digits + tail) == FromDigits(sign == "-", digits)
  {
    var body := sign + (digits + tail);
    assert spaces + sign + digits + tail == spaces + body;
    SignedBody(sign, digits, tail);
    SpacesSkipped(spaces, body);
    ParsesDigits(sign == "-", digits, tail);
  }

  lemma SignedBody(sign: string, digits: string, tail: string)
    requires (sign == "" || sign == "+" || sign == "-") && AllDigits(digits)
    requires digits == [] && sign == "" && tail != [] ==> !IsSpace(tail[0]) && tail[0] != '+' && tail[0] != '-'
    ensures var body := sign + (digits + tail);
      (body != [] ==> !IsSpace(body[0]))
      && if sign == "" then body == digits + tail && (body != [] ==> body[0] != '+' && body[0] != '-')
         else body != [] && body[0] == sign[0] && body[1..] == digits + tail
  {
    assert digits != [] ==> IsDigit(digits[0]);
  }

  lemma ParsesDigits(negative: bool, digits: string, tail: string)
    requires AllDigits(digits) && (tail != [] ==> !IsDigit(tail[0]))
    ensures ParseDigits(negative, digits + tail) == FromDigits(negative, digits)
  {
    RunEnds(digits, tail);
    assert (digits + tail)[..|digits|] == digits;
  }

  /** Digits are read from the left, each worth ten times what follows. */
  lemma ValueOfNext(digits: string, d: char)
    requires AllDigits(digits) && IsDigit(d)
    ensures Value(digits + [d]) == 10 * Value(digits) + (d as int - '0' as int)
  {
    assert (digits + [d])[..|digits|] == digits;
  }

  lemma {:induction false} DecimalDigits(n: nat)
    ensures Decimal(n) != [] && AllDigits(Decimal(n)) && Value(Decimal(n)) == n
  {
    if n >= 10 {
      DecimalDigits(n / 10);
      assert Decimal(n)[..|Decimal(n)| - 1] == Decimal(n / 10);
    } else {
      assert Decimal(n)[..0] == [];
    }
  }

  /** Printing and parsing a word gives it back. */
  lemma NumberRoundTrip(w: Word)
    ensures ParseNumber(Decimal(w)) == Number(w)
    ensures Decimal(w) != [] && COMMA !in Decimal(w) && NEWLINE !in Decimal(w)
  {
    var s := Decimal(w);
    DecimalDigits(w);
    assert IsDigit(s[0]);
    assert SkipSpaces(s) == s;
    assert DigitRun(s) == |s|;
    assert s[..|s|] == s;
  }
}
