/** The CSV export: a fixed header line, then one line per ledger record in
    ledger order. Only the notes column is quoted, with every `"` doubled as
    in section 2 of RFC 4180; date, type, category and amount are written
    as they are. */
module CsvExport {
  import opened Records

  const Header: string := "Date,Type,Category,Amount,Notes\n"

  // ----- the notes column -----

  /** Every `"` doubled, every other character kept. */
  function EscapeQuotes(s: string): (r: string)
    ensures forall c :: c in s ==> c in r
    ensures forall c :: c in r ==> c in s || c == '"'
    ensures '"' !in s ==> r == s
    ensures |r| >= |s|
  {
    if s == [] then []
    else (if s[0] == '"' then "\"\"" else [s[0]]) + EscapeQuotes(s[1..])
  }

  /** The body of an escaped field in the RFC 4180 grammar: characters other
      than `"`, and `""` pairs. No `"` stands alone. */
  predicate PairedQuotes(b: string)
    decreases |b|
  {
    if b == [] then true
    else if b[0] == '"' then |b| >= 2 && b[1] == '"' && PairedQuotes(b[2..])
    else PairedQuotes(b[1..])
  }

  /** A CSV reader's decoding of an escaped body: `""` back to `"`; a lone
      `"` is malformed. */
  function UnescapeQuotes(b: string): Option<string>
    decreases |b|
  {
    if b == [] then Some([])
    else if b[0] == '"' then
      if |b| >= 2 && b[1] == '"' then
        var rest :- UnescapeQuotes(b[2..]);
        Some("\"" + rest)
      else None
    else
      var rest :- UnescapeQuotes(b[1..]);
      Some([b[0]] + rest)
  }

  lemma EscapeQuotesCons(s: string)
    requires s != []
    ensures EscapeQuotes(s)[..(if s[0] == '"' then 2 else 1)] == (if s[0] == '"' then "\"\"" else [s[0]])
    ensures EscapeQuotes(s)[(if s[0] == '"' then 2 else 1)..] == EscapeQuotes(s[1..])
  {
  }

  /** Decoding undoes the escaping. */
  lemma {:induction false} UnescapeEscape(s: string)
    ensures UnescapeQuotes(EscapeQuotes(s)) == Some(s)
  {
    if s != [] {
      EscapeQuotesCons(s);
      UnescapeEscape(s[1..]);
      assert [s[0]] + s[1..] == s;
    }
  }

  /** The escaped body has no lone `"`. */
  lemma {:induction false} EscapedPaired(s: string)
    ensures PairedQuotes(EscapeQuotes(s))
  {
    if s != [] {
      EscapeQuotesCons(s);
      EscapedPaired(s[1..]);
    }
  }

  /** Decoding succeeds exactly on bodies with no lone `"`, and escaping what
      it decodes gives the body back: escaping is a bijection onto those
      bodies. */
  lemma {:induction false} UnescapeExactlyPaired(b: string)
    ensures UnescapeQuotes(b).Some? <==> PairedQuotes(b)
    ensures UnescapeQuotes(b).Some? ==> EscapeQuotes(UnescapeQuotes(b).value) == b
    decreases |b|
  {
    if b != [] {
      if b[0] == '"' {
        if |b| >= 2 && b[1] == '"' {
          UnescapeExactlyPaired(b[2..]);
          if UnescapeQuotes(b).Some? {
            var rest := UnescapeQuotes(b[2..]).value;
            assert ("\"" + rest)[1..] == rest;
            assert b == "\"\"" + b[2..];
          }
        }
      } else {
        UnescapeExactlyPaired(b[1..]);
        if UnescapeQuotes(b).Some? {
          var rest := UnescapeQuotes(b[1..]).value;
          assert ([b[0]] + rest)[1..] == rest;
          assert b == [b[0]] + b[1..];
        }
      }
    }
  }

  /** The notes field as exported: escaped and wrapped in quotes, adding no
      character but `"`. */
  function QuoteField(s: string): (r: string)
    ensures |r| >= 2 && r[0] == '"' && r[|r| - 1] == '"'
    ensures forall c :: c in r ==> c in s || c == '"'
  {
    "\"" + EscapeQuotes(s) + "\""
  }

  /** Between its outer quotes the exported notes field decodes back to the
      notes, and holds no lone `"`. */
  lemma QuoteFieldRoundTrip(s: string)
    ensures UnescapeQuotes(QuoteField(s)[1..|QuoteField(s)| - 1]) == Some(s)
    ensures PairedQuotes(QuoteField(s)[1..|QuoteField(s)| - 1])
  {
    var f := QuoteField(s);
    assert f[1..|f| - 1] == EscapeQuotes(s);
    UnescapeEscape(s);
    EscapedPaired(s);
  }

  // ----- the amount column -----

  predicate IsDigit(c: char)
  {
    '0' <= c <= '9'
  }

  function DigitChar(d: nat): (c: char)
    requires d < 10
    ensures IsDigit(c) && c as int - '0' as int == d
  {
    ('0' as int + d) as char
  }

  /** The decimal numeral of `n`, without leading zeros. */
  function Numeral(n: nat): (r: string)
    ensures |r| >= 1 && (|r| > 1 ==> r[0] != '0')
    ensures forall i :: 0 <= i < |r| ==> IsDigit(r[i])
  {
    if n < 10 then [DigitChar(n)] else Numeral(n / 10) + [DigitChar(n % 10)]
  }

  /** The value of a digit string. */
  function DigitsValue(s: string): int
    requires forall i :: 0 <= i < |s| ==> IsDigit(s[i])
  {
    if s == [] then 0 else DigitsValue(s[..|s| - 1]) * 10 + (s[|s| - 1] as int - '0' as int)
  }

  /** A reader's parse of the amount column. */
  function ParseAmount(s: string): Option<int>
  {
    if |s| >= 2 && s[0] == '-' && forall i :: 1 <= i < |s| ==> IsDigit(s[i]) then
      Some(0 - DigitsValue(s[1..]))
    else if s != [] && forall i :: 0 <= i < |s| ==> IsDigit(s[i]) then
      Some(DigitsValue(s))
    else None
  }

  lemma {:induction false} NumeralValue(n: nat)
    ensures DigitsValue(Numeral(n)) == n
  {
    if n >= 10 {
      NumeralValue(n / 10);
      var r := Numeral(n);
      assert r[..|r| - 1] == Numeral(n / 10);
    }
  }

  lemma ParseNegative(n: int)
    requires n > 0
    ensures ParseAmount("-" + Numeral(n)) == Some(-n)
  {
    var s := "-" + Numeral(n);
    assert s[1..] == Numeral(n);
    NumeralValue(n);
  }

  /** How an integer amount is written into a template string: its numeral,
      with a leading `-` exactly when negative. It can stand unquoted. */
  function AmountText(a: int): (r: string)
    ensures Plain(r) && |r| >= 1
    ensures r[0] == '-' <==> a < 0
  {
    if a < 0 then "-" + Numeral(-a) else Numeral(a)
  }

  /** Reading the amount column back gives the amount. */
  lemma AmountRoundTrip(a: int)
    ensures ParseAmount(AmountText(a)) == Some(a)
  {
    if a < 0 {
      ParseNegative(-a);
    } else {
      NumeralValue(a);
    }
  }

  // ----- rows -----

  /** A character this reader accepts in an unquoted field: anything but the
      comma, the quote and the two line-break characters. RFC 4180's TEXTDATA
      is narrower (printable ASCII only). */
  predicate TextData(c: char)
  {
    c != ',' && c != '"' && c != '\n' && c != '\r'
  }

  /** A value that can stand unquoted in a field. */
  predicate Plain(s: string)
  {
    forall i :: 0 <= i < |s| ==> TextData(s[i])
  }

  /** No text column of the record holds a line break. */
  predicate SingleLine(t: Transaction)
  {
    '\n' !in t.date && '\n' !in t.kind && '\n' !in t.category && '\n' !in t.notes
  }

  /** Fields separated by commas. */
  function Joined(fields: seq<string>): string
  {
    if fields == [] then []
    else if |fields| == 1 then fields[0]
    else fields[0] + "," + Joined(fields[1..])
  }

  /** Five fields joined, spelled out. */
  lemma JoinedFive(a: string, b: string, c: string, d: string, e: string)
    ensures Joined([a, b, c, d, e]) == a + "," + (b + "," + (c + "," + (d + "," + e)))
  {
    var fs := [a, b, c, d, e];
    assert fs[1..] == [b, c, d, e];
    assert fs[1..][1..] == [c, d, e];
    assert fs[1..][1..][1..] == [d, e];
    assert fs[1..][1..][1..][1..] == [e];
    assert Joined([d, e]) == d + "," + e;
    assert Joined([c, d, e]) == c + "," + (d + "," + e);
    assert Joined([b, c, d, e]) == b + "," + (c + "," + (d + "," + e));
  }

  lemma AppendAssoc(a: string, b: string, c: string)
    ensures a + (b + c) == a + b + c
  {
  }

  /** A line of five fields, spelled out from the left: each field, then the
      rest of the line after its comma. */
  lemma JoinedLine(a: string, b: string, c: string, d: string, e: string)
    ensures Joined([a, b, c, d, e]) + "\n" ==
            a + ("," + (b + ("," + (c + ("," + (d + ("," + (e + "\n"))))))))
  {
    JoinedFive(a, b, c, d, e);
    var r4 := "," + (e + "\n");
    var r3 := "," + (d + r4);
    var r2 := "," + (c + r3);
    var r1 := "," + (b + r2);
    AppendAssoc(d + ",", e, "\n");
    AppendAssoc(d, ",", e + "\n");
    AppendAssoc(c + ",", d + "," + e, "\n");
    AppendAssoc(c, ",", d + r4);
    AppendAssoc(b + ",", c + "," + (d + "," + e), "\n");
    AppendAssoc(b, ",", c + r3);
    AppendAssoc(a + ",", b + "," + (c + "," + (d + "," + e)), "\n");
    AppendAssoc(a, ",", b + r2);
  }

  // ----- line count -----

  /** The number of line breaks in `s`. */
  function LineBreaks(s: string): nat
  {
    if s == [] then 0 else LineBreaks(s[..|s| - 1]) + (if s[|s| - 1] == '\n' then 1 else 0)
  }

  lemma {:induction false} LineBreaksAppend(a: string, b: string)
    ensures LineBreaks(a + b) == LineBreaks(a) + LineBreaks(b)
  {
    if b == [] {
      assert a + b == a;
    } else {
      assert (a + b)[..|a + b| - 1] == a + b[..|b| - 1];
      LineBreaksAppend(a, b[..|b| - 1]);
    }
  }

  lemma {:induction false} NoLineBreaks(s: string)
    requires '\n' !in s
    ensures LineBreaks(s) == 0
  {
    if s != [] {
      assert s[..|s| - 1] <= s;
      NoLineBreaks(s[..|s| - 1]);
    }
  }

  /** A text ended by a line break and holding no other is one line. */
  lemma OneLine(text: string)
    requires '\n' !in text
    ensures LineBreaks(text + "\n") == 1
  {
    NoLineBreaks(text);
    LineBreaksAppend(text, "\n");
  }

  // ----- the export -----

  /** One exported line: the template string the export loop appends, date,
      type, category and amount raw, then the quoted notes, ended by a line
      break. */
  function Row(t: Transaction): (r: string)
    ensures |r| >= 1 && r[|r| - 1] == '\n'
  {
    var sanitizedNotes := QuoteField(t.notes);
    Joined([t.date, t.kind, t.category, AmountText(t.amount), sanitizedNotes]) + "\n"
  }

  /** The line spelled out column by column. */
  lemma RowColumns(t: Transaction)
    ensures Row(t) == t.date + ("," + (t.kind + ("," + (t.category + ("," +
                      (AmountText(t.amount) + ("," + (QuoteField(t.notes) + "\n"))))))))
  {
    JoinedLine(t.date, t.kind, t.category, AmountText(t.amount), QuoteField(t.notes));
  }

  /** The data lines of the export, in ledger order: nothing for an empty
      ledger, and otherwise text ended by a line break. */
  function Rows(ts: seq<Transaction>): (r: string)
    ensures r == [] <==> ts == []
    ensures r != [] ==> r[|r| - 1] == '\n'
  {
    if ts == [] then [] else Rows(ts[..|ts| - 1]) + Row(ts[|ts| - 1])
  }

  /** A record whose text columns hold no line break exports as exactly one
      line. */
  lemma RowIsOneLine(t: Transaction)
    requires SingleLine(t)
    ensures LineBreaks(Row(t)) == 1
  {
    var amount := AmountText(t.amount);
    JoinedFive(t.date, t.kind, t.category, amount, QuoteField(t.notes));
    assert '\n' !in amount by {
      forall i | 0 <= i < |amount| ensures amount[i] != '\n' {
        assert TextData(amount[i]);
      }
    }
    OneLine(Joined([t.date, t.kind, t.category, amount, QuoteField(t.notes)]));
  }

  /** A ledger without line breaks in its text columns has one data line per
      record. */
  lemma {:induction false} RowsLineCount(ts: seq<Transaction>)
    requires forall i :: 0 <= i < |ts| ==> SingleLine(ts[i])
    ensures LineBreaks(Rows(ts)) == |ts|
  {
    if ts != [] {
      RowsLineCount(ts[..|ts| - 1]);
      RowIsOneLine(ts[|ts| - 1]);
      LineBreaksAppend(Rows(ts[..|ts| - 1]), Row(ts[|ts| - 1]));
    }
  }

  lemma RowsSnoc(ts: seq<Transaction>, i: int)
    requires 0 <= i < |ts|
    ensures Rows(ts[..i + 1]) == Rows(ts[..i]) + Row(ts[i])
  {
    assert ts[..i + 1][..i] == ts[..i];
  }

  /** The export handler's loop: the header, then a line per record. */
  method ExportCsv(ts: seq<Transaction>) returns (csv: string)
    ensures csv == Header + Rows(ts)
    ensures csv[..|Header|] == Header
    ensures ts == [] ==> csv == Header
  {
    csv := Header;
    var i := 0;
    while i < |ts|
      invariant 0 <= i <= |ts|
      invariant csv == Header + Rows(ts[..i])
    {
      RowsSnoc(ts, i);
      AppendAssoc(Header, Rows(ts[..i]), Row(ts[i]));
      csv := csv + Row(ts[i]);
      i := i + 1;
    }
    assert ts[..i] == ts;
    assert (Header + Rows(ts))[..|Header|] == Header;
  }

  /** Rows of a concatenated ledger are the concatenated rows: each record's
      line appears in ledger order. */
  lemma {:induction false} RowsAppend(a: seq<Transaction>, b: seq<Transaction>)
    ensures Rows(a + b) == Rows(a) + Rows(b)
  {
    if b == [] {
      assert a + b == a;
    } else {
      var front, last := b[..|b| - 1], b[|b| - 1];
      assert (a + b)[..|a + b| - 1] == a + front;
      assert (a + b)[|a + b| - 1] == last;
      RowsAppend(a, front);
      AppendAssoc(Rows(a), Rows(front), Row(last));
    }
  }

  /** The data lines start with the first record's line. */
  lemma RowsCons(t: Transaction, ts: seq<Transaction>)
    ensures Rows([t] + ts) == Row(t) + Rows(ts)
  {
    RowsAppend([t], ts);
    assert Rows([t]) == Row(t) by {
      assert [t][..0] == [];
    }
  }

  lemma HeaderIsOneLine()
    ensures LineBreaks(Header) == 1
  {
    assert Header == "Date,Type,Category,Amount,Notes" + "\n";
    OneLine("Date,Type,Category,Amount,Notes");
  }

  /** A ledger without line breaks in its text columns exports as the header
      line plus one line per record. */
  lemma CsvLineCount(ts: seq<Transaction>)
    requires forall i :: 0 <= i < |ts| ==> SingleLine(ts[i])
    ensures LineBreaks(Header + Rows(ts)) == |ts| + 1
  {
    HeaderIsOneLine();
    RowsLineCount(ts);
    LineBreaksAppend(Header, Rows(ts));
  }

  // ----- reading a line back -----

  /** What a line of the export holds: every column but the id. */
  datatype ExportedRow = ExportedRow(date: string, kind: string, category: string, amount: int, notes: string)

  /** An unquoted field: the longest prefix of characters this reader accepts
      unquoted, and what follows it. */
  function ReadUnquoted(s: string): (r: (string, string))
    ensures Plain(r.0) && r.0 + r.1 == s
    ensures r.1 == [] || !TextData(r.1[0])
  {
    if s != [] && TextData(s[0]) then
      var p := ReadUnquoted(s[1..]);
      assert s == [s[0]] + s[1..];
      AppendAssoc([s[0]], p.0, p.1);
      ([s[0]] + p.0, p.1)
    else ([], s)
  }

  /** The rest of a quoted field after its opening quote: the characters up to
      the closing quote, with `""` standing for `"`, and what follows the
      closing quote. A field never closed is malformed. */
  function ReadQuoted(s: string): Option<(string, string)>
  {
    if s == [] then None
    else if s[0] == '"' then
      if |s| >= 2 && s[1] == '"' then
        var p :- ReadQuoted(s[2..]);
        Some(("\"" + p.0, p.1))
      else Some(([], s[1..]))
    else
      var p :- ReadQuoted(s[1..]);
      Some(([s[0]] + p.0, p.1))
  }

  /** The next field under the RFC 4180 field grammar, quoted when it opens
      with `"` and unquoted otherwise, and what follows it. */
  function ReadField(s: string): Option<(string, string)>
  {
    if s != [] && s[0] == '"' then ReadQuoted(s[1..]) else Some(ReadUnquoted(s))
  }

  /** What follows the separator `c` at the head of `s`. */
  function After(s: string, c: char): Option<string>
  {
    if s != [] && s[0] == c then Some(s[1..]) else None
  }

  /** A reader's view of one exported line: five fields under the RFC 4180
      field grammar, each quoted or not, separated by commas and ended by a
      single LF (not the standard's CRLF); the fourth must be an integer. */
  function ParseRow(line: string): Option<ExportedRow>
  {
    var f1 :- ReadField(line);
    var r1 :- After(f1.1, ',');
    var f2 :- ReadField(r1);
    var r2 :- After(f2.1, ',');
    var f3 :- ReadField(r2);
    var r3 :- After(f3.1, ',');
    var f4 :- ReadField(r3);
    var r4 :- After(f4.1, ',');
    var amount :- ParseAmount(f4.0);
    var f5 :- ReadField(r4);
    if f5.1 == "\n" then Some(ExportedRow(f1.0, f2.0, f3.0, amount, f5.0)) else None
  }

  /** A line whose five fields read one after the other, separated by commas
      and ended by the line break, with an integer fourth field, parses as
      those fields. */
  lemma ParseRowOf(line: string, r1: string, r2: string, r3: string, r4: string,
                   d: string, k: string, c: string, a: string, n: string, amount: int)
    requires ReadField(line) == Some((d, "," + r1))
    requires ReadField(r1) == Some((k, "," + r2))
    requires ReadField(r2) == Some((c, "," + r3))
    requires ReadField(r3) == Some((a, "," + r4))
    requires ParseAmount(a) == Some(amount)
    requires ReadField(r4) == Some((n, "\n"))
    ensures ParseRow(line) == Some(ExportedRow(d, k, c, amount, n))
  {
    assert ("," + r1)[1..] == r1 && ("," + r2)[1..] == r2;
    assert ("," + r3)[1..] == r3 && ("," + r4)[1..] == r4;
  }

  /** A line whose fourth field is not an integer, or whose fifth field is
      not followed by the line break, does not parse. */
  lemma ParseRowFails(line: string, r1: string, r2: string, r3: string, r4: string,
                      d: string, k: string, c: string, a: string)
    requires ReadField(line) == Some((d, "," + r1))
    requires ReadField(r1) == Some((k, "," + r2))
    requires ReadField(r2) == Some((c, "," + r3))
    requires ReadField(r3) == Some((a, "," + r4))
    requires ParseAmount(a).None? || (ReadField(r4).Some? && ReadField(r4).value.1 != "\n")
    ensures ParseRow(line) == None
  {
    assert ("," + r1)[1..] == r1 && ("," + r2)[1..] == r2;
    assert ("," + r3)[1..] == r3 && ("," + r4)[1..] == r4;
  }

  lemma {:induction false} ReadUnquotedOf(f: string, rest: string)
    requires Plain(f) && (rest == [] || !TextData(rest[0]))
    ensures ReadUnquoted(f + rest) == (f, rest)
  {
    if f == [] {
      assert f + rest == rest;
    } else {
      assert (f + rest)[1..] == f[1..] + rest;
      ReadUnquotedOf(f[1..], rest);
      assert [f[0]] + f[1..] == f;
    }
  }

  /** A plain field followed by a comma or the line break reads back as
      itself. */
  lemma ReadPlainField(f: string, rest: string)
    requires Plain(f) && rest != [] && (rest[0] == ',' || rest[0] == '\n')
    ensures ReadField(f + rest) == Some((f, rest))
  {
    ReadUnquotedOf(f, rest);
    if f != [] {
      assert (f + rest)[0] == f[0] && TextData(f[0]);
    } else {
      assert f + rest == rest;
    }
  }

  lemma {:induction false} ReadQuotedOf(s: string, rest: string)
    requires rest == [] || rest[0] != '"'
    ensures ReadQuoted(EscapeQuotes(s) + "\"" + rest) == Some((s, rest))
  {
    if s == [] {
      assert EscapeQuotes(s) + "\"" + rest == "\"" + rest;
      assert ("\"" + rest)[1..] == rest;
    } else {
      var tail := EscapeQuotes(s[1..]) + "\"" + rest;
      var head := if s[0] == '"' then "\"\"" else [s[0]];
      ReadQuotedOf(s[1..], rest);
      AppendAssoc(head + EscapeQuotes(s[1..]), "\"", rest);
      AppendAssoc(head, EscapeQuotes(s[1..]), "\"" + rest);
      AppendAssoc(EscapeQuotes(s[1..]), "\"", rest);
      if s[0] == '"' {
        assert EscapeQuotes(s) + "\"" + rest == "\"\"" + tail;
        assert ("\"\"" + tail)[2..] == tail;
        assert "\"" + s[1..] == s;
      } else {
        assert EscapeQuotes(s) + "\"" + rest == [s[0]] + tail;
        assert ([s[0]] + tail)[1..] == tail;
        assert [s[0]] + s[1..] == s;
      }
    }
  }

  /** An exported notes field, followed by anything but a quote, reads back
      as the notes. */
  lemma ReadQuotedField(s: string, rest: string)
    requires rest == [] || rest[0] != '"'
    ensures ReadField(QuoteField(s) + rest) == Some((s, rest))
  {
    assert QuoteField(s) + rest == "\"" + (EscapeQuotes(s) + "\"" + rest);
    ReadQuotedOf(s, rest);
  }

  /** The streaming reader and the body decoder agree: a body without a lone
      `"`, closed by a quote, is read as its decoding. */
  lemma ReadQuotedDecodes(b: string, rest: string)
    requires PairedQuotes(b) && (rest == [] || rest[0] != '"')
    ensures UnescapeQuotes(b).Some?
    ensures ReadQuoted(b + "\"" + rest) == Some((UnescapeQuotes(b).value, rest))
  {
    UnescapeExactlyPaired(b);
    ReadQuotedOf(UnescapeQuotes(b).value, rest);
  }

  /** A line whose date, type and category are plain reads back as the
      record it was written from, less the id. */
  lemma RowRoundTrip(t: Transaction)
    requires Plain(t.date) && Plain(t.kind) && Plain(t.category)
    ensures ParseRow(Row(t)) == Some(ExportedRow(t.date, t.kind, t.category, t.amount, t.notes))
  {
    var a, n := AmountText(t.amount), QuoteField(t.notes);
    var r4 := n + "\n";
    var r3 := a + ("," + r4);
    var r2 := t.category + ("," + r3);
    var r1 := t.kind + ("," + r2);
    RowColumns(t);
    ReadPlainField(t.date, "," + r1);
    ReadPlainField(t.kind, "," + r2);
    ReadPlainField(t.category, "," + r3);
    AmountRoundTrip(t.amount);
    ReadPlainField(a, "," + r4);
    ReadQuotedField(t.notes, "\n");
    ParseRowOf(Row(t), r1, r2, r3, r4, t.date, t.kind, t.category, a, t.notes, t.amount);
  }

  /** The line a writer quoting date, type and category as it quotes the
      notes would produce. */
  function QuotedRow(t: Transaction): string
  {
    Joined([QuoteField(t.date), QuoteField(t.kind), QuoteField(t.category),
            AmountText(t.amount), QuoteField(t.notes)]) + "\n"
  }

  /** Such a line reads back as its record whatever the columns hold: the
      reader accepts a quoted field in every column. */
  lemma QuotedRowRoundTrip(t: Transaction)
    ensures ParseRow(QuotedRow(t)) == Some(ExportedRow(t.date, t.kind, t.category, t.amount, t.notes))
  {
    var d, k, c := QuoteField(t.date), QuoteField(t.kind), QuoteField(t.category);
    var a, n := AmountText(t.amount), QuoteField(t.notes);
    JoinedLine(d, k, c, a, n);
    var r4 := n + "\n";
    var r3 := a + ("," + r4);
    var r2 := c + ("," + r3);
    var r1 := k + ("," + r2);
    ReadQuotedField(t.date, "," + r1);
    ReadQuotedField(t.kind, "," + r2);
    ReadQuotedField(t.category, "," + r3);
    AmountRoundTrip(t.amount);
    ReadPlainField(a, "," + r4);
    ReadQuotedField(t.notes, "\n");
    ParseRowOf(QuotedRow(t), r1, r2, r3, r4, t.date, t.kind, t.category, a, t.notes, t.amount);
  }

  /** No quote and no line-break character: text an unquoted field may hold
      apart from its commas. */
  predicate NoQuoteOrBreak(s: string)
  {
    forall i :: 0 <= i < |s| ==> s[i] != '"' && s[i] != '\n' && s[i] != '\r'
  }

  /** An unquoted field ends at the latest at the first comma. */
  lemma {:induction false} ReadUnquotedStops(w: string, j: int)
    requires 0 <= j < |w| && w[j] == ','
    ensures |ReadUnquoted(w).0| <= j
  {
    if j > 0 && TextData(w[0]) {
      ReadUnquotedStops(w[1..], j - 1);
    }
  }

  /** A field read from text without quotes or line breaks, up to a comma at
      `j`, ends at a comma no later than `j`. */
  lemma FieldToComma(u: string, v: string, j: int)
    requires NoQuoteOrBreak(u)
    requires 0 <= j <= |u| && (u + ("," + v))[j] == ','
    ensures ReadField(u + ("," + v)).Some?
    ensures |ReadField(u + ("," + v)).value.0| <= j
    ensures ReadField(u + ("," + v)).value.1 == (u + ("," + v))[|ReadField(u + ("," + v)).value.0|..]
    ensures ReadField(u + ("," + v)).value.1 != []
    ensures ReadField(u + ("," + v)).value.1[0] == ','
  {
    var w := u + ("," + v);
    assert w[0] != '"';
    ReadUnquotedStops(w, j);
    var f := ReadUnquoted(w);
    assert w == f.0 + f.1;
    assert f.1 == w[|f.0|..];
    assert f.1[0] == w[|f.0|];
  }

  /** What follows a category split by a comma: the rest of the category,
      the amount and the notes. The fourth field ends at a comma, and the
      fifth is unquoted and ends before the comma after the amount, so it is
      not followed by the line break alone. */
  lemma FieldsAfterSplit(u: string, a: string, n: string) returns (p4: string, w5: string)
    requires NoQuoteOrBreak(u) && Plain(a) && a != [] && n != []
    ensures ReadField(u + ("," + (a + ("," + (n + "\n"))))) == Some((p4, "," + w5))
    ensures ReadField(w5).Some? && ReadField(w5).value.1 != "\n"
  {
    var r3 := a + ("," + (n + "\n"));
    var w4 := u + ("," + r3);
    FieldToComma(u, r3, |u|);
    var f4 := ReadField(w4).value;
    p4, w5 := f4.0, f4.1[1..];
    assert f4.1 == "," + w5;
    assert w5 == w4[|f4.0| + 1..];
    var j5 := |u| - |f4.0| + |a|;
    assert w4[|u| + 1 + |a|] == ',';
    assert w5[j5] == ',';
    assert w5[0] != '"';
    ReadUnquotedStops(w5, j5);
    assert |ReadUnquoted(w5).1| >= 2;
  }

  /** The category is written unquoted, so one holding a comma (and no quote
      or line break) splits into more fields than the line has columns, and
      the line does not read back at all; the same record with that column
      quoted reads back as written. */
  lemma CommaInCategoryBreaks(t: Transaction)
    requires Plain(t.date) && Plain(t.kind)
    requires NoQuoteOrBreak(t.category) && ',' in t.category
    ensures ParseRow(Row(t)) == None
    ensures ParseRow(QuotedRow(t)) == Some(ExportedRow(t.date, t.kind, t.category, t.amount, t.notes))
  {
    var c := t.category;
    var a, n := AmountText(t.amount), QuoteField(t.notes);
    var r3 := a + ("," + (n + "\n"));
    var r2 := c + ("," + r3);
    var r1 := t.kind + ("," + r2);
    RowColumns(t);
    ReadPlainField(t.date, "," + r1);
    ReadPlainField(t.kind, "," + r2);
    // the category field stops at a comma inside the category
    var k :| 0 <= k < |c| && c[k] == ',';
    FieldToComma(c, r3, k);
    var f3 := ReadField(r2).value;
    var u4 := c[|f3.0| + 1..];
    var w4 := f3.1[1..];
    assert w4 == u4 + ("," + r3);
    assert f3.1 == "," + w4;
    var p4, w5 := FieldsAfterSplit(u4, a, n);
    ParseRowFails(Row(t), r1, r2, w4, w5, t.date, t.kind, f3.0, p4);
    QuotedRowRoundTrip(t);
  }

  /** A category that looks like a quoted field is read as one: the line
      reads back, but with the category's text between the quotes in place
      of the category. */
  lemma QuotedCategoryMisread(t: Transaction, x: string)
    requires Plain(t.date) && Plain(t.kind) && t.category == QuoteField(x)
    ensures ParseRow(Row(t)) == Some(ExportedRow(t.date, t.kind, x, t.amount, t.notes))
    ensures ParseRow(Row(t)) != Some(ExportedRow(t.date, t.kind, t.category, t.amount, t.notes))
  {
    var a, n := AmountText(t.amount), QuoteField(t.notes);
    var r4 := n + "\n";
    var r3 := a + ("," + r4);
    var r2 := t.category + ("," + r3);
    var r1 := t.kind + ("," + r2);
    RowColumns(t);
    ReadPlainField(t.date, "," + r1);
    ReadPlainField(t.kind, "," + r2);
    ReadQuotedField(x, "," + r3);
    AmountRoundTrip(t.amount);
    ReadPlainField(a, "," + r4);
    ReadQuotedField(t.notes, "\n");
    ParseRowOf(Row(t), r1, r2, r3, r4, t.date, t.kind, x, a, t.notes, t.amount);
    assert |t.category| >= |x| + 2;
  }
}
