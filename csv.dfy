/**
 * A reader for one record of the CSV format of section 2 of RFC 4180: fields
 * separated by commas; a field is either plain TEXTDATA or enclosed in double
 * quotes, with an inner double quote written twice (rules 5 to 7). It is the
 * independent reference the export's escaping is proved against.
 */
module Rfc4180 {
  import opened Wrappers
  import opened Text

  /** TEXTDATA: any character but comma, double quote and the line-break characters. */
  predicate IsTextData(c: char) { c != ',' && c != '"' && !IsLineBreak(c) }

  /** Length of the longest TEXTDATA prefix of `s`. */
  function PlainLength(s: string): (n: nat)
    ensures n <= |s|
    ensures forall k :: 0 <= k < n ==> IsTextData(s[k])
    ensures n < |s| ==> !IsTextData(s[n])
  {
    if s == [] || !IsTextData(s[0]) then 0 else 1 + PlainLength(s[1..])
  }

  /**
   * The inside of a quoted field, after its opening quote: `acc` holds what has
   * been read; "" stands for one quote, a lone quote closes the field.
   */
  function ParseQuoted(s: string, acc: string): (r: Option<(string, string)>)
    ensures r.Some? ==> |r.value.1| < |s|
    decreases |s|
  {
    if s == [] then None
    else if s[0] == '"' then
      if |s| >= 2 && s[1] == '"' then ParseQuoted(s[2..], acc + ['"'])
      else Some((acc, s[1..]))
    else ParseQuoted(s[1..], acc + [s[0]])
  }

  /** One field at the start of `s`: its value and the text after it. */
  function ParseField(s: string): (r: Option<(string, string)>)
    ensures r.Some? ==> |r.value.1| <= |s|
  {
    if s != [] && s[0] == '"' then ParseQuoted(s[1..], "")
    else
      var n := PlainLength(s);
      Some((s[..n], s[n..]))
  }

  /** A whole record: fields separated by single commas, nothing left over; None if malformed. */
  function ParseRecord(s: string): Option<seq<string>>
    decreases |s|
  {
    match ParseField(s)
    case None => None
    case Some((v, rest)) =>
      if rest == [] then Some([v])
      else if rest[0] == ',' then
        match ParseRecord(rest[1..])
        case None => None
        case Some(vs) => Some([v] + vs)
      else None
  }
}

/** exportToCSV: a header line and one line per event, text fields escaped. */
module CsvExport {
  import opened Wrappers
  import opened Text
  import opened Dates
  import opened EventModel
  import opened Rfc4180
  import opened Seqs

  const Header: string := "Event ID,Event Name,Date,Venue,Organizer,Total Participants"

  /** String.replace("\"", "\"\""): every double quote written twice. */
  function Doubled(v: string): string {
    if v == [] then ""
    else (if v[0] == '"' then "\"\"" else [v[0]]) + Doubled(v[1..])
  }

  /** escapeCsv: only a comma or a double quote makes the value quoted, and then inner quotes are doubled. */
  function EscapeCsv(v: string): string {
    if ',' in v || '"' in v then "\"" + Doubled(v) + "\"" else v
  }

  /** The closing quote of a doubled value is found where it was put, and the value comes back. */
  lemma {:induction false} ReadDoubled(v: string, rest: string, acc: string)
    requires rest == [] || rest[0] != '"'
    ensures ParseQuoted(Doubled(v) + "\"" + rest, acc) == Some((acc + v, rest))
  {
    var s := Doubled(v) + "\"" + rest;
    if v == [] {
      assert Doubled(v) == "";
      assert s == "\"" + rest;
      assert s[1..] == rest;
      assert acc + v == acc;
    } else if v[0] == '"' {
      assert s == "\"\"" + (Doubled(v[1..]) + "\"" + rest);
      ReadDoubled(v[1..], rest, acc + ['"']);
      assert acc + ['"'] + v[1..] == acc + v;
    } else {
      assert s == [v[0]] + (Doubled(v[1..]) + "\"" + rest);
      ReadDoubled(v[1..], rest, acc + [v[0]]);
      assert acc + [v[0]] + v[1..] == acc + v;
    }
  }

  /** A value the CSV reader can take back: a line break is only allowed inside quotes. */
  predicate Readable(v: string) {
    ',' in v || '"' in v || !HasLineBreak(v)
  }

  /**
   * Escaping is undone by the RFC 4180 reader: an escaped value followed by a
   * comma or by the end of the record is read back as the value itself.
   */
  lemma ReadEscaped(v: string, rest: string)
    requires Readable(v)
    requires rest == [] || rest[0] == ','
    ensures ParseField(EscapeCsv(v) + rest) == Some((v, rest))
  {
    if ',' in v || '"' in v {
      ReadQuotedField(v, rest);
    } else {
      ReadPlainField(v, rest);
    }
  }

  lemma ReadQuotedField(v: string, rest: string)
    requires rest == [] || rest[0] == ','
    ensures ParseField("\"" + Doubled(v) + "\"" + rest) == Some((v, rest))
  {
    var s := "\"" + Doubled(v) + "\"" + rest;
    assert s[0] == '"';
    assert s[1..] == Doubled(v) + "\"" + rest;
    ReadDoubled(v, rest, "");
    assert "" + v == v;
  }

  lemma ReadPlainField(v: string, rest: string)
    requires ',' !in v && '"' !in v && !HasLineBreak(v)
    requires rest == [] || rest[0] == ','
    ensures ParseField(v + rest) == Some((v, rest))
  {
    var s := v + rest;
    assert forall k :: 0 <= k < |v| ==> s[k] == v[k];
    PlainLengthIs(s, |v|);
    assert s[..|v|] == v && s[|v|..] == rest;
  }

  lemma {:induction false} PlainLengthIs(s: string, n: nat)
    requires n <= |s|
    requires forall k :: 0 <= k < n ==> IsTextData(s[k])
    requires n < |s| ==> !IsTextData(s[n])
    ensures PlainLength(s) == n
  {
    if n > 0 { PlainLengthIs(s[1..], n - 1); }
  }

  function EscapeAll(vs: seq<string>): (es: seq<string>)
    ensures |es| == |vs|
    ensures forall k :: 0 <= k < |vs| ==> es[k] == EscapeCsv(vs[k])
  {
    seq(|vs|, k requires 0 <= k < |vs| => EscapeCsv(vs[k]))
  }

  /** A record of escaped values, read by the RFC 4180 reader, gives back every value in order. */
  lemma {:induction false} ReadRecord(vs: seq<string>)
    requires vs != []
    requires forall k :: 0 <= k < |vs| ==> Readable(vs[k])
    ensures ParseRecord(Join(EscapeAll(vs), ',')) == Some(vs)
  {
    if |vs| == 1 {
      ReadSingleRecord(vs);
    } else {
      var tail := Join(EscapeAll(vs[1..]), ',');
      EscapeAllTail(vs);
      assert Join(EscapeAll(vs), ',') == EscapeCsv(vs[0]) + ("," + tail);
      ReadEscaped(vs[0], "," + tail);
      assert ("," + tail)[1..] == tail;
      ReadRecord(vs[1..]);
      HeadTail(vs);
    }
  }

  lemma ReadSingleRecord(vs: seq<string>)
    requires |vs| == 1 && Readable(vs[0])
    ensures ParseRecord(Join(EscapeAll(vs), ',')) == Some(vs)
  {
    ReadEscaped(vs[0], "");
    assert EscapeCsv(vs[0]) + "" == EscapeCsv(vs[0]);
    assert Join(EscapeAll(vs), ',') == EscapeCsv(vs[0]);
    assert ParseField(EscapeCsv(vs[0])) == Some((vs[0], ""));
    assert vs == [vs[0]];
  }

  lemma EscapeAllTail(vs: seq<string>)
    requires vs != []
    ensures EscapeAll(vs)[1..] == EscapeAll(vs[1..])
  {
    var l, r := EscapeAll(vs)[1..], EscapeAll(vs[1..]);
    forall k | 0 <= k < |l| ensures l[k] == r[k] {
    }
  }

  /** One exported row: id, name, dd/MM/yyyy date, venue, organizer, participant count. */
  function CsvRow(e: EventData): string {
    NatToString(e.id) + "," + EscapeCsv(e.name) + "," + Format(e.date) + "," + EscapeCsv(e.venue)
      + "," + EscapeCsv(e.organizer) + "," + NatToString(|e.participants|)
  }

  function CsvRows(es: seq<EventData>): (rows: seq<string>)
    ensures |rows| == |es|
    ensures forall k :: 0 <= k < |es| ==> rows[k] == CsvRow(es[k])
  {
    seq(|es|, k requires 0 <= k < |es| => CsvRow(es[k]))
  }

  /** The exported file: the header line, then one row per event in list order. */
  function CsvText(es: seq<EventData>): string {
    WriteLines([Header] + CsvRows(es))
  }

  /** The values a reader recovers from an event's row. */
  function RowValues(e: EventData): seq<string> {
    [NatToString(e.id), e.name, Format(e.date), e.venue, e.organizer, NatToString(|e.participants|)]
  }

  lemma PlainUnchanged(v: string)
    requires ',' !in v && '"' !in v
    ensures EscapeCsv(v) == v
  {
  }

  /**
   * Each row is a well-formed RFC 4180 record whose fields are the event's id,
   * name, date, venue, organizer and participant count, whenever the text
   * fields that stay unquoted carry no line break.
   */
  lemma ReadRow(e: EventData)
    requires Readable(e.name) && Readable(e.venue) && Readable(e.organizer)
    ensures ParseRecord(CsvRow(e)) == Some(RowValues(e))
  {
    var vs := RowValues(e);
    FormatCharacters(e.date);
    PlainUnchanged(NatToString(e.id));
    PlainUnchanged(Format(e.date));
    PlainUnchanged(NatToString(|e.participants|));
    var es := EscapeAll(vs);
    JoinSix(es);
    assert Join(es, ',') == CsvRow(e);
    assert !HasLineBreak(NatToString(e.id));
    assert !HasLineBreak(NatToString(|e.participants|));
    assert !HasLineBreak(Format(e.date));
    ReadRecord(vs);
  }

  lemma {:induction false} JoinSix(es: seq<string>)
    requires |es| == 6
    ensures Join(es, ',') == es[0] + "," + es[1] + "," + es[2] + "," + es[3] + "," + es[4] + "," + es[5]
  {
    var j5 := Join(es[5..], ',');
    assert j5 == es[5];
    var j4 := Join(es[4..], ',');
    assert es[4..][1..] == es[5..];
    assert j4 == es[4] + "," + j5;
    var j3 := Join(es[3..], ',');
    assert es[3..][1..] == es[4..];
    assert j3 == es[3] + "," + j4;
    var j2 := Join(es[2..], ',');
    assert es[2..][1..] == es[3..];
    assert j2 == es[2] + "," + j3;
    var j1 := Join(es[1..], ',');
    assert es[1..][1..] == es[2..];
    assert j1 == es[1] + "," + j2;
    assert Join(es, ',') == es[0] + "," + j1;
  }

  lemma {:induction false} DoubledAppend(a: string, b: string)
    ensures Doubled(a + b) == Doubled(a) + Doubled(b)
  {
    if a != [] {
      assert (a + b)[1..] == a[1..] + b;
      DoubledAppend(a[1..], b);
    } else {
      assert a + b == b;
    }
  }

  lemma {:induction false} DoubledNoQuote(a: string)
    requires '"' !in a
    ensures Doubled(a) == a
  {
    if a != [] {
      DoubledNoQuote(a[1..]);
      assert [a[0]] + a[1..] == a;
    }
  }

  lemma DoubledQuote()
    ensures Doubled("\"") == "\"\""
  {
    var q := "\"";
    assert q[0] == '"';
    assert q[1..] == [];
  }

  lemma DoubledWord(a: string, b: string)
    requires '"' !in a && '"' !in b
    ensures Doubled(a + "\"" + b + "\"") == a + "\"\"" + b + "\"\""
  {
    var q := "\"";
    DoubledAppend(a + q + b, q);
    DoubledAppend(a + q, b);
    DoubledAppend(a, q);
    DoubledNoQuote(a);
    DoubledNoQuote(b);
    DoubledQuote();
  }

  /** Any value holding a comma or a double quote is wrapped in quotes, with each inner quote doubled. */
  lemma EscapeQuoted(v: string)
    requires ',' in v || '"' in v
    ensures EscapeCsv(v) == "\"" + Doubled(v) + "\""
  {
  }

  /** A value with a comma that ends in a quoted word: wrapped in quotes, the word's quotes doubled. */
  lemma EscapeQuotedWord(a: string, b: string)
    requires '"' !in a && '"' !in b && ',' in a
    ensures EscapeCsv(a + "\"" + b + "\"") == "\"" + a + "\"\"" + b + "\"\"\""
  {
    var v := a + "\"" + b + "\"";
    DoubledWord(a, b);
    assert ',' in v by { assert v == a + ("\"" + b + "\""); }
    assert "\"" + (a + "\"\"" + b + "\"\"") + "\"" == "\"" + a + "\"\"" + b + "\"\"\"";
  }

  /** A name holding a comma and a quoted word is exported quoted, with the inner quotes doubled. */
  lemma EscapeExample()
    ensures EscapeCsv("Smith, John \"PhD\"") == "\"Smith, John \"\"PhD\"\"\""
  {
    var a := "Smith, John ";
    assert a[5] == ',';
    EscapeQuotedWord(a, "PhD");
    assert "Smith, John \"PhD\"" == a + "\"" + "PhD" + "\"";
    assert "\"" + a + "\"\"" + "PhD" + "\"\"\"" == "\"Smith, John \"\"PhD\"\"\"";
  }

  /** One more event adds its row as one more line. */
  lemma CsvTextAppend(ds: seq<EventData>, d: EventData)
    ensures CsvText(ds + [d]) == CsvText(ds) + CsvRow(d) + "\n"
  {
    assert [Header] + CsvRows(ds + [d]) == [Header] + CsvRows(ds) + [CsvRow(d)];
    WriteLinesAppend([Header] + CsvRows(ds), CsvRow(d));
  }

  /** With no events the export is the header line alone. */
  lemma CsvTextEmpty()
    ensures CsvText([]) == Header + "\n"
  {
    assert [Header] + CsvRows([]) == [Header];
    assert [Header][1..] == [];
    assert CsvText([]) == Header + "\n" + WriteLines([]);
  }

  /** exportToCSV: the header and then the rows, written one line at a time. */
  method ExportCsv(events: seq<Event>) returns (text: string)
    ensures text == CsvText(DataOf(events))
  {
    text := Header + "\n";
    var i := 0;
    CsvTextEmpty();
    assert events[..0] == [];
    while i < |events|
      invariant 0 <= i <= |events|
      invariant text == CsvText(DataOf(events[..i]))
    {
      var ev := events[i];
      var row := NatToString(ev.id) + "," + EscapeCsv(ev.name) + "," + Format(ev.date) + ","
        + EscapeCsv(ev.venue) + "," + EscapeCsv(ev.organizer) + "," + NatToString(ev.ParticipantCount());
      DataOfPrefix(events, i);
      CsvTextAppend(DataOf(events[..i]), ev.Data());
      text := text + row + "\n";
      i := i + 1;
    }
    assert events[..i] == events;
  }
}
