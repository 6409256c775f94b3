/**
 * Worked examples of the CSV response factory, each stated for any words of the given
 * shape rather than for one literal input: keyed rows with the default options,
 * indexed rows, unquoted comma-separated rows, doubled quotes, an object row, empty
 * data, and a call that leaves status, headers and options at their defaults.
 */
module CsvExamples {
  import opened Wrappers
  import opened PhpText
  import PhpArray
  import opened CsvQuoting
  import opened ResponseFactory
  import opened CsvProperties

  const Defaults: Options := ParseOptions(NoOverrides)

  /** A word wrapped in quotes, as a quote-free cell is rendered. */
  function Wrapped(s: string): string
  {
    [Quote] + s + [Quote]
  }

  lemma QuotedWord(s: string)
    requires Quote !in s
    ensures QuoteCell(s) == Wrapped(s)
  {
    EscapeWithoutQuotes(s);
  }

  lemma ImplodeTwo(sep: string, x: string, y: string)
    ensures Implode(sep, [x, y]) == x + sep + y
  {
    assert [x, y][1..] == [y];
  }

  lemma ImplodeThree(sep: string, x: string, y: string, z: string)
    ensures Implode(sep, [x, y, z]) == x + sep + y + sep + z
  {
    assert [x, y, z][1..] == [y, z];
    ImplodeTwo(sep, y, z);
  }

  /** A key other than "0" in first place makes keyed data associative. */
  lemma FirstKeyMakesAssoc(entries: seq<(string, string)>)
    requires |entries| > 0 && entries[0].0 != "0"
    ensures IsAssoc(Keyed(entries))
  {
    assert PhpArray.DecimalDigits(0) == "0";
    assert RecordKeys(Keyed(entries))[0] == entries[0].0;
  }

  /** Two quote-free cells, quoted and joined by the delimiter. */
  lemma QuotedPair(rowData: Record, options: Options, a: string, b: string)
    requires RecordValues(rowData) == [a, b] && Quote !in a && Quote !in b && options.quoted
    ensures RowString(rowData, options) == Wrapped(a) + options.delimiter + Wrapped(b)
  {
    QuotedWord(a);
    QuotedWord(b);
    assert QuoteAll([a, b]) == [QuoteCell(a), QuoteCell(b)];
    ImplodeTwo(options.delimiter, QuoteCell(a), QuoteCell(b));
  }

  /** Three quote-free cells, quoted and joined by the delimiter. */
  lemma QuotedTriple(rowData: Record, options: Options, a: string, b: string, c: string)
    requires RecordValues(rowData) == [a, b, c] && Quote !in a && Quote !in b && Quote !in c && options.quoted
    ensures RowString(rowData, options) == Wrapped(a) + options.delimiter + Wrapped(b) + options.delimiter + Wrapped(c)
  {
    QuotedWord(a);
    QuotedWord(b);
    QuotedWord(c);
    assert QuoteAll([a, b, c]) == [QuoteCell(a), QuoteCell(b), QuoteCell(c)];
    ImplodeThree(options.delimiter, QuoteCell(a), QuoteCell(b), QuoteCell(c));
  }

  /** The lines of two rows, from the lines of each. */
  lemma TwoRowLines(rows: seq<Row>, options: Options, header: seq<string>, l1: string, l2: string)
    requires |rows| == 2
    requires header == if HeaderEmitted(rows, options) then [HeaderLine(rows, options)] else []
    requires RowString(GetRowData(rows[0]), options) == l1 && RowString(GetRowData(rows[1]), options) == l2
    ensures CsvLines(rows, options) == header + [l1, l2]
  {
    var data := DataLines(rows, options);
    assert data == [l1, l2];
  }

  /** Two keyed rows with the default options: a quoted header line, then both rows. */
  lemma KeyedRowsWithDefaults(k1: string, k2: string, a1: string, a2: string, b1: string, b2: string)
    requires k1 != "0"
    requires Quote !in k1 && Quote !in k2 && Quote !in a1 && Quote !in a2 && Quote !in b1 && Quote !in b2
    ensures CsvBody(Array([Plain(Keyed([(k1, a1), (k2, a2)])), Plain(Keyed([(k1, b1), (k2, b2)]))]), Defaults)
      == Wrapped(k1) + ";" + Wrapped(k2) + "\r\n" + Wrapped(a1) + ";" + Wrapped(a2) + "\r\n" + Wrapped(b1) + ";" + Wrapped(b2)
  {
    var rows := [Plain(Keyed([(k1, a1), (k2, a2)])), Plain(Keyed([(k1, b1), (k2, b2)]))];
    var h, l1, l2 := Wrapped(k1) + ";" + Wrapped(k2), Wrapped(a1) + ";" + Wrapped(a2), Wrapped(b1) + ";" + Wrapped(b2);
    KeyedRowsLines(k1, k2, a1, a2, b1, b2);
    ImplodeThree(LineBreak, h, l1, l2);
  }

  lemma KeyedRowsLines(k1: string, k2: string, a1: string, a2: string, b1: string, b2: string)
    requires k1 != "0"
    requires Quote !in k1 && Quote !in k2 && Quote !in a1 && Quote !in a2 && Quote !in b1 && Quote !in b2
    ensures CsvLines([Plain(Keyed([(k1, a1), (k2, a2)])), Plain(Keyed([(k1, b1), (k2, b2)]))], Defaults)
      == [Wrapped(k1) + ";" + Wrapped(k2), Wrapped(a1) + ";" + Wrapped(a2), Wrapped(b1) + ";" + Wrapped(b2)]
  {
    var first, second := Keyed([(k1, a1), (k2, a2)]), Keyed([(k1, b1), (k2, b2)]);
    var rows := [Plain(first), Plain(second)];
    FirstKeyMakesAssoc(first.entries);
    assert RecordKeys(first) == [k1, k2];
    var h, l1, l2 := Wrapped(k1) + ";" + Wrapped(k2), Wrapped(a1) + ";" + Wrapped(a2), Wrapped(b1) + ";" + Wrapped(b2);
    QuotedPair(Indexed([k1, k2]), Defaults, k1, k2);
    QuotedPair(first, Defaults, a1, a2);
    QuotedPair(second, Defaults, b1, b2);
    assert HeaderEmitted(rows, Defaults) && HeaderLine(rows, Defaults) == h;
    TwoRowLines(rows, Defaults, [h], l1, l2);
    assert [h] + [l1, l2] == [h, l1, l2];
  }

  /** Indexed rows get no header line even though one was asked for. */
  lemma IndexedRowsHaveNoHeader(a: string, b: string, c: string, d: string, e: string, f: string)
    requires Quote !in a && Quote !in b && Quote !in c && Quote !in d && Quote !in e && Quote !in f
    ensures CsvBody(Array([Plain(Indexed([a, b, c])), Plain(Indexed([d, e, f]))]), Defaults)
      == Wrapped(a) + ";" + Wrapped(b) + ";" + Wrapped(c) + "\r\n" + Wrapped(d) + ";" + Wrapped(e) + ";" + Wrapped(f)
  {
    var l1, l2 := Wrapped(a) + ";" + Wrapped(b) + ";" + Wrapped(c), Wrapped(d) + ";" + Wrapped(e) + ";" + Wrapped(f);
    IndexedRowsLines(a, b, c, d, e, f);
    ImplodeTwo(LineBreak, l1, l2);
  }

  lemma IndexedRowsLines(a: string, b: string, c: string, d: string, e: string, f: string)
    requires Quote !in a && Quote !in b && Quote !in c && Quote !in d && Quote !in e && Quote !in f
    ensures CsvLines([Plain(Indexed([a, b, c])), Plain(Indexed([d, e, f]))], Defaults)
      == [Wrapped(a) + ";" + Wrapped(b) + ";" + Wrapped(c), Wrapped(d) + ";" + Wrapped(e) + ";" + Wrapped(f)]
  {
    var first, second := Indexed([a, b, c]), Indexed([d, e, f]);
    var rows := [Plain(first), Plain(second)];
    IndexedIsNotAssoc(first);
    var l1, l2 := Wrapped(a) + ";" + Wrapped(b) + ";" + Wrapped(c), Wrapped(d) + ";" + Wrapped(e) + ";" + Wrapped(f);
    QuotedTriple(first, Defaults, a, b, c);
    QuotedTriple(second, Defaults, d, e, f);
    assert !HeaderEmitted(rows, Defaults);
    TwoRowLines(rows, Defaults, [], l1, l2);
    assert [] + [l1, l2] == [l1, l2];
  }

  /** Quoting off and a comma delimiter: bare keys, then bare cells. */
  lemma UnquotedCommaSeparated(k1: string, k2: string, v1: string, v2: string)
    requires k1 != "0"
    ensures CsvBody(Array([Plain(Keyed([(k1, v1), (k2, v2)]))]),
                    ParseOptions(NoOverrides.(quoted := Some(false), delimiter := Some(","))))
      == k1 + "," + k2 + "\r\n" + v1 + "," + v2
  {
    var options := ParseOptions(NoOverrides.(quoted := Some(false), delimiter := Some(",")));
    var first := Keyed([(k1, v1), (k2, v2)]);
    FirstKeyMakesAssoc(first.entries);
    assert RecordKeys(first) == [k1, k2];
    assert options == Options(DefaultEncoding, ",", false, true);
    assert RecordValues(first) == [v1, v2];
    ImplodeTwo(",", k1, k2);
    ImplodeTwo(",", v1, v2);
    assert HeaderEmitted([Plain(first)], options);
    assert HeaderLine([Plain(first)], options) == k1 + "," + k2;
    assert DataLines([Plain(first)], options)[0] == v1 + "," + v2;
    assert CsvLines([Plain(first)], options) == [k1 + "," + k2, v1 + "," + v2];
    ImplodeTwo(LineBreak, k1 + "," + k2, v1 + "," + v2);
  }

  /** The cell `He said "hi"`, and any like it: its own quotes are doubled inside the surrounding quotes. */
  lemma QuotesDoubled(a: string, b: string)
    requires Quote !in a && Quote !in b
    ensures QuoteCell(a + [Quote] + b + [Quote]) == [Quote] + a + [Quote, Quote] + b + [Quote, Quote, Quote]
  {
    EscapeWithoutQuotes(a);
    EscapeWithoutQuotes(b);
    EscapeAroundQuotes(a, b);
  }

  lemma EscapeAroundQuotes(a: string, b: string)
    requires Escape(a) == a && Escape(b) == b
    ensures Escape(a + [Quote] + b + [Quote]) == a + [Quote, Quote] + b + [Quote, Quote]
  {
    EscapeConcat(a + [Quote] + b, [Quote]);
    EscapeConcat(a + [Quote], b);
    EscapeConcat(a, [Quote]);
    assert Escape([Quote]) == [Quote, Quote];
  }

  /** An object row contributes the data its `csvSerialize()` returns, header included. */
  lemma SerializableRow(k: string, v: string)
    requires k != "0" && Quote !in k && Quote !in v
    ensures CsvBody(Collection([Serializable(Keyed([(k, v)]))]), Defaults) == Wrapped(k) + "\r\n" + Wrapped(v)
  {
    var data := Keyed([(k, v)]);
    FirstKeyMakesAssoc(data.entries);
    QuotedWord(k);
    QuotedWord(v);
    assert RecordKeys(data) == [k];
    assert QuoteAll([k]) == [QuoteCell(k)];
    assert QuoteAll([v]) == [QuoteCell(v)];
    assert CsvLines([Serializable(data)], Defaults) == [Wrapped(k), Wrapped(v)];
    ImplodeTwo(LineBreak, Wrapped(k), Wrapped(v));
  }

  /** No rows, the empty string and the string "0" are all empty data; "00" is not. */
  lemma EmptyData()
    ensures DataIsEmpty(Array([])) && DataIsEmpty(Collection([]))
    ensures DataIsEmpty(Text("")) && DataIsEmpty(Text("0"))
    ensures !DataIsEmpty(Text("00"))
  {
  }

  /**
   * `csv($data)` with nothing else given answers status 200, exactly the four base
   * headers for WINDOWS-1252, and the default CSV text converted to WINDOWS-1252.
   */
  method DefaultCall(data: Dataset, convert: Converter) returns (response: Response)
    ensures DataIsEmpty(data) ==> response == Response(NoContentBody, NoContentStatus, [])
    ensures !DataIsEmpty(data) ==> response.status == 200
    ensures !DataIsEmpty(data) ==> response.headers == BaseHeaders("WINDOWS-1252")
    ensures !DataIsEmpty(data) ==> response.body == convert(CsvBody(data, Defaults), "WINDOWS-1252")
  {
    response := Csv(data, convert);
    CsvHeadersAlwaysComplete([], Defaults);
  }
}
