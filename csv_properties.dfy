/**
 * What the CSV response factory promises, stated over its specification functions:
 * option precedence, when a header line appears, the layout of the lines, that the
 * lines can be read back into their cells, header precedence, and worked examples.
 */
module CsvProperties {
  import opened Wrappers
  import opened PhpText
  import PhpArray
  import opened CsvQuoting
  import opened ResponseFactory

  // ---------------------------------------------------------------- options

  /** Without overrides the options are the defaults. */
  lemma ParseOptionsDefaults()
    ensures ParseOptions(NoOverrides) == Options("WINDOWS-1252", ";", true, true)
  {
  }

  /** Each key present in the overrides wins; each absent key keeps its default. */
  lemma ParseOptionsPerKey(custom: Overrides)
    ensures var o := ParseOptions(custom);
      && (if custom.encoding.Some? then o.encoding == custom.encoding.value else o.encoding == "WINDOWS-1252")
      && (if custom.delimiter.Some? then o.delimiter == custom.delimiter.value else o.delimiter == ";")
      && (if custom.quoted.Some? then o.quoted == custom.quoted.value else o.quoted)
      && (if custom.includeHeader.Some? then o.includeHeader == custom.includeHeader.value else o.includeHeader)
  {
  }

  /** Overriding one key changes that key of the result and nothing else. */
  lemma ParseOptionsOneKey(custom: Overrides, encoding: string, delimiter: string, flag: bool)
    ensures ParseOptions(custom.(encoding := Some(encoding))) == ParseOptions(custom).(encoding := encoding)
    ensures ParseOptions(custom.(delimiter := Some(delimiter))) == ParseOptions(custom).(delimiter := delimiter)
    ensures ParseOptions(custom.(quoted := Some(flag))) == ParseOptions(custom).(quoted := flag)
    ensures ParseOptions(custom.(includeHeader := Some(flag))) == ParseOptions(custom).(includeHeader := flag)
  {
  }

  // ---------------------------------------------------------------- empty data

  /** Data that is not empty can be formatted: an array or collection then has a first row. */
  lemma NonEmptyDataHasFirstRow(data: Dataset)
    requires !DataIsEmpty(data) && !data.Text?
    ensures |RowsOf(data)| > 0
  {
  }

  /** A preformatted string is the body as it is, whatever the options: no header or row step applies to it. */
  lemma RawTextPassesThrough(text: string, options: Options, options': Options)
    ensures CsvBody(Text(text), options) == text
    ensures CsvBody(Text(text), options) == CsvBody(Text(text), options')
  {
  }

  // ---------------------------------------------------------------- header emission

  /** A list of cells is never associative, and neither is an empty keyed record. */
  lemma IndexedIsNotAssoc(rowData: Record)
    requires rowData.Indexed? || |rowData.entries| == 0
    ensures !IsAssoc(rowData)
  {
    if rowData.Keyed? {
      PhpArray.IsAssocCharacterised(RecordKeys(rowData));
    }
  }

  /**
   * The header line appears exactly when the option is on and the first row's data is
   * keyed with keys other than 0, 1, ..., n-1; a keyed first row with a key that is not
   * all digits always qualifies.
   */
  lemma HeaderEmittedExactly(rows: seq<Row>, options: Options)
    ensures HeaderEmitted(rows, options) <==>
      options.includeHeader && |rows| > 0 && GetRowData(rows[0]).Keyed? &&
      !PhpArray.IsListKeys(PhpArray.Keys(GetRowData(rows[0]).entries))
    ensures options.includeHeader && |rows| > 0 && GetRowData(rows[0]).Keyed? &&
      (exists i, j :: 0 <= i < |GetRowData(rows[0]).entries| && 0 <= j < |GetRowData(rows[0]).entries[i].0| &&
         !('0' <= GetRowData(rows[0]).entries[i].0[j] <= '9'))
      ==> HeaderEmitted(rows, options)
  {
    if |rows| > 0 {
      var first := GetRowData(rows[0]);
      if first.Indexed? {
        IndexedIsNotAssoc(first);
      } else {
        var keys := PhpArray.Keys(first.entries);
        PhpArray.IsAssocCharacterised(keys);
        if exists i, j :: 0 <= i < |first.entries| && 0 <= j < |first.entries[i].0| && !('0' <= first.entries[i].0[j] <= '9') {
          var i, j :| 0 <= i < |first.entries| && 0 <= j < |first.entries[i].0| && !('0' <= first.entries[i].0[j] <= '9');
          assert keys[i] == first.entries[i].0;
        }
      }
    }
  }

  /** Without the option, or with an indexed first row, the lines are the data lines alone. */
  lemma NoHeaderLine(rows: seq<Row>, options: Options)
    requires !options.includeHeader || (|rows| > 0 && GetRowData(rows[0]).Indexed?)
    ensures CsvLines(rows, options) == DataLines(rows, options)
  {
    if options.includeHeader {
      IndexedIsNotAssoc(GetRowData(rows[0]));
    }
  }

  // ---------------------------------------------------------------- line layout

  /**
   * The lines are the header line (when emitted) followed by exactly one line per row
   * in input order; the first row is emitted as data too.
   */
  lemma CsvLinesLayout(rows: seq<Row>, options: Options)
    ensures var offset := if HeaderEmitted(rows, options) then 1 else 0;
      && |CsvLines(rows, options)| == |rows| + offset
      && (HeaderEmitted(rows, options) ==> CsvLines(rows, options)[0] == HeaderLine(rows, options))
      && forall i :: 0 <= i < |rows| ==> CsvLines(rows, options)[i + offset] == RowString(GetRowData(rows[i]), options)
  {
  }

  /** An object row contributes the line of its serialized data, a plain row that of itself. */
  lemma DataLineOfRow(rows: seq<Row>, options: Options, i: nat)
    requires i < |rows|
    ensures rows[i].Serializable? ==> DataLines(rows, options)[i] == RowString(rows[i].csvSerialize, options)
    ensures rows[i].Plain? ==> DataLines(rows, options)[i] == RowString(rows[i].record, options)
  {
  }

  /** The strings of row data (keys and cells) avoid the character `c`. */
  ghost predicate RecordAvoids(rowData: Record, c: char)
  {
    match rowData
    case Keyed(entries) => forall i :: 0 <= i < |entries| ==> c !in entries[i].0 && c !in entries[i].1
    case Indexed(cells) => forall i :: 0 <= i < |cells| ==> c !in cells[i]
  }

  lemma RecordAvoidsParts(rowData: Record, c: char)
    requires RecordAvoids(rowData, c)
    ensures AllAvoid(RecordValues(rowData), c)
    ensures IsAssoc(rowData) ==> AllAvoid(RecordKeys(rowData), c)
  {
    if rowData.Indexed? {
      IndexedIsNotAssoc(rowData);
    }
  }

  /** A line avoids every character, other than the quote, that its cells and the delimiter avoid. */
  lemma RowStringAvoids(rowData: Record, options: Options, c: char)
    requires c != Quote && c !in options.delimiter && AllAvoid(RecordValues(rowData), c)
    ensures c !in RowString(rowData, options)
  {
    var cells := RecordValues(rowData);
    if options.quoted {
      forall i | 0 <= i < |cells| ensures c !in QuoteAll(cells)[i] {
        QuoteCellCharacters(cells[i], c);
      }
      ImplodeAvoids(options.delimiter, QuoteAll(cells), c);
    } else {
      ImplodeAvoids(options.delimiter, cells, c);
    }
  }

  /**
   * When no key, no cell and not the delimiter contain a carriage return, splitting the
   * body at CRLF gives back exactly its lines: the header (when emitted), then one line per row.
   */
  lemma BodySplitsIntoLines(data: Dataset, options: Options)
    requires !data.Text? && |RowsOf(data)| > 0
    requires '\r' !in options.delimiter
    requires forall i :: 0 <= i < |RowsOf(data)| ==> RecordAvoids(GetRowData(RowsOf(data)[i]), '\r')
    ensures Split(CsvBody(data, options), LineBreak) == CsvLines(RowsOf(data), options)
    ensures |Split(CsvBody(data, options), LineBreak)| == |RowsOf(data)| + (if HeaderEmitted(RowsOf(data), options) then 1 else 0)
  {
    var rows := RowsOf(data);
    var lines := CsvLines(rows, options);
    forall i | 0 <= i < |lines| ensures '\r' !in lines[i] {
      var off := if HeaderEmitted(rows, options) then 1 else 0;
      if i < off {
        RecordAvoidsParts(GetRowData(rows[0]), '\r');
        RowStringAvoids(Indexed(RecordKeys(GetRowData(rows[0]))), options, '\r');
      } else {
        RecordAvoidsParts(GetRowData(rows[i - off]), '\r');
        RowStringAvoids(GetRowData(rows[i - off]), options, '\r');
      }
    }
    SplitImplode(lines, LineBreak);
  }

  // ---------------------------------------------------------------- rendering a row

  /**
   * With quoting on, a line reads back into exactly the row's cells, in order, whenever
   * the delimiter does not start with a quote.
   */
  lemma QuotedRowReadsBack(rowData: Record, options: Options)
    requires options.quoted && |options.delimiter| > 0 && options.delimiter[0] != Quote
    ensures ParseQuotedRow(RowString(rowData, options), options.delimiter) == Some(RecordValues(rowData))
  {
    ParseQuotedRowImplode(RecordValues(rowData), options.delimiter);
  }

  /** The header line is quoted like every other line: it reads back into the first row's keys. */
  lemma HeaderLineReadsBack(rows: seq<Row>, options: Options)
    requires HeaderEmitted(rows, options)
    requires options.quoted && |options.delimiter| > 0 && options.delimiter[0] != Quote
    ensures ParseQuotedRow(CsvLines(rows, options)[0], options.delimiter) == Some(RecordKeys(GetRowData(rows[0])))
  {
    QuotedRowReadsBack(Indexed(RecordKeys(GetRowData(rows[0]))), options);
  }

  /**
   * With quoting off, a line is the bare cells joined by the delimiter: splitting it at
   * the delimiter gives back exactly the cells, as many as the row has, when no cell
   * contains the delimiter's first character.
   */
  lemma UnquotedRowSplits(rowData: Record, options: Options)
    requires !options.quoted && |options.delimiter| > 0
    requires |RecordValues(rowData)| > 0 && AllAvoid(RecordValues(rowData), options.delimiter[0])
    ensures Split(RowString(rowData, options), options.delimiter) == RecordValues(rowData)
  {
    SplitImplode(RecordValues(rowData), options.delimiter);
  }

  /**
   * Row data without cells renders as the empty line, which splits into one empty
   * field: an empty row and a row of one empty cell give the same line.
   */
  lemma EmptyRowSplitsIntoOneField(rowData: Record, options: Options)
    requires |options.delimiter| > 0 && |RecordValues(rowData)| == 0
    ensures RowString(rowData, options) == ""
    ensures Split(RowString(rowData, options), options.delimiter) == [""]
    ensures RowString(rowData, options) == RowString(Indexed([""]), options.(quoted := false))
  {
  }

  // ---------------------------------------------------------------- headers

  /** The four base headers, with their values. */
  lemma BaseHeadersValues(encoding: string)
    ensures PhpArray.Keys(BaseHeaders(encoding)) ==
      ["Content-Type", "Content-Encoding", "Content-Transfer-Encoding", "Content-Description"]
    ensures PhpArray.Lookup(BaseHeaders(encoding), "Content-Type") == Some("text/csv; charset=" + encoding)
    ensures PhpArray.Lookup(BaseHeaders(encoding), "Content-Encoding") == Some(encoding)
    ensures PhpArray.Lookup(BaseHeaders(encoding), "Content-Transfer-Encoding") == Some("binary")
    ensures PhpArray.Lookup(BaseHeaders(encoding), "Content-Description") == Some("File Transfer")
    ensures PhpArray.DistinctKeys(BaseHeaders(encoding))
  {
    var b := BaseHeaders(encoding);
    assert b[1..][1..][1..][1..] == [];
    assert PhpArray.Lookup(b[1..][1..], "Content-Transfer-Encoding") == Some("binary");
    assert PhpArray.Lookup(b[1..][1..][1..], "Content-Description") == Some("File Transfer");
    assert PhpArray.Lookup(b[1..][1..], "Content-Description") == Some("File Transfer");
  }

  /**
   * A caller's header wins over the base header of the same name; a base header the
   * caller does not name keeps its value; the base names come first in their order,
   * followed by the caller's other names in theirs; no name appears twice.
   */
  lemma CsvHeadersMerge(custom: seq<(string, string)>, options: Options)
    requires PhpArray.DistinctKeys(custom)
    ensures var headers := CreateCsvHeaders(custom, options);
      && (forall k :: PhpArray.Lookup(headers, k) ==
            if k in PhpArray.Keys(custom) then PhpArray.Lookup(custom, k)
            else PhpArray.Lookup(BaseHeaders(options.encoding), k))
      && PhpArray.Keys(headers) ==
           PhpArray.Keys(BaseHeaders(options.encoding)) +
           PhpArray.Unseen(PhpArray.Keys(custom), PhpArray.Keys(BaseHeaders(options.encoding)))
      && PhpArray.DistinctKeys(headers)
  {
    var base := BaseHeaders(options.encoding);
    forall k ensures PhpArray.Lookup(CreateCsvHeaders(custom, options), k) ==
      if k in PhpArray.Keys(custom) then PhpArray.Lookup(custom, k) else PhpArray.Lookup(base, k)
    {
      PhpArray.MergeLookup(base, custom, k);
    }
    PhpArray.MergeKeys(base, custom);
    BaseHeadersValues(options.encoding);
    PhpArray.MergeDistinct(base, custom);
  }

  /** A header name is in the response exactly when it is a base name or a caller's name. */
  lemma CsvHeadersNames(custom: seq<(string, string)>, options: Options, k: string)
    requires PhpArray.DistinctKeys(custom)
    ensures k in PhpArray.Keys(CreateCsvHeaders(custom, options)) <==>
      k in PhpArray.Keys(BaseHeaders(options.encoding)) || k in PhpArray.Keys(custom)
  {
    var base := BaseHeaders(options.encoding);
    PhpArray.MergeKeys(base, custom);
    PhpArray.UnseenMembers(PhpArray.Keys(custom), PhpArray.Keys(base), k);
  }

  /** The four base headers are always present; without custom headers they are all there is. */
  lemma CsvHeadersAlwaysComplete(custom: seq<(string, string)>, options: Options)
    requires PhpArray.DistinctKeys(custom)
    ensures var names := PhpArray.Keys(CreateCsvHeaders(custom, options));
      "Content-Type" in names && "Content-Encoding" in names &&
      "Content-Transfer-Encoding" in names && "Content-Description" in names
    ensures "Content-Type" !in PhpArray.Keys(custom) ==>
      PhpArray.Lookup(CreateCsvHeaders(custom, options), "Content-Type") == Some("text/csv; charset=" + options.encoding)
    ensures CreateCsvHeaders([], options) == BaseHeaders(options.encoding)
  {
    CsvHeadersMerge(custom, options);
    BaseHeadersValues(options.encoding);
  }
}
