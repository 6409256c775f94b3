/**
 * The CSV response factory: it turns rows (keyed records, indexed records or objects
 * that serialize themselves to a record) or a preformatted string into a CSV body
 * with CRLF line breaks, and derives the HTTP headers that go with it.
 *
 * The members follow the methods of the PHP class in order. The host framework's
 * response constructor is the `Response` datatype; the character-set conversion
 * (`mb_convert_encoding`) is the `convert` parameter.
 */
module ResponseFactory {
  import opened Wrappers
  import opened PhpText
  import PhpArray
  import opened CsvQuoting

  const DefaultEncoding: string := "WINDOWS-1252"
  const DefaultDelimiter: string := ";"
  /** The separator between CSV lines. */
  const LineBreak: string := "\r\n"
  const NoContentStatus: int := 204
  const NoContentBody: string := "No Content"

  /** The resolved formatting options. */
  datatype Options = Options(encoding: string, delimiter: string, quoted: bool, includeHeader: bool)

  /** The options a caller passes: each key may be present or absent. */
  datatype Overrides = Overrides(
    encoding: Option<string>,
    delimiter: Option<string>,
    quoted: Option<bool>,
    includeHeader: Option<bool>)

  const NoOverrides: Overrides := Overrides(None, None, None, None)

  /** The data of one row: an associative array, or a list of cells. */
  datatype Record = Keyed(entries: seq<(string, string)>) | Indexed(cells: seq<string>)

  /** A row as passed in: plain row data, or an object whose `csvSerialize()` yields it. */
  datatype Row = Plain(record: Record) | Serializable(csvSerialize: Record)

  /** What `csv` accepts: an array of rows, a collection of rows, or a preformatted string. */
  datatype Dataset = Array(rows: seq<Row>) | Collection(items: seq<Row>) | Text(text: string)

  /** The HTTP response the host framework builds from a body, a status and headers. */
  datatype Response = Response(body: string, status: int, headers: seq<(string, string)>)

  /** A character-set conversion: the text and the target encoding give the converted text. */
  type Converter = (string, string) -> string

  /** The rows of an array or a collection. */
  function RowsOf(data: Dataset): seq<Row>
    requires !data.Text?
  {
    if data.Array? then data.rows else data.items
  }

  // ---------------------------------------------------------------- csv

  /**
   * The CSV response: "No Content" with status 204 for empty data, without looking at
   * the options or the headers; otherwise the formatted body with the given status
   * and the CSV headers. Status, headers and options are optional, defaulting to 200,
   * no headers and no overrides.
   */
  method Csv(data: Dataset, convert: Converter, status: int := 200, headers: seq<(string, string)> := [],
             custom: Overrides := NoOverrides)
    returns (response: Response)
    ensures DataIsEmpty(data) ==> response == Response(NoContentBody, NoContentStatus, [])
    ensures !DataIsEmpty(data) ==>
      var options := ParseOptions(custom);
      response == Response(convert(CsvBody(data, options), options.encoding), status, CreateCsvHeaders(headers, options))
  {
    if DataIsEmpty(data) {
      return Response(NoContentBody, NoContentStatus, []);
    }
    var options := ParseOptions(custom);
    var csv := FormatCsv(data, options, convert);
    var csvHeaders := CreateCsvHeaders(headers, options);
    response := Response(csv, status, csvHeaders);
  }

  // ---------------------------------------------------------------- parseOptions

  /** The caller's options laid over the defaults, key by key. */
  function ParseOptions(custom: Overrides): Options
  {
    Options(
      custom.encoding.GetOr(DefaultEncoding),
      custom.delimiter.GetOr(DefaultDelimiter),
      custom.quoted.GetOr(true),
      custom.includeHeader.GetOr(true))
  }

  // ---------------------------------------------------------------- dataIsEmpty

  /**
   * Arrays and collections are empty when they hold no rows. A string is empty in the
   * sense of PHP's `empty()`: the empty string and also the string "0".
   */
  function DataIsEmpty(data: Dataset): (empty: bool)
    ensures !data.Text? ==> (empty <==> |RowsOf(data)| == 0)
    ensures data.Text? ==> (empty <==> data.text == "" || data.text == "0")
  {
    match data
    case Array(rows) => |rows| == 0
    case Collection(items) => |items| == 0
    case Text(s) => s == "" || s == "0"
  }

  // ---------------------------------------------------------------- formatCsv

  /** The lines of the CSV text for `rows`: the header line when one is emitted, then one line per row. */
  function CsvLines(rows: seq<Row>, options: Options): seq<string>
  {
    (if HeaderEmitted(rows, options) then [HeaderLine(rows, options)] else []) + DataLines(rows, options)
  }

  /** The CSV text before conversion: a string is kept as it is, rows are formatted and joined by CRLF. */
  function CsvBody(data: Dataset, options: Options): string
  {
    match data
    case Text(s) => s
    case _ => Implode(LineBreak, CsvLines(RowsOf(data), options))
  }

  /**
   * Formats the data in the target encoding. The header step reads the first row, so
   * it needs one; `csv` only gets here with non-empty data.
   */
  method FormatCsv(data: Dataset, options: Options, convert: Converter) returns (csv: string)
    requires !data.Text? && options.includeHeader ==> |RowsOf(data)| > 0
    ensures csv == convert(CsvBody(data, options), options.encoding)
  {
    var text: string;
    if data.Text? {
      text := data.text;
    } else {
      var rows := RowsOf(data);
      var csvArray: seq<string> := [];
      if options.includeHeader {
        csvArray := AddHeaderToCsvArray(csvArray, rows, options);
      }
      csvArray := AddRowsToCsvArray(csvArray, rows, options);
      text := Implode(LineBreak, csvArray);
    }
    csv := convert(text, options.encoding);
  }

  // ---------------------------------------------------------------- addHeaderToCsvArray

  /** A header line is emitted when the option asks for one and the first row's data is associative. */
  predicate HeaderEmitted(rows: seq<Row>, options: Options)
  {
    options.includeHeader && |rows| > 0 && IsAssoc(GetRowData(rows[0]))
  }

  /** The header line: the first row's keys, rendered like a data row. */
  function HeaderLine(rows: seq<Row>, options: Options): string
    requires |rows| > 0
  {
    RowString(Indexed(RecordKeys(GetRowData(rows[0]))), options)
  }

  /**
   * Writes the header line at index 0 of `csvArray` when the first row's data is
   * associative, and leaves `csvArray` alone otherwise.
   */
  method AddHeaderToCsvArray(csvArray: seq<string>, rows: seq<Row>, options: Options) returns (result: seq<string>)
    requires |rows| > 0
    ensures IsAssoc(GetRowData(rows[0])) ==>
      result == [HeaderLine(rows, options)] + (if |csvArray| == 0 then [] else csvArray[1..])
    ensures !IsAssoc(GetRowData(rows[0])) ==> result == csvArray
  {
    result := csvArray;
    var firstRowData := GetRowData(rows[0]);
    if IsAssoc(firstRowData) {
      var rowData := Indexed(RecordKeys(firstRowData));
      var line := RowDataToCsvString(rowData, options);
      if |result| == 0 {
        result := [line];
      } else {
        result := result[0 := line];
      }
    }
  }

  // ---------------------------------------------------------------- addRowsToCsvArray

  /** One line per row, in order: line i renders the data of row i. */
  function DataLines(rows: seq<Row>, options: Options): (lines: seq<string>)
    ensures |lines| == |rows|
    ensures forall i :: 0 <= i < |rows| ==> lines[i] == RowString(GetRowData(rows[i]), options)
  {
    if |rows| == 0 then [] else [RowString(GetRowData(rows[0]), options)] + DataLines(rows[1..], options)
  }

  /** Appends the line of every row to `csvArray`, in order. */
  method AddRowsToCsvArray(csvArray: seq<string>, rows: seq<Row>, options: Options) returns (result: seq<string>)
    ensures result == csvArray + DataLines(rows, options)
  {
    result := csvArray;
    for i := 0 to |rows|
      invariant |result| == |csvArray| + i
      invariant result[..|csvArray|] == csvArray
      invariant forall k :: 0 <= k < i ==> result[|csvArray| + k] == RowString(GetRowData(rows[k]), options)
    {
      var rowData := GetRowData(rows[i]);
      var line := RowDataToCsvString(rowData, options);
      result := result + [line];
    }
  }

  // ---------------------------------------------------------------- getRowData

  /** An object row is replaced by what its `csvSerialize()` returns; row data is used as it is. */
  function GetRowData(row: Row): Record
  {
    match row
    case Serializable(serialized) => serialized
    case Plain(record) => record
  }

  /** The keys of row data: its own keys, or 0, 1, ... for a list of cells. */
  function RecordKeys(rowData: Record): seq<string>
  {
    match rowData
    case Keyed(entries) => PhpArray.Keys(entries)
    case Indexed(cells) => seq(|cells|, i requires 0 <= i < |cells| => PhpArray.DecimalDigits(i))
  }

  /** The cells of row data, in order; keys are dropped. */
  function RecordValues(rowData: Record): seq<string>
  {
    match rowData
    case Keyed(entries) => PhpArray.Values(entries)
    case Indexed(cells) => cells
  }

  /** `Arr::isAssoc` on row data. */
  predicate IsAssoc(rowData: Record)
  {
    PhpArray.IsAssoc(RecordKeys(rowData))
  }

  // ---------------------------------------------------------------- rowDataToCsvString

  /** A row's line: its cells, each quoted when the option says so, joined by the delimiter. */
  function RowString(rowData: Record, options: Options): string
  {
    var cells := RecordValues(rowData);
    Implode(options.delimiter, if options.quoted then QuoteAll(cells) else cells)
  }

  /** Quotes the cells of a copy of the row one by one, in place, then joins them. */
  method RowDataToCsvString(rowData: Record, options: Options) returns (line: string)
    ensures line == RowString(rowData, options)
  {
    var cells := RecordValues(rowData);
    if options.quoted {
      ghost var original := cells;
      var row := new string[|cells|](i requires 0 <= i < |cells| => cells[i]);
      for i := 0 to row.Length
        invariant forall k :: 0 <= k < i ==> row[k] == QuoteCell(original[k])
        invariant forall k :: i <= k < row.Length ==> row[k] == original[k]
      {
        row[i] := QuoteCell(row[i]);
      }
      cells := row[..];
      assert cells == QuoteAll(original);
    }
    line := Implode(options.delimiter, cells);
  }

  // ---------------------------------------------------------------- createCsvHeaders

  /** The headers every CSV response carries. */
  function BaseHeaders(encoding: string): seq<(string, string)>
  {
    [ ("Content-Type", "text/csv; charset=" + encoding),
      ("Content-Encoding", encoding),
      ("Content-Transfer-Encoding", "binary"),
      ("Content-Description", "File Transfer") ]
  }

  /** The base headers with the caller's headers merged over them (`array_merge`). */
  function CreateCsvHeaders(custom: seq<(string, string)>, options: Options): seq<(string, string)>
  {
    PhpArray.Merge(BaseHeaders(options.encoding), custom)
  }
}
