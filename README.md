# CSV responses for Laravel, modelled in Dafny

This project models the CSV formatter of the `ResponseFactory` class in
`src/Zegitz/Routing/ResponseFactory.php`, and proves properties of that model.
`csv($data, $status, $headers, $options)` takes one of three inputs:

- a sequence of rows. Each row is a keyed record, an indexed record, or an object with `csvSerialize()`.
- a collection of such rows.
- a preformatted string.

It answers "No Content" with status 204 when the data is empty. Otherwise it:

1. overlays the caller's options on the defaults (`WINDOWS-1252`, `;`, quoted, with header);
2. renders each row's cells, quoted when the option is on and joined by the delimiter;
3. when `include_header` is on, puts a header line of the first row's keys in front if that row is associative;
4. joins the lines with CRLF;
5. converts the text to the target encoding;
6. merges the caller's headers over the four CSV base headers.

Files and modules:

- `wrappers.dfy` (`Wrappers`): `Option`.
- `php_text.dfy` (`PhpText`): models PHP's `implode`. It also has `Split`, the reading direction, used only to state what a body or line contains.
- `php_array.dfy` (`PhpArray`): models string-keyed PHP arrays as ordered lists of entries. It covers `array_keys`, `array_values`, lookup, assignment and `array_merge`, plus Laravel's `Arr::isAssoc`.
- `csv_quoting.dfy` (`CsvQuoting`): the cell quoting `'"' . str_replace('"', '""', $cell) . '"'`. It also has its inverses: `Unquote` for one cell and `ParseQuotedRow` for a fully quoted row.
- `response_factory.dfy` (`ResponseFactory`): the class's members in source order.
  - Pure members are functions: `ParseOptions`, `DataIsEmpty`, `GetRowData`, `CreateCsvHeaders`.
  - Members that build their result step by step are methods: `Csv`, `FormatCsv`, `AddHeaderToCsvArray`, `AddRowsToCsvArray`, `RowDataToCsvString`.
  - Each method is proved equal to a specification function: `CsvBody`, `CsvLines`, `HeaderLine`, `DataLines`, `RowString`.
  - `$csvArray`, which the source passes by reference, is an in/out sequence parameter.
  - The `array_walk` over a copy of the row becomes a local array quoted in place by a loop.
- `csv_properties.dfy` (`CsvProperties`): the properties of those functions.
- `csv_examples.dfy` (`CsvExamples`): worked examples, each stated for every input of the given shape: keyed rows with the default options, indexed rows, unquoted comma-separated rows, doubled quotes, an object row, empty data, and a call with status, headers and options left at their defaults.

The framework's `make($body, $status, $headers)` is the `Response` datatype. `mb_convert_encoding($csv, $encoding)` is the `convert` parameter (text and target encoding to text). The model says only that this conversion gets the CRLF-joined text, or the raw string, together with the resolved encoding.

Three behaviours of the code worth noting:

- `dataIsEmpty` on a string uses PHP's `empty()`, which is also true for the string `"0"`. So `csv("0")` answers 204, not just `csv("")`.
- The delimiter may be any string, because `implode` accepts one; it is not limited to one character.
- `Arr::isAssoc` is decided by the keys. A keyed record whose keys are exactly `"0"`, `"1"`, … in order is a list, and so is an empty keyed record. Neither gets a header line.

## Model

| member | source | states |
|---|---|---|
| ResponseFactory.Csv | src/Zegitz/Routing/ResponseFactory.php:17-29 | status, headers and options are optional (200, none, none); empty data gives exactly ("No Content", 204, no headers), independent of options, headers and converter; otherwise the body is the converted CSV text for the parsed options, with the given status and the merged CSV headers |
| CsvExamples.DefaultCall | src/Zegitz/Routing/ResponseFactory.php:17-29 | `csv($data)` alone: empty data gives the 204 answer; otherwise status 200, exactly the four base headers for WINDOWS-1252, and the text for the default options converted to WINDOWS-1252 |
| ResponseFactory.DataIsEmpty | src/Zegitz/Routing/ResponseFactory.php:54-65 | an array or collection is empty iff it has no rows; a string is empty iff it is "" or "0" (PHP `empty`) |
| CsvProperties.NonEmptyDataHasFirstRow | src/Zegitz/Routing/ResponseFactory.php:19-25 | data that passes the emptiness guard and is not a string has a first row, so the header step can read it |
| ResponseFactory.ParseOptions | src/Zegitz/Routing/ResponseFactory.php:36-46 | no contract of its own: it takes each of the four keys from the overrides when given and from the defaults otherwise; ParseOptionsDefaults, ParseOptionsPerKey and ParseOptionsOneKey state what that means |
| CsvProperties.ParseOptionsDefaults | src/Zegitz/Routing/ResponseFactory.php:36-46 | with no overrides the options are exactly encoding WINDOWS-1252, delimiter ";", quoted, header included |
| CsvProperties.ParseOptionsPerKey | src/Zegitz/Routing/ResponseFactory.php:36-46 | each key present in the overrides takes the caller's value; each absent key has its default |
| CsvProperties.ParseOptionsOneKey | src/Zegitz/Routing/ResponseFactory.php:45 | overriding one key changes that key of the options and leaves the other three as they were |
| ResponseFactory.CsvLines | src/Zegitz/Routing/ResponseFactory.php:77-85 | no contract of its own: the header line when one is emitted, then the data lines; the specification that FormatCsv, AddHeaderToCsvArray and AddRowsToCsvArray are proved against; CsvProperties.CsvLinesLayout, NoHeaderLine and BodySplitsIntoLines state it |
| ResponseFactory.CsvBody | src/Zegitz/Routing/ResponseFactory.php:74-86 | no contract of its own: a string as it is, rows as the CRLF join of their lines; FormatCsv is proved equal to its conversion; CsvProperties.RawTextPassesThrough and BodySplitsIntoLines state it |
| ResponseFactory.FormatCsv | src/Zegitz/Routing/ResponseFactory.php:72-89 | the result is the converter applied to the raw string unchanged, or to the CRLF join of the header line (if emitted) followed by the data lines |
| CsvProperties.RawTextPassesThrough | src/Zegitz/Routing/ResponseFactory.php:74-75 | a string dataset is the body as it is, the same whatever the options |
| ResponseFactory.AddHeaderToCsvArray | src/Zegitz/Routing/ResponseFactory.php:96-105 | when the first row's data is associative, index 0 of the line array becomes the header line (rendered first-row keys); otherwise the array is unchanged |
| ResponseFactory.HeaderEmitted | src/Zegitz/Routing/ResponseFactory.php:79-100 | no contract of its own: the header option is on, a first row exists and its data is associative; CsvProperties.HeaderEmittedExactly, IndexedIsNotAssoc and NoHeaderLine state it |
| ResponseFactory.HeaderLine | src/Zegitz/Routing/ResponseFactory.php:98-103 | no contract of its own: the first row's keys rendered like a data row; AddHeaderToCsvArray is proved to write it and CsvProperties.HeaderLineReadsBack states it |
| CsvProperties.HeaderEmittedExactly | src/Zegitz/Routing/ResponseFactory.php:79-104 | a header line appears iff the option is on, there is a first row, and its data is keyed with keys other than 0..n-1; a keyed first row with a non-digit key always gets one |
| CsvProperties.IndexedIsNotAssoc | src/Zegitz/Routing/ResponseFactory.php:100 | indexed row data and empty keyed row data are never associative |
| CsvProperties.NoHeaderLine | src/Zegitz/Routing/ResponseFactory.php:79-104 | with the option off, or an indexed first row, the lines are exactly the data lines |
| CsvProperties.HeaderLineReadsBack | src/Zegitz/Routing/ResponseFactory.php:101-103 | the header line is quoted and delimited like data lines: parsing it as a quoted row gives exactly the first row's keys in order |
| ResponseFactory.AddRowsToCsvArray | src/Zegitz/Routing/ResponseFactory.php:112-119 | the result is the input line array followed by one line per row, in order |
| ResponseFactory.DataLines | src/Zegitz/Routing/ResponseFactory.php:112-119 | there are exactly as many data lines as rows, and line i is the rendering of row i's data |
| CsvProperties.CsvLinesLayout | src/Zegitz/Routing/ResponseFactory.php:77-85 | the lines are n data lines plus one if the header is emitted; the header comes first; line i+offset renders row i, the first row included |
| CsvProperties.BodySplitsIntoLines | src/Zegitz/Routing/ResponseFactory.php:83-85 | if no key, cell or delimiter holds a CR, splitting the body at CRLF gives exactly those lines: one per row, plus one for an emitted header |
| ResponseFactory.GetRowData | src/Zegitz/Routing/ResponseFactory.php:127-134 | no contract of its own: an object row gives its csvSerialize() data and row data is used as it is; CsvProperties.DataLineOfRow and CsvExamples.SerializableRow state what this does to the lines |
| CsvProperties.DataLineOfRow | src/Zegitz/Routing/ResponseFactory.php:127-134 | an object row's line renders its csvSerialize() data; a plain row's line renders the row itself |
| ResponseFactory.RowString | src/Zegitz/Routing/ResponseFactory.php:141-150 | no contract of its own: the row's values, quoted when the option is on, joined by the delimiter; RowDataToCsvString is proved equal to it and CsvProperties.QuotedRowReadsBack, UnquotedRowSplits, EmptyRowSplitsIntoOneField and RowStringAvoids state it |
| ResponseFactory.RowDataToCsvString | src/Zegitz/Routing/ResponseFactory.php:141-150 | the line equals the row's values (keys dropped, order kept), each quoted when the option is on, joined by the delimiter |
| CsvProperties.QuotedRowReadsBack | src/Zegitz/Routing/ResponseFactory.php:141-150 | with quoting on, and a delimiter not starting with a quote, parsing the line gives back exactly the row's cells, same count and order |
| CsvProperties.UnquotedRowSplits | src/Zegitz/Routing/ResponseFactory.php:149 | with quoting off the line is the bare cells joined by the delimiter: splitting at it gives exactly the cells when there is at least one cell and none contains the delimiter's first character (the empty row is EmptyRowSplitsIntoOneField) |
| CsvProperties.EmptyRowSplitsIntoOneField | src/Zegitz/Routing/ResponseFactory.php:149 | row data without cells renders as the empty line, which splits into one empty field and is the same line as a single empty unquoted cell |
| CsvProperties.RowStringAvoids | src/Zegitz/Routing/ResponseFactory.php:141-150 | a line contains no character other than the quote beyond those of its cells and the delimiter |
| CsvQuoting.Escape | src/Zegitz/Routing/ResponseFactory.php:145 | no contract of its own: str_replace('"', '""'), written character by character; UnescapeEscape, EscapeConcat, EscapeWithoutQuotes and EscapeKeepsCharacters state what it does |
| CsvQuoting.QuoteCell | src/Zegitz/Routing/ResponseFactory.php:145 | no contract of its own: the cell escaped and put between quotes; UnquoteQuoteCell and QuoteCellCharacters state it |
| CsvQuoting.QuoteAll | src/Zegitz/Routing/ResponseFactory.php:144-146 | every cell of the row, unconditionally and in place, is replaced by its quoted form |
| CsvQuoting.UnquoteQuoteCell | src/Zegitz/Routing/ResponseFactory.php:145 | stripping the outer quotes of a quoted cell and collapsing "" to " gives back the cell |
| CsvQuoting.UnescapeEscape | src/Zegitz/Routing/ResponseFactory.php:145 | collapsing doubled quotes undoes str_replace('"', '""') |
| CsvQuoting.EscapeConcat | src/Zegitz/Routing/ResponseFactory.php:145 | escaping works character by character: it distributes over concatenation |
| CsvQuoting.EscapeWithoutQuotes | src/Zegitz/Routing/ResponseFactory.php:145 | a cell without quotes is left unchanged by the escaping |
| CsvQuoting.EscapeKeepsCharacters | src/Zegitz/Routing/ResponseFactory.php:145 | escaping adds no character other than quotes and removes none |
| CsvQuoting.QuoteCellCharacters | src/Zegitz/Routing/ResponseFactory.php:145 | apart from quotes, a quoted cell contains exactly the characters of the cell |
| CsvQuoting.ParseQuotedRowImplode | src/Zegitz/Routing/ResponseFactory.php:143-149 | a row of quoted cells joined by a delimiter that does not start with a quote reads back into exactly those cells |
| PhpText.Implode | src/Zegitz/Routing/ResponseFactory.php:85 | no contract of its own: implode, the parts with the separator between each two; SplitImplode and ImplodeAvoids state what it produces |
| PhpText.SplitImplode | src/Zegitz/Routing/ResponseFactory.php:85 | splitting an implode at its separator recovers the parts when there is at least one part and none contains the separator's first character (no parts implode to "", which splits into one empty part) |
| PhpText.ImplodeAvoids | src/Zegitz/Routing/ResponseFactory.php:85 | a character absent from the separator and the parts is absent from their implode |
| PhpArray.Keys | src/Zegitz/Routing/ResponseFactory.php:101 | array_keys: one key per entry, in order |
| PhpArray.Values | src/Zegitz/Routing/ResponseFactory.php:149 | the values implode joins: one per entry, in order |
| PhpArray.IsAssoc | src/Zegitz/Routing/ResponseFactory.php:100 | no contract of its own: Arr::isAssoc, true when some key differs from its position written in decimal; IsAssocCharacterised and CsvProperties.IndexedIsNotAssoc state its consequences |
| PhpArray.IsAssocCharacterised | src/Zegitz/Routing/ResponseFactory.php:100 | the empty array is not associative; a key with a character other than a digit makes an array associative |
| PhpArray.Merge | src/Zegitz/Routing/ResponseFactory.php:166 | no contract of its own: array_merge on string keys, the second array's entries written over the first one by one; MergeLookup, MergeKeys and MergeDistinct state its result |
| PhpArray.MergeLookup | src/Zegitz/Routing/ResponseFactory.php:166 | after array_merge a key of the second array has its value there; any other key keeps its value from the first |
| PhpArray.MergeKeys | src/Zegitz/Routing/ResponseFactory.php:166 | after array_merge the keys are the first array's in order, then the second's new keys in order |
| PhpArray.MergeDistinct | src/Zegitz/Routing/ResponseFactory.php:166 | array_merge of PHP arrays has distinct keys |
| ResponseFactory.CreateCsvHeaders | src/Zegitz/Routing/ResponseFactory.php:157-167 | no contract of its own: array_merge of the base headers and the caller's; BaseHeadersValues, CsvHeadersMerge and CsvHeadersAlwaysComplete state the result |
| ResponseFactory.BaseHeaders | src/Zegitz/Routing/ResponseFactory.php:159-164 | no contract of its own: the four CSV headers for an encoding; CsvProperties.BaseHeadersValues states their names, values and order |
| CsvProperties.BaseHeadersValues | src/Zegitz/Routing/ResponseFactory.php:159-164 | the base headers are Content-Type "text/csv; charset=" + encoding, Content-Encoding encoding, Content-Transfer-Encoding "binary", Content-Description "File Transfer", in that order |
| CsvProperties.CsvHeadersMerge | src/Zegitz/Routing/ResponseFactory.php:157-167 | a caller header wins over the base header of the same name; unnamed base headers keep their values; caller names not in the base set are appended unchanged in order; no name repeats |
| CsvProperties.CsvHeadersNames | src/Zegitz/Routing/ResponseFactory.php:166 | a header name is in the result iff it is one of the base names or one of the caller's names |
| CsvProperties.CsvHeadersAlwaysComplete | src/Zegitz/Routing/ResponseFactory.php:157-167 | the four base header names are always present; without caller headers the result is exactly the base headers |
| CsvExamples.KeyedRowsWithDefaults | src/Zegitz/Routing/ResponseFactory.php:72-89 | two keyed rows with defaults give `"k1";"k2"`, then the two quoted data lines, joined by CRLF |
| CsvExamples.IndexedRowsHaveNoHeader | src/Zegitz/Routing/ResponseFactory.php:79-85 | two indexed rows with the header option on give only their two quoted lines |
| CsvExamples.UnquotedCommaSeparated | src/Zegitz/Routing/ResponseFactory.php:141-150 | quoted off, delimiter ",": `k1,k2` CRLF `v1,v2` |
| CsvExamples.QuotesDoubled | src/Zegitz/Routing/ResponseFactory.php:145 | a cell shaped like `He said "hi"` becomes `"He said ""hi"""` |
| CsvExamples.SerializableRow | src/Zegitz/Routing/ResponseFactory.php:127-134 | an object row in a collection gives a header and a data line from its csvSerialize() data |
| CsvExamples.EmptyData | src/Zegitz/Routing/ResponseFactory.php:54-65 | no rows, "" and "0" are empty data; "00" is not |

## Left out

- `src/ResponseFactoryServiceProvider.php` is not part of this model: it only registers the factory in Laravel's container.
- The inherited `BaseResponseFactory` (views, redirects, `make`) is not modelled; `make` is the `Response` constructor, and its default of no headers is written out for the 204 answer.
- `mb_convert_encoding` is left abstract as the `convert` parameter: its character-set tables, its replacement of unrepresentable characters and its failures depend on the platform and are not modelled.
- PHP's dynamic typing is replaced by tagged datatypes: `is_object`/`method_exists` become the `Row` and `Dataset` variants; cells are strings, so PHP's casting of numbers to text is not modelled; PHP strings (bytes) are sequences of characters.
- Options are a typed record: keys other than the four known ones, which `array_merge` passes through, are not modelled, nor is PHP truthiness of a non-boolean `quoted` or `include_header` value.
- Datasets whose keys are not 0..n-1 in order are not modelled: the source takes the header row from key 0 while `foreach` yields rows in their stored order, so for such a dataset (a collection sorted with `sortBy`, say) the header can come from a row other than the first data line, and with no key 0 at all the call fails whenever `include_header` is on. In the model a dataset is a sequence, whose row at index 0 is its first row.
- A string dataset that names a class with an `isEmpty` method (such as `"Illuminate\Support\Collection"`) makes `method_exists` in `dataIsEmpty` succeed and the following call on a string fail with an error; the model treats every string by `empty()` alone, so this error path is not modelled.
- When `include_header` is on, an object's `csvSerialize()` is called twice for the first row (header and data); the model takes it to return the same record both times, and exceptions it throws are not modelled.
- `array_merge` renumbers integer keys; header names are modelled as strings only, and the case-insensitive header handling of the HTTP layer is not modelled.
- PHP arrays never repeat a key: `Keyed` records are taken as given, and the header lemmas assume the caller's headers have distinct names.
