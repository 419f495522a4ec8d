# Invoice extraction service: a verified model of its core

The service behind `POST /upload` accepts one document and answers with three
record families: invoices, products and customers. A workbook with the
`.xlsx` MIME type is read directly. Each of rows 1 to 15 of its first sheet
becomes one invoice, one product and one customer, through a fixed map from
column positions to field names. Any other upload is sent to a generative
model. The file is tagged with a MIME type chosen from its lower-cased
extension. The model's free-text reply is then cleaned: code-fence markers
are removed, the text is trimmed, and the `{ … }` span is isolated. The
result is parsed as JSON, and each family defaults to `[]` when it is
missing.

This project models those deterministic steps in Dafny and proves what they
promise:

- `Classifier`: the choice of strategy from the MIME type.
- `Tabular`: the row mapping. `ProcessExcelFile` is a loop that appends to
  three sequences. It is proved against the function `Tabulate`.
- `Encoder`: `path.extname`, lower-casing, and the extension switch that
  picks the payload's MIME tag.
- `Normalizer`: fence stripping, `trim`, brace isolation, the parse with an
  empty-object fallback, and the family defaults.
- `Upload`: the handler that ties these together for a request that carries
  a file.
- `Json`, `Strings`, `Wrappers`: JavaScript values, truthiness, property
  access, character searches, and Option/Result.

The spreadsheet parser, the JSON parser and the generative model are
parameters. `sheets` is what the parser returns. `parse(t)` is `None`
exactly when `JSON.parse(t)` throws. `model(payload)` is the reply, or `Err`
when the call throws. The file's base64 contents are a string parameter.

## Model

| member | source | states |
|---|---|---|
| `Classifier.Classify` | index.js:137-140 | An upload takes the tabular path exactly when its MIME type equals the `.xlsx` type, and the model path otherwise. |
| `Json.Truthy` | index.js:172-174 | JavaScript truthiness: `null`, `false`, `0` and `""` are falsy; arrays and objects are truthy. |
| `Tabular.CellTruthy` | index.js:75-99 | JavaScript truthiness of a cell: a missing cell, `""`, `0` and `false` are falsy. |
| `Tabular.At` | index.js:75-99 | `row[i]` is the cell, and reading past the end of the row gives `undefined`. |
| `Tabular.Field` | index.js:75-81 | `row[i] \|\| "N/A"`: the result is always truthy. It is the cell when the cell is truthy, and "N/A" when the cell is missing, `""`, `0` or `false`. |
| `Tabular.Slice` | index.js:73 | `slice(start, end)` has length `max(0, min(end, n) - min(start, n))`, and element k is element `start + k`. |
| `Tabular.InvoiceOf` | index.js:74-82 | An invoice carries exactly its seven keys, and every value is truthy. Which column feeds each key is stated by `RecordColumns`. |
| `Tabular.ProductOf` | index.js:85-92 | A product carries exactly its six keys. `Category` is always `null`, and the other values are truthy. Which column feeds each key is stated by `RecordColumns`. |
| `Tabular.CustomerOf` | index.js:95-99 | A customer carries exactly its three keys. `Total Purchase Amount` is always "N/A". Which column feeds each key is stated by `RecordColumns`. |
| `Tabular.RowRecords` | index.js:74-99 | Per row, invoice and product agree on `Product Name` and `Tax`. Invoice `Total Amount` equals product `Unit Price`, and invoice `Qty` equals product `Stock Quantity`. Invoice and customer agree on `Customer Name`. |
| `Tabular.RecordColumns` | index.js:74-99 | The column behind each key, as `Field(row, i)`, which is `row[i] \|\| "N/A"`. The invoice reads Serial Number from 0, Date from 1, Total Amount from 2, Product Name from 3, Qty from 4, Tax from 7 and Customer Name from 8. The product reads Unit Price from 2, Product Name from 3, Stock Quantity from 4, Price with Tax from 5 and Tax from 7. The customer reads Customer Name from 8 and Phone Number from 9. |
| `Tabular.WorkbookColumns` | index.js:62-101 | End to end, record k of each family holds, key by key, the cells of row k + 1 of the first sheet, with `Category` `null` and `Total Purchase Amount` "N/A". |
| `Tabular.Window` | index.js:62-73 | The processed rows are rows 1 to 15 of the first sheet: as many as `RecordCount`, row k of the window being row k + 1 of the sheet. |
| `Tabular.RecordCount` | index.js:62-73 | At most 15. None with no sheet or a header only, 15 from sixteen rows on, and otherwise one less than the number of rows. |
| `Tabular.MapEach` | index.js:73-101 | Applying a function to each element in order keeps the length, and element k of the result comes from element k. |
| `Tabular.MapRows` | index.js:69-101 | Each row yields exactly one record of each family. The three sequences have the rows' length, and record k comes from row k. |
| `Tabular.Tabulate` | index.js:62-107 | No sheets give three empty sequences. Otherwise the three sequences have length `max(0, min(n, 16) - 1)`, at most 15. Record k of each family is built from row k + 1 of the first sheet, in order. |
| `Tabular.ProcessExcelFile` | index.js:58-108 | The loop over the row window appends one record of each family per row. Its result equals `Tabulate`. |
| `Tabular.FieldIsNAExactly` | index.js:75-99 | A field is "N/A" exactly when its cell is falsy or is the text "N/A". |
| `Tabular.FalsyCells` | index.js:75-99 | The falsy cells are exactly a missing cell, `""`, `0` and `false`. |
| `Tabular.OnlyWindowMatters` | index.js:66-73 | Two workbooks whose first sheets have the same number of rows up to 16, and agree on rows 1 to 15, give the same records. The header row, later rows and other sheets are ignored. |
| `Encoder.Lower` | index.js:30 | Lower-casing keeps the length, maps each character, and leaves no ASCII capital. |
| `Encoder.DropTrailingSlashes` | index.js:30 | The result is a prefix of the path that does not end in `/`. Only separators were removed. |
| `Encoder.LastComponent` | index.js:30 | The final path component contains no separator. It is a suffix of the path without its trailing separators, and is either all of it or preceded by a separator. |
| `Encoder.ExtName` | index.js:30 | An extension is empty, or it is a dot followed by characters that contain no dot and no separator. A path without a dot has no extension. |
| `Encoder.ComponentExt` | index.js:30 | The extension is a suffix of the component. It is empty, or a dot followed by no other dot, so it starts at the component's last dot. It is empty exactly when no dot follows the component's first character, or the component is `..`. |
| `Encoder.ExtNameOfFile` | index.js:30 | `dir/stem.x` has extension `.x` for a non-empty stem, whatever the directory. |
| `Encoder.HiddenFileHasNoExtension` | index.js:30 | A name whose only dot is its first character has no extension. |
| `Encoder.ParentHasNoExtension` | index.js:30 | The component `..` has no extension. |
| `Encoder.NoDotNoExtension` | index.js:30 | A file name without a dot has no extension, whatever dots its directory holds. |
| `Encoder.FormatFileForAI` | index.js:28-56 | A payload always carries the file's data. A lower-cased extension of `.png`, `.jpg` or `.jpeg` gives the tag `image/jpeg`, and `.pdf` gives `application/pdf`. There is no payload exactly when the extension is none of the four. |
| `Encoder.PayloadFor` | index.js:36-55 | The `switch`: `.png`, `.jpg` and `.jpeg` give data tagged `image/jpeg`, and `.pdf` gives data tagged `application/pdf`. Every other extension gives no payload. |
| `Encoder.FormatIgnoresCase` | index.js:30-55 | Extensions that differ only in letter case give the same payload. |
| `Encoder.ImagesAreTaggedJpeg` | index.js:36-45 | `.png`, `.jpg` and `.jpeg`, in any letter case, are all sent as `image/jpeg`. |
| `Encoder.PdfIsTaggedPdf` | index.js:46-52 | `.pdf`, in any letter case, is sent as `application/pdf`. |
| `Encoder.OtherExtensionsGiveNoPayload` | index.js:53-54 | Every other extension, or none, gives the empty payload `[]`. |
| `Strings.FirstIndex` | index.js:159 | The index found holds the character and has no earlier occurrence before it. None means the character does not occur. |
| `Strings.LastIndex` | index.js:159 | The index found holds the character and has no later occurrence after it. None means the character does not occur. |
| `Strings.LastIndexAt` | index.js:159 | An occurrence with none after it is the one `LastIndex` finds. |
| `Strings.FirstIndexAt` | index.js:159 | An occurrence with none before it is the one `FirstIndex` finds. |
| `Json.Property` | index.js:172-174 | Reading a property throws exactly on `null`. It finds a value exactly for an object that has the key. |
| `Json.OrEmptyArray` | index.js:172-174 | `p \|\| []` is always truthy. It keeps a truthy value, and gives `[]` for `undefined` and falsy values. |
| `Normalizer.StripFences` | index.js:158 | Removing fence markers never lengthens the text. |
| `Normalizer.StripLeavesNoFence` | index.js:158 | The stripped text contains no three backticks, not even ones that meet across a deleted marker. |
| `Normalizer.StripFixesFenceFree` | index.js:158 | A text without fence markers is left unchanged. |
| `Normalizer.StripIdempotent` | index.js:158 | Stripping twice is stripping once. |
| `Normalizer.StripKeepsPlainPrefix` | index.js:158 | Text without backticks passes through unchanged ahead of whatever follows it. |
| `Normalizer.StripFencedBlock` | index.js:158 | A backtick-free body wrapped in a tagged fence block comes out bare. |
| `Normalizer.IsWs` | index.js:158 | The characters `trim` removes: the ECMAScript white space and line terminators. |
| `Normalizer.TrimStart` | index.js:158 | The result is a suffix of the input. Only white space was removed, and it does not start with white space. |
| `Normalizer.TrimEnd` | index.js:158 | The result is a prefix of the input. Only white space was removed, and it does not end with white space. |
| `Normalizer.Trim` | index.js:158 | Neither end of the trimmed text is white space. |
| `Normalizer.TrimStartAt` | index.js:158 | When `s[..i]` is all white space and `s[i]` is not, the leading trim gives exactly `s[i..]`. |
| `Normalizer.TrimEndAt` | index.js:158 | When `s[j..]` is all white space and `s[j - 1]` is not, the trailing trim of `s[i..]` gives exactly `s[i..j]`. |
| `Normalizer.TrimCharacterised` | index.js:158 | The trimmed text is `s[i..j]` for any bounds with only white space outside them and non-space at both ends. |
| `Normalizer.TrimIdempotent` | index.js:158 | Trimming twice is trimming once. |
| `Normalizer.TrimIsSlice` | index.js:158 | The trimmed text is a contiguous piece of the input. |
| `Normalizer.BraceSpan` | index.js:159 | The greedy match exists exactly when some `{` precedes some `}`. It runs from the first `{` to the last `}`. |
| `Normalizer.IsolateObject` | index.js:159 | With no match the text is unchanged. Otherwise the result is the text from the first `{` to the last `}`, both included. |
| `Normalizer.IsolateIsSlice` | index.js:159 | The isolated text is a contiguous piece of its input. |
| `Normalizer.Clean` | index.js:158-159 | The text handed to the parser never contains a fence marker. |
| `Normalizer.PlainTextIsOnlyTrimmed` | index.js:158-159 | A reply with no backtick is only trimmed before the span is isolated. |
| `Normalizer.FencedReplyIsUnwrapped` | index.js:158-159 | A reply in a tagged fence block is cleaned exactly like its bare body. |
| `Normalizer.ParseOrEmpty` | index.js:161-166 | A parse failure gives the empty object. Otherwise the result is the parsed value. |
| `Normalizer.NormalizeAsWritten` | index.js:158-174 | As written, normalisation fails exactly when the cleaned reply parses to `null`. |
| `Normalizer.ReadFamilies` | index.js:170-175 | Reading the three families fails exactly when the parsed value is `null`. |
| `Normalizer.FamilyOf` | index.js:172-174 | A family is always truthy. A truthy value stored under the key of an object is returned, and anything but `[]` is that value. |
| `Normalizer.Normalize` | index.js:158-175 | The corrected normaliser never fails. It agrees with the service wherever the service succeeds, and gives no records where the service fails. |
| `Normalizer.UnparseableReplyGivesNoRecords` | index.js:161-175 | A reply that does not parse gives three empty families, and the request still succeeds. |
| `Normalizer.AbsentFamilyIsEmpty` | index.js:172-174 | A family whose key is absent, or holds a falsy value, is `[]`. |
| `Normalizer.ArraysAreRead` | index.js:172-174 | Families stored as arrays are returned as they are. |
| `Normalizer.FencedReplyPassesThrough` | index.js:158-175 | A fenced reply whose object holds arrays under the three keys yields exactly those arrays. |
| `Normalizer.CleanOfBareText` | index.js:158-159 | A text without backticks or braces and not bounded by white space reaches the parser unchanged. |
| `Normalizer.CleanOfNull` | index.js:158-159 | The reply `null` reaches the parser unchanged. |
| `Normalizer.NullReplyFailsAsWritten` | index.js:161-174 | As written, a reply that parses to `null` fails the request. The corrected normaliser gives no records instead. |
| `Upload.RecordsJson` | index.js:142-147 | A sequence of records becomes an array of objects with the same length and order. |
| `Upload.Respond` | index.js:134-183 | The handler with the `null`-reply correction of the Findings below, given a workbook the parser reads. The workbook path then succeeds. The model path fails exactly when the model call throws, and the failure body carries the two messages the handler and the model call use. When the model replies, the body carries the three families that `Normalize` reads from the reply. |
| `Upload.HandleUpload` | index.js:134-175 | Handling an upload, with the row loop on the workbook path, produces exactly `Respond`. |
| `Upload.WorkbookResponse` | index.js:137-147 | A workbook gives three arrays of equal length, at most 15. With no sheets all three are empty. |
| `Upload.WorkbookRecord` | index.js:137-147 | In a workbook's response, element k of each array is the invoice, product or customer built from row k + 1 of the first sheet. |
| `Upload.UnsupportedFileStillAsksModel` | index.js:148-156 | An upload with an unsupported extension is still sent to the model, with an empty payload, and the reply is normalised as usual. |
| `Upload.UnparseableReplySucceedsEmpty` | index.js:161-175 | An unparseable model reply gives a successful response with three empty arrays. |

## Findings

| source | as written | input that shows it | evidently intended | confidence | as-written member | corrected member |
|---|---|---|---|---|---|---|
| index.js:172-174 | `parsedData.Invoices` is read without a check for `null`. A reply that parses to `null` throws a TypeError inside the handler's `try`. The `catch` then calls `fs.unlinkSync` on the file already deleted at line 168, which throws again, so no response is sent. | model reply `null` | A reply that parses to something other than an object gives no records and `success: true`, like a reply that does not parse. | medium; not executed | `Normalizer.NullReplyFailsAsWritten` | `Normalizer.Normalize` |

`Normalizer.NormalizeAsWritten` is the handler's normalisation as written: it
returns `Err` for such a reply. `Upload.Respond` uses the corrected
`Normalizer.Normalize`.

## Left out

- HTTP and framework wiring is not modelled. That covers the server, the upload middleware, CORS, the 400 answer when no file is attached, status codes and `listen` (index.js:1-26, 125-133, 185-190). The model starts from a request that carries a file.
- The file system is not modelled: reading the file, deleting it after the model path, and the second delete in the `catch` (index.js:32, 59, 168, 178). The workbook path never deletes its file, and no property is stated about cleanup.
- The spreadsheet parser (index.js:60) is a foreign library. Its result is the parameter `sheets`.
- `Upload.Respond`: a workbook that cannot be read or parsed is not modelled (index.js:59-60). `sheets` is the parser's successful result, so the workbook path always succeeds. In the source such a failure reaches the `catch` and gives the 500 body with the parser's own message (index.js:176-183).
- The generative model, its client, and the prompt text (index.js:14-15, 110-123, 149-153) are an external service. The model is a parameter from payload to reply.
- Base64 encoding (index.js:32-34) is a library call. The encoded contents are the parameter `data`.
- `JSON.parse` (index.js:163) is the parameter `parse`. Its internals are not modelled.
- `Encoder.ExtName`: `path.normalize` (index.js:29) is not modelled. The extension is taken from the stored path as given, with `/` as the only separator. The two agree unless the path's last component is `.` or `..` that normalisation would resolve.
- `Encoder.Lower`: only the ASCII letters A to Z are lower-cased, whereas JavaScript lower-cases all of Unicode. No other character lower-cases to a letter of `png`, `jpg`, `jpeg` or `pdf`, so the dispatch is not affected.
- Numbers in cells and in JSON are integers. Fractions and NaN are floating point and are not modelled.
- Records are maps, so the order of their keys in the JSON text is not modelled.
- Characters are Unicode scalar values rather than UTF-16 code units.
- Console logging is not modelled.
