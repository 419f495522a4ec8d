/**
 * The `/upload` handler for a request that carries a file: classify it,
 * extract records on the tabular path or through the generative model, and
 * shape the JSON body of the response.
 */
module Upload {
  import opened Wrappers
  import opened Json
  import Classifier
  import Tabular
  import Encoder
  import Normalizer

  /** An uploaded file as the upload middleware describes it: its declared MIME type and where it was stored. */
  datatype UploadedFile = UploadedFile(mimetype: string, path: string)

  /** The body of the response to a request that carries a file. */
  datatype Response =
    | Success(invoices: Json, products: Json, customers: Json)
    | Failure(message: string, error: string)

  const ProcessingFailed: string := "Failed to process the file."
  const ExtractionFailed: string := "Error while extracting customer details from file."

  /** A sequence of records as a JSON array of objects. */
  function RecordsJson(rs: seq<Record>): (r: Json)
    ensures r.JArr? && |r.items| == |rs|
    ensures forall i | 0 <= i < |rs| :: r.items[i] == JObj(rs[i])
  {
    JArr(seq(|rs|, i requires 0 <= i < |rs| => JObj(rs[i])))
  }

  /**
   * The response the handler produces, with a reply that parses to `null`
   * yielding no records. `sheets` is what the spreadsheet parser makes of
   * the file when it reads it successfully, `data` the file's contents in
   * base64, `model` the generative model (its reply, or Err when the call
   * throws) and `parse` the JSON parser.
   */
  function Respond(
    file: UploadedFile, sheets: seq<Tabular.Sheet>, data: string,
    model: Encoder.Payload -> Result<string, string>, parse: string -> Option<Json>): (r: Response)
    ensures Classifier.Classify(file.mimetype) == Classifier.Tabular ==> r.Success?
    ensures Classifier.Classify(file.mimetype) == Classifier.AiDelegated ==>
      (r.Failure? <==> model(Encoder.FormatFileForAI(file.path, data)).Err?)
    ensures (Classifier.Classify(file.mimetype) == Classifier.AiDelegated &&
             model(Encoder.FormatFileForAI(file.path, data)).Ok?) ==>
      var e := Normalizer.Normalize(parse, model(Encoder.FormatFileForAI(file.path, data)).value);
      r == Success(e.invoices, e.products, e.customers)
    ensures r.Failure? ==> r == Failure(ProcessingFailed, ExtractionFailed)
  {
    match Classifier.Classify(file.mimetype)
    case Tabular =>
      var t := Tabular.Tabulate(sheets);
      Success(RecordsJson(t.invoices), RecordsJson(t.products), RecordsJson(t.customers))
    case AiDelegated =>
      match model(Encoder.FormatFileForAI(file.path, data))
      case Err(_) => Failure(ProcessingFailed, ExtractionFailed)
      case Ok(text) =>
        var e := Normalizer.Normalize(parse, text);
        Success(e.invoices, e.products, e.customers)
  }

  /**
   * Handles one upload: the tabular path builds its records row by row; the
   * model path has no loop and is the response `Respond` describes.
   */
  method HandleUpload(
    file: UploadedFile, sheets: seq<Tabular.Sheet>, data: string,
    model: Encoder.Payload -> Result<string, string>, parse: string -> Option<Json>) returns (r: Response)
    ensures r == Respond(file, sheets, data, model, parse)
  {
    if Classifier.Classify(file.mimetype) == Classifier.Tabular {
      var invoices, products, customers := Tabular.ProcessExcelFile(sheets);
      r := Success(RecordsJson(invoices), RecordsJson(products), RecordsJson(customers));
    } else {
      r := Respond(file, sheets, data, model, parse);
    }
  }

  /**
   * A workbook yields three arrays of equal length, at most 15, and never
   * consults the model; a workbook without sheets yields three empty arrays.
   */
  lemma WorkbookResponse(
    file: UploadedFile, sheets: seq<Tabular.Sheet>, data: string,
    model: Encoder.Payload -> Result<string, string>, parse: string -> Option<Json>)
    requires file.mimetype == Classifier.XlsxMime
    ensures var r := Respond(file, sheets, data, model, parse);
      r.Success? && r.invoices.JArr? && r.products.JArr? && r.customers.JArr? &&
      |r.invoices.items| == |r.products.items| == |r.customers.items| == Tabular.RecordCount(sheets) <= 15 &&
      (sheets == [] ==> r == Success(EmptyArray, EmptyArray, EmptyArray))
  {
    var t := Tabular.Tabulate(sheets);
    if sheets == [] {
      assert t == Tabular.Tables([], [], []);
      assert RecordsJson([]) == EmptyArray;
    }
  }

  /** Element k of each array of a workbook's response is the record built from row k + 1 of the first sheet. */
  lemma WorkbookRecord(
    file: UploadedFile, sheets: seq<Tabular.Sheet>, data: string,
    model: Encoder.Payload -> Result<string, string>, parse: string -> Option<Json>, k: nat)
    requires file.mimetype == Classifier.XlsxMime
    requires k < Tabular.RecordCount(sheets)
    ensures var r := Respond(file, sheets, data, model, parse); var row := sheets[0].data[k + 1];
      r.Success? && r.invoices.JArr? && r.products.JArr? && r.customers.JArr? &&
      k < |r.invoices.items| && k < |r.products.items| && k < |r.customers.items| &&
      r.invoices.items[k] == JObj(Tabular.InvoiceOf(row)) &&
      r.products.items[k] == JObj(Tabular.ProductOf(row)) &&
      r.customers.items[k] == JObj(Tabular.CustomerOf(row))
  {
    var t := Tabular.Tabulate(sheets);
    assert Respond(file, sheets, data, model, parse) ==
      Success(RecordsJson(t.invoices), RecordsJson(t.products), RecordsJson(t.customers));
  }

  /**
   * Every other upload goes to the model, even with no payload: a file whose
   * extension is not encoded is still sent, and its reply normalised as usual.
   */
  lemma UnsupportedFileStillAsksModel(
    file: UploadedFile, sheets: seq<Tabular.Sheet>, data: string,
    model: Encoder.Payload -> Result<string, string>, parse: string -> Option<Json>)
    requires file.mimetype != Classifier.XlsxMime
    requires Encoder.Lower(Encoder.ExtName(file.path)) !in {".png", ".jpg", ".jpeg", ".pdf"}
    requires model(Encoder.NoPayload).Ok?
    ensures Respond(file, sheets, data, model, parse) ==
      var e := Normalizer.Normalize(parse, model(Encoder.NoPayload).value);
      Success(e.invoices, e.products, e.customers)
  {
    Encoder.OtherExtensionsGiveNoPayload(file.path, data);
  }

  /** A model reply that does not parse still gives a successful response, with no records. */
  lemma UnparseableReplySucceedsEmpty(
    file: UploadedFile, sheets: seq<Tabular.Sheet>, data: string,
    model: Encoder.Payload -> Result<string, string>, parse: string -> Option<Json>)
    requires file.mimetype != Classifier.XlsxMime
    requires model(Encoder.FormatFileForAI(file.path, data)).Ok?
    requires parse(Normalizer.Clean(model(Encoder.FormatFileForAI(file.path, data)).value)).None?
    ensures Respond(file, sheets, data, model, parse) == Success(EmptyArray, EmptyArray, EmptyArray)
  {
    Normalizer.UnparseableReplyGivesNoRecords(parse, model(Encoder.FormatFileForAI(file.path, data)).value);
  }
}
