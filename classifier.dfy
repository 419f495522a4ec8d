/** Choosing the extraction strategy of an upload from its declared MIME type. */
module Classifier {

  /** The MIME type of an Office Open XML workbook (`.xlsx`). */
  const XlsxMime: string := "application/vnd.openxmlformats-officedocument.spreadsheetml.sheet"

  /** The two extraction strategies. */
  datatype Strategy = Tabular | AiDelegated

  /**
   * The strategy for an upload: the tabular path for exactly the workbook
   * MIME type (a case-sensitive, whole-string comparison), the generative
   * model for every other type.
   */
  function Classify(mime: string): (s: Strategy)
    ensures s == Tabular <==> mime == XlsxMime
    ensures s == AiDelegated <==> mime != XlsxMime
  {
    if mime == XlsxMime then Tabular else AiDelegated
  }
}
