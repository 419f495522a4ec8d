/**
 * The tabular path: the rows of a workbook's first sheet mapped, by fixed
 * column positions, to invoice, product and customer records.
 */
module Tabular {
  import opened Json

  /**
   * A cell as the spreadsheet parser returns it. `Empty` stands for a hole
   * in the row, `undefined` and `null`; numbers are restricted to integers.
   */
  datatype Cell = Empty | Text(s: string) | Number(n: int) | Boolean(b: bool)

  type Row = seq<Cell>

  /** One sheet of a parsed workbook: its name and its rows. */
  datatype Sheet = Sheet(name: string, data: seq<Row>)

  /** The three record families extracted from a workbook. */
  datatype Tables = Tables(invoices: seq<Record>, products: seq<Record>, customers: seq<Record>)

  /** The placeholder for a cell that holds nothing usable. */
  const NA: Json := JStr("N/A")

  /** The first data row (row 0 is the header) and the end of the row window. */
  const WindowStart: nat := 1
  const WindowEnd: nat := 16

  const InvoiceKeys: set<string> :=
    {"Serial Number", "Customer Name", "Product Name", "Qty", "Tax", "Total Amount", "Date"}
  const ProductKeys: set<string> :=
    {"Product Name", "Category", "Tax", "Unit Price", "Stock Quantity", "Price with Tax"}
  const CustomerKeys: set<string> :=
    {"Customer Name", "Phone Number", "Total Purchase Amount"}

  /** JavaScript truthiness of a cell. */
  predicate CellTruthy(c: Cell)
  {
    match c
    case Empty => false
    case Text(s) => s != ""
    case Number(n) => n != 0
    case Boolean(b) => b
  }

  /** A cell as it appears in the JSON response. */
  function CellJson(c: Cell): Json
  {
    match c
    case Empty => JNull
    case Text(s) => JStr(s)
    case Number(n) => JNum(n)
    case Boolean(b) => JBool(b)
  }

  /** `row[i]`: reading past the end of a row gives `undefined`. */
  function At(row: Row, i: nat): Cell
  {
    if i < |row| then row[i] else Empty
  }

  /** `row[i] || "N/A"`: the cell when it is truthy, the placeholder otherwise. */
  function Field(row: Row, i: nat): (v: Json)
    ensures Truthy(v)
    ensures CellTruthy(At(row, i)) ==> v == CellJson(At(row, i))
    ensures !CellTruthy(At(row, i)) ==> v == NA
  {
    var c := At(row, i);
    if CellTruthy(c) then CellJson(c) else NA
  }

  function Min(a: int, b: int): int { if a <= b then a else b }
  function Max(a: int, b: int): int { if a <= b then b else a }

  /**
   * `s.slice(start, end)` for non-negative bounds: both bounds are clipped to
   * the length, and a window that is empty after clipping gives `[]`.
   */
  function Slice<T>(s: seq<T>, start: nat, end: nat): (r: seq<T>)
    ensures |r| == Max(0, Min(end, |s|) - Min(start, |s|))
    ensures forall k | 0 <= k < |r| :: r[k] == s[start + k]
  {
    if start < end && start < |s| then s[start..Min(end, |s|)] else []
  }

  /** The rows processed: rows 1 to 15 of the first sheet, none when there is no sheet. */
  function Window(sheets: seq<Sheet>): (rows: seq<Row>)
    ensures |rows| == RecordCount(sheets)
    ensures forall k | 0 <= k < |rows| :: rows[k] == sheets[0].data[k + 1]
  {
    if |sheets| == 0 then [] else Slice(sheets[0].data, WindowStart, WindowEnd)
  }

  /** How many records of each family a workbook yields. */
  function RecordCount(sheets: seq<Sheet>): (n: nat)
    ensures n <= WindowEnd - WindowStart
    ensures |sheets| == 0 || |sheets[0].data| <= WindowStart ==> n == 0
    ensures |sheets| > 0 && |sheets[0].data| >= WindowEnd ==> n == WindowEnd - WindowStart
    ensures |sheets| > 0 && WindowStart <= |sheets[0].data| <= WindowEnd ==> n == |sheets[0].data| - WindowStart
  {
    if |sheets| == 0 then 0 else Max(0, Min(|sheets[0].data|, 16) - 1)
  }

  /** The invoice built from one row; every key is present and every value truthy. */
  function InvoiceOf(row: Row): (r: Record)
    ensures r.Keys == InvoiceKeys
    ensures forall k | k in r :: Truthy(r[k])
  {
    map[
      "Serial Number" := Field(row, 0),
      "Customer Name" := Field(row, 8),
      "Product Name" := Field(row, 3),
      "Qty" := Field(row, 4),
      "Tax" := Field(row, 7),
      "Total Amount" := Field(row, 2),
      "Date" := Field(row, 1)
    ]
  }

  /** The product built from one row; every key is present and the category is always `null`. */
  function ProductOf(row: Row): (r: Record)
    ensures r.Keys == ProductKeys
    ensures r["Category"] == JNull
    ensures forall k | k in r && k != "Category" :: Truthy(r[k])
  {
    map[
      "Product Name" := Field(row, 3),
      "Category" := JNull,
      "Tax" := Field(row, 7),
      "Unit Price" := Field(row, 2),
      "Stock Quantity" := Field(row, 4),
      "Price with Tax" := Field(row, 5)
    ]
  }

  /** The customer built from one row; every key is present and the total purchase amount is always "N/A". */
  function CustomerOf(row: Row): (r: Record)
    ensures r.Keys == CustomerKeys
    ensures r["Total Purchase Amount"] == NA
    ensures forall k | k in r :: Truthy(r[k])
  {
    map[
      "Customer Name" := Field(row, 8),
      "Phone Number" := Field(row, 9),
      "Total Purchase Amount" := NA
    ]
  }

  /**
   * The invoice, product and customer of one row agree wherever they read
   * the same column.
   */
  function RowRecords(row: Row): (r: (Record, Record, Record))
    ensures r.0.Keys == InvoiceKeys && r.1.Keys == ProductKeys && r.2.Keys == CustomerKeys
    ensures r.0["Product Name"] == r.1["Product Name"]
    ensures r.0["Tax"] == r.1["Tax"]
    ensures r.0["Total Amount"] == r.1["Unit Price"]
    ensures r.0["Qty"] == r.1["Stock Quantity"]
    ensures r.0["Customer Name"] == r.2["Customer Name"]
  {
    (InvoiceOf(row), ProductOf(row), CustomerOf(row))
  }

  /** `f` applied to each element of `s`, in order, built by appending one result at a time. */
  function MapEach<A, B>(f: A -> B, s: seq<A>): (r: seq<B>)
    ensures |r| == |s|
    ensures forall k | 0 <= k < |s| :: r[k] == f(s[k])
  {
    if s == [] then [] else MapEach(f, s[..|s| - 1]) + [f(s[|s| - 1])]
  }

  /** The records of a sequence of rows, one of each family per row, in row order. */
  function MapRows(rows: seq<Row>): (t: Tables)
    ensures |t.invoices| == |t.products| == |t.customers| == |rows|
    ensures forall k | 0 <= k < |rows| ::
      t.invoices[k] == InvoiceOf(rows[k]) && t.products[k] == ProductOf(rows[k]) && t.customers[k] == CustomerOf(rows[k])
  {
    Tables(MapEach(InvoiceOf, rows), MapEach(ProductOf, rows), MapEach(CustomerOf, rows))
  }

  /**
   * What the tabular path returns: three sequences of equal length, at most
   * 15, whose k-th records are built from row k + 1 of the first sheet.
   */
  function Tabulate(sheets: seq<Sheet>): (t: Tables)
    ensures |sheets| == 0 ==> t == Tables([], [], [])
    ensures |t.invoices| == |t.products| == |t.customers| == RecordCount(sheets) <= 15
    ensures forall k | 0 <= k < |t.invoices| ::
      t.invoices[k] == InvoiceOf(sheets[0].data[k + 1]) &&
      t.products[k] == ProductOf(sheets[0].data[k + 1]) &&
      t.customers[k] == CustomerOf(sheets[0].data[k + 1])
  {
    MapRows(Window(sheets))
  }

  /**
   * Reads the first sheet's row window and appends one invoice, one product
   * and one customer per row, in row order.
   */
  method ProcessExcelFile(sheets: seq<Sheet>) returns (invoices: seq<Record>, products: seq<Record>, customers: seq<Record>)
    ensures Tables(invoices, products, customers) == Tabulate(sheets)
  {
    if |sheets| == 0 {
      return [], [], [];
    }
    var rows := Slice(sheets[0].data, WindowStart, WindowEnd);
    invoices, products, customers := [], [], [];
    var i := 0;
    while i < |rows|
      invariant 0 <= i <= |rows|
      invariant Tables(invoices, products, customers) == MapRows(rows[..i])
    {
      var row := rows[i];
      assert rows[..i + 1][..i] == rows[..i];
      invoices := invoices + [InvoiceOf(row)];
      products := products + [ProductOf(row)];
      customers := customers + [CustomerOf(row)];
      i := i + 1;
    }
    assert rows[..i] == rows;
  }

  /** Each key of an invoice holds the cell of its column: 0, 1, 2, 3, 4, 7 and 8. */
  predicate InvoiceColumns(r: Record, row: Row)
  {
    InvoiceKeys <= r.Keys &&
    r["Serial Number"] == Field(row, 0) && r["Date"] == Field(row, 1) &&
    r["Total Amount"] == Field(row, 2) && r["Product Name"] == Field(row, 3) &&
    r["Qty"] == Field(row, 4) && r["Tax"] == Field(row, 7) && r["Customer Name"] == Field(row, 8)
  }

  /** Each key of a product holds the cell of its column (2, 3, 4, 5 and 7), and `Category` is `null`. */
  predicate ProductColumns(r: Record, row: Row)
  {
    ProductKeys <= r.Keys &&
    r["Unit Price"] == Field(row, 2) && r["Product Name"] == Field(row, 3) &&
    r["Stock Quantity"] == Field(row, 4) && r["Price with Tax"] == Field(row, 5) &&
    r["Tax"] == Field(row, 7) && r["Category"] == JNull
  }

  /** Each key of a customer holds the cell of its column (8 and 9), and the total purchase amount is "N/A". */
  predicate CustomerColumns(r: Record, row: Row)
  {
    CustomerKeys <= r.Keys &&
    r["Customer Name"] == Field(row, 8) && r["Phone Number"] == Field(row, 9) &&
    r["Total Purchase Amount"] == NA
  }

  /** The column behind each key of the three records built from one row. */
  lemma RecordColumns(row: Row)
    ensures InvoiceColumns(InvoiceOf(row), row)
    ensures ProductColumns(ProductOf(row), row)
    ensures CustomerColumns(CustomerOf(row), row)
  {
  }

  /**
   * End to end: record k of each family holds the cells of row k + 1 of the
   * first sheet, column by column.
   */
  lemma WorkbookColumns(sheets: seq<Sheet>, k: nat)
    requires k < RecordCount(sheets)
    ensures var t := Tabulate(sheets); var row := sheets[0].data[k + 1];
      InvoiceColumns(t.invoices[k], row) && ProductColumns(t.products[k], row) && CustomerColumns(t.customers[k], row)
  {
    var t, row := Tabulate(sheets), sheets[0].data[k + 1];
    assert t.invoices[k] == InvoiceOf(row) && t.products[k] == ProductOf(row) && t.customers[k] == CustomerOf(row);
    RecordColumns(row);
  }

  /** A record field is "N/A" exactly when its cell is falsy or is itself the text "N/A". */
  lemma FieldIsNAExactly(row: Row, i: nat)
    ensures Field(row, i) == NA <==> !CellTruthy(At(row, i)) || At(row, i) == Text("N/A")
  {
  }

  /** The falsy cells are exactly a missing cell, the empty text, the number 0 and `false`. */
  lemma FalsyCells(c: Cell)
    ensures !CellTruthy(c) <==> c in {Empty, Text(""), Number(0), Boolean(false)}
  {
  }

  /**
   * Only the row window of the first sheet matters: the header row, rows past
   * the fifteenth and every other sheet leave the result unchanged.
   */
  lemma OnlyWindowMatters(s1: seq<Sheet>, s2: seq<Sheet>)
    requires |s1| > 0 && |s2| > 0
    requires Min(|s1[0].data|, WindowEnd) == Min(|s2[0].data|, WindowEnd)
    requires forall k | WindowStart <= k < Min(|s1[0].data|, WindowEnd) :: s1[0].data[k] == s2[0].data[k]
    ensures Tabulate(s1) == Tabulate(s2)
  {
    var w1, w2 := Window(s1), Window(s2);
    assert |w1| == |w2|;
    forall k | 0 <= k < |w1| ensures w1[k] == w2[k] {
      assert w1[k] == s1[0].data[k + 1] && w2[k] == s2[0].data[k + 1];
    }
    assert w1 == w2;
  }
}
