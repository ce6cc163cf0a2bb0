/** The transaction record, before and after the cleaning stage has
    appended its derived columns. Money is held in integer minor units
    (pence), so products and sums are exact. */
module Table {
  import opened Wrappers

  /** A parsed invoice timestamp. The derived columns read only the
      calendar parts, but the time of day (`secondOfDay`, seconds since
      midnight) is part of the value, so two lines that differ only in it
      are different rows. */
  datatype Date = Date(year: int, month: int, day: int, secondOfDay: int)

  /** One line of the raw file as the loader types it. `invoiceDate` is
      the outcome of coercing the date text (None: it did not parse);
      `customerId` is None where the cell was empty (the loader's NaN). */
  datatype RawRow = RawRow(
    invoiceNo: string,
    stockCode: string,
    description: string,
    quantity: int,
    invoiceDate: Option<Date>,
    unitPrice: int,
    customerId: Option<string>,
    country: string)

  /** One line of the working table: the eight source columns, with
      CustomerID as text, followed by the derived columns. A derived
      column is None before the step that adds it, and None where its
      input was null. */
  datatype Row = Row(
    invoiceNo: string,
    stockCode: string,
    description: string,
    quantity: int,
    invoiceDate: Option<Date>,
    unitPrice: int,
    customerId: string,
    country: string,
    isCancellation: Option<bool>,
    totalPrice: Option<int>,
    year: Option<int>,
    month: Option<int>,
    day: Option<int>)
}
