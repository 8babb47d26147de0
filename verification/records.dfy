/** Values shared by the persistence operations: catalog articles, bills and the
    rows the database hands back.  Values the adapter never inspects (prices,
    icons, date texts) are kept opaque. */
module Records {

  datatype Option<T> = None | Some(value: T)

  /** A `BigDecimal` price, stored and read back but never computed with here. */
  datatype Decimal = Decimal(unscaled: int, scale: int)

  /** An `ImageIcon`, or no icon (`null` in the source). */
  datatype Icon = NoIcon | Picture(data: seq<bv8>)

  /** A product: an `Article` that sits in a category's sub-menu. */
  datatype Product = Product(caption: string, description: string, price: Decimal, icon: Icon)

  /** A category: an `Article` whose sub-menu holds products. */
  datatype Category = Category(caption: string, icon: Icon, subMenu: seq<Product>)

  /** One row of the category/product join: the category's name and icon, and one product. */
  datatype CatalogRow = CatalogRow(catName: string, catIcon: Icon, product: Product)

  datatype BillLine = BillLine(quantity: int, item: string, price: Decimal)

  /** The header fields of a bill: ID_VENTA, CLIENTE, MODO_PAGO and CUANDO. */
  datatype Header = Header(id: int, customer: string, payMode: int, when: int)

  datatype Bill = Bill(head: Header, lines: seq<BillLine>)

  /** One row of the bill header/detail join: the header columns and one detail line. */
  datatype BillRow = BillRow(head: Header, line: BillLine)

  /** The one failure the bill grouping can run into: a line arriving while no bill is open. */
  datatype Fault = NullBill

  datatype Result<T> = Ok(value: T) | Err(fault: Fault)
}
