/** The product record shared by the menu and the cart: the menu page
    fetches it, and a product card hands the same object to the cart. */
module Products {
  import opened Outcomes

  /** A product row.  `categoria` is the name in the joined `Categoria`
      record, or None when that record is null. */
  datatype Product = Product(id: int, producto: string, precio: int, categoria: Option<string>)
}
