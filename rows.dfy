/**
 * The three kinds of row the MESHJOIN loop handles, as typed records instead of the
 * source's untyped `Map<String, Object>` rows.
 */
module Rows {

  /** One row of staging_Transactions (the stream side). */
  datatype Txn = Txn(
    orderId: int,
    orderDate: int,     // Order_Date timestamp, passed through unchanged
    productId: int,     // join key
    quantity: int,
    customerId: int)

  /** One row of Products (the master side); the price is in cents. */
  datatype Product = Product(
    productId: int,     // join key
    name: string,
    price: int,
    supplierId: int,
    storeId: int)

  /** One enriched row of the Sales table, without the four constant placeholder columns. */
  datatype Sale = Sale(
    orderId: int,
    orderDate: int,
    customerId: int,
    productId: int,
    productName: string,
    storeId: int,
    quantity: int,
    totalSale: int)

  /** The Sales row written for transaction `t` matched with product `p`. */
  function JoinRow(t: Txn, p: Product): Sale
  {
    Sale(t.orderId, t.orderDate, t.customerId, t.productId, p.name, p.storeId,
         t.quantity, t.quantity * p.price)
  }

  /** The transaction a Sales row was written for: every Txn column is copied into the row. */
  function TxnOf(s: Sale): Txn
  {
    Txn(s.orderId, s.orderDate, s.productId, s.quantity, s.customerId)
  }

  /** The transactions behind a sequence of Sales rows, in order. */
  function TxnsOf(rows: seq<Sale>): (ts: seq<Txn>)
    ensures |ts| == |rows|
    ensures forall i :: 0 <= i < |rows| ==> ts[i] == TxnOf(rows[i])
  {
    if rows == [] then [] else [TxnOf(rows[0])] + TxnsOf(rows[1..])
  }

  /**
   * Row `s` carries product `p`'s enrichment: its PRODUCT_ID is `p`'s, its PRODUCT_NAME and
   * STORE_ID come from `p`, and its TOTAL_SALE is QUANTITY times `p`'s price.
   */
  predicate EnrichedBy(s: Sale, p: Product)
  {
    && s.productId == p.productId
    && s.productName == p.name
    && s.storeId == p.storeId
    && s.totalSale == s.quantity * p.price
  }

  /** The row for `t` and `p` gives back `t` and carries `p`'s enrichment when the keys agree. */
  lemma JoinRowCorrect(t: Txn, p: Product)
    requires t.productId == p.productId
    ensures TxnOf(JoinRow(t, p)) == t
    ensures EnrichedBy(JoinRow(t, p), p)
  {
  }

  lemma {:induction false} TxnsOfAppend(a: seq<Sale>, b: seq<Sale>)
    ensures TxnsOf(a + b) == TxnsOf(a) + TxnsOf(b)
  {
    assert |TxnsOf(a + b)| == |TxnsOf(a) + TxnsOf(b)|;
    forall i | 0 <= i < |a + b|
      ensures TxnsOf(a + b)[i] == (TxnsOf(a) + TxnsOf(b))[i]
    {
    }
  }
}
