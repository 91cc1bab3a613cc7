/**
 * One record of the cafe-sales table and its eight columns, in the order of
 * the CSV header.
 */
module Rows {
  import opened Cells

  datatype Row = Row(
    transactionId: Cell,
    item: Cell,
    quantity: Cell,
    pricePerUnit: Cell,
    totalSpent: Cell,
    paymentMethod: Cell,
    location: Cell,
    transactionDate: Cell)

  datatype Column =
    TransactionId | Item | Quantity | PricePerUnit | TotalSpent | PaymentMethod | Location | TransactionDate

  const Columns: seq<Column> :=
    [TransactionId, Item, Quantity, PricePerUnit, TotalSpent, PaymentMethod, Location, TransactionDate]

  function Get(r: Row, c: Column): Cell
  {
    match c
    case TransactionId => r.transactionId
    case Item => r.item
    case Quantity => r.quantity
    case PricePerUnit => r.pricePerUnit
    case TotalSpent => r.totalSpent
    case PaymentMethod => r.paymentMethod
    case Location => r.location
    case TransactionDate => r.transactionDate
  }

  /** Assignment to one cell, `df.loc[idx, c] = v`: that column changes, no other. */
  function Set(r: Row, c: Column, v: Cell): (r': Row)
    ensures Get(r', c) == v
    ensures forall d :: d != c ==> Get(r', d) == Get(r, d)
  {
    match c
    case TransactionId => r.(transactionId := v)
    case Item => r.(item := v)
    case Quantity => r.(quantity := v)
    case PricePerUnit => r.(pricePerUnit := v)
    case TotalSpent => r.(totalSpent := v)
    case PaymentMethod => r.(paymentMethod := v)
    case Location => r.(location := v)
    case TransactionDate => r.(transactionDate := v)
  }

  /** Two rows with the same cell in every column are the same row. */
  lemma RowsAgreeOnAllColumns(r: Row, r': Row)
    requires forall c :: Get(r, c) == Get(r', c)
    ensures r == r'
  {
    assert Get(r, TransactionId) == Get(r', TransactionId) && Get(r, Item) == Get(r', Item);
    assert Get(r, Quantity) == Get(r', Quantity) && Get(r, PricePerUnit) == Get(r', PricePerUnit);
    assert Get(r, TotalSpent) == Get(r', TotalSpent) && Get(r, PaymentMethod) == Get(r', PaymentMethod);
    assert Get(r, Location) == Get(r', Location) && Get(r, TransactionDate) == Get(r', TransactionDate);
  }

  /** `df[c]`: the column as a sequence of cells. */
  function ColumnOf(rows: seq<Row>, c: Column): seq<Cell>
  {
    seq(|rows|, k requires 0 <= k < |rows| => Get(rows[k], c))
  }

  /** `df[c].isnull().sum() > 0` */
  predicate HasMissing(col: seq<Cell>)
  {
    exists k :: 0 <= k < |col| && col[k].Null?
  }
}
