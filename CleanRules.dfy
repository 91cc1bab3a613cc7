/**
 * The record-level rules of the cleaning pipeline, one function per rule,
 * and a row-at-a-time reference for the whole pipeline: which input rows
 * survive (`Survives`), what each survivor becomes (`FinishRow`) and the
 * cleaned table they make up (`CleanRows`). The table-level pipeline in
 * module Cleaning is proved equal to this reference.
 */
module CleanRules {
  import opened Wrappers
  import opened Cells
  import opened Rows
  import opened Menu
  import opened Seqs

  // ---------------------------------------------------------------------
  // Step 1: the three markers become NaN.

  function ReplaceRow(r: Row): (r': Row)
    ensures forall c :: Get(r', c) == ReplaceSentinel(Get(r, c))
  {
    Row(ReplaceSentinel(r.transactionId), ReplaceSentinel(r.item), ReplaceSentinel(r.quantity),
      ReplaceSentinel(r.pricePerUnit), ReplaceSentinel(r.totalSpent), ReplaceSentinel(r.paymentMethod),
      ReplaceSentinel(r.location), ReplaceSentinel(r.transactionDate))
  }

  // ---------------------------------------------------------------------
  // Step 2 and the two later drops: rows missing a key field go.

  predicate HasId(r: Row) { Present(r.transactionId) }

  predicate HasItem(r: Row) { Present(r.item) }

  predicate HasDate(r: Row) { Present(r.transactionDate) }

  // ---------------------------------------------------------------------
  // Step 3: a missing item is inferred from its price.

  /** Some menu entry is priced at p. */
  predicate OnMenuPrice(p: real)
  {
    exists i :: 0 <= i < |MenuPrices| && MenuPrices[i].1 == p
  }

  /** `name` is the first menu entry, in declaration order, priced at p. */
  ghost predicate FirstOnMenuAt(name: string, p: real)
  {
    exists i :: 0 <= i < |MenuPrices| && MenuPrices[i] == (name, p)
      && forall j :: 0 <= j < i ==> MenuPrices[j].1 != p
  }

  /**
   * The item the menu suggests for a coerced price: the first entry with that
   * price, or None when the price is missing or no entry has it.
   */
  function ItemForPrice(price: Cell): (item: Option<string>)
    ensures item.Some? <==> price.Num? && OnMenuPrice(price.x)
    ensures item.Some? ==> FirstOnMenuAt(item.value, price.x) && Lookup(MenuPrices, item.value) == Some(price.x)
  {
    if price.Num? then
      FirstItemWithPriceIsFirst(MenuPrices, price.x);
      if FirstItemWithPrice(MenuPrices, price.x).Some? then
        MenuNamesUnique();
        InferredItemHasThatPrice(MenuPrices, price.x);
        FirstItemWithPrice(MenuPrices, price.x)
      else None
    else None
  }

  /**
   * A row with no item and a numeric price that some menu entry has gets the
   * first such entry's name; any other row is returned as it is.
   */
  function InferItemRow(r: Row): (r': Row)
    ensures r' == r.(item := r'.item)
    ensures Present(r.item) ==> r'.item == r.item
    ensures r.item.Null? ==>
      (Present(r'.item) <==> ToNumeric(r.pricePerUnit).Num? && OnMenuPrice(ToNumeric(r.pricePerUnit).x))
    ensures r.item.Null? && Present(r'.item) ==>
      r'.item.Str? && FirstOnMenuAt(r'.item.s, ToNumeric(r.pricePerUnit).x)
      && Lookup(MenuPrices, r'.item.s) == Some(ToNumeric(r.pricePerUnit).x)
  {
    if r.item.Null? then
      match ItemForPrice(ToNumeric(r.pricePerUnit))
      case Some(name) => r.(item := Str(name))
      case None => r
    else r
  }

  // ---------------------------------------------------------------------
  // Step 4: the numeric columns, first the quantities.

  /** A quantity that is not a positive number becomes 1; a positive one stays. */
  function FixQuantity(c: Cell): (q: Cell)
    ensures q.Num? && q.x > 0.0
    ensures ToNumeric(c).Num? && ToNumeric(c).x > 0.0 ==> q == ToNumeric(c)
    ensures !(ToNumeric(c).Num? && ToNumeric(c).x > 0.0) ==> q == Num(1.0)
  {
    var n := ToNumeric(c);
    if n.Num? && n.x > 0.0 then n else Num(1.0)
  }

  function FixQuantityRow(r: Row): Row
  {
    r.(quantity := FixQuantity(r.quantity))
  }

  // ---------------------------------------------------------------------
  // Step 4 (continued): prices against the menu.

  /** The menu price of an item cell, if it names a menu entry; a cell that is not a string never does. */
  function MenuPriceOf(item: Cell): Option<real>
  {
    if item.Str? then Lookup(MenuPrices, item.s) else None
  }

  function PriceToNumericRow(r: Row): Row
  {
    r.(pricePerUnit := ToNumeric(r.pricePerUnit))
  }

  /** A missing price of a menu item is filled with the menu price. */
  function FillPriceRow(r: Row): (r': Row)
    ensures r' == r.(pricePerUnit := r'.pricePerUnit)
    ensures r.pricePerUnit.Null? && MenuPriceOf(r.item).Some? ==> r'.pricePerUnit == Num(MenuPriceOf(r.item).value)
    ensures Present(r.pricePerUnit) || MenuPriceOf(r.item).None? ==> r' == r
  {
    if r.pricePerUnit.Null? && MenuPriceOf(r.item).Some? then
      r.(pricePerUnit := Num(MenuPriceOf(r.item).value))
    else r
  }

  /** A present price of a menu item that differs from the menu is overwritten. */
  function CorrectPriceRow(r: Row): (r': Row)
    ensures r' == r.(pricePerUnit := r'.pricePerUnit)
    ensures Present(r.pricePerUnit) && MenuPriceOf(r.item).Some? ==> r'.pricePerUnit == Num(MenuPriceOf(r.item).value)
    ensures r.pricePerUnit.Null? || MenuPriceOf(r.item).None? ==> r' == r
  {
    match MenuPriceOf(r.item)
    case Some(p) => if Present(r.pricePerUnit) && r.pricePerUnit != Num(p) then r.(pricePerUnit := Num(p)) else r
    case None => r
  }

  /**
   * The three price rules together: a menu item ends with its menu price
   * whether its price was missing, wrong or right; any other row keeps its
   * coerced price. Nothing but the price changes.
   */
  lemma PriceRulesAgreeWithMenu(r: Row)
    ensures var r' := CorrectPriceRow(FillPriceRow(PriceToNumericRow(r)));
      && (MenuPriceOf(r.item).Some? ==> r'.pricePerUnit == Num(MenuPriceOf(r.item).value))
      && (MenuPriceOf(r.item).None? ==> r'.pricePerUnit == ToNumeric(r.pricePerUnit))
      && forall c :: c != PricePerUnit ==> Get(r', c) == Get(r, c)
  {
  }

  // ---------------------------------------------------------------------
  // Step 5: the total is recomputed from quantity and price.

  /** Only the total changes; it is a number exactly when quantity and price are, and then their product. */
  function RecomputeTotalRow(r: Row): (r': Row)
    ensures r' == r.(totalSpent := r'.totalSpent)
    ensures r'.totalSpent.Num? <==> r.quantity.Num? && r.pricePerUnit.Num?
    ensures r'.totalSpent.Num? ==> r'.totalSpent.x == r.quantity.x * r.pricePerUnit.x
  {
    r.(totalSpent := Times(r.quantity, r.pricePerUnit))
  }

  // ---------------------------------------------------------------------
  // Steps 6 and 7: missing payment methods and locations are filled.

  function FillRow(r: Row, c: Column, v: Cell): (r': Row)
    ensures Get(r', c) == FillCell(Get(r, c), v)
    ensures forall d :: d != c ==> Get(r', d) == Get(r, d)
  {
    Set(r, c, FillCell(Get(r, c), v))
  }

  /** `df[c] = df[c].fillna(v)` */
  function FillColumn(rows: seq<Row>, c: Column, v: Cell): (r: seq<Row>)
    ensures |r| == |rows|
    ensures forall k :: 0 <= k < |rows| ==> r[k] == FillRow(rows[k], c, v)
    decreases |rows|
  {
    if rows == [] then [] else FillColumn(rows[..|rows| - 1], c, v) + [FillRow(rows[|rows| - 1], c, v)]
  }

  /** Filling a column with no missing cell changes nothing. */
  lemma FillColumnNoMissing(rows: seq<Row>, c: Column, v: Cell)
    requires !HasMissing(ColumnOf(rows, c))
    ensures FillColumn(rows, c, v) == rows
  {
    forall k | 0 <= k < |rows| ensures FillColumn(rows, c, v)[k] == rows[k] {
      assert ColumnOf(rows, c)[k] == Get(rows[k], c);
      RowsAgreeOnAllColumns(FillColumn(rows, c, v)[k], rows[k]);
    }
  }

  // ---------------------------------------------------------------------
  // The pipeline one row at a time.

  /** The row is still there when the fill values are chosen: it has an ID and an item. */
  predicate KeptBeforeFill(r: Row)
  {
    var r1 := ReplaceRow(r);
    HasId(r1) && HasItem(InferItemRow(r1))
  }

  /** Steps 1 to 5 applied to one row. */
  function PrepRow(r: Row): Row
  {
    RecomputeTotalRow(CorrectPriceRow(FillPriceRow(PriceToNumericRow(FixQuantityRow(InferItemRow(ReplaceRow(r)))))))
  }

  /** The row reaches the output: an ID, an item (given or inferred) and a date. */
  predicate Survives(r: Row)
  {
    KeptBeforeFill(r) && HasDate(ReplaceRow(r))
  }

  /** What a surviving row becomes, given the two fill values. */
  function FinishRow(r: Row, pay: Cell, loc: Cell): Row
  {
    FillRow(FillRow(PrepRow(r), PaymentMethod, pay), Location, loc)
  }

  /** The cleaned table, computed one row at a time. */
  function CleanRows(df: seq<Row>, pay: Cell, loc: Cell): (out: seq<Row>)
    ensures |out| <= |df|
    decreases |df|
  {
    if df == [] then []
    else
      var last := df[|df| - 1];
      CleanRows(df[..|df| - 1], pay, loc) + (if Survives(last) then [FinishRow(last, pay, loc)] else [])
  }

  /** A row survives exactly when its ID and date are usable and it has or can be given an item. */
  lemma SurvivesIff(r: Row)
    ensures Survives(r) <==>
      && !IsProblematic(r.transactionId)
      && !IsProblematic(r.transactionDate)
      && (!IsProblematic(r.item) || (ToNumeric(r.pricePerUnit).Num? && OnMenuPrice(ToNumeric(r.pricePerUnit).x)))
  {
    ToNumericIgnoresSentinels(r.pricePerUnit);
  }

  /** Field by field, what the pipeline makes of a surviving row. */
  lemma FinishRowOutcome(r: Row, pay: Cell, loc: Cell)
    requires Survives(r)
    ensures var r' := FinishRow(r, pay, loc);
      && r'.transactionId == r.transactionId
      && r'.transactionDate == r.transactionDate
      && (!IsProblematic(r.item) ==> r'.item == r.item)
      && (IsProblematic(r.item) ==> r'.item.Str? && FirstOnMenuAt(r'.item.s, ToNumeric(r.pricePerUnit).x))
      && r'.quantity == FixQuantity(ReplaceSentinel(r.quantity))
      && (MenuPriceOf(r'.item).Some? ==> r'.pricePerUnit == Num(MenuPriceOf(r'.item).value))
      && (MenuPriceOf(r'.item).None? ==> r'.pricePerUnit == ToNumeric(r.pricePerUnit))
      && r'.totalSpent == Times(r'.quantity, r'.pricePerUnit)
      && r'.paymentMethod == FillCell(ReplaceSentinel(r.paymentMethod), pay)
      && r'.location == FillCell(ReplaceSentinel(r.location), loc)
  {
    ToNumericIgnoresSentinels(r.pricePerUnit);
  }

  /** The output guarantees of the cleaner for one row. */
  predicate IsClean(r: Row)
  {
    && (forall c :: !IsSentinel(Get(r, c)))
    && Present(r.transactionId) && Present(r.item) && Present(r.transactionDate)
    && Present(r.paymentMethod) && Present(r.location)
    && r.quantity.Num? && r.quantity.x > 0.0
    && (MenuPriceOf(r.item).Some? ==> r.pricePerUnit == Num(MenuPriceOf(r.item).value))
    && r.totalSpent == Times(r.quantity, r.pricePerUnit)
  }

  /** No menu name is one of the markers for missing data. */
  lemma MenuNamesAreNotSentinels(name: string)
    requires exists i :: 0 <= i < |MenuPrices| && MenuPrices[i].0 == name
    ensures !IsSentinel(Str(name))
  {
  }

  lemma FinishRowIsClean(r: Row, pay: Cell, loc: Cell)
    requires Survives(r)
    requires Present(pay) && !IsSentinel(pay) && Present(loc) && !IsSentinel(loc)
    ensures IsClean(FinishRow(r, pay, loc))
  {
    FinishRowOutcome(r, pay, loc);
    var r' := FinishRow(r, pay, loc);
    if IsProblematic(r.item) {
      var p := ToNumeric(r.pricePerUnit).x;
      var i :| 0 <= i < |MenuPrices| && MenuPrices[i] == (r'.item.s, p)
        && forall j :: 0 <= j < i ==> MenuPrices[j].1 != p;
      MenuNamesAreNotSentinels(r'.item.s);
    }
    assert !IsSentinel(r'.transactionId) && !IsSentinel(r'.item) && !IsSentinel(r'.quantity);
    assert !IsSentinel(r'.pricePerUnit) && !IsSentinel(r'.totalSpent) && !IsSentinel(r'.paymentMethod);
    assert !IsSentinel(r'.location) && !IsSentinel(r'.transactionDate);
  }

  lemma {:induction false} CleanRowsAreClean(df: seq<Row>, pay: Cell, loc: Cell)
    requires Present(pay) && !IsSentinel(pay) && Present(loc) && !IsSentinel(loc)
    ensures forall k :: 0 <= k < |CleanRows(df, pay, loc)| ==> IsClean(CleanRows(df, pay, loc)[k])
    decreases |df|
  {
    if df != [] {
      CleanRowsAreClean(df[..|df| - 1], pay, loc);
      if Survives(df[|df| - 1]) {
        FinishRowIsClean(df[|df| - 1], pay, loc);
      }
    }
  }

  /** The output's transaction IDs are the input's, some dropped, none added or reordered. */
  lemma {:induction false} CleanRowsKeepIdOrder(df: seq<Row>, pay: Cell, loc: Cell)
    ensures IsSubseq(ColumnOf(CleanRows(df, pay, loc), TransactionId), ColumnOf(df, TransactionId))
    decreases |df|
  {
    if df != [] {
      var df', x := df[..|df| - 1], df[|df| - 1];
      var out, out' := CleanRows(df, pay, loc), CleanRows(df', pay, loc);
      CleanRowsKeepIdOrder(df', pay, loc);
      var ids, ids' := ColumnOf(df, TransactionId), ColumnOf(df', TransactionId);
      assert ids[..|ids| - 1] == ids';
      if Survives(x) {
        assert out == out' + [FinishRow(x, pay, loc)];
        assert ColumnOf(out, TransactionId)[..|out| - 1] == ColumnOf(out', TransactionId);
        assert ColumnOf(out, TransactionId)[|out| - 1] == x.transactionId;
      } else {
        assert out == out';
      }
    }
  }

  /** A row with no item priced 3.0 becomes a Cake, not a Juice. */
  lemma MissingItemAtThreeIsCake(r: Row)
    requires r.item.Null? && ToNumeric(r.pricePerUnit) == Num(3.0)
    ensures InferItemRow(r).item == Str("Cake")
  {
    SharedPricesResolveToFirst();
  }

  /** A row with no item priced 4.0 becomes a Sandwich, not a Smoothie. */
  lemma MissingItemAtFourIsSandwich(r: Row)
    requires r.item.Null? && ToNumeric(r.pricePerUnit) == Num(4.0)
    ensures InferItemRow(r).item == Str("Sandwich")
  {
    SharedPricesResolveToFirst();
  }

  /**
   * The cleaner leaves one kind of gap: an item that is not on the menu and
   * has no numeric price keeps a missing price, and so a missing total.
   */
  lemma OffMenuItemKeepsMissingPrice(r: Row, pay: Cell, loc: Cell)
    requires Survives(r)
    requires MenuPriceOf(InferItemRow(ReplaceRow(r)).item).None?
    requires ToNumeric(r.pricePerUnit).Null?
    ensures FinishRow(r, pay, loc).pricePerUnit.Null?
    ensures FinishRow(r, pay, loc).totalSpent.Null?
  {
    FinishRowOutcome(r, pay, loc);
  }
}
