/**
 * The table-level cleaning pipeline as `clean_data` runs it: the table is a
 * local copy that each step reassigns, the vectorised steps are whole-column
 * `Map`s and `Filter`s, and the three Python loops that assign single cells
 * are `while` loops updating one row at a time. `CleanData` is proved to
 * produce exactly the row-at-a-time reference `CleanRules.CleanRows`.
 */
module Cleaning {
  import opened Wrappers
  import opened Cells
  import opened Rows
  import opened Menu
  import opened Seqs
  import opened Eda
  import opened CleanRules

  // ---------------------------------------------------------------------
  // Step 1 seen by the exploratory tally.

  /** After step 1 a column holds as many nulls as the tally counted problematic values in it. */
  lemma {:induction false} ReplacementNullsAreProblematic(df: seq<Row>, c: Column)
    ensures CountValue(Map(ReplaceRow, df), c, Null) == TallySum(df, c)
    decreases |df|
  {
    if df != [] {
      var df' := df[..|df| - 1];
      assert Map(ReplaceRow, df)[..|df| - 1] == Map(ReplaceRow, df');
      ReplacementNullsAreProblematic(df', c);
      ProblematicCountsCells(df, c);
      ProblematicCountsCells(df', c);
    }
  }

  // ---------------------------------------------------------------------
  // Step 3: infer missing items from the price.

  /** The inner loop over the menu: the first entry priced at `price`, or None. */
  method InferItem(price: real) returns (item: Option<string>)
    ensures item == FirstItemWithPrice(MenuPrices, price)
  {
    item := None;
    var i := 0;
    while i < |MenuPrices|
      invariant 0 <= i <= |MenuPrices|
      invariant FirstItemWithPrice(MenuPrices[i..], price) == FirstItemWithPrice(MenuPrices, price)
    {
      assert MenuPrices[i..][1..] == MenuPrices[i + 1..];
      if MenuPrices[i].1 == price {
        item := Some(MenuPrices[i].0);
        break;
      }
      i := i + 1;
    }
  }

  /** The body of the loop over rows with a missing item, for one row. */
  method InferRowItem(r: Row) returns (r': Row)
    ensures r' == InferItemRow(r)
  {
    r' := r;
    if r.item.Null? {
      var price := ToNumeric(r.pricePerUnit);
      if price.Num? {
        var found := InferItem(price.x);
        if found.Some? {
          r' := r.(item := Str(found.value));
        }
      }
    }
  }

  /** The loop over rows with a missing item; each such row may get an inferred item. */
  method InferMissingItems(rows: seq<Row>) returns (res: seq<Row>)
    ensures res == Map(InferItemRow, rows)
  {
    res := rows;
    var i := 0;
    while i < |res|
      invariant |res| == |rows| && 0 <= i <= |res|
      invariant forall k :: 0 <= k < i ==> res[k] == InferItemRow(rows[k])
      invariant forall k :: i <= k < |res| ==> res[k] == rows[k]
    {
      if res[i].item.Null? {
        var r' := InferRowItem(res[i]);
        res := res[i := r'];
      }
      i := i + 1;
    }
  }

  // ---------------------------------------------------------------------
  // Step 4: the loops over the prices.

  /** The loop over rows with a missing price: a menu item gets its menu price. */
  method FillMissingPrices(rows: seq<Row>) returns (res: seq<Row>)
    ensures res == Map(FillPriceRow, rows)
  {
    res := rows;
    var i := 0;
    while i < |res|
      invariant |res| == |rows| && 0 <= i <= |res|
      invariant forall k :: 0 <= k < i ==> res[k] == FillPriceRow(rows[k])
      invariant forall k :: i <= k < |res| ==> res[k] == rows[k]
    {
      if res[i].pricePerUnit.Null? {
        var menuPrice := MenuPriceOf(res[i].item);
        if menuPrice.Some? {
          res := res[i := res[i].(pricePerUnit := Num(menuPrice.value))];
        }
      }
      i := i + 1;
    }
  }

  /** The loop over all rows: a present price of a menu item that is off the menu is corrected. */
  method CorrectPrices(rows: seq<Row>) returns (res: seq<Row>)
    ensures res == Map(CorrectPriceRow, rows)
  {
    res := rows;
    var i := 0;
    while i < |res|
      invariant |res| == |rows| && 0 <= i <= |res|
      invariant forall k :: 0 <= k < i ==> res[k] == CorrectPriceRow(rows[k])
      invariant forall k :: i <= k < |res| ==> res[k] == rows[k]
    {
      var menuPrice := MenuPriceOf(res[i].item);
      if menuPrice.Some? && Present(res[i].pricePerUnit) {
        if res[i].pricePerUnit != Num(menuPrice.value) {
          res := res[i := res[i].(pricePerUnit := Num(menuPrice.value))];
        }
      }
      i := i + 1;
    }
  }

  // ---------------------------------------------------------------------
  // Steps 6 and 7: the fill value of a column.

  function Occurrences(col: seq<Cell>, v: Cell): nat
  {
    multiset(col)[v]
  }

  /**
   * The value `fillna` uses: when the column has a present value, one of
   * maximal frequency among the present values; otherwise the default.
   */
  ghost predicate IsFillChoice(col: seq<Cell>, v: Cell, default: string)
  {
    if forall k :: 0 <= k < |col| ==> col[k].Null? then v == Str(default)
    else
      && Present(v) && v in col
      && forall k :: 0 <= k < |col| && Present(col[k]) ==> Occurrences(col, col[k]) <= Occurrences(col, v)
  }

  /**
   * Among the present cells of `candidates`, one whose number of occurrences
   * in `col` is largest; None when every candidate is missing.
   */
  function MostFrequentAmong(col: seq<Cell>, candidates: seq<Cell>): (m: Option<Cell>)
    ensures m.None? <==> forall k :: 0 <= k < |candidates| ==> candidates[k].Null?
    ensures m.Some? ==>
      && Present(m.value) && m.value in candidates
      && forall k :: 0 <= k < |candidates| && Present(candidates[k]) ==>
           Occurrences(col, candidates[k]) <= Occurrences(col, m.value)
    decreases |candidates|
  {
    if candidates == [] then None
    else
      var rest, last := candidates[..|candidates| - 1], candidates[|candidates| - 1];
      var best := MostFrequentAmong(col, rest);
      assert forall k :: 0 <= k < |rest| ==> rest[k] == candidates[k];
      if last.Null? then best
      else if best.None? || Occurrences(col, last) > Occurrences(col, best.value) then Some(last)
      else best
  }

  /** `col.mode()` reduced to one value: None when every cell is missing. */
  function MostFrequent(col: seq<Cell>): (m: Option<Cell>)
    ensures m.None? <==> forall k :: 0 <= k < |col| ==> col[k].Null?
    ensures m.Some? ==>
      && Present(m.value) && m.value in col
      && forall k :: 0 <= k < |col| && Present(col[k]) ==> Occurrences(col, col[k]) <= Occurrences(col, m.value)
  {
    MostFrequentAmong(col, col)
  }

  /** The value a column's gaps are filled with: its most frequent present value, or the default when it has none. */
  function FillValue(col: seq<Cell>, default: string): (v: Cell)
    ensures IsFillChoice(col, v, default)
    ensures v == Str(default) || (Present(v) && v in col)
  {
    match MostFrequent(col)
    case Some(m) => m
    case None => Str(default)
  }

  // ---------------------------------------------------------------------
  // The pipeline up to the fills, and its row-at-a-time reading.

  /** The table after steps 1 to 5, as the pipeline computes it column by column. */
  ghost function Prepared(df: seq<Row>): seq<Row>
  {
    var afterIds := Filter(HasId, Map(ReplaceRow, df));
    var afterItems := Filter(HasItem, Map(InferItemRow, afterIds));
    Map(RecomputeTotalRow, Map(CorrectPriceRow, Map(FillPriceRow,
      Map(PriceToNumericRow, Map(FixQuantityRow, afterItems)))))
  }

  /**
   * The cells among which the fill value of column c is chosen: the column,
   * after step 1, of the rows that have an ID and an item, before any row
   * is dropped for a missing date.
   */
  ghost function FillPool(df: seq<Row>, c: Column): seq<Cell>
  {
    ColumnOf(Map(ReplaceRow, Filter(KeptBeforeFill, df)), c)
  }

  lemma PreparedAppend(a: seq<Row>, b: seq<Row>)
    ensures Prepared(a + b) == Prepared(a) + Prepared(b)
  {
    MapAppend(ReplaceRow, a, b);
    var a1, b1 := Map(ReplaceRow, a), Map(ReplaceRow, b);
    FilterAppend(HasId, a1, b1);
    var a2, b2 := Filter(HasId, a1), Filter(HasId, b1);
    MapAppend(InferItemRow, a2, b2);
    var a3, b3 := Map(InferItemRow, a2), Map(InferItemRow, b2);
    FilterAppend(HasItem, a3, b3);
    var a4, b4 := Filter(HasItem, a3), Filter(HasItem, b3);
    MapAppend(FixQuantityRow, a4, b4);
    var a5, b5 := Map(FixQuantityRow, a4), Map(FixQuantityRow, b4);
    MapAppend(PriceToNumericRow, a5, b5);
    var a6, b6 := Map(PriceToNumericRow, a5), Map(PriceToNumericRow, b5);
    MapAppend(FillPriceRow, a6, b6);
    var a7, b7 := Map(FillPriceRow, a6), Map(FillPriceRow, b6);
    MapAppend(CorrectPriceRow, a7, b7);
    var a8, b8 := Map(CorrectPriceRow, a7), Map(CorrectPriceRow, b7);
    MapAppend(RecomputeTotalRow, a8, b8);
  }

  lemma PreparedSingleton(x: Row)
    ensures Prepared([x]) == if KeptBeforeFill(x) then [PrepRow(x)] else []
  {
    var x1 := ReplaceRow(x);
    FilterSingleton(HasId, x1);
    if HasId(x1) {
      var x3 := InferItemRow(x1);
      FilterSingleton(HasItem, x3);
    }
  }

  /** Column by column or row by row, steps 1 to 5 give the same table. */
  lemma {:induction false} PreparedRowwise(df: seq<Row>)
    ensures Prepared(df) == Map(PrepRow, Filter(KeptBeforeFill, df))
    decreases |df|
  {
    if df != [] {
      var df', x := df[..|df| - 1], df[|df| - 1];
      assert df == df' + [x];
      PreparedRowwise(df');
      PreparedAppend(df', [x]);
      PreparedSingleton(x);
      MapAppend(PrepRow, Filter(KeptBeforeFill, df'), if KeptBeforeFill(x) then [x] else []);
    }
  }

  /** Steps 1 to 5 leave payment method and location as step 1 made them. */
  lemma PreparedColumnIsPool(df: seq<Row>, c: Column)
    requires c == PaymentMethod || c == Location
    ensures ColumnOf(Map(PrepRow, Filter(KeptBeforeFill, df)), c) == FillPool(df, c)
  {
  }

  lemma FillColumnAppend(a: seq<Row>, b: seq<Row>, c: Column, v: Cell)
    ensures FillColumn(a + b, c, v) == FillColumn(a, c, v) + FillColumn(b, c, v)
  {
    var lhs, rhs := FillColumn(a + b, c, v), FillColumn(a, c, v) + FillColumn(b, c, v);
    forall k | 0 <= k < |a + b| ensures lhs[k] == rhs[k] {
      if k < |a| {
        assert (a + b)[k] == a[k];
      } else {
        assert (a + b)[k] == b[k - |a|];
      }
    }
  }

  lemma FillColumnKeepsOtherColumns(rows: seq<Row>, c: Column, v: Cell, d: Column)
    requires d != c
    ensures ColumnOf(FillColumn(rows, c, v), d) == ColumnOf(rows, d)
  {
  }

  /** Step 8: when some date is missing, the rows without one are dropped (otherwise there are none). */
  method DropMissingDates(rows: seq<Row>) returns (res: seq<Row>)
    ensures res == Filter(HasDate, rows)
  {
    if HasMissing(ColumnOf(rows, TransactionDate)) {
      res := Filter(HasDate, rows);
    } else {
      res := rows;
      forall k | 0 <= k < |rows| ensures HasDate(rows[k]) {
        assert ColumnOf(rows, TransactionDate)[k] == rows[k].transactionDate;
      }
      FilterKeepsAll(HasDate, rows);
    }
  }

  /** Steps 6 to 8 as the pipeline applies them to the whole table. */
  function FillAndDrop(rows: seq<Row>, pay: Cell, loc: Cell): seq<Row>
  {
    Filter(HasDate, FillColumn(FillColumn(rows, PaymentMethod, pay), Location, loc))
  }

  lemma FillAndDropAppend(a: seq<Row>, b: seq<Row>, pay: Cell, loc: Cell)
    ensures FillAndDrop(a + b, pay, loc) == FillAndDrop(a, pay, loc) + FillAndDrop(b, pay, loc)
  {
    FillColumnAppend(a, b, PaymentMethod, pay);
    var a1, b1 := FillColumn(a, PaymentMethod, pay), FillColumn(b, PaymentMethod, pay);
    FillColumnAppend(a1, b1, Location, loc);
    FilterAppend(HasDate, FillColumn(a1, Location, loc), FillColumn(b1, Location, loc));
  }

  lemma FillAndDropOfPrepRow(x: Row, pay: Cell, loc: Cell)
    ensures FillAndDrop([PrepRow(x)], pay, loc) == if HasDate(ReplaceRow(x)) then [FinishRow(x, pay, loc)] else []
  {
    var y := FinishRow(x, pay, loc);
    assert FillColumn(FillColumn([PrepRow(x)], PaymentMethod, pay), Location, loc) == [y];
    FilterSingleton(HasDate, y);
  }

  /** Filling both columns and dropping dateless rows, after steps 1 to 5, is the reference. */
  lemma {:induction false} FinishRowwise(df: seq<Row>, pay: Cell, loc: Cell)
    ensures FillAndDrop(Map(PrepRow, Filter(KeptBeforeFill, df)), pay, loc) == CleanRows(df, pay, loc)
    decreases |df|
  {
    if df != [] {
      var df', x := df[..|df| - 1], df[|df| - 1];
      FinishRowwise(df', pay, loc);
      FinishRowwiseStep(df', x, pay, loc);
      assert df' + [x] == df;
    }
  }

  /** One more input row adds to both sides what that row contributes. */
  lemma FinishRowwiseStep(df: seq<Row>, x: Row, pay: Cell, loc: Cell)
    requires FillAndDrop(Map(PrepRow, Filter(KeptBeforeFill, df)), pay, loc) == CleanRows(df, pay, loc)
    ensures FillAndDrop(Map(PrepRow, Filter(KeptBeforeFill, df + [x])), pay, loc) == CleanRows(df + [x], pay, loc)
  {
    var kept, t := Filter(KeptBeforeFill, df), if KeptBeforeFill(x) then [x] else [];
    FilterAppend(KeptBeforeFill, df, [x]);
    FilterSingleton(KeptBeforeFill, x);
    MapAppend(PrepRow, kept, t);
    FillAndDropAppend(Map(PrepRow, kept), Map(PrepRow, t), pay, loc);
    assert (df + [x])[..|df|] == df;
    if KeptBeforeFill(x) {
      assert Map(PrepRow, t) == [PrepRow(x)];
      FillAndDropOfPrepRow(x, pay, loc);
    } else {
      assert Map(PrepRow, t) == [];
    }
  }

  // ---------------------------------------------------------------------
  // The whole pipeline.

  /** Steps 1 to 5 of `clean_data`, column by column; the result is the row-at-a-time reading. */
  method PrepareRows(df: seq<Row>) returns (rows: seq<Row>)
    ensures rows == Map(PrepRow, Filter(KeptBeforeFill, df))
  {
    // 1. markers to NaN; 2. drop rows without an ID
    rows := Map(ReplaceRow, df);
    rows := Filter(HasId, rows);
    // 3. infer items from prices, drop rows still without an item
    rows := InferMissingItems(rows);
    rows := Filter(HasItem, rows);
    // 4. quantities and prices
    rows := Map(FixQuantityRow, rows);
    rows := Map(PriceToNumericRow, rows);
    rows := FillMissingPrices(rows);
    rows := CorrectPrices(rows);
    // 5. totals
    rows := Map(RecomputeTotalRow, rows);
    assert rows == Prepared(df);
    PreparedRowwise(df);
  }

  /**
   * Steps 6 and 7 for one column: when a cell is missing, every missing cell
   * gets the fill value; otherwise nothing is done. The second result is the
   * value used (the default when nothing was filled).
   */
  method FillMissing(rows: seq<Row>, c: Column, default: string) returns (res: seq<Row>, v: Cell)
    ensures res == FillColumn(rows, c, v)
    ensures HasMissing(ColumnOf(rows, c)) ==> IsFillChoice(ColumnOf(rows, c), v, default)
    ensures !HasMissing(ColumnOf(rows, c)) ==> res == rows && v == Str(default)
    ensures v == Str(default) || (Present(v) && v in ColumnOf(rows, c))
  {
    v := Str(default);
    res := rows;
    if HasMissing(ColumnOf(rows, c)) {
      var fill := FillValue(ColumnOf(rows, c), default);
      res := FillColumn(rows, c, fill);
      v := fill;
    } else {
      FillColumnNoMissing(rows, c, v);
    }
  }

  /**
   * `clean_data`. The ghost results are the values the two fills used (the
   * default when a column had nothing to fill, since the fill is then skipped).
   */
  method CleanData(df: seq<Row>) returns (out: seq<Row>, ghost payFill: Cell, ghost locFill: Cell)
    ensures out == CleanRows(df, payFill, locFill)
    ensures HasMissing(FillPool(df, PaymentMethod)) ==> IsFillChoice(FillPool(df, PaymentMethod), payFill, "Cash")
    ensures HasMissing(FillPool(df, Location)) ==> IsFillChoice(FillPool(df, Location), locFill, "In-store")
    ensures !HasMissing(FillPool(df, PaymentMethod)) ==> payFill == Str("Cash")
    ensures !HasMissing(FillPool(df, Location)) ==> locFill == Str("In-store")
    ensures forall k :: 0 <= k < |out| ==> IsClean(out[k])
    ensures IsSubseq(ColumnOf(out, TransactionId), ColumnOf(df, TransactionId))
  {
    var prepared := PrepareRows(df);
    // 6. payment method; 7. location
    var paid, located;
    paid, payFill := FillMissing(prepared, PaymentMethod, "Cash");
    FillColumnKeepsOtherColumns(prepared, PaymentMethod, payFill, Location);
    located, locFill := FillMissing(paid, Location, "In-store");
    // 8. drop rows without a date
    out := DropMissingDates(located);
    assert out == FillAndDrop(prepared, payFill, locFill);
    FinishRowwise(df, payFill, locFill);
    PreparedColumnIsPool(df, PaymentMethod);
    PreparedColumnIsPool(df, Location);
    ReferenceGuarantees(df, prepared, payFill, locFill);
    CleanRowsKeepIdOrder(df, payFill, locFill);
  }

  /**
   * With fill values that are the default or a present value of their
   * column in the prepared table, every row of the reference is clean.
   */
  lemma ReferenceGuarantees(df: seq<Row>, prepared: seq<Row>, pay: Cell, loc: Cell)
    requires prepared == Map(PrepRow, Filter(KeptBeforeFill, df))
    requires pay == Str("Cash") || (Present(pay) && pay in ColumnOf(prepared, PaymentMethod))
    requires loc == Str("In-store") || (Present(loc) && loc in ColumnOf(prepared, Location))
    ensures forall k :: 0 <= k < |CleanRows(df, pay, loc)| ==> IsClean(CleanRows(df, pay, loc)[k])
  {
    FillValuesAreClean(df, prepared, PaymentMethod, pay, "Cash");
    FillValuesAreClean(df, prepared, Location, loc, "In-store");
    CleanRowsAreClean(df, pay, loc);
  }

  /** A fill value is never missing and never a marker: it comes from the column or is the default. */
  lemma FillValuesAreClean(df: seq<Row>, rows: seq<Row>, c: Column, v: Cell, default: string)
    requires rows == Map(PrepRow, Filter(KeptBeforeFill, df))
    requires c == PaymentMethod || c == Location
    requires default !in Sentinels
    requires v == Str(default) || (Present(v) && v in ColumnOf(rows, c))
    ensures Present(v) && !IsSentinel(v)
  {
    PreparedColumnIsPool(df, c);
    var pool := FillPool(df, c);
    if v != Str(default) {
      var k :| 0 <= k < |pool| && pool[k] == v;
    }
  }
}
