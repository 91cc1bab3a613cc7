# Cafe sales cleaning, modelled in Dafny

This project models the data-cleaning core of the cafe sales scripts, `clean_data` in
`dataset_scripts/main.py`. The function takes the dirty sales table (transaction ID, item,
quantity, price per unit, total spent, payment method, location, transaction date) and runs
eight steps:

1. The markers `''`, `'ERROR'` and `'UNKNOWN'` become NaN.
2. Rows without a transaction ID are dropped.
3. An item that is missing is inferred from its price: the first menu entry with that price is
   taken. Rows still without an item are dropped.
4. The numeric columns are cleaned. Quantities are coerced to numbers, and a quantity that is
   missing or not positive becomes 1. Prices are coerced to numbers, filled from the menu when
   missing, and overwritten by the menu price when they differ from it.
5. The total spent is recomputed as quantity × price.
6. Missing payment methods are filled with the column's most frequent value (`Cash` when there is
   none).
7. Missing locations are filled the same way (`In-store` when there is none).
8. Rows without a date are dropped.

The model also covers the menu price table `MENU_PRICES` and the per-column tally of problematic
values that the exploratory analysis `perform_eda` prints.

Modules, in dependency order:

- `Wrappers`: the `Option` type.
- `Seqs`: generic `Map` and `Filter` over sequences, the vectorised column operations, with their
  lemmas.
- `Cells`: a pandas cell (`Null`, a string or a number).
  - The three markers.
  - `replace`, `fillna` and the column product on one cell.
  - An explicit decimal parser for `pd.to_numeric(errors='coerce')`.
- `Rows`: the eight-column record, column access and update.
- `Menu`: the menu as an ordered list of entries. Order matters because two pairs of items share a
  price.
- `Eda`: the problematic-value tallies and the report rows.
- `CleanRules`: one function per cleaning rule on one row, and a row-at-a-time reference for the
  whole pipeline, `CleanRows`. The guarantees of the output are proved about this reference.
- `Cleaning`: the pipeline as `clean_data` actually runs it over the whole table.
  - The vectorised steps are `Map`/`Filter` applications.
  - The three Python loops that assign cells one at a time are `while` loops over a sequence.
  - `CleanData` is proved equal to the reference `CleanRows`, so everything proved there holds
    for it.

The table is a local copy that `clean_data` reassigns step by step (`df.copy()` at the start). It
is therefore modelled as a value of type `seq<Row>` rather than as a mutable object. Numbers are
exact reals.

## Model

| member | source | states |
|---|---|---|
| `Cleaning.CleanData` | dataset_scripts/main.py:89-223 | The output is exactly the row-at-a-time reference `CleanRows` for the fill values actually used. Each fill value is a most frequent present value of its column as the table stands before the date drop, or the default (`Cash`, `In-store`) when that column had no missing cell. Every output row is clean (`IsClean`). The output IDs are an order-preserving subsequence of the input IDs. |
| `Cleaning.PrepareRows` | dataset_scripts/main.py:98-182 | Steps 1 to 5 applied to whole columns give the same table as filtering the rows that keep an ID and an item, then applying the row rules of those steps to each. |
| `Cleaning.InferItem` | dataset_scripts/main.py:131-135 | The loop over the menu with its early `break` returns the first entry priced at `price`, or none. |
| `Cleaning.InferRowItem` | dataset_scripts/main.py:128-135 | For one row, the loop body gives exactly the row-level inference rule: a missing item with a numeric price on the menu gets the first menu entry with that price. |
| `Cleaning.InferMissingItems` | dataset_scripts/main.py:124-135 | The loop over the rows with a missing item applies the inference rule to every row and changes nothing else. |
| `Cleaning.FillMissingPrices` | dataset_scripts/main.py:161-166 | The loop over the rows with a missing price fills the menu price of each menu item and leaves every other row as it is. |
| `Cleaning.CorrectPrices` | dataset_scripts/main.py:169-175 | The loop over all rows overwrites with the menu price every present price of a menu item that differs from it. |
| `Cleaning.FillMissing` | dataset_scripts/main.py:186-202 | When the column has a missing cell, every missing cell gets a value that is a most frequent present value, or the default when none is present. When nothing is missing, the table is unchanged. |
| `Cleaning.DropMissingDates` | dataset_scripts/main.py:206-213 | The table keeps exactly its dated rows, in order, whether or not the guard on the missing count fires. |
| `Cleaning.MostFrequent` | dataset_scripts/main.py:190 | None exactly when every cell is missing. Otherwise the result is a present value of the column whose count is at least the count of any other present value. |
| `Cleaning.FillValue` | dataset_scripts/main.py:190 | The chosen value is a most frequent present value of the column, or the default when the column holds none. |
| `Cleaning.ReplacementNullsAreProblematic` | dataset_scripts/main.py:102 | After step 1, a column holds exactly as many nulls as the exploratory tally counted problematic values in it. |
| `Cleaning.FinishRowwise` | dataset_scripts/main.py:184-213 | Filling both columns and dropping the dateless rows, applied after steps 1 to 5, gives the row-at-a-time reference. |
| `Cleaning.FillValuesAreClean` | dataset_scripts/main.py:190-201 | A fill value that is a present value of its column in the prepared table, or a default that is not a marker, is present and is not a marker. |
| `Cleaning.ReferenceGuarantees` | dataset_scripts/main.py:184-202 | With fill values that are the default or a present value of their column in the prepared table, every row of the reference output is clean. |
| `CleanRules.ReplaceRow` | dataset_scripts/main.py:102 | No cell of the result is a marker. A cell becomes null exactly when it was null or a marker. Every other cell is unchanged. |
| `CleanRules.ItemForPrice` | dataset_scripts/main.py:128-135 | An item is suggested exactly when the coerced price is a number some menu entry has. The suggestion is the first such entry, and looking it up gives back that price. |
| `CleanRules.InferItemRow` | dataset_scripts/main.py:124-135 | Only the item can change, and a present item stays. A missing item becomes present exactly when the coerced price is a number some menu entry has. The inferred item is the first such entry, and looking it up gives back that price. |
| `CleanRules.FixQuantity` | dataset_scripts/main.py:148-153 | The result is always a positive number. It is the coerced quantity when that is a positive number, and 1 otherwise. |
| `CleanRules.PriceRulesAgreeWithMenu` | dataset_scripts/main.py:158-175 | After coercion, filling and correction, a menu item's price is its menu price, whether it was missing, wrong or right. Any other item keeps its coerced price. No other column changes. |
| `CleanRules.FillPriceRow` | dataset_scripts/main.py:161-166 | Only the price can change. A missing price of a menu item becomes the menu price; a present price, or any price of an off-menu item, stays. |
| `CleanRules.CorrectPriceRow` | dataset_scripts/main.py:169-175 | Only the price can change. A present price of a menu item ends equal to the menu price; a missing price, or any price of an off-menu item, stays. |
| `CleanRules.RecomputeTotalRow` | dataset_scripts/main.py:181 | Only the total changes. It is a number exactly when quantity and price are both numbers, and it is then their product. |
| `Cells.FillCell` | dataset_scripts/main.py:191 | A missing cell becomes the fill value and a present cell stays. |
| `CleanRules.FillColumn` | dataset_scripts/main.py:191 | The table keeps its length, and each row is that row filled in the column. |
| `CleanRules.FillRow` | dataset_scripts/main.py:191 | A missing cell in the column becomes the fill value, a present one stays, and the other columns are unchanged. |
| `CleanRules.FillColumnNoMissing` | dataset_scripts/main.py:187 | Filling a column with no missing cell leaves the table unchanged, so skipping the fill when nothing is missing is harmless. |
| `CleanRules.SurvivesIff` | dataset_scripts/main.py:102-139 | A row reaches the output exactly when its ID and date are not problematic, and it either has an item or has a numeric price on the menu. |
| `CleanRules.FinishRowOutcome` | dataset_scripts/main.py:98-202 | What a surviving row becomes, field by field: ID and date unchanged; item kept or inferred; quantity fixed; menu price for menu items, coerced price otherwise; total = quantity × price; payment and location filled. |
| `CleanRules.FinishRowIsClean` | dataset_scripts/main.py:98-202 | A surviving row becomes a clean row once its fill values are present and are not markers. |
| `CleanRules.CleanRows` | dataset_scripts/main.py:98-213 | The row-at-a-time reference for the whole pipeline; it never has more rows than its input. What it keeps and what each kept row becomes are stated by `CleanRules.SurvivesIff` and `CleanRules.FinishRowOutcome`. |
| `CleanRules.CleanRowsAreClean` | dataset_scripts/main.py:98-213 | Every row of the reference output is clean: no markers; ID, item, date, payment and location present; quantity positive; menu items at menu price; total = quantity × price. |
| `CleanRules.CleanRowsKeepIdOrder` | dataset_scripts/main.py:113-211 | The output's transaction IDs are a subsequence of the input's, in the same order: rows are only dropped, never reordered or invented. |
| `CleanRules.MissingItemAtThreeIsCake` | dataset_scripts/main.py:131-135 | A row with no item and a price of 3.0 becomes a Cake, not a Juice. |
| `CleanRules.MissingItemAtFourIsSandwich` | dataset_scripts/main.py:131-135 | A row with no item and a price of 4.0 becomes a Sandwich, not a Smoothie. |
| `CleanRules.OffMenuItemKeepsMissingPrice` | dataset_scripts/main.py:161-181 | A surviving row whose item is off the menu and whose price is not numeric keeps a missing price and a missing total. |
| `Menu.Lookup` | dataset_scripts/main.py:164-165 | The dictionary lookup. It has no contract of its own: `Menu.LookupFindsEntry` and `Menu.LookupOfEntry` state what it finds. |
| `Menu.FirstItemWithPrice` | dataset_scripts/main.py:131-135 | The search for the first item with a price. It has no contract of its own: `Menu.FirstItemWithPriceIsFirst` states what it finds. |
| `Menu.FirstItemWithPriceIsFirst` | dataset_scripts/main.py:131-135 | Inference finds nothing exactly when no entry has the price. Otherwise it finds an entry with that price before which no entry has it. |
| `Menu.InferredItemHasThatPrice` | dataset_scripts/main.py:131-135 | Looking up an inferred item gives back the price it was inferred from. |
| `Menu.LookupFindsEntry` | dataset_scripts/main.py:164-165 | A name is a key exactly when some entry carries it, and the lookup then gives that entry's price. |
| `Menu.LookupOfEntry` | dataset_scripts/main.py:164-165 | With unique names, looking up any entry's name gives that entry's price. |
| `Menu.MenuNamesUnique` | dataset_scripts/main.py:10-19 | The menu has no repeated name, as the keys of a dictionary must not. |
| `Menu.SharedPricesResolveToFirst` | dataset_scripts/main.py:10-19 | 3.0 resolves to Cake, 4.0 to Sandwich and 2.5 to nothing, although Juice is 3.0 and Smoothie is 4.0. |
| `Eda.ProblematicCountsCells` | dataset_scripts/main.py:44-48 | The sum of the four tallies (null, empty, ERROR, UNKNOWN) counts each problematic cell exactly once. |
| `Eda.CountValue` | dataset_scripts/main.py:44-47 | One tally: the number of rows whose cell in the column is the given value (null for `isnull`), never more than the row count. |
| `Eda.TallySum` | dataset_scripts/main.py:48 | The sum of the four tallies. It has no contract of its own: `Eda.ProblematicCountsCells` proves that it counts each problematic cell once. |
| `Eda.MissingReport` | dataset_scripts/main.py:43-58 | One report row per column in header order. Its null, empty, ERROR and UNKNOWN fields are the four tallies of that column, its total is their sum, and that total is the number of problematic cells of the column, at most the row count. |
| `Cells.ReplaceSentinel` | dataset_scripts/main.py:102 | The result is never a marker. It is null exactly when the cell was problematic, and a present result is the cell itself. |
| `Cells.ToNumeric` | dataset_scripts/main.py:148 | The result is a number or NaN. Numbers and NaN are kept, and a string becomes the number it spells, or NaN. What the parser reads is stated by the round-trip lemmas below. |
| `Cells.ParseNumber` | dataset_scripts/main.py:148 | A string with no digit never spells a number. |
| `Cells.ToNumericIgnoresSentinels` | dataset_scripts/main.py:128 | The markers spell no number, so coercing a cell after the marker replacement gives what coercing it before would. |
| `Cells.ParseNatRoundTrip` | dataset_scripts/main.py:158 | The parser reads the decimal rendering of every natural number back as that number. |
| `Cells.ParseNegatedNatRoundTrip` | dataset_scripts/main.py:148 | The parser reads a minus sign followed by a natural number's decimal rendering back as its negation. |
| `Cells.FracDigitsValue` | dataset_scripts/main.py:158 | The digits of a fraction, padded with leading zeros to n places, read back as the fraction. |
| `Cells.ParseDecimalRoundTrip` | dataset_scripts/main.py:158 | A whole number, a point and an n-digit fraction f (n at least 1) are read back as whole + f / 10^n. |
| `Cells.ParseNegatedDecimalRoundTrip` | dataset_scripts/main.py:148 | The same decimal after a minus sign is read back as the negation of that value. |
| `Cells.ParseMinus` | dataset_scripts/main.py:148 | A leading minus sign negates the number the rest of the string spells. |
| `Cells.OneAndAHalfParses` | dataset_scripts/main.py:158 | `"1.5"` is read as 1.5. |
| `Cells.ThreePointZeroZeroParses` | dataset_scripts/main.py:158 | `"3.00"` is read as 3.0, trailing zeros of the fraction included. |
| `Cells.Times` | dataset_scripts/main.py:181 | The product is a number exactly when both factors are, and is then their product. It is NaN otherwise. |
| `Seqs.FilterMembers` | dataset_scripts/main.py:113 | An element survives `dropna` exactly when it was in the table and passes the test. |

## Left out

- Reading the CSV, writing results, and every `print` (row counts, percentages, messages) are I/O
  and are not modelled.
- `load_data`, the calculation checks of `perform_eda` (`np.isclose`), the percentage column of its
  report and `generate_summary_report` are outside the cleaning core.
- `Cleaning.MostFrequent`: does not model pandas' tie-break. `mode()[0]` is the least of the
  sorted most frequent values, while the model takes a most frequent value in row order. The
  contract states only that the value is of maximal frequency.
- `Cells.ToNumeric`: reads an optional `+` or `-`, then digits with at most one `.` and at least
  one digit (so `5.` and `.5` are numbers). Exponents, surrounding whitespace and `inf`/`nan`
  spellings are coerced to NaN here, although pandas accepts some of them.
- Floating point is modelled by exact reals. The rounding of `quantity × price` and of the parsed
  prices is not modelled, nor is float equality in the price comparisons.
- The conversion of the dates with `pd.to_datetime` (and its `try`/`except`) is not modelled.
  Dates stay as the cells they are.
- pandas index labels are not modelled: the rows are a sequence, and the loops work by position.
- The marker replacement applies to every cell, numeric cells included, where it changes nothing.
- Steps 4 and 5 can leave a row with a missing price and a missing total: an off-menu item with no
  numeric price. The source does not resolve this, and the model states it in
  `CleanRules.OffMenuItemKeepsMissingPrice` rather than promising a total for every row.
- The PHP ingest and replication scripts of the repository are not part of this model.
