/**
 * The cafe's menu: item names with their unit prices, in the order the
 * price table declares them. The order matters: the cleaner infers a
 * missing item from its price by taking the FIRST entry with that price,
 * and two pairs of items share a price (Sandwich and Smoothie at 4.0,
 * Cake and Juice at 3.0).
 */
module Menu {
  import opened Wrappers

  type Entry = (string, real)

  const MenuPrices: seq<Entry> := [
    ("Coffee", 2.0),
    ("Tea", 1.5),
    ("Sandwich", 4.0),
    ("Salad", 5.0),
    ("Cake", 3.0),
    ("Cookie", 1.0),
    ("Smoothie", 4.0),
    ("Juice", 3.0)
  ]

  predicate UniqueNames(entries: seq<Entry>)
  {
    forall i, j :: 0 <= i < j < |entries| ==> entries[i].0 != entries[j].0
  }

  /** Dictionary lookup `MENU_PRICES[name]`, None when `name not in MENU_PRICES`. */
  function Lookup(entries: seq<Entry>, name: string): Option<real>
  {
    if entries == [] then None
    else if entries[0].0 == name then Some(entries[0].1)
    else Lookup(entries[1..], name)
  }

  /** The name of the first entry, in declaration order, whose price is `price`. */
  function FirstItemWithPrice(entries: seq<Entry>, price: real): Option<string>
  {
    if entries == [] then None
    else if entries[0].1 == price then Some(entries[0].0)
    else FirstItemWithPrice(entries[1..], price)
  }

  /** A name is found exactly when some entry carries it, and then with that entry's price. */
  lemma {:induction false} LookupFindsEntry(entries: seq<Entry>, name: string)
    ensures Lookup(entries, name).Some? <==> exists i :: 0 <= i < |entries| && entries[i].0 == name
    ensures Lookup(entries, name).Some? ==>
      exists i :: 0 <= i < |entries| && entries[i] == (name, Lookup(entries, name).value)
  {
    if entries != [] && entries[0].0 != name {
      LookupFindsEntry(entries[1..], name);
      assert forall i :: 1 <= i < |entries| ==> entries[i] == entries[1..][i - 1];
    }
  }

  /** With unique names, looking up an entry's name gives that entry's price. */
  lemma {:induction false} LookupOfEntry(entries: seq<Entry>, i: nat)
    requires UniqueNames(entries)
    requires i < |entries|
    ensures Lookup(entries, entries[i].0) == Some(entries[i].1)
  {
    if i > 0 {
      assert entries[0].0 != entries[i].0;
      assert UniqueNames(entries[1..]) by {
        forall a, b | 0 <= a < b < |entries[1..]|
          ensures entries[1..][a].0 != entries[1..][b].0
        {
          assert entries[1..][a] == entries[a + 1] && entries[1..][b] == entries[b + 1];
        }
      }
      LookupOfEntry(entries[1..], i - 1);
    }
  }

  /**
   * No entry has the price exactly when inference finds nothing; otherwise it
   * finds the entry at some index i, and no entry before i has the price.
   */
  lemma {:induction false} FirstItemWithPriceIsFirst(entries: seq<Entry>, price: real)
    ensures FirstItemWithPrice(entries, price).None? <==>
      forall i :: 0 <= i < |entries| ==> entries[i].1 != price
    ensures FirstItemWithPrice(entries, price).Some? ==>
      exists i :: 0 <= i < |entries| && entries[i] == (FirstItemWithPrice(entries, price).value, price)
        && forall j :: 0 <= j < i ==> entries[j].1 != price
  {
    if entries != [] && entries[0].1 != price {
      FirstItemWithPriceIsFirst(entries[1..], price);
      assert forall i :: 1 <= i < |entries| ==> entries[i] == entries[1..][i - 1];
      if FirstItemWithPrice(entries, price).Some? {
        var n := FirstItemWithPrice(entries, price).value;
        var i :| 0 <= i < |entries[1..]| && entries[1..][i] == (n, price)
          && forall j :: 0 <= j < i ==> entries[1..][j].1 != price;
        assert entries[i + 1] == (n, price);
        assert forall j :: 0 <= j < i + 1 ==> entries[j].1 != price by {
          forall j | 0 <= j < i + 1 ensures entries[j].1 != price {
            if j > 0 { assert entries[j] == entries[1..][j - 1]; }
          }
        }
      }
    }
  }

  /** An inferred item is priced on the menu at exactly the price it was inferred from. */
  lemma InferredItemHasThatPrice(entries: seq<Entry>, price: real)
    requires UniqueNames(entries)
    requires FirstItemWithPrice(entries, price).Some?
    ensures Lookup(entries, FirstItemWithPrice(entries, price).value) == Some(price)
  {
    FirstItemWithPriceIsFirst(entries, price);
    var i :| 0 <= i < |entries| && entries[i] == (FirstItemWithPrice(entries, price).value, price);
    LookupOfEntry(entries, i);
  }

  lemma MenuNamesUnique()
    ensures UniqueNames(MenuPrices)
  {
  }

  /** Where two items share a price, the one declared first wins. */
  lemma SharedPricesResolveToFirst()
    ensures FirstItemWithPrice(MenuPrices, 3.0) == Some("Cake")
    ensures FirstItemWithPrice(MenuPrices, 4.0) == Some("Sandwich")
    ensures FirstItemWithPrice(MenuPrices, 2.5) == None
    ensures Lookup(MenuPrices, "Juice") == Some(3.0)
    ensures Lookup(MenuPrices, "Smoothie") == Some(4.0)
  {
  }
}
