/**
 * The product catalog as `product_catalog.json` holds it: a JSON object from
 * product id to a record with `product_name`, `quantity`, `price` and
 * `category`, iterated (like every Python dict) in insertion order.
 */
module Catalog {

  import opened Wrappers
  import opened Sequences
  import opened Text

  /** A Python number as JSON gives it back: an `int` or a `float` (without rounding). */
  datatype Number = Int(i: int) | Float(f: real)

  function Real(n: Number): real {
    match n
    case Int(i) => i as real
    case Float(f) => f
  }

  /** Python's `a + b`: two ints give an int, anything else a float. */
  function Add(a: Number, b: Number): (r: Number)
    ensures Real(r) == Real(a) + Real(b)
    ensures r.Int? <==> a.Int? && b.Int?
  {
    if a.Int? && b.Int? then Int(a.i + b.i) else Float(Real(a) + Real(b))
  }

  /** One entry of the catalog, the dict `Product.to_dict()` produces. */
  datatype ProductRecord = ProductRecord(productName: string, quantity: Number, price: Number, category: string)

  /** An (id, record) pair as `dict.items()` yields it. */
  type Item = (string, ProductRecord)

  /** The catalog dict: its keys in insertion order and the map they index. */
  datatype Catalog = Catalog(keys: seq<string>, entries: map<string, ProductRecord>) {
    /** Keys are listed once each, and exactly the keys of the map are listed. */
    ghost predicate WellFormed() {
      && (forall i, j :: 0 <= i < j < |keys| ==> keys[i] != keys[j])
      && (forall k :: k in entries <==> k in keys)
    }
  }

  const Empty: Catalog := Catalog([], map[])

  /** `catalog[id] = record`: an existing key keeps its place, a new key goes last. */
  function Put(c: Catalog, id: string, r: ProductRecord): (d: Catalog)
    requires c.WellFormed()
    ensures d.WellFormed()
    ensures d.entries == c.entries[id := r]
    ensures id in c.entries ==> d.keys == c.keys
    ensures id !in c.entries ==> d.keys == c.keys + [id]
  {
    if id in c.entries then Catalog(c.keys, c.entries[id := r])
    else Catalog(c.keys + [id], c.entries[id := r])
  }

  /** `del catalog[id]`: the other keys keep their order. */
  function Delete(c: Catalog, id: string): (d: Catalog)
    requires c.WellFormed()
    requires id in c.entries
    ensures d.WellFormed()
    ensures d.entries == c.entries - {id}
    ensures d.keys == RemoveFirst(c.keys, id)
  {
    RemoveFirstDistinct(c.keys, id);
    Catalog(RemoveFirst(c.keys, id), c.entries - {id})
  }

  /** `list(catalog.items())`. */
  function Items(c: Catalog): (r: seq<Item>)
    requires c.WellFormed()
    ensures |r| == |c.keys|
    ensures forall i :: 0 <= i < |r| ==> r[i] == (c.keys[i], c.entries[c.keys[i]])
  {
    seq(|c.keys|, i requires 0 <= i < |c.keys| => (c.keys[i], c.entries[c.keys[i]]))
  }

  /** An (id, record) pair is one of the catalog's items exactly when the catalog maps id to record. */
  lemma ItemsMembership(c: Catalog, id: string, r: ProductRecord)
    requires c.WellFormed()
    ensures (id, r) in Items(c) <==> id in c.entries && c.entries[id] == r
  {
    if id in c.entries && c.entries[id] == r {
      var i :| 0 <= i < |c.keys| && c.keys[i] == id;
      assert Items(c)[i] == (id, r);
    }
  }

  /** `price * quantity` of one entry. */
  function EntryValue(r: ProductRecord): real {
    Real(r.price) * Real(r.quantity)
  }

  /** The value of the entries listed in `ks`, added in the order listed. */
  function SumValues(ks: seq<string>, entries: map<string, ProductRecord>): real
    requires forall k :: k in ks ==> k in entries
  {
    if ks == [] then 0.0 else EntryValue(entries[ks[0]]) + SumValues(ks[1..], entries)
  }

  /** The catalog's total value, the sum of price times quantity over all entries. */
  function TotalValue(c: Catalog): real
    requires c.WellFormed()
  {
    SumValues(c.keys, c.entries)
  }

  /** Adding one more key at the end adds its value: the step of the accumulating loop. */
  lemma {:induction false} SumValuesAppend(ks: seq<string>, k: string, entries: map<string, ProductRecord>)
    requires forall x :: x in ks ==> x in entries
    requires k in entries
    ensures SumValues(ks + [k], entries) == SumValues(ks, entries) + EntryValue(entries[k])
  {
    if ks != [] {
      assert (ks + [k])[1..] == ks[1..] + [k];
      SumValuesAppend(ks[1..], k, entries);
    }
  }

  /** The sum depends only on the entries the listed keys select. */
  lemma {:induction false} SumValuesFrame(ks: seq<string>, e1: map<string, ProductRecord>, e2: map<string, ProductRecord>)
    requires forall x :: x in ks ==> x in e1 && x in e2 && e1[x] == e2[x]
    ensures SumValues(ks, e1) == SumValues(ks, e2)
  {
    if ks != [] {
      SumValuesFrame(ks[1..], e1, e2);
    }
  }

  /** Adding a product under a new id raises the total value by exactly that product's value. */
  lemma TotalValuePutNew(c: Catalog, id: string, r: ProductRecord)
    requires c.WellFormed()
    requires id !in c.entries
    ensures TotalValue(Put(c, id, r)) == TotalValue(c) + EntryValue(r)
  {
    var e := c.entries[id := r];
    SumValuesFrame(c.keys, c.entries, e);
    SumValuesAppend(c.keys, id, e);
  }

  /** Replacing the entry under an existing id swaps its value in the total. */
  lemma {:induction false} TotalValuePutExisting(c: Catalog, id: string, r: ProductRecord)
    requires c.WellFormed()
    requires id in c.entries
    ensures TotalValue(Put(c, id, r)) == TotalValue(c) - EntryValue(c.entries[id]) + EntryValue(r)
  {
    SumValuesReplace(c.keys, id, c.entries, r);
  }

  lemma {:induction false} SumValuesReplace(ks: seq<string>, id: string, e: map<string, ProductRecord>, r: ProductRecord)
    requires forall x :: x in ks ==> x in e
    requires forall i, j :: 0 <= i < j < |ks| ==> ks[i] != ks[j]
    requires id in ks
    ensures SumValues(ks, e[id := r]) == SumValues(ks, e) - EntryValue(e[id]) + EntryValue(r)
  {
    if ks[0] == id {
      assert id !in ks[1..];
      SumValuesFrame(ks[1..], e, e[id := r]);
    } else {
      SumValuesReplace(ks[1..], id, e, r);
    }
  }

  /** Deleting an entry lowers the total value by exactly that entry's value. */
  lemma TotalValueDelete(c: Catalog, id: string)
    requires c.WellFormed()
    requires id in c.entries
    ensures TotalValue(Delete(c, id)) == TotalValue(c) - EntryValue(c.entries[id])
  {
    SumValuesRemove(c.keys, id, c.entries);
  }

  lemma {:induction false} SumValuesRemove(ks: seq<string>, id: string, e: map<string, ProductRecord>)
    requires forall x :: x in ks ==> x in e
    requires forall i, j :: 0 <= i < j < |ks| ==> ks[i] != ks[j]
    requires id in ks
    ensures forall x :: x in RemoveFirst(ks, id) ==> x in e - {id}
    ensures SumValues(RemoveFirst(ks, id), e - {id}) == SumValues(ks, e) - EntryValue(e[id])
  {
    if ks[0] == id {
      assert id !in ks[1..];
      SumValuesFrame(ks[1..], e, e - {id});
    } else {
      SumValuesRemove(ks[1..], id, e);
    }
  }

  /** The two-product fixture of the inventory tests: 150.0 x 50 + 200.0 x 10. */
  const Fixture: Catalog := Catalog(
    ["E101", "E102"],
    map["E101" := ProductRecord("Smartphone", Int(50), Float(150.0), "Electronics"),
        "E102" := ProductRecord("Laptop", Int(10), Float(200.0), "Electronics")])

  lemma TotalValueExamples()
    ensures TotalValue(Empty) == 0.0
    ensures Fixture.WellFormed() && TotalValue(Fixture) == 9500.0
  {
  }

  /** Where `product_catalog.json` stands: absent, not valid JSON, or holding a catalog. */
  datatype CatalogFile = Missing | Corrupt | Stored(contents: Catalog) {
    ghost predicate WellFormed() { Stored? ==> contents.WellFormed() }
  }

  /** What `InventoryManager.read_product_data()` hands back: the stored catalog, or an empty one. */
  function Loaded(f: CatalogFile): (c: Catalog)
    ensures f.WellFormed() ==> c.WellFormed()
  {
    if f.Stored? then f.contents else Empty
  }

  /** `price < threshold`, the test of `filter_product_by_price`. */
  function FilterByPrice(c: Catalog, threshold: real): (r: seq<Item>)
    requires c.WellFormed()
  {
    Filter(Items(c), (x: Item) => Real(x.1.price) < threshold)
  }

  /** The price filter keeps exactly the entries priced below the threshold, in key order. */
  lemma FilterByPriceSpec(c: Catalog, threshold: real)
    requires c.WellFormed()
    ensures forall id, r :: (id, r) in FilterByPrice(c, threshold) <==>
      id in c.entries && c.entries[id] == r && Real(r.price) < threshold
    ensures IsSubsequence(FilterByPrice(c, threshold), Items(c))
  {
    forall id, r ensures (id, r) in FilterByPrice(c, threshold) <==>
      id in c.entries && c.entries[id] == r && Real(r.price) < threshold
    {
      ItemsMembership(c, id, r);
    }
    FilterIsSubsequence(Items(c), (x: Item) => Real(x.1.price) < threshold);
  }

  /** The menu codes of `filter_product_by_category`, each naming one exact-case category. */
  function CategoryForCode(code: string): Option<string> {
    if code == "1" then Some("Electronics")
    else if code == "2" then Some("Furniture")
    else if code == "3" then Some("Footwear")
    else if code == "4" then Some("Clothes")
    else None
  }

  /** `filter_product_by_category` after reading the code: None for an unknown code. */
  function FilterByCategory(c: Catalog, input: string): (r: Option<seq<Item>>)
    requires c.WellFormed()
  {
    match CategoryForCode(Strip(input))
    case None => None
    case Some(category) => Some(Filter(Items(c), (x: Item) => x.1.category == category))
  }

  /** A known code keeps exactly the entries of that category, in key order; any other code yields None. */
  lemma FilterByCategorySpec(c: Catalog, input: string)
    requires c.WellFormed()
    ensures FilterByCategory(c, input).None? <==> Strip(input) !in {"1", "2", "3", "4"}
    ensures FilterByCategory(c, input).Some? ==>
      var category := CategoryForCode(Strip(input)).value;
      && (forall id, r :: (id, r) in FilterByCategory(c, input).value <==>
            id in c.entries && c.entries[id] == r && r.category == category)
      && IsSubsequence(FilterByCategory(c, input).value, Items(c))
  {
    if CategoryForCode(Strip(input)).Some? {
      var category := CategoryForCode(Strip(input)).value;
      forall id, r ensures (id, r) in FilterByCategory(c, input).value <==>
        id in c.entries && c.entries[id] == r && r.category == category
      {
        ItemsMembership(c, id, r);
      }
      FilterIsSubsequence(Items(c), (x: Item) => x.1.category == category);
    }
  }

  /** `filter_product_with_low_quantity`: the entries with quantity below 5, or None when there are none. */
  function FilterLowQuantity(c: Catalog): (r: Option<seq<Item>>)
    requires c.WellFormed()
  {
    var low := Filter(Items(c), (x: Item) => Real(x.1.quantity) < 5.0);
    if |low| > 0 then Some(low) else None
  }

  lemma FilterLowQuantitySpec(c: Catalog)
    requires c.WellFormed()
    ensures FilterLowQuantity(c).None? <==> forall id :: id in c.entries ==> Real(c.entries[id].quantity) >= 5.0
    ensures FilterLowQuantity(c).Some? ==>
      && (forall id, r :: (id, r) in FilterLowQuantity(c).value <==>
            id in c.entries && c.entries[id] == r && Real(r.quantity) < 5.0)
      && IsSubsequence(FilterLowQuantity(c).value, Items(c))
  {
    var p := (x: Item) => Real(x.1.quantity) < 5.0;
    var low := Filter(Items(c), p);
    forall id, r ensures (id, r) in low <==> id in c.entries && c.entries[id] == r && Real(r.quantity) < 5.0 {
      ItemsMembership(c, id, r);
    }
    if |low| == 0 {
      forall id | id in c.entries ensures Real(c.entries[id].quantity) >= 5.0 {
        assert (id, c.entries[id]) in low <==> Real(c.entries[id].quantity) < 5.0;
      }
    } else {
      assert (low[0].0, low[0].1) in low;
    }
    FilterIsSubsequence(Items(c), p);
  }

  /**
   * The loop `for product_id, product in catalog.items(): if p(product): ...`
   * stopped at its first hit: the first key, in insertion order, whose entry
   * satisfies `p`, or None when no entry does.
   */
  function FirstKeyWhere(c: Catalog, p: ProductRecord -> bool): (r: Option<string>)
    requires c.WellFormed()
    ensures r.Some? ==> r.value in c.entries && p(c.entries[r.value])
    ensures r.Some? ==>
      exists i :: 0 <= i < |c.keys| && c.keys[i] == r.value && (forall j :: 0 <= j < i ==> !p(c.entries[c.keys[j]]))
    ensures r.None? <==> forall k :: k in c.entries ==> !p(c.entries[k])
  {
    match FirstIndex(c.keys, (k: string) => k in c.entries && p(c.entries[k]))
    case None => None
    case Some(i) => Some(c.keys[i])
  }

  /** The loop's stopping point is the search's answer: a hit with no hit before it, or no hit at all. */
  lemma FirstKeyWhereAt(c: Catalog, p: ProductRecord -> bool, i: nat)
    requires c.WellFormed()
    requires i <= |c.keys|
    requires forall j :: 0 <= j < i ==> !p(c.entries[c.keys[j]])
    ensures i < |c.keys| && p(c.entries[c.keys[i]]) ==> FirstKeyWhere(c, p) == Some(c.keys[i])
    ensures i == |c.keys| ==> FirstKeyWhere(c, p) == None
  {
    var q := (k: string) => k in c.entries && p(c.entries[k]);
    match FirstIndex(c.keys, q)
    case None =>
      assert i < |c.keys| ==> !q(c.keys[i]);
    case Some(k) =>
      assert q(c.keys[k]);
      if i < |c.keys| && p(c.entries[c.keys[i]]) {
        assert !(k < i) && !(i < k);
      }
  }

  /** The scan of `update_price`: walks the keys in order and stops at the first hit. */
  method ScanForKey(c: Catalog, p: ProductRecord -> bool) returns (r: Option<string>)
    requires c.WellFormed()
    ensures r == FirstKeyWhere(c, p)
  {
    var i := 0;
    while i < |c.keys|
      invariant 0 <= i <= |c.keys|
      invariant forall j :: 0 <= j < i ==> !p(c.entries[c.keys[j]])
    {
      if p(c.entries[c.keys[i]]) {
        FirstKeyWhereAt(c, p, i);
        return Some(c.keys[i]);
      }
      i := i + 1;
    }
    FirstKeyWhereAt(c, p, i);
    return None;
  }

  /** `update_quantity`'s test: the name equals exactly. */
  function NamedExactly(name: string): ProductRecord -> bool {
    (r: ProductRecord) => r.productName == name
  }

  /** The test of `search_product_by_name` and `update_price`: the names equal ignoring case. */
  function NamedIgnoringCase(name: string): ProductRecord -> bool {
    (r: ProductRecord) => SameIgnoringCase(r.productName, name)
  }

  /** `search_product_by_name`: the first entry whose name equals `name` ignoring case. */
  function FindByName(c: Catalog, name: string): (r: Option<ProductRecord>)
    requires c.WellFormed()
    ensures r.None? <==> forall id :: id in c.entries ==> !SameIgnoringCase(c.entries[id].productName, name)
    ensures r.Some? ==> r.value in c.entries.Values && SameIgnoringCase(r.value.productName, name)
    ensures r.Some? ==>
      exists i :: 0 <= i < |c.keys| && c.keys[i] in c.entries && r.value == c.entries[c.keys[i]] &&
        (forall j :: 0 <= j < i ==> !SameIgnoringCase(c.entries[c.keys[j]].productName, name))
  {
    match FirstKeyWhere(c, NamedIgnoringCase(name))
    case None => None
    case Some(id) => Some(c.entries[id])
  }
}
