/**
 * `InventoryManager` (inventory/inventory_manager.py): the product store.
 * The catalog file is a field; every operation first replaces the in-memory
 * catalog by what the file holds, and every change writes the whole catalog
 * back.
 */
module Inventory {

  import opened Wrappers
  import opened Text
  import opened Sequences
  import opened Catalog
  import opened Products

  /** The body of `^[A-Z]\d{3}$`: one capital letter and three digits. */
  predicate IdShape(s: string) {
    |s| == 4 && IsUpper(s[0]) && All(s[1..], IsDigit)
  }

  /** `valid_product_id`: True for a well-formed id, ValueError otherwise. */
  function ValidProductId(id: string): (r: Outcome<Exception>)
    ensures r.Pass? <==> EndAnchored(IdShape, id)
    ensures r.Fail? ==> r.error == ValueError
  {
    if EndAnchored(IdShape, id) then Pass else Fail(ValueError)
  }

  /** The ids `valid_product_id` accepts: a capital letter, three digits, and at most a final newline. */
  lemma ValidProductIdExactly(id: string)
    ensures ValidProductId(id).Pass? <==>
      && (|id| == 4 || (|id| == 5 && id[4] == '\n'))
      && IsUpper(id[0]) && IsDigit(id[1]) && IsDigit(id[2]) && IsDigit(id[3])
  {
    if |id| == 5 && id[4] == '\n' {
      assert id[..4][1..] == id[1..4];
    }
    if |id| == 4 || (|id| == 5 && id[4] == '\n') {
      var body := id[..4];
      assert body[1..] == [id[1], id[2], id[3]];
    }
  }

  /** A character `[_\d\s-]` may stand for between the letters and the final letters or digits of a name. */
  predicate NameJoiner(c: char) {
    c == '_' || IsDigit(c) || IsSpace(c) || c == '-'
  }

  /** The body of `^[A-Za-z]+[_\d\s-]*[A-Za-z\d]+$`: letters, joiners, then letters or digits. */
  predicate NameShape(s: string) {
    exists i, j :: 1 <= i <= j < |s| && All(s[..i], IsLetter) && All(s[i..j], NameJoiner) && All(s[j..], IsAlnum)
  }

  /** The accepted spellings of the category, with the misspelt `footware` of the source. */
  const CategoryList: seq<string> :=
    ["Electronics", "electronics", "Furniture", "furniture", "Clothes", "clothes", "Footwear", "footware"]

  /** Python truthiness of the four fields: an empty string or a zero number is false. */
  predicate AllFieldsTruthy(r: ProductRecord) {
    r.productName != "" && Real(r.quantity) != 0.0 && Real(r.price) != 0.0 && r.category != ""
  }

  /**
   * `validate_product`: TypeError for a falsy field, NameError for a name off
   * the pattern, NameError for a category off the list, TypeError unless both
   * price and quantity are floats; checked in that order.
   */
  function ValidateProduct(r: ProductRecord): (o: Outcome<Exception>)
    ensures o.Pass? <==>
      && AllFieldsTruthy(r)
      && EndAnchored(NameShape, r.productName)
      && r.category in CategoryList
      && r.price.Float? && r.quantity.Float?
    ensures !AllFieldsTruthy(r) ==> o == Fail(TypeError)
    ensures AllFieldsTruthy(r) && !EndAnchored(NameShape, r.productName) ==> o == Fail(NameError)
    ensures AllFieldsTruthy(r) && EndAnchored(NameShape, r.productName) && r.category !in CategoryList ==>
      o == Fail(NameError)
    ensures AllFieldsTruthy(r) && EndAnchored(NameShape, r.productName) && r.category in CategoryList ==>
      (r.price.Float? && r.quantity.Float? <==> o == Pass) &&
      (!(r.price.Float? && r.quantity.Float?) ==> o == Fail(TypeError))
    ensures o.Fail? ==> o.error in {TypeError, NameError}
  {
    if !AllFieldsTruthy(r) then Fail(TypeError)
    else if !EndAnchored(NameShape, r.productName) then Fail(NameError)
    else if r.category !in CategoryList then Fail(NameError)
    else if !(r.price.Float? && r.quantity.Float?) then Fail(TypeError)
    else Pass
  }

  /** A split point pair that fits the three runs of the pattern shows a name follows it. */
  lemma NameShapeBy(s: string, i: int, j: int)
    requires 1 <= i <= j < |s|
    requires forall k :: 0 <= k < i ==> IsLetter(s[k])
    requires forall k :: i <= k < j ==> NameJoiner(s[k])
    requires forall k :: j <= k < |s| ==> IsAlnum(s[k])
    ensures NameShape(s)
  {
    assert All(s[..i], IsLetter) && All(s[i..j], NameJoiner) && All(s[j..], IsAlnum);
  }

  /** The names the source's comment gives as examples all follow the pattern; a one-letter name does not. */
  lemma NameShapeExamples()
    ensures NameShape("iphone") && NameShape("Iphone10") && NameShape("iphone-10")
    ensures NameShape("iphone_10") && NameShape("my iphone")
    ensures !NameShape("a")
  {
    NameShapeBy("iphone", 5, 5);
    NameShapeBy("Iphone10", 6, 6);
    NameShapeBy("iphone-10", 6, 7);
    NameShapeBy("iphone_10", 6, 7);
    NameShapeBy("my iphone", 2, 3);
  }

  /** The typo in the list: `footware` passes validation while the correct lower-case `footwear` is a NameError. */
  lemma FootwareTypo(name: string, quantity: real, price: real)
    requires EndAnchored(NameShape, name)
    requires quantity != 0.0 && price != 0.0
    ensures ValidateProduct(ProductRecord(name, Float(quantity), Float(price), "footware")) == Pass
    ensures ValidateProduct(ProductRecord(name, Float(quantity), Float(price), "footwear")) == Fail(NameError)
  {
  }

  /** A price or quantity given as an int is refused even when every other check passes. */
  lemma IntegerPriceRefused(r: ProductRecord)
    requires AllFieldsTruthy(r) && EndAnchored(NameShape, r.productName) && r.category in CategoryList
    requires r.price.Int? || r.quantity.Int?
    ensures ValidateProduct(r) == Fail(TypeError)
  {
  }

  /**
   * A lower-case category is accepted on add, but no menu code of the
   * category filter, which compares exact case, ever lists it.
   */
  lemma LowerCaseCategoryNeverListed(c: Catalog, input: string, id: string)
    requires c.WellFormed()
    requires id in c.entries
    requires c.entries[id].category in ["electronics", "furniture", "clothes", "footware"]
    ensures FilterByCategory(c, input).Some? ==> (id, c.entries[id]) !in FilterByCategory(c, input).value
  {
    FilterByCategorySpec(c, input);
  }

  class InventoryManager {
    /** The catalog file at `self.database`. */
    var file: CatalogFile
    /** `self.json_file_available`. */
    var jsonFileAvailable: bool
    /** `self.product_data`, the catalog in memory. */
    var productData: Catalog

    ghost predicate Valid()
      reads this
    {
      file.WellFormed() && productData.WellFormed()
    }

    /** Memory holds what a read of the file gives: every public operation ends in this state. */
    ghost predicate InSync()
      reads this
    {
      productData == Loaded(file)
    }

    constructor (file: CatalogFile)
      requires file.WellFormed()
      ensures Valid()
      ensures this.file == file && productData == Empty && !jsonFileAvailable
    {
      this.file := file;
      this.jsonFileAvailable := false;
      this.productData := Empty;
    }

    /**
     * `read_product_data()`: the stored catalog, or an empty one when the file
     * is missing or is not valid JSON. Opening an existing file sets the
     * availability flag before the JSON is parsed.
     */
    method ReadProductData() returns (c: Catalog)
      requires Valid()
      modifies this`productData, this`jsonFileAvailable
      ensures Valid()
      ensures c == Loaded(file)
      ensures jsonFileAvailable == (old(jsonFileAvailable) || !file.Missing?)
      ensures productData == (if file.Stored? then file.contents else old(productData))
    {
      match file
      case Missing =>
        return Empty;
      case Corrupt =>
        jsonFileAvailable := true;
        return Empty;
      case Stored(contents) =>
        jsonFileAvailable := true;
        productData := contents;
        return contents;
    }

    /** `save_product()`: the file now holds the catalog in memory. */
    method SaveProduct()
      modifies this`file
      ensures file == Stored(productData)
    {
      file := Stored(productData);
    }

    /**
     * `add_product(product_id, product)`: an id already present is refused
     * without raising; otherwise a malformed id raises ValueError and an
     * invalid product TypeError or NameError, and a valid one is stored and
     * saved.
     */
    method AddProduct(id: string, product: Product) returns (r: Outcome<Exception>)
      requires Valid()
      modifies this`productData, this`jsonFileAvailable, this`file
      ensures Valid() && InSync()
      ensures jsonFileAvailable == (old(jsonFileAvailable) || !old(file).Missing?)
      ensures id in Loaded(old(file)).entries ==> r == Pass && file == old(file)
      ensures id !in Loaded(old(file)).entries && ValidProductId(id).Fail? ==>
        r == ValidProductId(id) && file == old(file)
      ensures id !in Loaded(old(file)).entries && ValidProductId(id).Pass? && ValidateProduct(product.ToDict()).Fail? ==>
        r == ValidateProduct(product.ToDict()) && file == old(file)
      ensures id !in Loaded(old(file)).entries && ValidProductId(id).Pass? && ValidateProduct(product.ToDict()).Pass? ==>
        r == Pass && file == Stored(Put(Loaded(old(file)), id, product.ToDict()))
      ensures old(InSync()) && file == old(file) ==> productData == old(productData)
    {
      productData := ReadProductData();
      if id !in productData.entries {
        var idCheck := ValidProductId(id);
        if idCheck.Fail? {
          return idCheck;
        }
        var check := ValidateProduct(product.ToDict());
        if check.Fail? {
          return check;
        }
        productData := Put(productData, id, product.ToDict());
        SaveProduct();
      }
      return Pass;
    }

    /**
     * `update_product(product_id, updated_product)`: False for an unknown id;
     * an invalid product raises; a valid one replaces the entry, is saved, and
     * True is returned.
     */
    method UpdateProduct(id: string, product: Product) returns (r: Result<bool, Exception>)
      requires Valid()
      modifies this`productData, this`jsonFileAvailable, this`file
      ensures Valid() && InSync()
      ensures jsonFileAvailable == (old(jsonFileAvailable) || !old(file).Missing?)
      ensures id !in Loaded(old(file)).entries ==> r == Success(false) && file == old(file)
      ensures id in Loaded(old(file)).entries && ValidateProduct(product.ToDict()).Fail? ==>
        r == Failure(ValidateProduct(product.ToDict()).error) && file == old(file)
      ensures id in Loaded(old(file)).entries && ValidateProduct(product.ToDict()).Pass? ==>
        r == Success(true) && file == Stored(Put(Loaded(old(file)), id, product.ToDict()))
      ensures old(InSync()) && file == old(file) ==> productData == old(productData)
    {
      productData := ReadProductData();
      if id !in productData.entries {
        return Success(false);
      }
      var check := ValidateProduct(product.ToDict());
      if check.Fail? {
        return Failure(check.error);
      }
      productData := Put(productData, id, product.ToDict());
      SaveProduct();
      return Success(true);
    }

    /** `remove_product(product_id)`: deletes a present id and saves; an absent id changes nothing. */
    method RemoveProduct(id: string)
      requires Valid()
      modifies this`productData, this`jsonFileAvailable, this`file
      ensures Valid() && InSync()
      ensures jsonFileAvailable == (old(jsonFileAvailable) || !old(file).Missing?)
      ensures id in Loaded(old(file)).entries ==> file == Stored(Delete(Loaded(old(file)), id))
      ensures id !in Loaded(old(file)).entries ==> file == old(file)
      ensures old(InSync()) && file == old(file) ==> productData == old(productData)
    {
      productData := ReadProductData();
      if id in productData.entries {
        productData := Delete(productData, id);
        SaveProduct();
      }
    }

    /** `search_product_by_name(name)`: the first entry whose name equals `name` ignoring case, or None (`False`). */
    method SearchProductByName(name: string) returns (r: Option<ProductRecord>)
      requires Valid()
      modifies this`productData, this`jsonFileAvailable
      ensures Valid() && InSync()
      ensures jsonFileAvailable == (old(jsonFileAvailable) || !file.Missing?)
      ensures r == FindByName(Loaded(file), name)
    {
      productData := ReadProductData();
      var i := 0;
      while i < |productData.keys|
        invariant 0 <= i <= |productData.keys|
        invariant productData == Loaded(file)
        invariant forall j :: 0 <= j < i ==> !NamedIgnoringCase(name)(productData.entries[productData.keys[j]])
      {
        var product := productData.entries[productData.keys[i]];
        if SameIgnoringCase(name, product.productName) {
          FirstKeyWhereAt(productData, NamedIgnoringCase(name), i);
          return Some(product);
        }
        i := i + 1;
      }
      FirstKeyWhereAt(productData, NamedIgnoringCase(name), i);
      return None;
    }

    /** `get_total_inventory_value()`: price times quantity summed over the catalog, accumulated key by key. */
    method GetTotalInventoryValue() returns (total: real)
      requires Valid()
      modifies this`productData, this`jsonFileAvailable
      ensures Valid() && InSync()
      ensures jsonFileAvailable == (old(jsonFileAvailable) || !file.Missing?)
      ensures total == TotalValue(Loaded(file))
    {
      total := 0.0;
      productData := ReadProductData();
      var i := 0;
      while i < |productData.keys|
        invariant 0 <= i <= |productData.keys|
        invariant productData == Loaded(file)
        invariant jsonFileAvailable == (old(jsonFileAvailable) || !file.Missing?)
        invariant total == SumValues(productData.keys[..i], productData.entries)
      {
        var product := productData.entries[productData.keys[i]];
        SumValuesAppend(productData.keys[..i], productData.keys[i], productData.entries);
        assert productData.keys[..i + 1] == productData.keys[..i] + [productData.keys[i]];
        total := total + Real(product.price) * Real(product.quantity);
        i := i + 1;
      }
      assert productData.keys[..i] == productData.keys;
    }

    /** `filter_product_by_price()` with the price the user types as `threshold`. */
    method FilterProductByPrice(threshold: real) returns (r: seq<Item>)
      requires Valid()
      modifies this`productData, this`jsonFileAvailable
      ensures Valid() && InSync()
      ensures jsonFileAvailable == (old(jsonFileAvailable) || !file.Missing?)
      ensures r == FilterByPrice(Loaded(file), threshold)
    {
      productData := ReadProductData();
      r := FilterByPrice(productData, threshold);
    }

    /** `filter_product_by_category()` with the typed menu code as `input`. */
    method FilterProductByCategory(input: string) returns (r: Option<seq<Item>>)
      requires Valid()
      modifies this`productData, this`jsonFileAvailable
      ensures Valid() && InSync()
      ensures jsonFileAvailable == (old(jsonFileAvailable) || !file.Missing?)
      ensures r == FilterByCategory(Loaded(file), input)
    {
      productData := ReadProductData();
      r := FilterByCategory(productData, input);
    }

    /** `filter_product_with_low_quantity()`. */
    method FilterProductWithLowQuantity() returns (r: Option<seq<Item>>)
      requires Valid()
      modifies this`productData, this`jsonFileAvailable
      ensures Valid() && InSync()
      ensures jsonFileAvailable == (old(jsonFileAvailable) || !file.Missing?)
      ensures r == FilterLowQuantity(Loaded(file))
    {
      productData := ReadProductData();
      r := FilterLowQuantity(productData);
    }
  }
}
