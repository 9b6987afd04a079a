/**
 * `Product` (inventory/product.py): one product's fields, the discount and
 * stock rules, and the quantity and price updates that rewrite the matching
 * entry of the catalog file.
 */
module Products {

  import opened Wrappers
  import opened Catalog
  import opened Text

  /**
   * `max(0, price - price * (percentage / 100))`. Python's `max` keeps its
   * first argument on a tie, so every result that is not positive is the int 0.
   */
  function Discounted(price: Number, percentage: real): (r: Number)
    ensures Real(r) >= 0.0
    ensures Real(r) >= Real(price) - Real(price) * (percentage / 100.0)
    ensures Real(r) == 0.0 || Real(r) == Real(price) - Real(price) * (percentage / 100.0)
    ensures r.Float? <==> Real(r) > 0.0
  {
    var reduced := Real(price) - Real(price) * (percentage / 100.0);
    if reduced > 0.0 then Float(reduced) else Int(0)
  }

  /** A discount in range never raises a non-negative price. */
  lemma DiscountNeverRaises(price: Number, percentage: real)
    requires 0.0 <= percentage <= 100.0
    requires Real(price) >= 0.0
    ensures Real(Discounted(price, percentage)) <= Real(price)
  {
    var p := Real(price);
    assert p * (percentage / 100.0) >= 0.0 by {
      assert percentage / 100.0 >= 0.0;
    }
  }

  /** The unit test: 1000 at 10% becomes the float 900.0. */
  lemma DiscountExample()
    ensures Discounted(Int(1000), 10.0) == Float(900.0)
  {
  }

  class Product {
    var productName: string
    var quantity: Number
    var price: Number
    var category: string
    /** The catalog file at `self.database`. */
    var file: CatalogFile
    /** `self.product_data`, the catalog last read. */
    var productData: Catalog

    ghost predicate Valid()
      reads this
    {
      file.WellFormed() && productData.WellFormed()
    }

    constructor (productName: string, quantity: Number, price: Number, category: string, file: CatalogFile)
      requires file.WellFormed()
      ensures Valid()
      ensures ToDict() == ProductRecord(productName, quantity, price, category)
      ensures this.file == file && productData == Empty
    {
      this.productName := productName;
      this.quantity := quantity;
      this.price := price;
      this.category := category;
      this.file := file;
      this.productData := Empty;
    }

    /** `to_dict()`: the four fields under `product_name`, `quantity`, `price` and `category`. */
    function ToDict(): (r: ProductRecord)
      reads this
      ensures r.productName == productName && r.quantity == quantity
      ensures r.price == price && r.category == category
    {
      ProductRecord(productName, quantity, price, category)
    }

    /** `is_in_stock()`: `quantity > 0`, compared as a number whether it is an int or a float. */
    function IsInStock(): (r: bool)
      reads this
      ensures r <==> Real(quantity) > 0.0
    {
      Real(quantity) > 0.0
    }

    method ApplyDiscount(percentage: real) returns (r: Outcome<Exception>)
      modifies this`price
      ensures !(0.0 <= percentage <= 100.0) ==> r == Fail(ValueError) && price == old(price)
      ensures 0.0 <= percentage <= 100.0 ==> r == Pass && price == Discounted(old(price), percentage)
    {
      if !(0.0 <= percentage <= 100.0) {
        return Fail(ValueError);
      }
      price := Discounted(price, percentage);
      return Pass;
    }

    /** `read_product_data()`: a missing file raises FileNotFoundError and a corrupt one a JSON error. */
    method ReadProductData() returns (r: Result<Catalog, Exception>)
      requires Valid()
      modifies this`productData
      ensures Valid()
      ensures old(file).Missing? ==> r == Failure(FileNotFoundError) && productData == old(productData)
      ensures old(file).Corrupt? ==> r == Failure(JsonDecodeError) && productData == old(productData)
      ensures old(file).Stored? ==> r == Success(old(file).contents) && productData == old(file).contents
    {
      match file
      case Missing => return Failure(FileNotFoundError);
      case Corrupt => return Failure(JsonDecodeError);
      case Stored(c) =>
        productData := c;
        return Success(c);
    }

    method SaveProductData()
      modifies this`file
      ensures file == Stored(productData)
    {
      file := Stored(productData);
    }

    /**
     * `update_quantity(added_quantity)`: adds to the quantity of the first
     * entry whose name equals this product's name exactly, saves, and returns
     * the new quantity; returns None and saves nothing when no name matches.
     */
    method UpdateQuantity(added: Number) returns (r: Result<Option<Number>, Exception>)
      requires Valid()
      modifies this`productData, this`file
      ensures Valid()
      ensures !old(file).Stored? ==>
        && r == Failure(if old(file).Missing? then FileNotFoundError else JsonDecodeError)
        && file == old(file) && productData == old(productData)
      ensures old(file).Stored? ==>
        var c := old(file).contents;
        match FirstKeyWhere(c, NamedExactly(productName))
        case None => r == Success(None) && productData == c && file == old(file)
        case Some(id) =>
          var q := Add(c.entries[id].quantity, added);
          && r == Success(Some(q))
          && productData == Put(c, id, c.entries[id].(quantity := q))
          && file == Stored(productData)
    {
      var read := ReadProductData();
      if read.Failure? {
        return Failure(read.error);
      }
      var i := 0;
      while i < |productData.keys|
        invariant 0 <= i <= |productData.keys|
        invariant productData == old(file).contents && file == old(file)
        invariant forall j :: 0 <= j < i ==> !NamedExactly(productName)(productData.entries[productData.keys[j]])
      {
        var id := productData.keys[i];
        if productData.entries[id].productName == productName {
          FirstKeyWhereAt(productData, NamedExactly(productName), i);
          var q := Add(productData.entries[id].quantity, added);
          productData := Put(productData, id, productData.entries[id].(quantity := q));
          SaveProductData();
          return Success(Some(q));
        }
        i := i + 1;
      }
      FirstKeyWhereAt(productData, NamedExactly(productName), i);
      return Success(None);
    }

    /**
     * `update_price(new_price)`: sets this product's price (once the file has
     * been read), then sets the price of the first entry whose name equals this
     * product's name ignoring case and saves; saves nothing when no name matches.
     */
    method UpdatePrice(newPrice: Number) returns (r: Outcome<Exception>)
      requires Valid()
      modifies this`productData, this`file, this`price
      ensures Valid()
      ensures !old(file).Stored? ==>
        && r == Fail(if old(file).Missing? then FileNotFoundError else JsonDecodeError)
        && file == old(file) && productData == old(productData) && price == old(price)
      ensures old(file).Stored? ==>
        var c := old(file).contents;
        && r == Pass && price == newPrice
        && match FirstKeyWhere(c, NamedIgnoringCase(productName))
           case None => productData == c && file == old(file)
           case Some(id) =>
             productData == Put(c, id, c.entries[id].(price := newPrice)) && file == Stored(productData)
    {
      var read := ReadProductData();
      if read.Failure? {
        return Fail(read.error);
      }
      price := newPrice;
      var found := ScanForKey(productData, NamedIgnoringCase(productName));
      if found.Some? {
        var id := found.value;
        productData := Put(productData, id, productData.entries[id].(price := newPrice));
        SaveProductData();
      }
      return Pass;
    }
  }

  /** A product that is not in stock is always among the low-quantity entries of a catalog holding it. */
  lemma OutOfStockIsLowQuantity(p: Product, c: Catalog, id: string)
    requires c.WellFormed()
    requires id in c.entries && c.entries[id] == p.ToDict()
    requires !p.IsInStock()
    ensures FilterLowQuantity(c).Some?
    ensures (id, p.ToDict()) in FilterLowQuantity(c).value
  {
    FilterLowQuantitySpec(c);
  }
}
