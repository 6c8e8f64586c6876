/** The one-off product import of uploadProducts.js: every product that has all five
    required fields is staged in a write batch under a newly generated document; the rest
    are reported and skipped. Reading the JSON file and committing the batch are not
    modelled. */
module UploadProducts {
  import opened Seqs
  import opened JsValues

  const UploadRequiredFields: seq<string> := ["name", "category", "priceReg", "priceLrg", "image"]

  /** `value !== undefined && value !== ''`. */
  predicate Present(v: JsValue)
  {
    v != Undefined && v != Str("")
  }

  /** isValidProduct: `requiredFields.every(...)`, written out over the five fields. */
  predicate IsValidProduct(product: Record)
  {
    && Present(Get(product, "name")) && Present(Get(product, "category"))
    && Present(Get(product, "priceReg")) && Present(Get(product, "priceLrg"))
    && Present(Get(product, "image"))
  }

  predicate IsInvalidProduct(product: Record)
  {
    !IsValidProduct(product)
  }

  /** A product is valid exactly when none of the five fields is missing or the empty string:
      falsy values such as 0, false and null pass. */
  lemma ValidIff(product: Record)
    ensures IsValidProduct(product) <==>
      forall f :: f in UploadRequiredFields ==> Get(product, f) != Undefined && Get(product, f) != Str("")
    ensures (forall f :: f in UploadRequiredFields ==> Get(product, f) in {Num(0), Bool(false), Null}) ==>
      IsValidProduct(product)
  {
  }

  /** One `batch.set` on a newly generated document: the document is the `ordinal`-th one
      generated during the run. */
  datatype StagedWrite = StagedWrite(ordinal: nat, data: Record)

  /** The Firestore write batch the import fills. */
  class WriteBatch {
    var writes: seq<StagedWrite>

    constructor ()
      ensures writes == []
    {
      writes := [];
    }

    method Set(ordinal: nat, data: Record)
      modifies this
      ensures writes == old(writes) + [StagedWrite(ordinal, data)]
    {
      writes := writes + [StagedWrite(ordinal, data)];
    }
  }

  /** What the import stages for a list of products. */
  function StagedWrites(products: seq<Record>): seq<StagedWrite>
  {
    if |products| == 0 then []
    else
      var init := StagedWrites(products[..|products| - 1]);
      var p := products[|products| - 1];
      if IsValidProduct(p) then init + [StagedWrite(|init|, p)] else init
  }

  /** The staged writes are exactly the valid products, in input order, each under its own
      newly generated document. */
  lemma {:induction false} StagedAreValidProducts(products: seq<Record>)
    ensures |StagedWrites(products)| == |Filter(products, IsValidProduct)|
    ensures forall k :: 0 <= k < |StagedWrites(products)| ==>
      StagedWrites(products)[k] == StagedWrite(k, Filter(products, IsValidProduct)[k])
  {
    if |products| > 0 {
      StagedAreValidProducts(products[..|products| - 1]);
      FilterStep(products, IsValidProduct);
    }
  }

  /** uploadProducts: stage the valid products, report the invalid ones. */
  method Upload(products: seq<Record>) returns (batch: WriteBatch, skipped: seq<Record>)
    ensures fresh(batch)
    ensures batch.writes == StagedWrites(products)
    ensures skipped == Filter(products, IsInvalidProduct)
  {
    batch := new WriteBatch();
    skipped := [];
    var generated := 0;
    for i := 0 to |products|
      invariant batch.writes == StagedWrites(products[..i])
      invariant generated == |batch.writes|
      invariant skipped == Filter(products[..i], IsInvalidProduct)
    {
      var product := products[i];
      SkipStep(products, i);
      StageStep(products, i);
      if IsValidProduct(product) {
        batch.Set(generated, product);
        generated := generated + 1;
      } else {
        skipped := skipped + [product];
      }
    }
    assert products[..|products|] == products;
  }

  lemma StageStep(products: seq<Record>, i: nat)
    requires i < |products|
    ensures var before := StagedWrites(products[..i]);
      StagedWrites(products[..i + 1]) ==
        if IsValidProduct(products[i]) then before + [StagedWrite(|before|, products[i])] else before
  {
    assert products[..i + 1][..i] == products[..i];
  }

  lemma SkipStep(products: seq<Record>, i: nat)
    requires i < |products|
    ensures Filter(products[..i + 1], IsInvalidProduct) ==
      Filter(products[..i], IsInvalidProduct) + (if IsInvalidProduct(products[i]) then [products[i]] else [])
  {
    assert products[..i + 1][..i] == products[..i];
    FilterStep(products[..i + 1], IsInvalidProduct);
  }

  /** Every input product is either staged or skipped, never both. */
  lemma StagedOrSkipped(products: seq<Record>, p: Record)
    requires p in products
    ensures p in Filter(products, IsValidProduct) <==> p !in Filter(products, IsInvalidProduct)
  {
  }
}
