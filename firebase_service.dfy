/** The record preparation of src/services/firebaseService.js: schema validation, the
    category value sanitiser, the optional-field copy, the promotion-type check and the
    save dispatch. Each operation yields the write it would issue (a merge `setDoc`) or the
    error it would throw; the Firestore calls themselves are not modelled. */
module FirebaseService {
  import opened Wrappers
  import opened Seqs
  import opened JsStrings
  import opened JsValues
  import opened Config

  // ---------------------------------------------------------------------------
  // Validation
  // ---------------------------------------------------------------------------

  /** The required fields that are `undefined` in `data`, in schema order. */
  function MissingFields(data: Record, required: seq<string>): (r: seq<string>)
    ensures forall f :: f in r <==> f in required && !Defined(data, f)
  {
    if |required| == 0 then []
    else
      var init := MissingFields(data, required[..|required| - 1]);
      var f := required[|required| - 1];
      assert forall g :: g in required <==> g in required[..|required| - 1] || g == f;
      if Defined(data, f) then init else init + [f]
  }

  /** The missing fields keep schema order: those of a longer schema are those of its first
      part followed by those of the rest. */
  lemma {:induction false} MissingFieldsAppend(data: Record, a: seq<string>, b: seq<string>)
    ensures MissingFields(data, a + b) == MissingFields(data, a) + MissingFields(data, b)
    decreases |b|
  {
    if |b| == 0 {
      assert a + b == a;
    } else {
      var b' := b[..|b| - 1];
      assert (a + b)[..|a + b| - 1] == a + b';
      MissingFieldsAppend(data, a, b');
    }
  }

  /** A field occurs in the missing list at most as often as in the schema, so a schema
      without repeats lists each missing field once. */
  lemma {:induction false} MissingFieldsOnce(data: Record, required: seq<string>, f: string)
    ensures multiset(MissingFields(data, required))[f] <= multiset(required)[f]
  {
    if |required| > 0 {
      var init := required[..|required| - 1];
      MissingFieldsOnce(data, init, f);
      assert required == init + [required[|required| - 1]];
    }
  }

  /** validateData: the error it throws, or None when every required field is defined. */
  function ValidateData(data: Record, schema: Schema, collectionName: string): (error: Option<string>)
    ensures error.None? <==> forall f :: f in schema.requiredFields ==> Defined(data, f)
    ensures error.Some? ==> error.value == "Missing required fields for " + collectionName + ": " +
                                           Join(MissingFields(data, schema.requiredFields), ", ")
  {
    var missing := MissingFields(data, schema.requiredFields);
    if |missing| > 0 then
      assert missing[0] in missing;
      Some("Missing required fields for " + collectionName + ": " + Join(missing, ", "))
    else None
  }

  // ---------------------------------------------------------------------------
  // Category values
  // ---------------------------------------------------------------------------

  /** The characters `[a-zA-Z0-9-_]`. */
  predicate AllowedChar(c: char)
  {
    ('a' <= c <= 'z') || ('A' <= c <= 'Z') || ('0' <= c <= '9') || c == '-' || c == '_'
  }

  /** `value.replace(/[^a-zA-Z0-9-_]/g, '-')`. */
  function SanitizeValue(s: string): (r: string)
    ensures |r| == |s|
    ensures forall i :: 0 <= i < |s| ==> r[i] == (if AllowedChar(s[i]) then s[i] else '-')
    ensures forall i :: 0 <= i < |r| ==> AllowedChar(r[i])
  {
    if |s| == 0 then []
    else SanitizeValue(s[..|s| - 1]) + [if AllowedChar(s[|s| - 1]) then s[|s| - 1] else '-']
  }

  lemma SanitizeIdempotent(s: string)
    ensures SanitizeValue(SanitizeValue(s)) == SanitizeValue(s)
  {
  }

  /** A value is left as it is exactly when it already has only allowed characters. */
  lemma SanitizeFixedPoint(s: string)
    ensures SanitizeValue(s) == s <==> forall i :: 0 <= i < |s| ==> AllowedChar(s[i])
  {
    if SanitizeValue(s) == s {
      forall i | 0 <= i < |s| ensures AllowedChar(s[i]) {
        assert SanitizeValue(s)[i] == s[i];
      }
    }
  }

  // ---------------------------------------------------------------------------
  // Optional fields
  // ---------------------------------------------------------------------------

  /** `data` after copying every listed field that `source` defines. */
  function WithOptionalFields(source: Record, data: Record, fields: seq<string>): Record
  {
    if |fields| == 0 then data
    else
      var d := WithOptionalFields(source, data, fields[..|fields| - 1]);
      var f := fields[|fields| - 1];
      if Defined(source, f) then d[f := source[f]] else d
  }

  /** The `optionalFields.forEach` that assigns into the record being prepared. */
  method CopyOptionalFields(source: Record, data: Record, fields: seq<string>) returns (result: Record)
    ensures result == WithOptionalFields(source, data, fields)
  {
    result := data;
    for i := 0 to |fields|
      invariant result == WithOptionalFields(source, data, fields[..i])
    {
      assert fields[..i + 1][..i] == fields[..i];
      var field := fields[i];
      if Get(source, field) != Undefined {
        result := result[field := source[field]];
      }
    }
    assert fields[..|fields|] == fields;
  }

  /** Exactly the listed fields that the source defines are copied, with their values;
      every other key keeps what the prepared record had. */
  lemma {:induction false} OptionalFieldsCopied(source: Record, data: Record, fields: seq<string>, k: string)
    ensures k in fields && Defined(source, k) ==>
      k in WithOptionalFields(source, data, fields) && WithOptionalFields(source, data, fields)[k] == source[k]
    ensures !(k in fields && Defined(source, k)) ==>
      (k in WithOptionalFields(source, data, fields) <==> k in data) &&
      (k in data ==> WithOptionalFields(source, data, fields)[k] == data[k])
  {
    if |fields| > 0 {
      OptionalFieldsCopied(source, data, fields[..|fields| - 1], k);
      assert forall f :: f in fields <==> f in fields[..|fields| - 1] || f == fields[|fields| - 1];
    }
  }

  // ---------------------------------------------------------------------------
  // Writes
  // ---------------------------------------------------------------------------

  datatype DocRef = DocRef(collection: string, id: string)

  /** `setDoc(ref, data, { merge: true })`. */
  datatype Write = MergeWrite(doc: DocRef, data: Record)

  /** A write and the id the operation returns. */
  datatype Saved = Saved(write: Write, id: string)

  const EmptyPathError := "Function doc() cannot be called with an empty path."

  /** The record addCategory prepares before copying the optional fields. */
  function AddedCategoryBase(id: string, categoryData: Record): Record
  {
    map["value" := Str(id), "displayName" := Get(categoryData, "displayName"),
        "createdAt" := ServerTimestamp, "updatedAt" := ServerTimestamp]
  }

  /** The record updateCategory prepares before copying the optional fields. */
  function UpdatedCategoryBase(categoryData: Record): Record
  {
    map["value" := Get(categoryData, "value"), "displayName" := Get(categoryData, "displayName"),
        "updatedAt" := ServerTimestamp]
  }

  /** addCategory: the document id is the sanitised value, which is also the stored value;
      the record written is the display name, both timestamps and the defined optional
      fields. */
  function AddCategory(categoryData: Record): (r: Result<Saved>)
    ensures r.Ok? ==> ValidateData(categoryData, CategoriesSchema, "categories").None?
    ensures r.Ok? ==>
      && Get(categoryData, "value").Str?
      && var id := SanitizeValue(Get(categoryData, "value").s);
      && r.value.id == id && r.value.write.doc == DocRef("categories", id)
      && Get(r.value.write.data, "value") == Str(id)
      && r.value.write.data == WithOptionalFields(categoryData, AddedCategoryBase(id, categoryData), CategoriesSchema.optionalFields)
    ensures ValidateData(categoryData, CategoriesSchema, "categories").Some? ==>
      r == Err(ValidateData(categoryData, CategoriesSchema, "categories").value)
    ensures r.Ok? <==> ValidateData(categoryData, CategoriesSchema, "categories").None? &&
                       Get(categoryData, "value").Str? && SanitizeValue(Get(categoryData, "value").s) != ""
    ensures (ValidateData(categoryData, CategoriesSchema, "categories").None? && Get(categoryData, "value").Str? &&
             SanitizeValue(Get(categoryData, "value").s) == "") ==>
      r == Err(EmptyPathError)
    ensures ValidateData(categoryData, CategoriesSchema, "categories").None? && !Get(categoryData, "value").Str? ==>
      r == Err("TypeError: categoryData.value.replace is not a function")
  {
    match ValidateData(categoryData, CategoriesSchema, "categories")
    case Some(message) => Err(message)
    case None =>
      match Get(categoryData, "value")
      case Str(v) =>
        var id := SanitizeValue(v);
        if id == "" then Err(EmptyPathError)
        else
          var base := AddedCategoryBase(id, categoryData);
          OptionalFieldsCopied(categoryData, base, CategoriesSchema.optionalFields, "value");
          Ok(Saved(MergeWrite(DocRef("categories", id), WithOptionalFields(categoryData, base, CategoriesSchema.optionalFields)), id))
      case _ => Err("TypeError: categoryData.value.replace is not a function")
  }

  /** updateCategory: the value is stored as given, without the sanitiser. */
  function UpdateCategory(id: string, categoryData: Record): (r: Result<Write>)
    ensures r.Ok? <==> ValidateData(categoryData, CategoriesSchema, "categories").None? && id != ""
    ensures r.Ok? ==> r.value.doc == DocRef("categories", id) &&
                      Get(r.value.data, "value") == Get(categoryData, "value") &&
                      r.value.data == WithOptionalFields(categoryData, UpdatedCategoryBase(categoryData), CategoriesSchema.optionalFields)
  {
    match ValidateData(categoryData, CategoriesSchema, "categories")
    case Some(message) => Err(message)
    case None =>
      if id == "" then Err(EmptyPathError)
      else
        var base := UpdatedCategoryBase(categoryData);
        OptionalFieldsCopied(categoryData, base, CategoriesSchema.optionalFields, "value");
        Ok(MergeWrite(DocRef("categories", id), WithOptionalFields(categoryData, base, CategoriesSchema.optionalFields)))
  }

  /** The same category value is stored sanitised when added and raw when updated. */
  lemma UpdateCategoryKeepsRawValue()
    ensures var data := map["value" := Str("Milk Tea"), "displayName" := Str("Milk Tea")];
            && AddCategory(data).Ok? && Get(AddCategory(data).value.write.data, "value") == Str("Milk-Tea")
            && UpdateCategory("Milk-Tea", data).Ok? && Get(UpdateCategory("Milk-Tea", data).value.data, "value") == Str("Milk Tea")
  {
    var data := map["value" := Str("Milk Tea"), "displayName" := Str("Milk Tea")];
    assert Defined(data, "value") && Defined(data, "displayName");
    CategoryFieldsPresent(data);
    MilkTeaSanitized();
  }

  lemma CategoryFieldsPresent(data: Record)
    requires Defined(data, "value") && Defined(data, "displayName")
    ensures ValidateData(data, CategoriesSchema, "categories").None?
  {
    assert forall f :: f in CategoriesSchema.requiredFields ==> f == "value" || f == "displayName";
  }

  lemma MilkTeaSanitized()
    ensures SanitizeValue("Milk Tea") == "Milk-Tea"
  {
    var s, r := "Milk Tea", SanitizeValue("Milk Tea");
    forall i | 0 <= i < 8 ensures r[i] == "Milk-Tea"[i] {
      if i != 4 {
        assert AllowedChar(s[i]);
      }
    }
  }

  /** `{ ...data, createdAt, updatedAt }` for an added document, or `{ ...data, updatedAt }`. */
  function Stamped(data: Record, created: bool): (r: Record)
    ensures r.Keys == data.Keys + {"updatedAt"} + (if created then {"createdAt"} else {})
    ensures forall k :: k in data && k != "updatedAt" && k != "createdAt" ==> r[k] == data[k]
  {
    if created then data["createdAt" := ServerTimestamp]["updatedAt" := ServerTimestamp]
    else data["updatedAt" := ServerTimestamp]
  }

  /** saveProduct: update in place when the record has an id, otherwise add under the fresh
      id Firestore would generate; either way only after validation. */
  function SaveProduct(productData: Record, freshId: string): (r: Result<Saved>)
    ensures r.Ok? ==> ValidateData(productData, ProductsSchema, "products").None?
    ensures ValidateData(productData, ProductsSchema, "products").Some? ==>
      r == Err(ValidateData(productData, ProductsSchema, "products").value)
    ensures r.Ok? && Truthy(Get(productData, "id")) ==>
      Get(productData, "id").Str? && r.value.id == Get(productData, "id").s &&
      r.value.write == MergeWrite(DocRef("products", r.value.id), Stamped(productData, false))
    ensures r.Ok? && !Truthy(Get(productData, "id")) ==>
      r.value.id == freshId && r.value.write == MergeWrite(DocRef("products", freshId), Stamped(productData, true))
    ensures r.Ok? <==> ValidateData(productData, ProductsSchema, "products").None? &&
                       (Get(productData, "id").Str? || !Truthy(Get(productData, "id")))
  {
    SaveDispatch(productData, freshId, ProductsSchema, "products", None)
  }

  /** The shared body of saveProduct and savePromotion; `typeError` is what the promotion
      type check reports, for promotions only. */
  function SaveDispatch(data: Record, freshId: string, schema: Schema, collection: string,
                        typeError: Option<string>): Result<Saved>
  {
    match ValidateData(data, schema, collection)
    case Some(message) => Err(message)
    case None =>
      if typeError.Some? then Err(typeError.value)
      else if Truthy(Get(data, "id")) then
        match Get(data, "id")
        case Str(id) => Ok(Saved(MergeWrite(DocRef(collection, id), Stamped(data, false)), id))
        case _ => Err("TypeError: document id is not a string")
      else Ok(Saved(MergeWrite(DocRef(collection, freshId), Stamped(data, true)), freshId))
  }

  /** A product shaped like the admin form's (`name`, `category`, `priceReg`/`priceLrg` but
      no `price`) is refused before anything is written, whether it is new or carries an id. */
  lemma RejectedForMissingPrice(form: Record, freshId: string)
    requires Defined(form, "name") && !Defined(form, "price") && Defined(form, "category")
    ensures SaveProduct(form, freshId) == Err("Missing required fields for products: price")
  {
    MissingOnlyPrice(form);
    assert Join(["price"], ", ") == "price";
  }

  lemma MissingOnlyPrice(form: Record)
    requires Defined(form, "name") && !Defined(form, "price") && Defined(form, "category")
    ensures MissingFields(form, ProductsSchema.requiredFields) == ["price"]
  {
    var required := ProductsSchema.requiredFields;
    assert required[..2][..1][..0] == [];
    assert required[..2][..1] == ["name"];
    assert required[..2] == ["name", "price"];
    assert MissingFields(form, required[..2][..1]) == [];
    assert MissingFields(form, required[..2]) == ["price"];
  }

  // ---------------------------------------------------------------------------
  // Promotion types
  // ---------------------------------------------------------------------------

  /** The properties every plain object inherits from `Object.prototype`. */
  const ObjectPrototypeNames: seq<string> :=
    ["constructor", "hasOwnProperty", "isPrototypeOf", "propertyIsEnumerable", "toLocaleString",
     "toString", "valueOf", "__proto__", "__defineGetter__", "__defineSetter__",
     "__lookupGetter__", "__lookupSetter__"]

  /** `config.promotionTypes[key]` is truthy: an own type or an inherited property. */
  predicate TypeLookupTruthy(key: string)
  {
    key in PromotionTypeNames || key in ObjectPrototypeNames
  }

  /** The promotion-type check as written: a truthy `type` is refused unless the property
      lookup on `promotionTypes` is truthy. */
  function CheckPromotionTypeAsWritten(data: Record): (error: Option<string>)
    ensures error.None? <==> !Truthy(Get(data, "type")) || TypeLookupTruthy(PropertyKey(Get(data, "type")))
    ensures error.Some? ==> error.value == "Invalid promotion type: " + PropertyKey(Get(data, "type"))
  {
    var t := Get(data, "type");
    if Truthy(t) && !TypeLookupTruthy(PropertyKey(t)) then Some("Invalid promotion type: " + PropertyKey(t))
    else None
  }

  /** The promotion-type check as intended: a truthy `type` must name one of the types. */
  function CheckPromotionType(data: Record): (error: Option<string>)
    ensures error.None? <==> !Truthy(Get(data, "type")) || PropertyKey(Get(data, "type")) in PromotionTypeNames
    ensures error.Some? ==> error.value == "Invalid promotion type: " + PropertyKey(Get(data, "type"))
  {
    var t := Get(data, "type");
    if Truthy(t) && PropertyKey(t) !in PromotionTypeNames then Some("Invalid promotion type: " + PropertyKey(t))
    else None
  }

  /** The check as written lets an inherited property name through as a type. */
  lemma InheritedNameAcceptedAsType()
    ensures var data := map["type" := Str("toString")];
            CheckPromotionTypeAsWritten(data).None? && CheckPromotionType(data).Some?
  {
    var data := map["type" := Str("toString")];
    assert ObjectPrototypeNames[5] == "toString";
    assert "toString" != PromotionTypeNames[0] && "toString" != PromotionTypeNames[1];
  }

  /** Apart from the inherited names, the two checks agree; both accept an absent type. */
  lemma TypeChecksAgreeOtherwise(data: Record)
    requires PropertyKey(Get(data, "type")) !in ObjectPrototypeNames
    ensures CheckPromotionTypeAsWritten(data) == CheckPromotionType(data)
    ensures "type" !in data ==> CheckPromotionType(data).None?
  {
  }

  /** savePromotion as written: like saveProduct, with the type check of lines 197 and 224
      (which lets inherited property names through) between validation and write. */
  function SavePromotion(promotionData: Record, freshId: string): (r: Result<Saved>)
    ensures r.Ok? ==> ValidateData(promotionData, PromotionsSchema, "promotions").None?
    ensures r.Ok? ==> CheckPromotionTypeAsWritten(promotionData).None?
    ensures ValidateData(promotionData, PromotionsSchema, "promotions").Some? ==>
      r == Err(ValidateData(promotionData, PromotionsSchema, "promotions").value)
    ensures ValidateData(promotionData, PromotionsSchema, "promotions").None? && CheckPromotionTypeAsWritten(promotionData).Some? ==>
      r == Err(CheckPromotionTypeAsWritten(promotionData).value)
    ensures r.Ok? && Truthy(Get(promotionData, "id")) ==>
      Get(promotionData, "id").Str? && r.value.id == Get(promotionData, "id").s &&
      r.value.write == MergeWrite(DocRef("promotions", r.value.id), Stamped(promotionData, false))
    ensures r.Ok? && !Truthy(Get(promotionData, "id")) ==>
      r.value.id == freshId && r.value.write == MergeWrite(DocRef("promotions", freshId), Stamped(promotionData, true))
    ensures r.Ok? <==> ValidateData(promotionData, PromotionsSchema, "promotions").None? &&
                       CheckPromotionTypeAsWritten(promotionData).None? &&
                       (Get(promotionData, "id").Str? || !Truthy(Get(promotionData, "id")))
  {
    SaveDispatch(promotionData, freshId, PromotionsSchema, "promotions",
                 if ValidateData(promotionData, PromotionsSchema, "promotions").None? then CheckPromotionTypeAsWritten(promotionData) else None)
  }

  /** savePromotion as intended: only the two promotion types are accepted. */
  function SavePromotionCorrected(promotionData: Record, freshId: string): (r: Result<Saved>)
    ensures r.Ok? ==> ValidateData(promotionData, PromotionsSchema, "promotions").None?
    ensures r.Ok? ==> CheckPromotionType(promotionData).None?
    ensures ValidateData(promotionData, PromotionsSchema, "promotions").Some? ==>
      r == Err(ValidateData(promotionData, PromotionsSchema, "promotions").value)
    ensures ValidateData(promotionData, PromotionsSchema, "promotions").None? && CheckPromotionType(promotionData).Some? ==>
      r == Err(CheckPromotionType(promotionData).value)
    ensures r.Ok? && Truthy(Get(promotionData, "type")) ==> PropertyKey(Get(promotionData, "type")) in PromotionTypeNames
    ensures r.Ok? && Truthy(Get(promotionData, "id")) ==>
      Get(promotionData, "id").Str? && r.value.id == Get(promotionData, "id").s &&
      r.value.write == MergeWrite(DocRef("promotions", r.value.id), Stamped(promotionData, false))
    ensures r.Ok? && !Truthy(Get(promotionData, "id")) ==>
      r.value.id == freshId && r.value.write == MergeWrite(DocRef("promotions", freshId), Stamped(promotionData, true))
    ensures r.Ok? <==> ValidateData(promotionData, PromotionsSchema, "promotions").None? &&
                       CheckPromotionType(promotionData).None? &&
                       (Get(promotionData, "id").Str? || !Truthy(Get(promotionData, "id")))
  {
    SaveDispatch(promotionData, freshId, PromotionsSchema, "promotions",
                 if ValidateData(promotionData, PromotionsSchema, "promotions").None? then CheckPromotionType(promotionData) else None)
  }

  /** The two saves differ only on inherited property names given as the type. */
  lemma SavesAgreeOtherwise(promotionData: Record, freshId: string)
    requires PropertyKey(Get(promotionData, "type")) !in ObjectPrototypeNames
    ensures SavePromotion(promotionData, freshId) == SavePromotionCorrected(promotionData, freshId)
  {
    TypeChecksAgreeOtherwise(promotionData);
  }

  /** A complete promotion whose type is "toString". */
  const InheritedTypePromotion: Record :=
    map["active" := Bool(true), "category" := Str("tea"), "price" := Num(500), "type" := Str("toString")]

  lemma InheritedTypePromotionValid()
    ensures ValidateData(InheritedTypePromotion, PromotionsSchema, "promotions").None?
    ensures !Truthy(Get(InheritedTypePromotion, "id"))
  {
    assert PromotionsSchema.requiredFields == ["active", "category", "price"];
    assert forall f :: f in PromotionsSchema.requiredFields ==> Defined(InheritedTypePromotion, f);
  }

  lemma InheritedTypePromotionChecks()
    ensures CheckPromotionTypeAsWritten(InheritedTypePromotion).None?
    ensures CheckPromotionType(InheritedTypePromotion) == Some("Invalid promotion type: toString")
  {
    var data := InheritedTypePromotion;
    var alone: Record := map["type" := Str("toString")];
    assert Get(data, "type") == Get(alone, "type") == Str("toString");
    assert PropertyKey(Get(data, "type")) == "toString";
    assert "toString" != PromotionTypeNames[0] && "toString" != PromotionTypeNames[1];
    assert CheckPromotionType(data).Some?;
    assert "Invalid promotion type: " + "toString" == "Invalid promotion type: toString";
    InheritedNameAcceptedAsType();
  }

  /** A promotion whose type is "toString" is written by the save as written and refused
      by the intended one. */
  lemma InheritedTypeSaved(freshId: string)
    ensures SavePromotion(InheritedTypePromotion, freshId).Ok?
    ensures SavePromotion(InheritedTypePromotion, freshId).value.id == freshId
    ensures SavePromotionCorrected(InheritedTypePromotion, freshId) == Err("Invalid promotion type: toString")
  {
    InheritedTypePromotionValid();
    InheritedTypePromotionChecks();
  }
}
