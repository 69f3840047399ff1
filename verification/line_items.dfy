/** Line items: a name, a quantity and a unit price typed as text, and the
    taxes, discounts and charges selected for the item. The running total looks
    each selection up in its catalog by id and applies the catalog's entry. */
module LineItems {
  import opened Wrappers
  import opened Text
  import opened Validation
  import Numbers
  import Grid
  import Taxes
  import Discounts
  import Charges

  datatype LineItem = LineItem(id: string, name: string, description: string, quantity: real, unitPrice: real,
                               taxes: seq<Taxes.TaxItem>, discounts: seq<Discounts.DiscountItem>,
                               charges: seq<Charges.ChargeItem>, customFields: seq<(string, string)>)

  datatype LineItemForm = LineItemForm(name: string, description: string, quantity: string, unitPrice: string,
                                       taxes: seq<Taxes.TaxItem>, discounts: seq<Discounts.DiscountItem>,
                                       charges: seq<Charges.ChargeItem>)

  function DefaultForm(): LineItemForm {
    LineItemForm("", "", "", "", [], [], [])
  }

  /** `to_form_props`: the numbers are written out as text, the selections copied. */
  function ToForm(x: LineItem): (f: LineItemForm)
    ensures f.name == x.name && f.description == x.description
    ensures f.taxes == x.taxes && f.discounts == x.discounts && f.charges == x.charges
  {
    LineItemForm(x.name, x.description, Numbers.FormatNumber(x.quantity), Numbers.FormatNumber(x.unitPrice),
                 x.taxes, x.discounts, x.charges)
  }

  /** `from_form_props`: the numbers are parsed (0 when they do not parse) and
      every selection is dropped; `id` is the fresh identifier the item receives. */
  function FromForm(f: LineItemForm, id: string): (x: LineItem)
    ensures x.id == id && x.name == f.name && x.description == f.description
    ensures x.quantity == Numbers.ParseOrZero(f.quantity) && x.unitPrice == Numbers.ParseOrZero(f.unitPrice)
    ensures |x.taxes| == 0 && |x.discounts| == 0 && |x.charges| == 0 && |x.customFields| == 0
  {
    LineItem(id, f.name, f.description, Numbers.ParseOrZero(f.quantity), Numbers.ParseOrZero(f.unitPrice), [], [], [], [])
  }

  /** Through the form and back, an item keeps its name, description and numbers,
      and loses its selections and custom-field values. */
  lemma FormRoundTrip(x: LineItem, id: string)
    requires Numbers.IsFiniteDecimal(x.quantity) && Numbers.IsFiniteDecimal(x.unitPrice)
    ensures FromForm(ToForm(x), id) == x.(id := id, taxes := [], discounts := [], charges := [], customFields := [])
  {
    Numbers.FormatNumberRoundTrip(x.quantity);
    Numbers.FormatNumberRoundTrip(x.unitPrice);
  }

  function Forms(id: string): Grid.FormData<LineItem, LineItemForm> {
    Grid.FormData(ToForm, f => FromForm(f, id), DefaultForm())
  }

  /** The message for a quantity that does not parse; an empty one does not parse either. */
  function QuantityProblem(quantity: string): Option<string> {
    if Numbers.ParseDecimal(quantity).None? then Some("Quantity must be a valid number") else None
  }

  /** The message for a unit price that does not parse. */
  function PriceProblem(unitPrice: string): Option<string> {
    if Numbers.ParseDecimal(unitPrice).None? then Some("Unit Price must be a valid number") else None
  }

  /** `LineItemForm::validate`: the name has a minimum length but no maximum, and
      the number checks run even on empty text. */
  function Validate(f: LineItemForm): ValidationResult {
    CombineResults(NameChecks(f.name, "Item Name", 2, None)
      + [Required(f.quantity, "Quantity"), Required(f.unitPrice, "Unit Price")]
      + (Problem("quantity", QuantityProblem(f.quantity)) + Problem("unit-price", PriceProblem(f.unitPrice))))
  }

  /** An acceptable item name: not blank and at least 2 bytes. */
  predicate ValidName(name: string) {
    !IsBlank(name) && 2 <= Utf8Len(name)
  }

  function NamePart(f: LineItemForm): ValidationResult {
    CombineResults(NameChecks(f.name, "Item Name", 2, None))
  }

  function FieldsPart(f: LineItemForm): ValidationResult {
    CombineResults([Required(f.quantity, "Quantity"), Required(f.unitPrice, "Unit Price")])
  }

  function NumberPart(f: LineItemForm): ValidationResult {
    CombineResults(Problem("quantity", QuantityProblem(f.quantity)) + Problem("unit-price", PriceProblem(f.unitPrice)))
  }

  /** `Validate` is the merge of its three groups of checks. */
  lemma ValidateParts(f: LineItemForm)
    ensures Validate(f) == Merge(Merge(NamePart(f), FieldsPart(f)), NumberPart(f))
  {
    CombineThree(NameChecks(f.name, "Item Name", 2, None),
                 [Required(f.quantity, "Quantity"), Required(f.unitPrice, "Unit Price")],
                 Problem("quantity", QuantityProblem(f.quantity)) + Problem("unit-price", PriceProblem(f.unitPrice)));
  }

  lemma NamePartFacts(f: LineItemForm)
    ensures NamePart(f).isValid <==> ValidName(f.name)
    ensures KeyedWithin(NamePart(f), {"Item Name"})
  {
    CombineNameChecks(f.name, "Item Name", 2, None);
  }

  /** The required-field group reports exactly the blank numbers, each under its own key. */
  lemma FieldsPartErrors(f: LineItemForm)
    ensures FieldsPart(f).isValid <==> !IsBlank(f.quantity) && !IsBlank(f.unitPrice)
    ensures |FieldsPart(f).errors| == 0
    ensures FieldsPart(f).fieldErrors == RequiredErrors(f.quantity, "Quantity") + RequiredErrors(f.unitPrice, "Unit Price")
  {
    var a, b := Required(f.quantity, "Quantity"), Required(f.unitPrice, "Unit Price");
    assert [a] + [b] == [a, b];
    CombineAppend([a], [b]);
    CombineRequired(f.quantity, "Quantity");
    CombineRequired(f.unitPrice, "Unit Price");
  }

  lemma FieldsPartKeys(f: LineItemForm)
    ensures KeyedWithin(FieldsPart(f), {"Quantity", "Unit Price"})
    ensures "Quantity" in FieldsPart(f).fieldErrors <==> IsBlank(f.quantity)
    ensures "Unit Price" in FieldsPart(f).fieldErrors <==> IsBlank(f.unitPrice)
  {
    FieldsPartErrors(f);
  }

  lemma NumberPartFacts(f: LineItemForm)
    ensures NumberPart(f).isValid <==> Numbers.ParseDecimal(f.quantity).Some? && Numbers.ParseDecimal(f.unitPrice).Some?
    ensures KeyedWithin(NumberPart(f), {"quantity", "unit-price"})
    ensures "quantity" in NumberPart(f).fieldErrors <==> Numbers.ParseDecimal(f.quantity).None?
    ensures "unit-price" in NumberPart(f).fieldErrors <==> Numbers.ParseDecimal(f.unitPrice).None?
    ensures Numbers.ParseDecimal(f.quantity).None? ==>
      "quantity" in NumberPart(f).fieldErrors && NumberPart(f).fieldErrors["quantity"] == "Quantity must be a valid number"
    ensures Numbers.ParseDecimal(f.unitPrice).None? ==>
      "unit-price" in NumberPart(f).fieldErrors && NumberPart(f).fieldErrors["unit-price"] == "Unit Price must be a valid number"
  {
    var a, b := Problem("quantity", QuantityProblem(f.quantity)), Problem("unit-price", PriceProblem(f.unitPrice));
    CombineAppend(a, b);
    CombineProblem("quantity", QuantityProblem(f.quantity));
    CombineProblem("unit-price", PriceProblem(f.unitPrice));
  }

  /** A form is accepted exactly when the name is acceptable and both numbers parse. */
  lemma ValidateValid(f: LineItemForm)
    ensures Validate(f).isValid <==>
      ValidName(f.name) && Numbers.ParseDecimal(f.quantity).Some? && Numbers.ParseDecimal(f.unitPrice).Some?
  {
    ValidateParts(f);
    NamePartFacts(f);
    FieldsPartErrors(f);
    NumberPartFacts(f);
    if Numbers.ParseDecimal(f.quantity).Some? {
      Numbers.ParsedHasDigit(f.quantity);
    }
    if Numbers.ParseDecimal(f.unitPrice).Some? {
      Numbers.ParsedHasDigit(f.unitPrice);
    }
  }

  /** The messages of a form are the union of its three groups' messages. */
  lemma ValidateErrors(f: LineItemForm)
    ensures Validate(f).fieldErrors == NamePart(f).fieldErrors + FieldsPart(f).fieldErrors + NumberPart(f).fieldErrors
  {
    ValidateParts(f);
  }

  /** A quantity that does not parse is reported under the key "quantity", and only then. */
  lemma QuantityMessage(f: LineItemForm)
    ensures "quantity" in Validate(f).fieldErrors <==> Numbers.ParseDecimal(f.quantity).None?
  {
    ValidateErrors(f);
    NamePartFacts(f);
    FieldsPartKeys(f);
    NumberPartFacts(f);
    KeyFromLast("quantity", NamePart(f).fieldErrors, FieldsPart(f).fieldErrors, NumberPart(f).fieldErrors);
  }

  /** A unit price that does not parse is reported under the key "unit-price", and only then. */
  lemma UnitPriceMessage(f: LineItemForm)
    ensures "unit-price" in Validate(f).fieldErrors <==> Numbers.ParseDecimal(f.unitPrice).None?
  {
    ValidateErrors(f);
    NamePartFacts(f);
    FieldsPartKeys(f);
    NumberPartFacts(f);
    KeyFromLast("unit-price", NamePart(f).fieldErrors, FieldsPart(f).fieldErrors, NumberPart(f).fieldErrors);
  }

  /** A blank quantity is reported under "Quantity", a key apart from the parse failure's one. */
  lemma QuantityRequired(f: LineItemForm)
    ensures "Quantity" in Validate(f).fieldErrors <==> IsBlank(f.quantity)
  {
    ValidateErrors(f);
    NamePartFacts(f);
    FieldsPartKeys(f);
    NumberPartFacts(f);
    KeyFromMiddle("Quantity", NamePart(f).fieldErrors, FieldsPart(f).fieldErrors, NumberPart(f).fieldErrors);
  }

  /** A blank unit price is reported under "Unit Price". */
  lemma UnitPriceRequired(f: LineItemForm)
    ensures "Unit Price" in Validate(f).fieldErrors <==> IsBlank(f.unitPrice)
  {
    ValidateErrors(f);
    NamePartFacts(f);
    FieldsPartKeys(f);
    NumberPartFacts(f);
    KeyFromMiddle("Unit Price", NamePart(f).fieldErrors, FieldsPart(f).fieldErrors, NumberPart(f).fieldErrors);
  }

  /** An empty quantity is reported twice: as required and as not a number. */
  lemma EmptyQuantityTwoErrors(f: LineItemForm)
    requires f.quantity == ""
    ensures "Quantity" in Validate(f).fieldErrors && "quantity" in Validate(f).fieldErrors
    ensures !Validate(f).isValid
  {
    QuantityMessage(f);
    QuantityRequired(f);
    if Numbers.ParseDecimal(f.quantity).Some? {
      Numbers.ParsedHasDigit(f.quantity);
    }
  }

  predicate Acceptable(x: LineItem) {
    ValidName(x.name)
  }

  /** The line-item form's submit handler: the grid sees the form only when it validates. */
  function HandleSubmit(g: Grid.GridModel<LineItem, LineItemForm>, f: LineItemForm, id: string): Grid.GridModel<LineItem, LineItemForm> {
    Grid.SubmitValidated(g, f, Validate(f).isValid, Forms(id))
  }

  /** Submitting through the form never puts an item with an unacceptable name into the table. */
  lemma HandleSubmitKeepsAcceptable(g: Grid.GridModel<LineItem, LineItemForm>, f: LineItemForm, id: string)
    requires forall i :: 0 <= i < |g.items| ==> Acceptable(g.items[i])
    ensures forall i :: 0 <= i < |HandleSubmit(g, f, id).items| ==> Acceptable(HandleSubmit(g, f, id).items[i])
  {
    ValidateValid(f);
    Grid.SubmitValidatedPreserves(g, f, Validate(f).isValid, Forms(id), Acceptable);
  }

  // The running total.

  /** The position of the first catalog entry with identifier `id`, if any. */
  function FindIndex<T>(catalog: seq<T>, idOf: T -> string, id: string): (r: Option<nat>)
    ensures r.Some? ==> r.value < |catalog| && idOf(catalog[r.value]) == id
    ensures r.Some? ==> forall k :: 0 <= k < r.value ==> idOf(catalog[k]) != id
    ensures r.None? ==> forall k :: 0 <= k < |catalog| ==> idOf(catalog[k]) != id
  {
    if |catalog| == 0 then None
    else if idOf(catalog[0]) == id then Some(0)
    else match FindIndex(catalog[1..], idOf, id)
      case None => None
      case Some(k) => Some(k + 1)
  }

  /** `iter().find` by id: the first catalog entry with that id. */
  function Lookup<T>(catalog: seq<T>, idOf: T -> string, id: string): Option<T> {
    match FindIndex(catalog, idOf, id)
    case None => None
    case Some(k) => Some(catalog[k])
  }

  /** One selection: when its id is in the catalog, `step` applies the catalog's entry. */
  function ApplyOne<T>(t: real, selected: T, catalog: seq<T>, idOf: T -> string, step: (real, T) -> real): real {
    match Lookup(catalog, idOf, idOf(selected))
    case None => t
    case Some(entry) => step(t, entry)
  }

  /** The selections, applied in order. */
  function ApplyAll<T>(t: real, selected: seq<T>, catalog: seq<T>, idOf: T -> string, step: (real, T) -> real): real
    decreases |selected|
  {
    if |selected| == 0 then t
    else ApplyAll(ApplyOne(t, selected[0], catalog, idOf, step), selected[1..], catalog, idOf, step)
  }

  /** Applying two runs of selections is applying their concatenation. */
  lemma {:induction false} ApplyAllAppend<T>(t: real, a: seq<T>, b: seq<T>, catalog: seq<T>, idOf: T -> string, step: (real, T) -> real)
    ensures ApplyAll(t, a + b, catalog, idOf, step) == ApplyAll(ApplyAll(t, a, catalog, idOf, step), b, catalog, idOf, step)
    decreases |a|
  {
    if |a| > 0 {
      assert (a + b)[1..] == a[1..] + b;
      ApplyAllAppend(ApplyOne(t, a[0], catalog, idOf, step), a[1..], b, catalog, idOf, step);
    } else {
      assert a + b == b;
    }
  }

  /** Only the ids of the selections matter: the catalog supplies the values. */
  lemma {:induction false} OnlyIdsMatter<T>(t: real, a: seq<T>, b: seq<T>, catalog: seq<T>, idOf: T -> string, step: (real, T) -> real)
    requires |a| == |b|
    requires forall i :: 0 <= i < |a| ==> idOf(a[i]) == idOf(b[i])
    ensures ApplyAll(t, a, catalog, idOf, step) == ApplyAll(t, b, catalog, idOf, step)
    decreases |a|
  {
    if |a| > 0 {
      OnlyIdsMatter(ApplyOne(t, a[0], catalog, idOf, step), a[1..], b[1..], catalog, idOf, step);
    }
  }

  /** The selections whose id is in the catalog. */
  function Known<T>(selected: seq<T>, catalog: seq<T>, idOf: T -> string): (r: seq<T>)
    ensures |r| <= |selected|
    ensures forall i :: 0 <= i < |r| ==> Lookup(catalog, idOf, idOf(r[i])).Some?
  {
    if |selected| == 0 then []
    else if Lookup(catalog, idOf, idOf(selected[0])).Some? then [selected[0]] + Known(selected[1..], catalog, idOf)
    else Known(selected[1..], catalog, idOf)
  }

  /** Selections whose id is not in the catalog are skipped. */
  lemma {:induction false} UnknownSkipped<T>(t: real, selected: seq<T>, catalog: seq<T>, idOf: T -> string, step: (real, T) -> real)
    ensures ApplyAll(t, selected, catalog, idOf, step) == ApplyAll(t, Known(selected, catalog, idOf), catalog, idOf, step)
    decreases |selected|
  {
    if |selected| > 0 {
      var t1 := ApplyOne(t, selected[0], catalog, idOf, step);
      UnknownSkipped(t1, selected[1..], catalog, idOf, step);
      if Lookup(catalog, idOf, idOf(selected[0])).Some? {
        var k := [selected[0]] + Known(selected[1..], catalog, idOf);
        assert k[0] == selected[0] && k[1..] == Known(selected[1..], catalog, idOf);
      }
    }
  }

  function TaxId(x: Taxes.TaxItem): string { x.id }
  function DiscountId(x: Discounts.DiscountItem): string { x.id }
  function ChargeId(x: Charges.ChargeItem): string { x.id }

  /** A tax adds its rate's share of the running total. */
  function TaxStep(t: real, tax: Taxes.TaxItem): real {
    t + t * (tax.rate / 100.0)
  }

  /** A percentage discount takes its share off the running total; a fixed one its value. */
  function DiscountStep(t: real, d: Discounts.DiscountItem): real {
    match d.discountType
    case Percentage => t - t * (d.value / 100.0)
    case FixedAmount => t - d.value
  }

  /** A charge adds its amount. */
  function ChargeStep(t: real, c: Charges.ChargeItem): real {
    t + c.amount
  }

  function ApplyTaxes(t: real, selected: seq<Taxes.TaxItem>, catalog: seq<Taxes.TaxItem>): real {
    ApplyAll(t, selected, catalog, TaxId, TaxStep)
  }

  function ApplyDiscounts(t: real, selected: seq<Discounts.DiscountItem>, catalog: seq<Discounts.DiscountItem>): real {
    ApplyAll(t, selected, catalog, DiscountId, DiscountStep)
  }

  function ApplyCharges(t: real, selected: seq<Charges.ChargeItem>, catalog: seq<Charges.ChargeItem>): real {
    ApplyAll(t, selected, catalog, ChargeId, ChargeStep)
  }

  /** What one selected tax multiplies the total by: 1 when its id is not in the catalog. */
  function TaxFactorOne(selected: Taxes.TaxItem, catalog: seq<Taxes.TaxItem>): real {
    match Lookup(catalog, TaxId, selected.id)
    case None => 1.0
    case Some(tax) => 1.0 + tax.rate / 100.0
  }

  /** The product of (1 + rate/100) over the selected taxes found in the catalog. */
  function TaxFactor(selected: seq<Taxes.TaxItem>, catalog: seq<Taxes.TaxItem>): real {
    if |selected| == 0 then 1.0 else Numbers.Times(TaxFactorOne(selected[0], catalog), TaxFactor(selected[1..], catalog))
  }

  /** What one selected charge adds: 0 when its id is not in the catalog. */
  function ChargeOne(selected: Charges.ChargeItem, catalog: seq<Charges.ChargeItem>): real {
    match Lookup(catalog, ChargeId, selected.id)
    case None => 0.0
    case Some(c) => c.amount
  }

  /** The sum of the amounts of the selected charges found in the catalog. */
  function ChargeSum(selected: seq<Charges.ChargeItem>, catalog: seq<Charges.ChargeItem>): real {
    if |selected| == 0 then 0.0 else ChargeOne(selected[0], catalog) + ChargeSum(selected[1..], catalog)
  }

  /** What one selected discount multiplies the total by: (1 - value/100) for a
      percentage found in the catalog, else 1. */
  function DiscountFactorOne(selected: Discounts.DiscountItem, catalog: seq<Discounts.DiscountItem>): real {
    match Lookup(catalog, DiscountId, selected.id)
    case Some(d) => if d.discountType == Discounts.Percentage then 1.0 - d.value / 100.0 else 1.0
    case None => 1.0
  }

  /** What one selected discount subtracts: the value of a fixed amount found in the catalog, else 0. */
  function DiscountOffsetOne(selected: Discounts.DiscountItem, catalog: seq<Discounts.DiscountItem>): real {
    match Lookup(catalog, DiscountId, selected.id)
    case Some(d) => if d.discountType == Discounts.FixedAmount then d.value else 0.0
    case None => 0.0
  }

  /** The product of the discounts' factors. */
  function DiscountFactor(selected: seq<Discounts.DiscountItem>, catalog: seq<Discounts.DiscountItem>): real {
    if |selected| == 0 then 1.0 else Numbers.Times(DiscountFactorOne(selected[0], catalog), DiscountFactor(selected[1..], catalog))
  }

  /** What the fixed discounts take off: each fixed value, reduced by the
      percentage discounts applied after it. */
  function DiscountOffset(selected: seq<Discounts.DiscountItem>, catalog: seq<Discounts.DiscountItem>): real {
    if |selected| == 0 then 0.0
    else Numbers.Times(DiscountOffsetOne(selected[0], catalog), DiscountFactor(selected[1..], catalog)) + DiscountOffset(selected[1..], catalog)
  }

  /** One tax multiplies the total by its factor. */
  lemma TaxOne(t: real, selected: Taxes.TaxItem, catalog: seq<Taxes.TaxItem>)
    ensures ApplyOne(t, selected, catalog, TaxId, TaxStep) == Numbers.Times(t, TaxFactorOne(selected, catalog))
  {
    match Lookup(catalog, TaxId, selected.id)
    case None =>
    case Some(tax) =>
      assert t + t * (tax.rate / 100.0) == t * (1.0 + tax.rate / 100.0);
  }

  /** One discount scales the total by its factor and subtracts its offset. */
  lemma DiscountOne(t: real, selected: Discounts.DiscountItem, catalog: seq<Discounts.DiscountItem>)
    ensures ApplyOne(t, selected, catalog, DiscountId, DiscountStep)
      == Numbers.Times(t, DiscountFactorOne(selected, catalog)) - DiscountOffsetOne(selected, catalog)
  {
    match Lookup(catalog, DiscountId, selected.id)
    case None =>
    case Some(d) =>
      assert t - t * (d.value / 100.0) == t * (1.0 - d.value / 100.0);
  }

  lemma TimesAssoc(a: real, b: real, c: real)
    ensures Numbers.Times(Numbers.Times(a, b), c) == Numbers.Times(a, Numbers.Times(b, c))
  {
  }

  /** One discount followed by the rest, in the affine form. */
  lemma AffineCompose(total: real, t: real, t1: real, a: real, b: real, f: real, o: real, factor: real, offset: real)
    requires total == Numbers.Times(t1, f) - o && t1 == Numbers.Times(t, a) - b
    requires factor == Numbers.Times(a, f) && offset == Numbers.Times(b, f) + o
    ensures total == Numbers.Times(t, factor) - offset
  {
  }

  /** Taxes compound: the total is multiplied by each found tax's (1 + rate/100). */
  lemma {:induction false} TaxesScale(t: real, selected: seq<Taxes.TaxItem>, catalog: seq<Taxes.TaxItem>)
    ensures ApplyTaxes(t, selected, catalog) == Numbers.Times(t, TaxFactor(selected, catalog))
    decreases |selected|
  {
    if |selected| > 0 {
      var rest := selected[1..];
      var t1 := ApplyOne(t, selected[0], catalog, TaxId, TaxStep);
      TaxesScale(t1, rest, catalog);
      TaxOne(t, selected[0], catalog);
      TimesAssoc(t, TaxFactorOne(selected[0], catalog), TaxFactor(rest, catalog));
    }
  }

  /** Charges add up: the total grows by the sum of the found charges' amounts. */
  lemma {:induction false} ChargesAdd(t: real, selected: seq<Charges.ChargeItem>, catalog: seq<Charges.ChargeItem>)
    ensures ApplyCharges(t, selected, catalog) == t + ChargeSum(selected, catalog)
    decreases |selected|
  {
    if |selected| > 0 {
      var t1 := ApplyOne(t, selected[0], catalog, ChargeId, ChargeStep);
      assert t1 == t + ChargeOne(selected[0], catalog);
      ChargesAdd(t1, selected[1..], catalog);
    }
  }

  /** Discounts are affine in the running total: it is scaled by the percentage
      factors and reduced by the fixed offset. */
  lemma {:induction false} DiscountsAffine(t: real, selected: seq<Discounts.DiscountItem>, catalog: seq<Discounts.DiscountItem>)
    ensures ApplyDiscounts(t, selected, catalog) == Numbers.Times(t, DiscountFactor(selected, catalog)) - DiscountOffset(selected, catalog)
    decreases |selected|
  {
    if |selected| > 0 {
      var rest := selected[1..];
      var t1 := ApplyOne(t, selected[0], catalog, DiscountId, DiscountStep);
      DiscountsAffine(t1, rest, catalog);
      DiscountOne(t, selected[0], catalog);
      AffineCompose(ApplyDiscounts(t, selected, catalog), t, t1,
                    DiscountFactorOne(selected[0], catalog), DiscountOffsetOne(selected[0], catalog),
                    DiscountFactor(rest, catalog), DiscountOffset(rest, catalog),
                    DiscountFactor(selected, catalog), DiscountOffset(selected, catalog));
    }
  }

  /** The running total from a parsed quantity and unit price: taxes, then discounts, then charges. */
  function Total(quantity: real, unitPrice: real, selectedTaxes: seq<Taxes.TaxItem>,
                 selectedDiscounts: seq<Discounts.DiscountItem>, selectedCharges: seq<Charges.ChargeItem>,
                 taxes: seq<Taxes.TaxItem>, discounts: seq<Discounts.DiscountItem>, charges: seq<Charges.ChargeItem>): real
  {
    ApplyCharges(ApplyDiscounts(ApplyTaxes(Numbers.Times(quantity, unitPrice), selectedTaxes, taxes), selectedDiscounts, discounts),
                 selectedCharges, charges)
  }

  /** The form's running total: text that does not parse counts as 0. */
  function LineTotal(f: LineItemForm, taxes: seq<Taxes.TaxItem>, discounts: seq<Discounts.DiscountItem>,
                     charges: seq<Charges.ChargeItem>): real
  {
    Total(Numbers.ParseOrZero(f.quantity), Numbers.ParseOrZero(f.unitPrice), f.taxes, f.discounts, f.charges,
          taxes, discounts, charges)
  }

  /** The total in closed form: quantity times unit price, scaled by the tax and
      discount factors, less the fixed discounts, plus the charges. */
  predicate ClosedForm(total: real, quantity: real, unitPrice: real, selectedTaxes: seq<Taxes.TaxItem>,
                       selectedDiscounts: seq<Discounts.DiscountItem>, selectedCharges: seq<Charges.ChargeItem>,
                       taxes: seq<Taxes.TaxItem>, discounts: seq<Discounts.DiscountItem>, charges: seq<Charges.ChargeItem>)
  {
    total == Numbers.Times(Numbers.Times(quantity, unitPrice), Numbers.Times(TaxFactor(selectedTaxes, taxes), DiscountFactor(selectedDiscounts, discounts)))
             - DiscountOffset(selectedDiscounts, discounts) + ChargeSum(selectedCharges, charges)
  }

  lemma TotalClosedForm(quantity: real, unitPrice: real, selectedTaxes: seq<Taxes.TaxItem>,
                        selectedDiscounts: seq<Discounts.DiscountItem>, selectedCharges: seq<Charges.ChargeItem>,
                        taxes: seq<Taxes.TaxItem>, discounts: seq<Discounts.DiscountItem>, charges: seq<Charges.ChargeItem>)
    ensures ClosedForm(Total(quantity, unitPrice, selectedTaxes, selectedDiscounts, selectedCharges, taxes, discounts, charges),
                       quantity, unitPrice, selectedTaxes, selectedDiscounts, selectedCharges, taxes, discounts, charges)
  {
    var base := Numbers.Times(quantity, unitPrice);
    var t1 := ApplyTaxes(base, selectedTaxes, taxes);
    TaxesScale(base, selectedTaxes, taxes);
    DiscountsAffine(t1, selectedDiscounts, discounts);
    ChargesAdd(ApplyDiscounts(t1, selectedDiscounts, discounts), selectedCharges, charges);
    TimesAssoc(base, TaxFactor(selectedTaxes, taxes), DiscountFactor(selectedDiscounts, discounts));
  }

  /** With nothing selected the total is quantity times unit price, whatever the catalogs hold. */
  lemma TotalNoSelections(quantity: real, unitPrice: real, taxes: seq<Taxes.TaxItem>,
                          discounts: seq<Discounts.DiscountItem>, charges: seq<Charges.ChargeItem>)
    ensures Total(quantity, unitPrice, [], [], [], taxes, discounts, charges) == quantity * unitPrice
  {
  }

  /** A form whose quantity or unit price does not parse has total 0 when nothing is selected. */
  lemma UnparsedTotalZero(f: LineItemForm, taxes: seq<Taxes.TaxItem>, discounts: seq<Discounts.DiscountItem>,
                          charges: seq<Charges.ChargeItem>)
    requires |f.taxes| == 0 && |f.discounts| == 0 && |f.charges| == 0
    requires Numbers.ParseDecimal(f.quantity).None? || Numbers.ParseDecimal(f.unitPrice).None?
    ensures LineTotal(f, taxes, discounts, charges) == 0.0
  {
    var q, u := Numbers.ParseOrZero(f.quantity), Numbers.ParseOrZero(f.unitPrice);
    assert q == 0.0 || u == 0.0;
    TotalNoSelections(q, u, taxes, discounts, charges);
    assert f.taxes == [] && f.discounts == [] && f.charges == [];
  }

  /** The derived total as the source computes it: parse both numbers, then run the selections. */
  method LineTotalLoop(f: LineItemForm, taxes: seq<Taxes.TaxItem>, discounts: seq<Discounts.DiscountItem>,
                       charges: seq<Charges.ChargeItem>) returns (total: real)
    ensures total == LineTotal(f, taxes, discounts, charges)
  {
    var quantity := Numbers.ParseOrZero(f.quantity);
    var unitPrice := Numbers.ParseOrZero(f.unitPrice);
    total := RunningTotal(quantity, unitPrice, f.taxes, f.discounts, f.charges, taxes, discounts, charges);
  }

  /** The three loops over the selections, each looking the selection up in its catalog. */
  method RunningTotal(quantity: real, unitPrice: real, selectedTaxes: seq<Taxes.TaxItem>,
                      selectedDiscounts: seq<Discounts.DiscountItem>, selectedCharges: seq<Charges.ChargeItem>,
                      taxes: seq<Taxes.TaxItem>, discounts: seq<Discounts.DiscountItem>, charges: seq<Charges.ChargeItem>)
    returns (total: real)
    ensures total == Total(quantity, unitPrice, selectedTaxes, selectedDiscounts, selectedCharges, taxes, discounts, charges)
    ensures ClosedForm(total, quantity, unitPrice, selectedTaxes, selectedDiscounts, selectedCharges, taxes, discounts, charges)
  {
    total := quantity * unitPrice;
    var i := 0;
    while i < |selectedTaxes|
      invariant 0 <= i <= |selectedTaxes|
      invariant ApplyTaxes(total, selectedTaxes[i..], taxes) == ApplyTaxes(Numbers.Times(quantity, unitPrice), selectedTaxes, taxes)
    {
      match Lookup(taxes, TaxId, selectedTaxes[i].id) {
        case Some(tax) => total := TaxStep(total, tax);
        case None =>
      }
      assert selectedTaxes[i..][1..] == selectedTaxes[i + 1..];
      i := i + 1;
    }
    var afterTaxes := total;
    i := 0;
    while i < |selectedDiscounts|
      invariant 0 <= i <= |selectedDiscounts|
      invariant ApplyDiscounts(total, selectedDiscounts[i..], discounts) == ApplyDiscounts(afterTaxes, selectedDiscounts, discounts)
    {
      match Lookup(discounts, DiscountId, selectedDiscounts[i].id) {
        case Some(d) => total := DiscountStep(total, d);
        case None =>
      }
      assert selectedDiscounts[i..][1..] == selectedDiscounts[i + 1..];
      i := i + 1;
    }
    var afterDiscounts := total;
    i := 0;
    while i < |selectedCharges|
      invariant 0 <= i <= |selectedCharges|
      invariant ApplyCharges(total, selectedCharges[i..], charges) == ApplyCharges(afterDiscounts, selectedCharges, charges)
    {
      match Lookup(charges, ChargeId, selectedCharges[i].id) {
        case Some(c) => total := ChargeStep(total, c);
        case None =>
      }
      assert selectedCharges[i..][1..] == selectedCharges[i + 1..];
      i := i + 1;
    }
    TotalClosedForm(quantity, unitPrice, selectedTaxes, selectedDiscounts, selectedCharges, taxes, discounts, charges);
  }
}
