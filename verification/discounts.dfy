/** The discount catalog: a discount is a percentage or a fixed amount, applies
    to the whole invoice or to line items, and its form keeps the value as text. */
module Discounts {
  import opened Wrappers
  import opened Text
  import opened Validation
  import Numbers
  import Grid

  datatype DiscountType = Percentage | FixedAmount
  datatype DiscountScope = GlobalInvoice | LineItem

  /** `Display for DiscountType`. */
  function TypeText(t: DiscountType): string {
    match t
    case FixedAmount => "Fixed Amount"
    case Percentage => "Percentage"
  }

  /** `Display for DiscountScope`. */
  function ScopeText(s: DiscountScope): string {
    match s
    case LineItem => "Line Item"
    case GlobalInvoice => "Global Invoice"
  }

  /** The value the type select shows for the form's current type. */
  function TypeOption(t: DiscountType): string {
    if t == FixedAmount then "FixedAmount" else "Percentage"
  }

  /** The type select's change handler: "FixedAmount" selects the fixed type, anything else percentage. */
  function ParseType(value: string): (t: DiscountType)
    ensures value != "FixedAmount" ==> t == Percentage
  {
    if value == "FixedAmount" then FixedAmount else Percentage
  }

  /** The value the scope select shows for the form's current scope. */
  function ScopeOption(s: DiscountScope): string {
    if s == LineItem then "LineItem" else "GlobalInvoice"
  }

  /** The scope select's change handler: "LineItem" selects line items, anything else the whole invoice. */
  function ParseScope(value: string): (s: DiscountScope)
    ensures value != "LineItem" ==> s == GlobalInvoice
  {
    if value == "LineItem" then LineItem else GlobalInvoice
  }

  /** The selects round-trip: handling the shown value selects the same variant,
      and each listed option selects the variant it is shown for. */
  lemma SelectRoundTrip(t: DiscountType, s: DiscountScope)
    ensures ParseType(TypeOption(t)) == t
    ensures ParseScope(ScopeOption(s)) == s
    ensures ParseType("Percentage") == Percentage && ParseType("FixedAmount") == FixedAmount
    ensures ParseScope("GlobalInvoice") == GlobalInvoice && ParseScope("LineItem") == LineItem
  {
  }

  datatype DiscountItem = DiscountItem(id: string, name: string, description: string, discountType: DiscountType,
                                       value: real, scope: DiscountScope, isDefault: bool)

  datatype DiscountForm = DiscountForm(name: string, description: string, discountType: DiscountType,
                                       value: string, scope: DiscountScope, isDefault: bool)

  function DefaultForm(): DiscountForm {
    DiscountForm("", "", Percentage, "", GlobalInvoice, false)
  }

  /** `AutocompleteItem::search_text`: name and description separated by a space. */
  function SearchText(d: DiscountItem): string {
    d.name + " " + d.description
  }

  /** `AutocompleteItem::display_text`: the name, then the value with "%" for a
      percentage and "$" for a fixed amount, in parentheses. */
  function DisplayText(d: DiscountItem): string {
    d.name + " (" + Numbers.FormatNumber(d.value) + (if d.discountType == Percentage then "%" else "$") + ")"
  }

  /** The display text starts with the name and ends with the unit and a closing
      parenthesis; the unit is "%" exactly for percentages. */
  lemma DisplayTextUnit(d: DiscountItem)
    ensures Text.IsPrefix(d.name + " (", DisplayText(d))
    ensures |DisplayText(d)| >= 2
    ensures DisplayText(d)[|DisplayText(d)| - 1] == ')'
    ensures DisplayText(d)[|DisplayText(d)| - 2] == '%' <==> d.discountType == Percentage
    ensures DisplayText(d)[|DisplayText(d)| - 2] == '$' <==> d.discountType == FixedAmount
  {
    var head := d.name + " (" + Numbers.FormatNumber(d.value);
    var unit := if d.discountType == Percentage then "%" else "$";
    assert DisplayText(d) == head + unit + ")";
    assert (d.name + " (") + (Numbers.FormatNumber(d.value) + unit + ")") == DisplayText(d);
  }

  /** `to_form_props`: the value is written out as text; everything else is copied. */
  function ToForm(d: DiscountItem): (f: DiscountForm)
    ensures f.name == d.name && f.description == d.description && f.discountType == d.discountType
    ensures f.scope == d.scope && f.isDefault == d.isDefault
  {
    DiscountForm(d.name, d.description, d.discountType, Numbers.FormatNumber(d.value), d.scope, d.isDefault)
  }

  /** `from_form_props`: the value is the parsed text, or 0 when it does not parse;
      `id` is the fresh identifier the item receives. */
  function FromForm(f: DiscountForm, id: string): (d: DiscountItem)
    ensures d.id == id && d.name == f.name && d.description == f.description
    ensures d.discountType == f.discountType && d.scope == f.scope && d.isDefault == f.isDefault
    ensures d.value == Numbers.ParseOrZero(f.value)
  {
    DiscountItem(id, f.name, f.description, f.discountType, Numbers.ParseOrZero(f.value), f.scope, f.isDefault)
  }

  /** Through the form and back, a discount keeps every field but its id. */
  lemma FormRoundTrip(d: DiscountItem, id: string)
    requires Numbers.IsFiniteDecimal(d.value)
    ensures FromForm(ToForm(d), id) == d.(id := id)
  {
    Numbers.FormatNumberRoundTrip(d.value);
  }

  function Forms(id: string): Grid.FormData<DiscountItem, DiscountForm> {
    Grid.FormData(ToForm, f => FromForm(f, id), DefaultForm())
  }

  /** The message for a value typed but not acceptable; nothing for an empty value.
      Only a percentage is capped at 100. */
  function ValueProblem(value: string, t: DiscountType): Option<string> {
    if |value| == 0 then None
    else match Numbers.ParseDecimal(value)
      case None => Some("Value must be a valid number")
      case Some(v) =>
        if v < 0.0 then Some("Value cannot be negative")
        else if t == Percentage && v > 100.0 then Some("Percentage cannot exceed 100%")
        else None
  }

  /** `DiscountForm::validate`. */
  function Validate(f: DiscountForm): ValidationResult {
    CombineResults(NameChecks(f.name, "Discount Name", 2, Some(100))
      + [MaxLength(f.description, 500, "Description"), Required(f.value, "Value")]
      + Problem("value", ValueProblem(f.value, f.discountType)))
  }

  /** An acceptable discount name: not blank, 2 to 100 bytes. */
  predicate ValidName(name: string) {
    !IsBlank(name) && 2 <= Utf8Len(name) <= 100
  }

  function NamePart(f: DiscountForm): ValidationResult {
    CombineResults(NameChecks(f.name, "Discount Name", 2, Some(100)))
  }

  function FieldsPart(f: DiscountForm): ValidationResult {
    CombineResults([MaxLength(f.description, 500, "Description"), Required(f.value, "Value")])
  }

  function NumberPart(f: DiscountForm): ValidationResult {
    CombineResults(Problem("value", ValueProblem(f.value, f.discountType)))
  }

  /** `Validate` is the merge of its three groups of checks. */
  lemma ValidateParts(f: DiscountForm)
    ensures Validate(f) == Merge(Merge(NamePart(f), FieldsPart(f)), NumberPart(f))
  {
    CombineThree(NameChecks(f.name, "Discount Name", 2, Some(100)),
                 [MaxLength(f.description, 500, "Description"), Required(f.value, "Value")],
                 Problem("value", ValueProblem(f.value, f.discountType)));
  }

  lemma NamePartFacts(f: DiscountForm)
    ensures NamePart(f).isValid <==> ValidName(f.name)
    ensures KeyedWithin(NamePart(f), {"Discount Name"})
  {
    CombineNameChecks(f.name, "Discount Name", 2, Some(100));
  }

  lemma FieldsPartValid(f: DiscountForm)
    ensures FieldsPart(f).isValid <==> Utf8Len(f.description) <= 500 && !IsBlank(f.value)
  {
    var a, b := MaxLength(f.description, 500, "Description"), Required(f.value, "Value");
    assert [a] + [b] == [a, b];
    CombineAppend([a], [b]);
    CombineSingle(a);
    CombineSingle(b);
  }

  lemma FieldsPartKeys(f: DiscountForm)
    ensures KeyedWithin(FieldsPart(f), {"Description", "Value"})
  {
    var a, b := MaxLength(f.description, 500, "Description"), Required(f.value, "Value");
    assert [a] + [b] == [a, b];
    CombineAppend([a], [b]);
    CombineSingle(a);
    CombineSingle(b);
  }

  lemma FieldsPartRequired(f: DiscountForm)
    requires IsBlank(f.value)
    ensures "Value" in FieldsPart(f).fieldErrors
    ensures "Value" in FieldsPart(f).fieldErrors && FieldsPart(f).fieldErrors["Value"] == RequiredMessage("Value")
  {
    var a, b := MaxLength(f.description, 500, "Description"), Required(f.value, "Value");
    assert [a] + [b] == [a, b];
    CombineAppend([a], [b]);
    CombineSingle(b);
  }

  lemma FieldsPartFacts(f: DiscountForm)
    ensures FieldsPart(f).isValid <==> Utf8Len(f.description) <= 500 && !IsBlank(f.value)
    ensures KeyedWithin(FieldsPart(f), {"Description", "Value"})
    ensures IsBlank(f.value) ==> "Value" in FieldsPart(f).fieldErrors
    ensures IsBlank(f.value) ==> "Value" in FieldsPart(f).fieldErrors && FieldsPart(f).fieldErrors["Value"] == RequiredMessage("Value")
  {
    FieldsPartValid(f);
    FieldsPartKeys(f);
    if IsBlank(f.value) {
      FieldsPartRequired(f);
    }
  }

  lemma NumberPartFacts(f: DiscountForm)
    ensures NumberPart(f).isValid <==> ValueProblem(f.value, f.discountType).None?
    ensures KeyedWithin(NumberPart(f), {"value"})
    ensures ValueProblem(f.value, f.discountType).Some? ==> "value" in NumberPart(f).fieldErrors
    ensures ValueProblem(f.value, f.discountType).Some? ==> "value" in NumberPart(f).fieldErrors && NumberPart(f).fieldErrors["value"] == ValueProblem(f.value, f.discountType).value
  {
    CombineProblem("value", ValueProblem(f.value, f.discountType));
  }

  /** A form is accepted exactly when the name is acceptable, the description is
      at most 500 bytes, and the value parses to a non-negative number that, for
      a percentage only, is at most 100. */
  lemma ValidateValid(f: DiscountForm)
    ensures Validate(f).isValid <==>
      && ValidName(f.name) && Utf8Len(f.description) <= 500
      && Numbers.ParseDecimal(f.value).Some? && 0.0 <= Numbers.ParseDecimal(f.value).value
      && (f.discountType == Percentage ==> Numbers.ParseDecimal(f.value).value <= 100.0)
  {
    ValidateParts(f);
    NamePartFacts(f);
    FieldsPartValid(f);
    NumberPartFacts(f);
    ValueAccepted(f.value, f.discountType);
    var n, d, v := NamePart(f), FieldsPart(f), NumberPart(f);
    assert Validate(f).isValid == (n.isValid && d.isValid && v.isValid);
  }

  /** A value that is present and draws no message is exactly one that parses to
      an accepted number. */
  lemma ValueAccepted(value: string, t: DiscountType)
    ensures !IsBlank(value) && ValueProblem(value, t).None? <==>
      Numbers.ParseDecimal(value).Some? && 0.0 <= Numbers.ParseDecimal(value).value
      && (t == Percentage ==> Numbers.ParseDecimal(value).value <= 100.0)
  {
    if Numbers.ParseDecimal(value).Some? {
      Numbers.ParsedHasDigit(value);
    }
  }

  /** A typed value that does not parse or is out of range is reported under the
      lower-case key "value", with the message `ValueProblem` gives for it. */
  lemma ValueMessages(f: DiscountForm)
    ensures "value" in Validate(f).fieldErrors <==> ValueProblem(f.value, f.discountType).Some?
    ensures "value" in Validate(f).fieldErrors ==> Validate(f).fieldErrors["value"] == ValueProblem(f.value, f.discountType).value
  {
    ValidateParts(f);
    FieldsPartKeys(f);
    NumberPartFacts(f);
    NamePartFacts(f);
  }

  /** The three messages of a typed value: not a number, negative, and, for a
      percentage only, above 100; in-range numbers and the empty value draw none. */
  lemma ValueProblemCases(value: string, t: DiscountType)
    ensures value != "" && Numbers.ParseDecimal(value).None? ==> ValueProblem(value, t) == Some("Value must be a valid number")
    ensures Numbers.ParseDecimal(value).Some? && Numbers.ParseDecimal(value).value < 0.0 ==>
      ValueProblem(value, t) == Some("Value cannot be negative")
    ensures t == Percentage && Numbers.ParseDecimal(value).Some? && Numbers.ParseDecimal(value).value > 100.0 ==>
      ValueProblem(value, t) == Some("Percentage cannot exceed 100%")
    ensures ValueProblem(value, t).None? <==>
      value == "" || (Numbers.ParseDecimal(value).Some? && 0.0 <= Numbers.ParseDecimal(value).value
                      && (t == Percentage ==> Numbers.ParseDecimal(value).value <= 100.0))
  {
    if Numbers.ParseDecimal(value).Some? {
      Numbers.ParsedHasDigit(value);
    }
  }

  /** An empty value draws "Value is required" and no number message. */
  lemma EmptyValueOnlyRequired(f: DiscountForm)
    requires f.value == ""
    ensures "Value" in Validate(f).fieldErrors && Validate(f).fieldErrors["Value"] == RequiredMessage("Value")
    ensures "value" !in Validate(f).fieldErrors
  {
    assert IsBlank(f.value);
    ValidateParts(f);
    FieldsPartRequired(f);
    FieldsPartKeys(f);
    NumberPartFacts(f);
    NamePartFacts(f);
    var nf := Merge(NamePart(f), FieldsPart(f));
    assert "Value" in nf.fieldErrors && nf.fieldErrors["Value"] == RequiredMessage("Value");
    assert "value" !in nf.fieldErrors;
  }

  /** What the discount table holds: acceptable names and descriptions,
      non-negative values, percentages at most 100. */
  predicate Acceptable(d: DiscountItem) {
    ValidName(d.name) && Utf8Len(d.description) <= 500 && 0.0 <= d.value
    && (d.discountType == Percentage ==> d.value <= 100.0)
  }

  /** The discount form's submit handler. */
  function HandleSubmit(g: Grid.GridModel<DiscountItem, DiscountForm>, f: DiscountForm, id: string): Grid.GridModel<DiscountItem, DiscountForm> {
    Grid.SubmitValidated(g, f, Validate(f).isValid, Forms(id))
  }

  /** Submitting through the form never puts an unacceptable discount into the table. */
  lemma HandleSubmitKeepsAcceptable(g: Grid.GridModel<DiscountItem, DiscountForm>, f: DiscountForm, id: string)
    requires forall i :: 0 <= i < |g.items| ==> Acceptable(g.items[i])
    ensures forall i :: 0 <= i < |HandleSubmit(g, f, id).items| ==> Acceptable(HandleSubmit(g, f, id).items[i])
  {
    ValidateValid(f);
    Grid.SubmitValidatedPreserves(g, f, Validate(f).isValid, Forms(id), Acceptable);
  }
}
