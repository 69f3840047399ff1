/** The custom-field catalog: a field has a name, a type, a category, a default
    value and two flags; its form holds the same fields, so the conversions are exact. */
module CustomFields {
  import opened Wrappers
  import opened Text
  import opened Validation
  import Grid

  datatype FieldCategory = GlobalInvoice | BillerAddress | ClientAddress | LineItem | BillingDetails

  datatype FieldType = Text | Number | Email | Phone | Dropdown | Date | Checkbox | Textarea

  /** `Display for FieldCategory`: the category's name, with spaces between words. */
  function CategoryText(c: FieldCategory): string {
    match c
    case BillerAddress => "Biller Address"
    case ClientAddress => "Client Address"
    case LineItem => "Line Item"
    case GlobalInvoice => "Global Invoice"
    case BillingDetails => "Billing Details"
  }

  /** `Display for FieldType`: the variant's own name. */
  function TypeText(t: FieldType): string {
    match t
    case Text => "Text"
    case Number => "Number"
    case Email => "Email"
    case Phone => "Phone"
    case Dropdown => "Dropdown"
    case Date => "Date"
    case Checkbox => "Checkbox"
    case Textarea => "Textarea"
  }

  /** The field-type select's change handler; anything unknown selects `Text`. */
  function ParseType(value: string): (t: FieldType)
    ensures t != Text ==> TypeText(t) == value
  {
    match value
    case "Number" => Number
    case "Email" => Email
    case "Phone" => Phone
    case "Dropdown" => Dropdown
    case "Date" => Date
    case "Checkbox" => Checkbox
    case "Textarea" => Textarea
    case _ => Text
  }

  /** The category select's change handler; anything unknown selects `GlobalInvoice`. */
  function ParseCategory(value: string): (c: FieldCategory)
    ensures c != GlobalInvoice ==> CategoryOption(c) == value
  {
    match value
    case "BillerAddress" => BillerAddress
    case "ClientAddress" => ClientAddress
    case "LineItem" => LineItem
    case "BillingDetails" => BillingDetails
    case _ => GlobalInvoice
  }

  /** The values of the field-type select's options, in the order listed. */
  function TypeOptions(): seq<string> {
    ["Text", "Number", "Email", "Phone", "Dropdown", "Date", "Checkbox", "Textarea"]
  }

  /** The values of the category select's options, in the order listed. */
  function CategoryOptions(): seq<string> {
    ["GlobalInvoice", "BillerAddress", "ClientAddress", "LineItem", "BillingDetails"]
  }

  /** The option value for a category: its variant name, without spaces. */
  function CategoryOption(c: FieldCategory): string {
    match c
    case GlobalInvoice => "GlobalInvoice"
    case BillerAddress => "BillerAddress"
    case ClientAddress => "ClientAddress"
    case LineItem => "LineItem"
    case BillingDetails => "BillingDetails"
  }

  /** The option a select shows for a value: the first option with that value, if any. */
  function Selected(options: seq<string>, value: string): (r: Option<nat>)
    ensures r.Some? ==> r.value < |options| && options[r.value] == value
    ensures r.Some? ==> forall k :: 0 <= k < r.value ==> options[k] != value
    ensures r.None? <==> value !in options
  {
    if |options| == 0 then None
    else if options[0] == value then Some(0)
    else match Selected(options[1..], value)
      case None => None
      case Some(k) => Some(k + 1)
  }

  /** Every field type's display text is one of the options and selects back that type. */
  lemma TypeSelectRoundTrip(t: FieldType)
    ensures TypeText(t) in TypeOptions()
    ensures ParseType(TypeText(t)) == t
  {
  }

  /** Every option of the field-type select selects a distinct type; unknown text selects `Text`. */
  lemma TypeOptionsParse()
    ensures forall i :: 0 <= i < |TypeOptions()| ==> TypeText(ParseType(TypeOptions()[i])) == TypeOptions()[i]
    ensures ParseType("") == Text && ParseType("text") == Text
  {
  }

  /** As written, the category select is given the display text, which is none of
      its option values, so it never shows the form's category. */
  lemma CategorySelectAsWritten(c: FieldCategory)
    ensures Selected(CategoryOptions(), CategoryText(c)).None?
    ensures c != GlobalInvoice ==> ParseCategory(CategoryText(c)) != c
  {
  }

  /** With the option value instead, the select shows the category's own option,
      and handling that value selects the category back. */
  lemma CategorySelectRoundTrip(c: FieldCategory)
    ensures Selected(CategoryOptions(), CategoryOption(c)).Some?
    ensures ParseCategory(CategoryOptions()[Selected(CategoryOptions(), CategoryOption(c)).value]) == c
    ensures ParseCategory(CategoryOption(c)) == c
  {
  }

  /** Every category option selects the category named by it; unknown text selects `GlobalInvoice`. */
  lemma CategoryOptionsParse()
    ensures forall i :: 0 <= i < |CategoryOptions()| ==> CategoryOption(ParseCategory(CategoryOptions()[i])) == CategoryOptions()[i]
    ensures ParseCategory("") == GlobalInvoice && ParseCategory("Biller Address") == GlobalInvoice
  {
  }

  datatype CustomFieldItem = CustomFieldItem(id: string, name: string, fieldType: FieldType, category: FieldCategory,
                                             defaultValue: string, required: bool, isDefault: bool)

  datatype CustomFieldForm = CustomFieldForm(name: string, fieldType: FieldType, category: FieldCategory,
                                             defaultValue: string, required: bool, isDefault: bool)

  function DefaultForm(): CustomFieldForm {
    CustomFieldForm("", Text, GlobalInvoice, "", false, false)
  }

  /** `to_form_props`: every field but the id, copied. */
  function ToForm(x: CustomFieldItem): (f: CustomFieldForm)
    ensures f.name == x.name && f.fieldType == x.fieldType && f.category == x.category
    ensures f.defaultValue == x.defaultValue && f.required == x.required && f.isDefault == x.isDefault
  {
    CustomFieldForm(x.name, x.fieldType, x.category, x.defaultValue, x.required, x.isDefault)
  }

  /** `from_form_props`, with `id` the fresh identifier the item receives. */
  function FromForm(f: CustomFieldForm, id: string): (x: CustomFieldItem)
    ensures x.id == id && x.name == f.name && x.fieldType == f.fieldType && x.category == f.category
    ensures x.defaultValue == f.defaultValue && x.required == f.required && x.isDefault == f.isDefault
  {
    CustomFieldItem(id, f.name, f.fieldType, f.category, f.defaultValue, f.required, f.isDefault)
  }

  /** The conversions are inverse to each other, up to the id. */
  lemma FormRoundTrip(x: CustomFieldItem, f: CustomFieldForm, id: string)
    ensures FromForm(ToForm(x), id) == x.(id := id)
    ensures ToForm(FromForm(f, id)) == f
  {
  }

  function Forms(id: string): Grid.FormData<CustomFieldItem, CustomFieldForm> {
    Grid.FormData(ToForm, f => FromForm(f, id), DefaultForm())
  }

  /** `get_metadata`: type, category and the two flags as text, in that order. */
  function Metadata(x: CustomFieldItem): (m: seq<(string, string)>)
    ensures |m| == 4
    ensures m[0] == ("field_type", TypeText(x.fieldType)) && m[1] == ("category", CategoryText(x.category))
    ensures m[2].0 == "required" && (m[2].1 == "true" <==> x.required)
    ensures m[3].0 == "is_default" && (m[3].1 == "true" <==> x.isDefault)
  {
    [("field_type", TypeText(x.fieldType)), ("category", CategoryText(x.category)),
     ("required", BoolText(x.required)), ("is_default", BoolText(x.isDefault))]
  }

  /** `bool::to_string`. */
  function BoolText(b: bool): (s: string)
    ensures s == "true" || s == "false"
    ensures s == "true" <==> b
  {
    if b then "true" else "false"
  }

  /** The metadata's type entry reads back as the item's type. */
  lemma MetadataTypeReadsBack(x: CustomFieldItem)
    ensures ParseType(Metadata(x)[0].1) == x.fieldType
  {
  }

  /** `CustomFieldForm::validate`: only the name is checked. */
  function Validate(f: CustomFieldForm): ValidationResult {
    CombineResults(NameChecks(f.name, "Field Name", 2, Some(50)))
  }

  /** An acceptable field name: not blank, 2 to 50 bytes. */
  predicate ValidName(name: string) {
    !IsBlank(name) && 2 <= Utf8Len(name) <= 50
  }

  /** A form is accepted exactly when its name is acceptable; errors are keyed by
      "Field Name" only, so type, category, default value and flags never matter. */
  lemma ValidateValid(f: CustomFieldForm)
    ensures Validate(f).isValid <==> ValidName(f.name)
    ensures KeyedWithin(Validate(f), {"Field Name"})
  {
    CombineNameChecks(f.name, "Field Name", 2, Some(50));
  }

  /** Forms that agree on the name validate alike. */
  lemma ValidateOnlyName(f: CustomFieldForm, g: CustomFieldForm)
    requires f.name == g.name
    ensures Validate(f) == Validate(g)
  {
  }

  predicate Acceptable(x: CustomFieldItem) {
    ValidName(x.name)
  }

  /** The custom-field form's submit handler. */
  function HandleSubmit(g: Grid.GridModel<CustomFieldItem, CustomFieldForm>, f: CustomFieldForm, id: string): Grid.GridModel<CustomFieldItem, CustomFieldForm> {
    Grid.SubmitValidated(g, f, Validate(f).isValid, Forms(id))
  }

  /** Submitting through the form never puts a field with an unacceptable name into the table. */
  lemma HandleSubmitKeepsAcceptable(g: Grid.GridModel<CustomFieldItem, CustomFieldForm>, f: CustomFieldForm, id: string)
    requires forall i :: 0 <= i < |g.items| ==> Acceptable(g.items[i])
    ensures forall i :: 0 <= i < |HandleSubmit(g, f, id).items| ==> Acceptable(HandleSubmit(g, f, id).items[i])
  {
    ValidateValid(f);
    Grid.SubmitValidatedPreserves(g, f, Validate(f).isValid, Forms(id), Acceptable);
  }
}
