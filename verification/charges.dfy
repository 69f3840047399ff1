/** The other-charges catalog: a charge is a fixed amount applied to the whole
    invoice or to line items; its form keeps the amount as text. */
module Charges {
  import opened Wrappers
  import opened Text
  import opened Validation
  import Numbers
  import Grid

  datatype ChargeScope = GlobalInvoice | LineItem

  /** `Display for ChargeScope`. */
  function ScopeText(s: ChargeScope): string {
    match s
    case LineItem => "Line Item"
    case GlobalInvoice => "Global Invoice"
  }

  /** The value the scope select shows for the form's current scope. */
  function ScopeOption(s: ChargeScope): string {
    if s == LineItem then "LineItem" else "GlobalInvoice"
  }

  /** The scope select's change handler: "LineItem" selects line items, anything else the whole invoice. */
  function ParseScope(value: string): (s: ChargeScope)
    ensures value != "LineItem" ==> s == GlobalInvoice
  {
    if value == "LineItem" then LineItem else GlobalInvoice
  }

  /** The select round-trips: the shown value selects the scope it is shown for. */
  lemma ScopeRoundTrip(s: ChargeScope)
    ensures ParseScope(ScopeOption(s)) == s
    ensures ParseScope("GlobalInvoice") == GlobalInvoice && ParseScope("LineItem") == LineItem
  {
  }

  datatype ChargeItem = ChargeItem(id: string, name: string, description: string, amount: real,
                                   scope: ChargeScope, isDefault: bool)

  datatype ChargeForm = ChargeForm(name: string, description: string, amount: string,
                                   scope: ChargeScope, isDefault: bool)

  function DefaultForm(): ChargeForm {
    ChargeForm("", "", "", GlobalInvoice, false)
  }

  /** `to_form_props`: the amount is written out as text; everything else is copied. */
  function ToForm(c: ChargeItem): (f: ChargeForm)
    ensures f.name == c.name && f.description == c.description
    ensures f.scope == c.scope && f.isDefault == c.isDefault
  {
    ChargeForm(c.name, c.description, Numbers.FormatNumber(c.amount), c.scope, c.isDefault)
  }

  /** `from_form_props`: the amount is the parsed text, or 0 when it does not parse;
      `id` is the fresh identifier the item receives. */
  function FromForm(f: ChargeForm, id: string): (c: ChargeItem)
    ensures c.id == id && c.name == f.name && c.description == f.description
    ensures c.scope == f.scope && c.isDefault == f.isDefault
    ensures Numbers.ParseDecimal(f.amount).Some? ==> c.amount == Numbers.ParseDecimal(f.amount).value
    ensures Numbers.ParseDecimal(f.amount).None? ==> c.amount == 0.0
  {
    ChargeItem(id, f.name, f.description, Numbers.ParseOrZero(f.amount), f.scope, f.isDefault)
  }

  /** Through the form and back, a charge keeps every field but its id. */
  lemma FormRoundTrip(c: ChargeItem, id: string)
    requires Numbers.IsFiniteDecimal(c.amount)
    ensures FromForm(ToForm(c), id) == c.(id := id)
  {
    Numbers.FormatNumberRoundTrip(c.amount);
  }

  function Forms(id: string): Grid.FormData<ChargeItem, ChargeForm> {
    Grid.FormData(ToForm, f => FromForm(f, id), DefaultForm())
  }

  /** `get_metadata`: the amount, the scope's display text and the default flag, in that order. */
  function Metadata(c: ChargeItem): (m: seq<(string, string)>)
    ensures |m| == 3 && m[0].0 == "amount" && m[1].0 == "scope" && m[2].0 == "is_default"
    ensures m[1].1 == ScopeText(c.scope)
    ensures m[2].1 == "true" <==> c.isDefault
  {
    [("amount", Numbers.FormatNumber(c.amount)), ("scope", ScopeText(c.scope)),
     ("is_default", if c.isDefault then "true" else "false")]
  }

  /** The amount in the metadata reads back as the charge's amount. */
  lemma MetadataAmount(c: ChargeItem)
    requires Numbers.IsFiniteDecimal(c.amount)
    ensures Numbers.ParseDecimal(Metadata(c)[0].1) == Some(c.amount)
  {
    Numbers.FormatNumberRoundTrip(c.amount);
  }

  /** The message for an amount typed but not acceptable; nothing for an empty amount.
      Charges have no upper bound. */
  function AmountProblem(amount: string): Option<string> {
    if |amount| == 0 then None
    else match Numbers.ParseDecimal(amount)
      case None => Some("Amount must be a valid number")
      case Some(v) => if v < 0.0 then Some("Amount cannot be negative") else None
  }

  /** `ChargeForm::validate`; the description is not checked. */
  function Validate(f: ChargeForm): ValidationResult {
    CombineResults(NameChecks(f.name, "Charge Name", 2, Some(50)) + [Required(f.amount, "Amount")]
      + Problem("amount", AmountProblem(f.amount)))
  }

  /** An acceptable charge name: not blank, 2 to 50 bytes. */
  predicate ValidName(name: string) {
    !IsBlank(name) && 2 <= Utf8Len(name) <= 50
  }

  function NamePart(f: ChargeForm): ValidationResult {
    CombineResults(NameChecks(f.name, "Charge Name", 2, Some(50)))
  }

  function AmountPart(f: ChargeForm): ValidationResult {
    CombineResults([Required(f.amount, "Amount")])
  }

  function NumberPart(f: ChargeForm): ValidationResult {
    CombineResults(Problem("amount", AmountProblem(f.amount)))
  }

  /** `Validate` is the merge of its three groups of checks. */
  lemma ValidateParts(f: ChargeForm)
    ensures Validate(f) == Merge(Merge(NamePart(f), AmountPart(f)), NumberPart(f))
  {
    CombineThree(NameChecks(f.name, "Charge Name", 2, Some(50)), [Required(f.amount, "Amount")],
                 Problem("amount", AmountProblem(f.amount)));
  }

  lemma NamePartFacts(f: ChargeForm)
    ensures NamePart(f).isValid <==> ValidName(f.name)
    ensures KeyedWithin(NamePart(f), {"Charge Name"})
  {
    CombineNameChecks(f.name, "Charge Name", 2, Some(50));
  }

  lemma AmountPartFacts(f: ChargeForm)
    ensures AmountPart(f).isValid <==> !IsBlank(f.amount)
    ensures KeyedWithin(AmountPart(f), {"Amount"})
    ensures !AmountPart(f).isValid ==> AmountPart(f).fieldErrors == map["Amount" := RequiredMessage("Amount")]
  {
    CombineSingle(Required(f.amount, "Amount"));
  }

  lemma NumberPartFacts(f: ChargeForm)
    ensures NumberPart(f).isValid <==> AmountProblem(f.amount).None?
    ensures KeyedWithin(NumberPart(f), {"amount"})
    ensures AmountProblem(f.amount).Some? ==> "amount" in NumberPart(f).fieldErrors && NumberPart(f).fieldErrors["amount"] == AmountProblem(f.amount).value
  {
    CombineProblem("amount", AmountProblem(f.amount));
  }

  /** A form is accepted exactly when its name is acceptable and its amount
      parses to a non-negative number. */
  lemma ValidateValid(f: ChargeForm)
    ensures Validate(f).isValid <==>
      ValidName(f.name) && Numbers.ParseDecimal(f.amount).Some? && 0.0 <= Numbers.ParseDecimal(f.amount).value
  {
    ValidateParts(f);
    NamePartFacts(f);
    AmountPartFacts(f);
    NumberPartFacts(f);
    if Numbers.ParseDecimal(f.amount).Some? {
      Numbers.ParsedHasDigit(f.amount);
    }
  }

  /** An empty amount draws only "Amount is required": the number checks are skipped. */
  lemma EmptyAmountOnlyRequired(f: ChargeForm)
    requires f.amount == ""
    ensures "Amount" in Validate(f).fieldErrors && Validate(f).fieldErrors["Amount"] == RequiredMessage("Amount")
    ensures "amount" !in Validate(f).fieldErrors
  {
    ValidateParts(f);
    NamePartFacts(f);
    AmountPartFacts(f);
    NumberPartFacts(f);
  }

  /** A typed amount that does not parse, or is negative, is reported under the
      lower-case key "amount" with the matching message; an acceptable one is not. */
  lemma AmountMessages(f: ChargeForm)
    ensures "amount" in Validate(f).fieldErrors <==> AmountProblem(f.amount).Some?
    ensures f.amount != "" && Numbers.ParseDecimal(f.amount).None? ==>
      "amount" in Validate(f).fieldErrors && Validate(f).fieldErrors["amount"] == "Amount must be a valid number"
    ensures Numbers.ParseDecimal(f.amount).Some? && Numbers.ParseDecimal(f.amount).value < 0.0 ==>
      "amount" in Validate(f).fieldErrors && Validate(f).fieldErrors["amount"] == "Amount cannot be negative"
  {
    ValidateParts(f);
    NamePartFacts(f);
    AmountPartFacts(f);
    NumberPartFacts(f);
  }

  /** What the charge table holds: acceptable names and non-negative amounts. */
  predicate Acceptable(c: ChargeItem) {
    ValidName(c.name) && 0.0 <= c.amount
  }

  /** The charge form's submit handler. */
  function HandleSubmit(g: Grid.GridModel<ChargeItem, ChargeForm>, f: ChargeForm, id: string): Grid.GridModel<ChargeItem, ChargeForm> {
    Grid.SubmitValidated(g, f, Validate(f).isValid, Forms(id))
  }

  /** Submitting through the form never puts an unacceptable charge into the table. */
  lemma HandleSubmitKeepsAcceptable(g: Grid.GridModel<ChargeItem, ChargeForm>, f: ChargeForm, id: string)
    requires forall i :: 0 <= i < |g.items| ==> Acceptable(g.items[i])
    ensures forall i :: 0 <= i < |HandleSubmit(g, f, id).items| ==> Acceptable(HandleSubmit(g, f, id).items[i])
  {
    ValidateValid(f);
    Grid.SubmitValidatedPreserves(g, f, Validate(f).isValid, Forms(id), Acceptable);
  }
}
