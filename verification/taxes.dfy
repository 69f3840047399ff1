/** The tax catalog: a tax has a name and a percentage rate; its form keeps the
    rate as typed text. */
module Taxes {
  import opened Wrappers
  import opened Text
  import opened Validation
  import Numbers
  import Grid

  datatype TaxItem = TaxItem(id: string, name: string, rate: real)
  datatype TaxForm = TaxForm(name: string, rate: string)

  function DefaultForm(): TaxForm {
    TaxForm("", "")
  }

  /** `to_form_props`: the rate is written out as text. */
  function ToForm(t: TaxItem): (f: TaxForm)
    ensures f.name == t.name
  {
    TaxForm(t.name, Numbers.FormatNumber(t.rate))
  }

  /** `from_form_props`: the name is copied and the rate is the parsed text, or
      0 when it does not parse; `id` is the fresh identifier the item receives. */
  function FromForm(f: TaxForm, id: string): (t: TaxItem)
    ensures t.id == id && t.name == f.name
    ensures Numbers.ParseDecimal(f.rate).Some? ==> t.rate == Numbers.ParseDecimal(f.rate).value
    ensures Numbers.ParseDecimal(f.rate).None? ==> t.rate == 0.0
  {
    TaxItem(id, f.name, Numbers.ParseOrZero(f.rate))
  }

  /** Through the form and back, a tax keeps its name and rate and only gets a new id. */
  lemma FormRoundTrip(t: TaxItem, id: string)
    requires Numbers.IsFiniteDecimal(t.rate)
    ensures FromForm(ToForm(t), id) == t.(id := id)
  {
    Numbers.FormatNumberRoundTrip(t.rate);
  }

  /** The grid's view of taxes, with `id` as the identifier of any item it creates. */
  function Forms(id: string): Grid.FormData<TaxItem, TaxForm> {
    Grid.FormData(ToForm, f => FromForm(f, id), DefaultForm())
  }

  /** The message for a rate typed but not acceptable; nothing for an empty rate. */
  function RateProblem(rate: string): Option<string> {
    if |rate| == 0 then None
    else match Numbers.ParseDecimal(rate)
      case None => Some("Rate must be a valid number")
      case Some(v) =>
        if v < 0.0 then Some("Rate cannot be negative")
        else if v > 100.0 then Some("Rate cannot exceed 100%")
        else None
  }

  /** `TaxForm::validate`. */
  function Validate(f: TaxForm): ValidationResult {
    CombineResults(NameChecks(f.name, "Tax Name", 2, Some(50)) + [Required(f.rate, "Rate")] + Problem("rate", RateProblem(f.rate)))
  }

  /** An acceptable tax name: not blank, 2 to 50 bytes. */
  predicate ValidName(name: string) {
    !IsBlank(name) && 2 <= Utf8Len(name) <= 50
  }

  function NamePart(f: TaxForm): ValidationResult {
    CombineResults(NameChecks(f.name, "Tax Name", 2, Some(50)))
  }

  function RatePart(f: TaxForm): ValidationResult {
    CombineResults([Required(f.rate, "Rate")])
  }

  function NumberPart(f: TaxForm): ValidationResult {
    CombineResults(Problem("rate", RateProblem(f.rate)))
  }

  /** `Validate` is the merge of its three groups of checks. */
  lemma ValidateParts(f: TaxForm)
    ensures Validate(f) == Merge(Merge(NamePart(f), RatePart(f)), NumberPart(f))
  {
    CombineThree(NameChecks(f.name, "Tax Name", 2, Some(50)), [Required(f.rate, "Rate")], Problem("rate", RateProblem(f.rate)));
  }

  /** Each group is keyed by its own field and fails exactly on its own condition. */
  lemma NamePartFacts(f: TaxForm)
    ensures NamePart(f).isValid <==> ValidName(f.name)
    ensures KeyedWithin(NamePart(f), {"Tax Name"})
  {
    CombineNameChecks(f.name, "Tax Name", 2, Some(50));
  }

  lemma RatePartFacts(f: TaxForm)
    ensures RatePart(f).isValid <==> !IsBlank(f.rate)
    ensures KeyedWithin(RatePart(f), {"Rate"})
    ensures !RatePart(f).isValid ==> RatePart(f).fieldErrors == map["Rate" := RequiredMessage("Rate")]
  {
    CombineSingle(Required(f.rate, "Rate"));
  }

  lemma NumberPartFacts(f: TaxForm)
    ensures NumberPart(f).isValid <==> RateProblem(f.rate).None?
    ensures KeyedWithin(NumberPart(f), {"rate"})
    ensures RateProblem(f.rate).Some? ==> "rate" in NumberPart(f).fieldErrors
    ensures RateProblem(f.rate).Some? ==> "rate" in NumberPart(f).fieldErrors && NumberPart(f).fieldErrors["rate"] == RateProblem(f.rate).value
  {
    CombineProblem("rate", RateProblem(f.rate));
  }

  lemma PartFacts(f: TaxForm)
    ensures NamePart(f).isValid <==> ValidName(f.name)
    ensures KeyedWithin(NamePart(f), {"Tax Name"})
    ensures RatePart(f).isValid <==> !IsBlank(f.rate)
    ensures KeyedWithin(RatePart(f), {"Rate"})
    ensures !RatePart(f).isValid ==> RatePart(f).fieldErrors == map["Rate" := RequiredMessage("Rate")]
    ensures NumberPart(f).isValid <==> RateProblem(f.rate).None?
    ensures KeyedWithin(NumberPart(f), {"rate"})
    ensures RateProblem(f.rate).Some? ==> "rate" in NumberPart(f).fieldErrors
    ensures RateProblem(f.rate).Some? ==> "rate" in NumberPart(f).fieldErrors && NumberPart(f).fieldErrors["rate"] == RateProblem(f.rate).value
  {
    NamePartFacts(f);
    RatePartFacts(f);
    NumberPartFacts(f);
  }

  /** A form is accepted exactly when its name is acceptable and its rate
      parses to a number from 0 to 100, both ends included. */
  lemma ValidateValid(f: TaxForm)
    ensures Validate(f).isValid <==>
      ValidName(f.name) && Numbers.ParseDecimal(f.rate).Some? && 0.0 <= Numbers.ParseDecimal(f.rate).value <= 100.0
  {
    ValidateParts(f);
    PartFacts(f);
    if Numbers.ParseDecimal(f.rate).Some? {
      Numbers.ParsedHasDigit(f.rate);
    }
  }

  /** An empty rate draws only the "Rate is required" message: the number checks are skipped. */
  lemma EmptyRateOnlyRequired(f: TaxForm)
    requires f.rate == ""
    ensures "Rate" in Validate(f).fieldErrors && Validate(f).fieldErrors["Rate"] == RequiredMessage("Rate")
    ensures "rate" !in Validate(f).fieldErrors
  {
    ValidateParts(f);
    PartFacts(f);
  }

  /** A typed rate that does not parse, or parses outside 0..100, is reported under
      the lower-case key "rate" with the matching message; an acceptable one is not. */
  lemma RateMessages(f: TaxForm)
    ensures "rate" in Validate(f).fieldErrors <==> RateProblem(f.rate).Some?
    ensures f.rate != "" && Numbers.ParseDecimal(f.rate).None? ==>
      "rate" in Validate(f).fieldErrors && Validate(f).fieldErrors["rate"] == "Rate must be a valid number"
    ensures Numbers.ParseDecimal(f.rate).Some? && Numbers.ParseDecimal(f.rate).value < 0.0 ==>
      "rate" in Validate(f).fieldErrors && Validate(f).fieldErrors["rate"] == "Rate cannot be negative"
    ensures Numbers.ParseDecimal(f.rate).Some? && Numbers.ParseDecimal(f.rate).value > 100.0 ==>
      "rate" in Validate(f).fieldErrors && Validate(f).fieldErrors["rate"] == "Rate cannot exceed 100%"
  {
    ValidateParts(f);
    PartFacts(f);
  }

  /** What the tax table holds: rates from 0 to 100 and acceptable names. */
  predicate Acceptable(t: TaxItem) {
    ValidName(t.name) && 0.0 <= t.rate <= 100.0
  }

  /** The tax form's submit handler. */
  function HandleSubmit(g: Grid.GridModel<TaxItem, TaxForm>, f: TaxForm, id: string): Grid.GridModel<TaxItem, TaxForm> {
    Grid.SubmitValidated(g, f, Validate(f).isValid, Forms(id))
  }

  /** Submitting through the form never puts an unacceptable tax into the table. */
  lemma HandleSubmitKeepsAcceptable(g: Grid.GridModel<TaxItem, TaxForm>, f: TaxForm, id: string)
    requires forall i :: 0 <= i < |g.items| ==> Acceptable(g.items[i])
    ensures forall i :: 0 <= i < |HandleSubmit(g, f, id).items| ==> Acceptable(HandleSubmit(g, f, id).items[i])
  {
    ValidateValid(f);
    Grid.SubmitValidatedPreserves(g, f, Validate(f).isValid, Forms(id), Acceptable);
  }
}
