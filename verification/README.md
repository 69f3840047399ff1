# Invoice builder kernel in Dafny

A model of the decision and data logic beneath the views of a Rust/Leptos
invoice-builder web application, with proofs of what that logic promises. The
model follows the repository's code; where the repository's description and its
code differ, the code wins.

What is modelled, module by module:

- `Validation`: the editable grid's `ValidationResult` and its builders, the
  `required`, `min_length` and `max_length` validators, and `combine_results`.
- `Grid`: the editable grid's items, loaded form and editing index, with its
  submit, edit, delete and cancel callbacks as pure transitions. It is generic
  over the item and form types.
- `Taxes`, `Discounts`, `Charges`, `CustomFields`, `LineItems`: each catalog's
  form validation, the conversions between item and form, the `Display` texts,
  and the select-box encodings and their parsers.
- `LineItems` also holds a line item's running total over its selected taxes,
  discounts and charges, and the gate that submits a form only when it validates.
- `Totals`: the invoice totals card, which gives subtotal, discounts, charges,
  tax and the final total.
- `Autocomplete`: the grouped autocomplete. This covers the static data source's
  search, per-group truncation, the debounced search step, selection updates and
  keyboard navigation over (group, item) positions.
- `Codec`, `Crypto`, `Hasher`: the session code's UTF-8 bytes, base64 and hex
  encoders, keyed digest and key derivation, XOR cipher with key expansion, and
  the stand-in SHA-256 hasher (word arithmetic in `bv32`, wrapping as `u32` does).
- `Session`: token creation, the signature check, server-time estimation and
  the two drift detectors, the integrity chain, `verify_session_comprehensive`,
  the decisions of `update_session_state`, `refresh_session_state` and
  `load_existing_session`, and saving and loading the stored session.
- `App`: the entry module's `LayoutSelector`, the authorization predicate, the
  header's status label, and what clearing the session, refreshing it, logging
  in and logging out do to the application state.
- `Viewport`: the breakpoint and device-type classification of the editable
  grid, and the shared screen-size hook.
- `Text`, `Numbers`, `Wrappers`: the string and number primitives the code
  relies on, plus `Option`/`Result`:
  - `trim` with Unicode whitespace;
  - `len` as the UTF-8 byte length;
  - ASCII lower-casing and `contains`;
  - `parse::<f64>()` and `f64::to_string` on exact decimals.

Modelling choices:

- Money and every parsed number are Dafny `real`s, so the arithmetic is exact.
  Text-to-number parsing is a decimal parser. Number-to-text formatting writes the
  exact decimal, and the two are proved to round-trip.
- Clocks, the device fingerprint, the stored nonce list, and the serialized token
  and integrity texts are fields of a `Session.Environment` passed to each decision.
- Calls to Firebase and the server enter as their results. Fresh identifiers
  enter as parameters.
- The catalogs and the line-item table submit, edit and delete through the
  actions returned by `use_editable_grid` from the editable grid's hooks module.
  That hook is not part of this model: `src/components/editable_grid/hooks.rs`
  defines only `use_responsive`. The model assumes its actions behave like the `on_submit`,
  `on_edit`, `on_delete` and `on_cancel` callbacks of the editable grid's view.
  `Grid.SubmitValidated` and every `HandleSubmitKeepsAcceptable` rest on that
  assumption, and so does the reach of the grid's delete defect into the catalogs.

## Model

| member | source | states |
|---|---|---|
| Validation.New | src/components/editable_grid/types.rs:90-96 | the neutral result is valid with no message and no field error |
| Validation.WithError | src/components/editable_grid/types.rs:98-102 | the result is invalid, has exactly one more message, at the end, and the same field errors |
| Validation.WithFieldError | src/components/editable_grid/types.rs:104-108 | the result is invalid, the field maps to the new message, every other key keeps its message, no other key appears, and the messages are unchanged |
| Validation.FieldFailure | src/components/editable_grid/types.rs:104-108 | a fresh result with one field error is invalid, has no message and maps exactly that field |
| Validation.BuildersNeverRevalidate | src/components/editable_grid/types.rs:98-108 | after any chain of builder calls the result is valid only if it was valid and the chain is empty; messages are appended in call order and no field key is lost |
| Validation.AddedErrorsAppend | src/components/editable_grid/types.rs:98-102 | the messages two chains of builder calls add are those of the first followed by those of the second |
| Validation.Required | src/components/editable_grid/validation.rs:12-19 | valid exactly when the value is not blank after trimming; otherwise the only entry is the field name mapped to "<field> is required"; never a free-standing message |
| Validation.MinLength | src/components/editable_grid/validation.rs:21-30 | valid exactly when the UTF-8 byte length is at least `min`; otherwise the field name maps to the "at least" message |
| Validation.MaxLength | src/components/editable_grid/validation.rs:32-41 | valid exactly when the UTF-8 byte length is at most `max`; otherwise the field name maps to the "no more than" message |
| Validation.SpacesPassMinLengthFailRequired | src/components/editable_grid/validation.rs:13-22 | a run of at least `min` spaces passes the length check and fails the required check |
| Validation.NonAsciiCountsBytes | src/components/editable_grid/validation.rs:22 | a value of `n` non-ASCII characters passes a minimum of `2n`, because length counts bytes |
| Validation.CombineResultsLoop | src/components/editable_grid/validation.rs:55-67 | the loop as written computes the combination; it is valid exactly when every input is, and its messages are those of the invalid inputs in order |
| Validation.CombineValid | src/components/editable_grid/validation.rs:55-67 | the combination is valid exactly when every input is valid |
| Validation.CombineEmpty | src/components/editable_grid/validation.rs:55-67 | combining no results gives the neutral result |
| Validation.CombineErrors | src/components/editable_grid/validation.rs:58-64 | the combined messages are the invalid inputs' messages concatenated in input order, checked against an independent filter-then-flatten definition |
| Validation.CombineFieldKeys | src/components/editable_grid/validation.rs:58-64 | a key has a combined field error exactly when some invalid input has it; valid inputs contribute nothing |
| Validation.CombineLaterWins | src/components/editable_grid/validation.rs:62 | on a key clash the message of the last invalid input holding that key is the one kept |
| Validation.CombineNewIdentity | src/components/editable_grid/validation.rs:55-67 | inserting the neutral result anywhere leaves the combination unchanged |
| Validation.CombineAppend | src/components/editable_grid/validation.rs:55-67 | combining a concatenation is merging the two combinations, later field errors overriding |
| Validation.CombineThree | src/components/editable_grid/validation.rs:55-67 | three groups of checks combine as the merge of their combinations |
| Validation.CombineKeyedWithin | src/components/editable_grid/validation.rs:58-64 | inputs with field errors only under some set of keys and no free-standing message combine to such a result |
| Validation.InvalidAppend | src/components/editable_grid/validation.rs:58-59 | the invalid inputs of a concatenation are those of each part, in order |
| Validation.AllErrorsAppend | src/components/editable_grid/validation.rs:61 | the messages of a concatenation are those of each part, in order |
| Validation.CombineNameChecks | src/components/editable_grid/validation.rs:12-41 | required, minimum and optional maximum combined pass exactly when the value is not blank and its byte length is within bounds; every message is under the field's own key |
| Validation.NameChecksValid | src/components/editable_grid/validation.rs:12-41 | the validity half of the name checks |
| Validation.NameChecksKeyed | src/components/editable_grid/validation.rs:12-41 | the name checks report only under the field's own key |
| Validation.CombineProblem | src/components/editable_grid/validation.rs:55-67 | a single optional number problem combines to invalid exactly when present, keyed by its field with its message |
| Validation.CombineSingle | src/components/editable_grid/validation.rs:55-67 | one result combines to itself as far as validity and messages go; a valid one to the neutral result |
| Validation.CombineRequired | src/components/editable_grid/validation.rs:12-19 | a required check alone combines to the "is required" entry exactly when the value is blank |
| Grid.NewFormState | src/components/editable_grid/types.rs:51-57 | the form and index are stored as given and the editing flag holds exactly when an index is present |
| Grid.Rows | src/components/editable_grid/types.rs:36-40 | the enumerated rows are as many as the items, row `i` holding item `i` and index `i` |
| Grid.Submit | src/components/editable_grid/view.rs:29-50 | with no edit the converted form is appended and earlier items are untouched; while editing an index in range exactly that item is replaced and nothing else changes; an index out of range leaves the items alone; afterwards editing is off and the form is the default |
| Grid.SubmitValidated | src/components/invoice/line_items.rs:218-220 | the grid sees the form only when it validated; otherwise nothing changes |
| Grid.SubmitValidatedPreserves | src/components/invoice/line_items.rs:218-220 | any property every validated form converts into is kept by every item after a gated submit |
| Grid.Edit | src/components/editable_grid/view.rs:53-59 | an index in range loads that item's form and sets the editing index; an index out of range changes nothing; items never change |
| Grid.Cancel | src/components/editable_grid/view.rs:74-77 | the form is reset and editing stopped; the items stay |
| Grid.RemoveAt | src/components/editable_grid/view.rs:63-65 | one item fewer; items before `i` keep their place and later ones move down by one |
| Grid.DeleteAsWritten | src/components/editable_grid/view.rs:62-71 | removes item `i`; resets form and editing only when `i` is the edited index; any other editing index is kept as it was |
| Grid.DeleteAsWrittenShiftsEdit | src/components/editable_grid/view.rs:62-71 | editing 30 in [10, 20, 30, 40], deleting 10 and submitting 31 overwrites 40 and keeps 30, and the grid is no longer consistent |
| Grid.Delete | src/components/editable_grid/view.rs:62-71 | the corrected delete: as above, but an editing index past the removed item moves down by one |
| Grid.DeleteShiftsEdit | src/components/editable_grid/view.rs:62-71 | with the corrected delete the same scenario overwrites 30 |
| Grid.DeleteKeepsEditedItem | src/components/editable_grid/view.rs:62-71 | after the corrected delete of another item the editing index still points at the item that was loaded |
| Grid.Step | src/components/editable_grid/view.rs:29-77 | with the corrected delete of the Findings: a callback fails exactly when it deletes beyond the end, where `Vec::remove` panics |
| Grid.StepConsistent | src/components/editable_grid/view.rs:29-77 | with the corrected delete, every callback keeps the invariant that an editing index is in range and its item's form is the loaded form; the callbacks as written do not (see Grid.StepAsWrittenBreaks) |
| Grid.RunConsistent | src/components/editable_grid/view.rs:21-77 | with the corrected delete, from any initial list the invariant holds after any run of callbacks |
| Grid.RunPreserves | src/components/editable_grid/view.rs:29-77 | with the corrected delete, from a consistent grid the invariant holds after any run of callbacks |
| Grid.StepAsWritten | src/components/editable_grid/view.rs:29-77 | the component's own callbacks fail exactly when a delete lies beyond the end |
| Grid.StepAsWrittenBreaks | src/components/editable_grid/view.rs:29-77 | the callbacks as written agree with the corrected ones except on a delete before the edited item; on a consistent grid such a delete breaks the invariant exactly when the edited item is the last or the item after it does not have the loaded form; every other callback keeps it |
| Grid.RunAsWrittenWithoutDeletes | src/components/editable_grid/view.rs:29-77 | a run of the callbacks as written without deletes is the corrected run and keeps the invariant |
| Grid.RunAsWrittenBreaks | src/components/editable_grid/view.rs:53-71 | from a fresh grid of [10, 20, 30, 40], editing index 2 and then deleting index 0 with the callbacks as written leaves an inconsistent grid |
| Taxes.ToForm | src/components/invoice/taxes.rs:33-38 | the form keeps the tax's name |
| Taxes.FromForm | src/components/invoice/taxes.rs:40-46 | the name is copied, the rate is the parsed text or 0 when it does not parse, and the id is the fresh one |
| Taxes.FormRoundTrip | src/components/invoice/taxes.rs:33-46 | through the form and back a tax keeps name and rate and only gets a new id |
| Taxes.ValidateParts | src/components/invoice/taxes.rs:70-102 | the validation is the merge of the name checks, the rate-required check and the number check |
| Taxes.NamePartFacts | src/components/invoice/taxes.rs:73-75 | the name checks pass exactly for a non-blank name of 2 to 50 bytes and report only under "Tax Name" |
| Taxes.RatePartFacts | src/components/invoice/taxes.rs:76 | the rate-required check passes exactly for a non-blank rate and reports "Rate is required" under "Rate" |
| Taxes.NumberPartFacts | src/components/invoice/taxes.rs:80-99 | the number check fails exactly when the rate problem is present, reported under "rate" |
| Taxes.PartFacts | src/components/invoice/taxes.rs:70-102 | the three groups' facts together |
| Taxes.ValidateValid | src/components/invoice/taxes.rs:70-102 | a form is accepted exactly when its name is acceptable and its rate parses to a number from 0 to 100, both ends included |
| Taxes.EmptyRateOnlyRequired | src/components/invoice/taxes.rs:76-80 | an empty rate draws "Rate is required" and nothing under "rate" |
| Taxes.RateMessages | src/components/invoice/taxes.rs:80-99 | "rate" is reported exactly when the rate is typed and unacceptable, with the not-a-number, negative or above-100 message as the case may be |
| Taxes.HandleSubmitKeepsAcceptable | src/components/invoice/taxes.rs:146-149 | submitting through the form never puts a tax with an unacceptable name or a rate outside 0..100 into the table |
| Discounts.ParseType | src/components/invoice/discounts.rs:277-281 | anything other than "FixedAmount" selects a percentage |
| Discounts.ParseScope | src/components/invoice/discounts.rs:308-312 | anything other than "LineItem" selects the whole invoice |
| Discounts.SelectRoundTrip | src/components/invoice/discounts.rs:387-400 | handling the shown value of either select selects the same variant, and each listed option selects its own variant |
| Discounts.DisplayTextUnit | src/components/invoice/discounts.rs:68-79 | the display text starts with the name and ends with the unit and ")", the unit being "%" exactly for a percentage and "$" exactly for a fixed amount |
| Discounts.ToForm | src/components/invoice/discounts.rs:108-117 | every field but the value is copied into the form |
| Discounts.FromForm | src/components/invoice/discounts.rs:119-129 | every field is copied back, the value is the parsed text or 0, and the id is the fresh one |
| Discounts.FormRoundTrip | src/components/invoice/discounts.rs:108-129 | through the form and back a discount keeps every field but its id |
| Discounts.ValidateParts | src/components/invoice/discounts.rs:160-192 | the validation is the merge of the name checks, the description and value-required checks, and the number check |
| Discounts.NamePartFacts | src/components/invoice/discounts.rs:163-165 | the name checks pass exactly for a non-blank name of 2 to 100 bytes, reported under "Discount Name" |
| Discounts.FieldsPartValid | src/components/invoice/discounts.rs:166-167 | the description and value checks pass exactly when the description has at most 500 bytes and the value is not blank |
| Discounts.FieldsPartKeys | src/components/invoice/discounts.rs:166-167 | those checks report only under "Description" and "Value" |
| Discounts.FieldsPartRequired | src/components/invoice/discounts.rs:167 | a blank value is reported as "Value is required" under "Value" |
| Discounts.FieldsPartFacts | src/components/invoice/discounts.rs:166-167 | the description and value checks' facts together |
| Discounts.NumberPartFacts | src/components/invoice/discounts.rs:171-190 | the number check fails exactly when the value problem is present, reported under "value" |
| Discounts.ValueAccepted | src/components/invoice/discounts.rs:167-190 | a value that is present and draws no message is exactly one that parses to a non-negative number, at most 100 for a percentage |
| Discounts.ValueProblemCases | src/components/invoice/discounts.rs:171-190 | the not-a-number, negative and (percentage only) above-100 messages, each for its case; no message exactly for the empty value or an accepted number |
| Discounts.ValidateValid | src/components/invoice/discounts.rs:160-192 | a form is accepted exactly when the name is acceptable, the description is at most 500 bytes and the value parses to a non-negative number that, for a percentage only, is at most 100 |
| Discounts.ValueMessages | src/components/invoice/discounts.rs:171-190 | "value" is reported exactly when the value problem is present, with that problem's message |
| Discounts.EmptyValueOnlyRequired | src/components/invoice/discounts.rs:167-171 | an empty value draws "Value is required" and nothing under "value" |
| Discounts.HandleSubmitKeepsAcceptable | src/components/invoice/discounts.rs:235-237 | submitting through the form never puts an unacceptable discount into the table |
| Charges.ParseScope | src/components/invoice/other_charges.rs:246-250 | anything other than "LineItem" selects the whole invoice |
| Charges.ScopeRoundTrip | src/components/invoice/other_charges.rs:340-350 | the shown value selects the scope it is shown for, and each listed option selects its own scope |
| Charges.ToForm | src/components/invoice/other_charges.rs:59-67 | every field but the amount is copied into the form |
| Charges.FromForm | src/components/invoice/other_charges.rs:69-78 | every field is copied back, the amount is the parsed text or 0, and the id is the fresh one |
| Charges.FormRoundTrip | src/components/invoice/other_charges.rs:59-78 | through the form and back a charge keeps every field but its id |
| Charges.Metadata | src/components/invoice/other_charges.rs:94-100 | three pairs, "amount", "scope" and "is_default" in that order; the scope's display text; "true" exactly for a default charge |
| Charges.MetadataAmount | src/components/invoice/other_charges.rs:96 | the amount written in the metadata reads back as the charge's amount |
| Charges.ValidateParts | src/components/invoice/other_charges.rs:103-127 | the validation is the merge of the name checks, the amount-required check and the number check |
| Charges.NamePartFacts | src/components/invoice/other_charges.rs:106-108 | the name checks pass exactly for a non-blank name of 2 to 50 bytes, reported under "Charge Name" |
| Charges.AmountPartFacts | src/components/invoice/other_charges.rs:109 | the amount-required check passes exactly for a non-blank amount and reports "Amount is required" under "Amount" |
| Charges.NumberPartFacts | src/components/invoice/other_charges.rs:113-125 | the number check fails exactly when the amount problem is present, reported under "amount" |
| Charges.ValidateValid | src/components/invoice/other_charges.rs:103-127 | a form is accepted exactly when its name is acceptable and its amount parses to a non-negative number, with no upper bound |
| Charges.EmptyAmountOnlyRequired | src/components/invoice/other_charges.rs:109-113 | an empty amount draws "Amount is required" and nothing under "amount" |
| Charges.AmountMessages | src/components/invoice/other_charges.rs:113-125 | "amount" is reported exactly when the amount is typed and unacceptable, with the not-a-number or negative message as the case may be |
| Charges.HandleSubmitKeepsAcceptable | src/components/invoice/other_charges.rs:195-197 | submitting through the form never puts an unacceptable charge into the table |
| CustomFields.ParseType | src/components/invoice/custom_fields.rs:222-233 | any type other than `Text` is selected only by its own display text |
| CustomFields.ParseCategory | src/components/invoice/custom_fields.rs:245-253 | any category other than `GlobalInvoice` is selected only by its own option value |
| CustomFields.Selected | src/components/invoice/custom_fields.rs:361-373 | the option a select shows for a value is the first option with that value, and none exactly when no option has it |
| CustomFields.TypeSelectRoundTrip | src/components/invoice/custom_fields.rs:44-57 | for all eight types the display text used as the select's value is one of the options and selects back the same type |
| CustomFields.TypeOptionsParse | src/components/invoice/custom_fields.rs:347-354 | every listed option selects the type it names; unknown text selects `Text` |
| CustomFields.CategorySelectAsWritten | src/components/invoice/custom_fields.rs:365 | the category select is given the display text, which matches no option, and for the four categories other than `GlobalInvoice` handling it selects a different category |
| CustomFields.CategorySelectRoundTrip | src/components/invoice/custom_fields.rs:365-373 | with the option value instead, the select shows the category's own option and handling it selects the category back |
| CustomFields.CategoryOptionsParse | src/components/invoice/custom_fields.rs:247-252 | "BillerAddress", "ClientAddress", "LineItem" and "BillingDetails" select their categories; unknown text selects `GlobalInvoice` |
| CustomFields.ToForm | src/components/invoice/custom_fields.rs:97-106 | every field but the id is copied into the form |
| CustomFields.FromForm | src/components/invoice/custom_fields.rs:108-118 | every field is copied back and the id is the fresh one |
| CustomFields.FormRoundTrip | src/components/invoice/custom_fields.rs:97-118 | the conversions are inverse to each other, up to the id, in both directions |
| CustomFields.Metadata | src/components/invoice/custom_fields.rs:134-141 | exactly four pairs, field_type, category, required and is_default in that order, with the display texts and "true" exactly for a set flag |
| CustomFields.BoolText | src/components/invoice/custom_fields.rs:138-139 | a flag is written "true" exactly when set and "false" otherwise |
| CustomFields.MetadataTypeReadsBack | src/components/invoice/custom_fields.rs:136 | the metadata's type entry selects back the item's type |
| CustomFields.ValidateValid | src/components/invoice/custom_fields.rs:144-154 | a form is accepted exactly when the name is not blank and has 2 to 50 bytes; errors are keyed by "Field Name" only |
| CustomFields.ValidateOnlyName | src/components/invoice/custom_fields.rs:144-154 | forms with the same name validate alike, whatever their type, category, default and flags |
| CustomFields.HandleSubmitKeepsAcceptable | src/components/invoice/custom_fields.rs:196-198 | submitting through the form never puts a field with an unacceptable name into the table |
| LineItems.ToForm | src/components/invoice/line_items.rs:52-62 | name, description and the three selections are copied into the form |
| LineItems.FromForm | src/components/invoice/line_items.rs:64-78 | name and description are copied, both numbers are the parsed text or 0, and taxes, discounts, charges and custom fields are empty |
| LineItems.FormRoundTrip | src/components/invoice/line_items.rs:52-78 | through the form and back an item keeps name, description and numbers and loses its selections and custom-field values |
| LineItems.ValidateParts | src/components/invoice/line_items.rs:102-126 | the validation is the merge of the name checks, the two required checks and the two parse checks |
| LineItems.NamePartFacts | src/components/invoice/line_items.rs:105-106 | the name checks pass exactly for a non-blank name of at least 2 bytes, with no maximum, reported under "Item Name" |
| LineItems.FieldsPartErrors | src/components/invoice/line_items.rs:107-108 | the required checks pass exactly when neither number is blank, and report exactly the blank ones |
| LineItems.FieldsPartKeys | src/components/invoice/line_items.rs:107-108 | "Quantity" is reported exactly for a blank quantity and "Unit Price" exactly for a blank unit price |
| LineItems.NumberPartFacts | src/components/invoice/line_items.rs:111-123 | "quantity" and "unit-price" are reported, with their messages, exactly when the text does not parse |
| LineItems.ValidateValid | src/components/invoice/line_items.rs:102-126 | a form is accepted exactly when the name is acceptable and both numbers parse |
| LineItems.ValidateErrors | src/components/invoice/line_items.rs:102-126 | the form's field errors are the union of the three groups' field errors |
| LineItems.QuantityMessage | src/components/invoice/line_items.rs:111-116 | "quantity" is reported exactly when the quantity does not parse |
| LineItems.UnitPriceMessage | src/components/invoice/line_items.rs:118-123 | "unit-price" is reported exactly when the unit price does not parse |
| LineItems.QuantityRequired | src/components/invoice/line_items.rs:107 | "Quantity", a key apart from "quantity", is reported exactly for a blank quantity |
| LineItems.UnitPriceRequired | src/components/invoice/line_items.rs:108 | "Unit Price" is reported exactly for a blank unit price |
| LineItems.EmptyQuantityTwoErrors | src/components/invoice/line_items.rs:107-116 | an empty quantity is reported twice, as required and as not a number |
| LineItems.HandleSubmitKeepsAcceptable | src/components/invoice/line_items.rs:218-220 | submitting through the form never puts an item with an unacceptable name into the table |
| LineItems.FindIndex | src/components/invoice/line_items.rs:162 | the position found is the first catalog entry with the id, and none exactly when no entry has it |
| LineItems.Known | src/components/invoice/line_items.rs:161-184 | the selections kept are at most as many and each one's id is in the catalog |
| LineItems.ApplyAllAppend | src/components/invoice/line_items.rs:161-184 | running two lists of selections one after the other is running their concatenation |
| LineItems.OnlyIdsMatter | src/components/invoice/line_items.rs:162-181 | selections with the same ids give the same total: the catalog supplies the values |
| LineItems.UnknownSkipped | src/components/invoice/line_items.rs:161-184 | selections whose id is not in the catalog are skipped |
| LineItems.TaxOne | src/components/invoice/line_items.rs:161-165 | one tax found in the catalog multiplies the total by 1 + rate/100 using the catalog's rate; one not found changes nothing |
| LineItems.DiscountOne | src/components/invoice/line_items.rs:168-177 | one percentage discount multiplies the total by 1 - value/100; one fixed discount subtracts its value |
| LineItems.TaxesScale | src/components/invoice/line_items.rs:161-165 | taxes compound: the total is multiplied by the product of the found taxes' factors |
| LineItems.ChargesAdd | src/components/invoice/line_items.rs:180-184 | charges add the sum of the found charges' amounts |
| LineItems.DiscountsAffine | src/components/invoice/line_items.rs:168-177 | discounts scale the running total by the percentage factors and take off the fixed values, each reduced by the percentages applied after it |
| LineItems.TotalClosedForm | src/components/invoice/line_items.rs:149-188 | the total is quantity times unit price, times the tax and discount factors, less the fixed discounts, plus the charges |
| LineItems.TotalNoSelections | src/components/invoice/line_items.rs:151-186 | with nothing selected the total is quantity times unit price, whatever the catalogs hold |
| LineItems.UnparsedTotalZero | src/components/invoice/line_items.rs:152-153 | with nothing selected, a quantity or unit price that does not parse gives total 0 |
| LineItems.LineTotalLoop | src/components/invoice/line_items.rs:149-188 | the derived total as written, parsing both numbers, equals the model's total of the form |
| LineItems.RunningTotal | src/components/invoice/line_items.rs:154-186 | the three loops as written compute the total, which meets the closed form |
| Totals.SumAppend | src/components/invoice/totals.rs:15-18 | a per-item sum over a concatenation is the sum of the two sums |
| Totals.GlobalDiscountItems | src/components/invoice/totals.rs:38-39 | the invoice-wide discounts are catalog entries scoped to the whole invoice |
| Totals.GlobalChargeItems | src/components/invoice/totals.rs:62-63 | the invoice-wide charges are catalog entries scoped to the whole invoice |
| Totals.DiscountSumAffine | src/components/invoice/totals.rs:21-34 | an item's discounts are its base amount times the summed percentages plus the summed fixed values |
| Totals.TaxSumLinear | src/components/invoice/totals.rs:71-85 | taxes do not compound: an item's tax is its taxable amount, base less discounts, times the summed rates |
| Totals.GlobalDiscountsOnlyGlobal | src/components/invoice/totals.rs:37-49 | the global discount loop counts exactly the discounts scoped to the whole invoice |
| Totals.GlobalChargesOnlyGlobal | src/components/invoice/totals.rs:61-66 | the global charge loop counts exactly the charges scoped to the whole invoice |
| Totals.GlobalDiscountsAffine | src/components/invoice/totals.rs:37-49 | global percentage discounts are taken against the subtotal: the subtotal times the global percentages plus the global fixed values |
| Totals.NoItems | src/components/invoice/totals.rs:15-87 | with no line items the subtotal and tax are 0 and the total is the global charges less the global fixed discounts |
| Totals.TotalAdditive | src/components/invoice/totals.rs:11-87 | with empty catalogs the total of a list of items is the sum of its parts' totals |
| Totals.PlainItem | src/components/invoice/totals.rs:11-87 | an item with no discounts, charges or taxes adds exactly unit price times quantity to the total |
| Totals.SubtotalLoop | src/components/invoice/totals.rs:15-18 | the subtotal loop sums unit price times quantity over the items |
| Totals.LineItemDiscountsLoop | src/components/invoice/totals.rs:21-34 | the nested discount loops sum each item's discounts against its own base amount |
| Totals.ItemDiscountFold | src/components/invoice/totals.rs:74-79 | the fold inside the tax loop computes the same item discount as the discount loop |
| Totals.GlobalDiscountsLoop | src/components/invoice/totals.rs:37-49 | the global discount loop computes the global discounts |
| Totals.ChargesLoop | src/components/invoice/totals.rs:54-66 | the charge loops sum every item's charges and the invoice-wide catalog charges |
| Totals.TaxLoop | src/components/invoice/totals.rs:71-85 | the tax loop sums each item's taxes against its taxable amount |
| Totals.TotalsLoop | src/components/invoice/totals.rs:11-96 | the memo as written gives the model's summary, and its total is subtotal - discounts + charges + tax |
| Autocomplete.FilterItems | src/components/ui/autocomplete.rs:86-98 | no more items than the group had; every kept item is one of the group's and matches the query; every item of the group that matches is kept |
| Autocomplete.FilterItemsSubsequence | src/components/ui/autocomplete.rs:86-98 | the kept items are the group's items with some left out and the rest in their original order |
| Autocomplete.FilterGroups | src/components/ui/autocomplete.rs:83-110 | no more groups than the source had, and no returned group is empty |
| Autocomplete.KeptFrom | src/components/ui/autocomplete.rs:83-110 | the positions of the surviving groups lie in range and strictly increase, so the groups keep their order |
| Autocomplete.KeptFromExact | src/components/ui/autocomplete.rs:100-108 | a group's position is kept exactly when at least one of its items matches |
| Autocomplete.FilterGroupsFrom | src/components/ui/autocomplete.rs:83-110 | filtering a suffix of the groups yields, position by position, the surviving source groups with their items filtered |
| Autocomplete.SearchKeepsMatchingGroups | src/components/ui/autocomplete.rs:77-110 | a non-empty query returns exactly the groups with a matching item, in source order, each with its id and name kept and only its matching items |
| Autocomplete.EmptyQueryReturnsAll | src/components/ui/autocomplete.rs:73-75 | an empty query returns the groups unchanged, empty groups included |
| Autocomplete.SearchGroupsNonEmpty | src/components/ui/autocomplete.rs:100-108 | every group a non-empty query returns has at least one item |
| Autocomplete.LowerAsciiIdempotent | src/components/ui/autocomplete.rs:80 | lower-casing a lower-cased string changes nothing |
| Autocomplete.FilterItemsSameMatches | src/components/ui/autocomplete.rs:89-96 | two queries that match the same items of a group filter it identically |
| Autocomplete.FilterGroupsLowerQuery | src/components/ui/autocomplete.rs:77-96 | when case is ignored, filtering with a query and with its lower-cased form gives the same groups |
| Autocomplete.SearchIgnoresQueryCase | src/components/ui/autocomplete.rs:77-81 | a case-insensitive search returns the same result for a query and its lower-cased form |
| Autocomplete.Truncate | src/components/ui/autocomplete.rs:210 | the result is a prefix of the items of length the smaller of the limit and the item count |
| Autocomplete.Limit | src/components/ui/autocomplete.rs:206-216 | as many groups as before with id and name kept and each item list a prefix of the original; with a limit each group keeps exactly its first `min(limit, n)` items; without one the results are unchanged |
| Autocomplete.Init | src/components/ui/autocomplete.rs:182-190 | the component starts with the initial selection, an empty query, no results, closed, not loading and nothing highlighted |
| Autocomplete.RunSearch | src/components/ui/autocomplete.rs:195-220 | a query shorter in bytes than the minimum clears the results and closes the list; otherwise the results are the limited search results, the list opens and loading is off; query, selection and highlight are untouched |
| Autocomplete.Select | src/components/ui/autocomplete.rs:234-241 | the item is added to the selection; query cleared, list closed, highlight dropped; results and loading untouched |
| Autocomplete.Remove | src/components/ui/autocomplete.rs:243-247 | the item leaves the selection and nothing else changes |
| Autocomplete.ClearAll | src/components/ui/autocomplete.rs:249-251 | the selection becomes empty and nothing else changes |
| Autocomplete.RemoveUndoesSelect | src/components/ui/autocomplete.rs:234-247 | selecting an item that was not selected and then removing it restores the selection |
| Autocomplete.SelectRemoveIdempotent | src/components/ui/autocomplete.rs:234-247 | selecting an item twice is selecting it once; removing twice is removing once |
| Autocomplete.ArrowUpAgrees | src/components/ui/autocomplete.rs:281-306 | where the code as written does not index out of bounds the corrected ArrowUp moves identically, and it fails exactly on a first item whose previous group lies beyond the results |
| Autocomplete.ArrowUpAsWrittenFails | src/components/ui/autocomplete.rs:293-295 | a highlight on group 2 with one group of results makes the code as written index out of bounds |
| Autocomplete.ArrowUpUndoesArrowDown | src/components/ui/autocomplete.rs:260-306 | on results without empty groups, ArrowUp after ArrowDown returns to any highlighted item, wrap-around included |
| Autocomplete.ArrowDownUndoesArrowUp | src/components/ui/autocomplete.rs:260-306 | on results without empty groups, ArrowDown after ArrowUp returns to any highlighted item, wrap-around included |
| Autocomplete.ArrowDownValid | src/components/ui/autocomplete.rs:262-278 | on non-empty results without empty groups, ArrowDown always lands on an existing item, whatever was highlighted |
| Autocomplete.ArrowUpValid | src/components/ui/autocomplete.rs:283-305 | on non-empty results without empty groups, ArrowUp from no highlight or from an item lands on an existing item |
| Autocomplete.HandleKey | src/components/ui/autocomplete.rs:253-325 | Enter selects the highlighted item when it exists and otherwise changes nothing; Escape closes the list and drops the highlight; the arrows change only the highlight; other keys change nothing |
| Autocomplete.ScenarioSearchX | src/components/ui/autocomplete.rs:83-110 | a query every item contains keeps all three groups |
| Autocomplete.ScenarioSearchA | src/components/ui/autocomplete.rs:83-110 | a query only the first group's item contains keeps just that group |
| Autocomplete.StaleHighlightReachable | src/components/ui/autocomplete.rs:195-306 | from a fresh component, three ArrowDowns highlight the third group; narrowing the query leaves one group but keeps the highlight, and ArrowUp as written then indexes out of bounds |
| Text.TrimStart | src/components/editable_grid/validation.rs:13 | trimming the front leaves a suffix of the string |
| Text.TrimEnd | src/components/editable_grid/validation.rs:13 | trimming the back leaves a prefix of the string |
| Text.TrimStartBlank | src/components/editable_grid/validation.rs:13 | trimming the front leaves nothing exactly when every character is whitespace, and otherwise leaves a string starting with a non-whitespace character |
| Text.TrimEndBlank | src/components/editable_grid/validation.rs:13 | trimming the back leaves nothing exactly when every character is whitespace |
| Text.TrimEmptyIffBlank | src/components/editable_grid/validation.rs:13 | a trimmed string is empty exactly when the string is all whitespace |
| Text.Utf8Width | src/components/editable_grid/validation.rs:22 | a character takes one to four bytes, exactly one when it is ASCII |
| Text.Utf8LenBounds | src/components/editable_grid/validation.rs:22 | a string's byte length lies between its character count and four times that |
| Text.Utf8LenAscii | src/components/editable_grid/validation.rs:22 | an all-ASCII string is as long in bytes as in characters |
| Text.Utf8LenAppend | src/components/editable_grid/validation.rs:22-33 | the byte length of a concatenation is the sum of the byte lengths |
| Text.ToLowerAscii | src/components/ui/autocomplete.rs:80 | lower-casing keeps the length and maps every character independently |
| Text.ContainsIffOccurs | src/components/ui/autocomplete.rs:95 | a string contains a pattern exactly when the pattern occurs at some position |
| Text.ContainsEmpty | src/components/ui/autocomplete.rs:95 | every string contains the empty string |
| Numbers.DigitsValueAppend | src/components/invoice/taxes.rs:44 | writing one digit run after another shifts the first run's value left by the second run's length |
| Numbers.NatToDigits | src/components/invoice/taxes.rs:36 | the decimal digits of a number are non-empty and denote that number |
| Numbers.PadLeft | src/components/invoice/taxes.rs:36 | zero padding reaches the width, keeps the value, and changes nothing once the width is met |
| Numbers.ParseUnsigned | src/components/invoice/taxes.rs:44 | an unsigned numeral never reads as a negative value |
| Numbers.FindScale | src/components/invoice/taxes.rs:36 | a found scale lies in range and makes the value whole |
| Numbers.FindScaleFinds | src/components/invoice/taxes.rs:36 | the scale search succeeds whenever some scale in range makes the value whole |
| Numbers.ScanAppendDigits | src/components/invoice/taxes.rs:44 | reading more digits shifts the mantissa left and counts them, as fraction digits after a point |
| Numbers.ScanPointText | src/components/invoice/taxes.rs:44 | digits, a point and digits read with both runs' digits as mantissa and the second run as fraction |
| Numbers.PointAtParses | src/components/invoice/taxes.rs:36-44 | digits with a point inserted read back as their value scaled down by the digits after the point |
| Numbers.FormatScaledParses | src/components/invoice/taxes.rs:36-44 | parsing the text written for `m / 10^k` gives back `m / 10^k`, sign included |
| Numbers.FormatNumberRoundTrip | src/components/invoice/taxes.rs:36-44 | parsing the text a number converts to gives back the number, for every decimal with at most the modelled number of fraction digits |
| Numbers.FormatWholeNumber | src/components/invoice/taxes.rs:36 | a whole number is written as its plain digits |
| Numbers.ParsedHasDigit | src/components/invoice/taxes.rs:81-86 | whatever parses as a number holds a digit, so empty and blank text never parses |
| Codec.Utf8Bytes | src/auth/session.rs:152 | a string's UTF-8 bytes are as many as its byte length |
| Codec.Utf8BytesAppend | src/auth/session.rs:103-108 | the UTF-8 bytes of a concatenation are the concatenation of the UTF-8 bytes |
| Codec.AlphabetInverse | src/auth/session.rs:724-767 | the decoder's value of the encoder's character at position `i` is `i`, no alphabet character is the padding character, and every alphabet character is the character of its value |
| Codec.EncodeChunk | src/auth/session.rs:729-749 | a chunk of one to three bytes becomes four characters: two from the alphabet, then alphabet characters for present bytes and '=' exactly for missing ones |
| Codec.Base64Encode | src/auth/session.rs:724-753 | the encoding of `n` bytes has `4 * ceil(n / 3)` characters |
| Codec.Base64Padding | src/auth/session.rs:724-753 | '=' appears in the encoding exactly in its last `(3 - n % 3) % 3` places |
| Codec.Base64Alphabet | src/auth/session.rs:724-753 | every character of the encoding other than '=' is in the alphabet |
| Codec.Sextets | src/auth/session.rs:757-768 | the decoder's first pass yields at most one value per character, each below 64 |
| Codec.DecodeChunk | src/auth/session.rs:771-786 | a group of two to four values yields one byte fewer than it has values, and a lone value yields nothing |
| Codec.ChunkRoundTrip | src/auth/session.rs:729-786 | decoding one encoded chunk of one to three bytes gives the chunk back |
| Codec.EncodedSextets | src/auth/session.rs:724-768 | the decoder reads `n + ceil(n / 3)` values from the encoding of `n` bytes |
| Codec.Base64RoundTrip | src/auth/session.rs:724-789 | decoding the encoding of any byte string gives that byte string back |
| Codec.HexEncode | src/auth/session.rs:720-722 | the hex text is twice as long as the data and consists of lower-case hex digits |
| Codec.HexRoundTrip | src/auth/session.rs:720-722 | reading the hex text back two digits at a time gives the data back |
| Codec.HexInjective | src/auth/session.rs:720-722 | two byte strings with the same hex text are equal |
| Crypto.HmacSha256 | src/auth/session.rs:93-100 | the keyed digest is 32 bytes |
| Crypto.HmacIsDigestOfConcatenation | src/auth/session.rs:93-100 | the keyed digest is the digest of key followed by data, so shifting bytes across the key/data boundary keeps the digest |
| Crypto.DeriveSessionKey | src/auth/session.rs:103-109 | the derived key is 32 bytes |
| Crypto.DeriveSessionKeyConcatenates | src/auth/session.rs:103-109 | the derived key is the digest of the UTF-8 bytes of secret, entropy and session id run together |
| Crypto.ExpandKey | src/auth/session.rs:166-168 | an empty key expands to nothing |
| Crypto.ExpandKeyStartsWithKey | src/auth/session.rs:166-168 | a non-empty key expands to exactly the requested length, beginning with the key itself when that fits |
| Crypto.ExpandKeyPrefix | src/auth/session.rs:166-168 | expanding a non-empty key to fewer bytes gives a prefix of expanding it to more |
| Crypto.XorBytes | src/auth/session.rs:150-161 | with key and nonce non-empty the cipher bytes are as many as the data, byte `i` being data, cycled key and cycled nonce XORed; otherwise there are none |
| Crypto.XorInvolution | src/auth/session.rs:150-161 | applying the cipher twice with the same non-empty key and nonce gives the data back |
| Crypto.EncryptDataRecoverable | src/auth/session.rs:150-164 | base64-decoding the encrypted text and applying the cipher again recovers the plaintext's bytes; with an empty key or nonce the encrypted text is empty |
| Hasher.New | src/auth/session.rs:691-693 | a new hasher has fed nothing |
| Hasher.Update | src/auth/session.rs:695-697 | the data is appended after everything fed so far |
| Hasher.AbsorbAppend | src/auth/session.rs:705-709 | folding in two pieces in turn is folding in their concatenation |
| Hasher.LeRoundTrip | src/auth/session.rs:712 | reading four little-endian bytes back gives the word |
| Hasher.ChunkOfSpread | src/auth/session.rs:711-714 | bytes `4i` to `4i + 3` of the laid-out digest are word `i`'s little-endian bytes |
| Hasher.Words | src/auth/session.rs:711-714 | after `n` rounds of the output loop the first `4n` bytes agree with the full digest layout |
| Hasher.Finalize | src/auth/session.rs:699-717 | the digest is 32 bytes |
| Hasher.FinalizeWords | src/auth/session.rs:699-717 | each 4-byte chunk `i` of the digest decodes to the final word times `i + 1` with wrap-around, and the first chunk to the final word itself |
| Hasher.Digest | src/auth/session.rs:691-717 | the digest of a byte string fed at once is 32 bytes |
| Hasher.DigestIffState | src/auth/session.rs:699-717 | two hashers give the same digest exactly when their final 32-bit words agree |
| Hasher.UpdatesConcatenate | src/auth/session.rs:695-697 | feeding two pieces in separate updates gives the digest of their concatenation |
| Hasher.AbsorbChunks | src/auth/session.rs:703-709 | walking the buffer in 64-byte chunks folds in every byte in order, as if unchunked |
| Hasher.WriteWords | src/auth/session.rs:702-714 | the output loop over a zeroed 32-byte array writes exactly the eight little-endian words |
| Hasher.FinalizeSteps | src/auth/session.rs:699-717 | the two loops of finalize together compute the digest |
| Session.OfflineExp | src/auth/session.rs:409-410 | the offline expiry is the server time plus the window's hours in milliseconds |
| Session.CreateSecureToken | src/auth/session.rs:394-434 | the token's header is HS256/JWT; issued-at and not-before are the server time, expiry is the subscription's, the offline expiry is the server time plus the window, and the token id and entropy are the ones given |
| Session.Base64Injective | src/auth/session.rs:457-459 | two byte strings have the same base64 text exactly when they are equal, so comparing signatures as text compares the digests |
| Session.CreatedTokenSignature | src/auth/session.rs:421-459 | a freshly created token passes the signature check exactly when the keyed digest under the key derived from the subscription token equals the one under the key derived from "server_secret"; it passes when the subscription token is that text |
| Session.CastU64 | src/auth/session.rs:317 | a float converts to an unsigned 64-bit value, truncated toward zero inside the range and saturated at both ends |
| Session.CurrentServerTime | src/auth/session.rs:312-325 | the server time is known exactly when the wall clock is within one minute either way of the time the monotonic clock predicts, and it is then the synced server time plus the elapsed milliseconds |
| Session.AdvancedClockTampering | src/auth/session.rs:525-545 | tampering is reported exactly when the drift exceeds five minutes forwards or one minute backwards, and the report carries the drift |
| Session.DetectorsAgree | src/auth/session.rs:500-545 | both detectors measure the same drift, so clock tampering always makes the server time unknown, and a drift of one to five minutes forwards is caught by the first detector only |
| Session.IntegrityHash | src/auth/session.rs:547-552 | the integrity hash is 64 hex characters |
| Session.IntegrityChainFirstOnly | src/auth/session.rs:554-570 | a chain starting with the right hash passes whatever follows, an empty chain never passes, and appending links never changes the verdict |
| Session.CombineFirstFailure | src/auth/session.rs:466-498 | verification passes exactly when all five checks pass, and each violation is reported exactly when its check is the first to fail, in source order |
| Session.ClockCheckWindow | src/auth/session.rs:525-545 | the clock check passes exactly when the drift is at most one minute backwards and at most five minutes forwards |
| Session.Decide | src/auth/session.rs:331-355 | a present session is decided as tampering, subscription expired, expired or valid, never anything else |
| Session.UpdateSessionStateRange | src/auth/session.rs:327-359 | the update never decides Offline, and decides Loading exactly when there is no session |
| Session.DecideValidIff | src/auth/session.rs:331-355 | a session is Valid exactly when all checks pass, the server time is known, and it is before both the token's expiry and its offline expiry |
| Session.DecideExpiryOrder | src/auth/session.rs:338-350 | with all checks passed, a session past the token's expiry is SubscriptionExpired, and Expired holds exactly between the offline expiry and the token's expiry |
| Session.DecideTampering | src/auth/session.rs:333-355 | TamperingDetected is decided exactly when some check fails or the server time is unknown |
| Session.RefreshIdempotent | src/auth/session.rs:361-373 | states other than Valid and Offline are kept, those two are replaced by the update's decision, refreshing twice with the same readings is refreshing once, and a refreshed valid state is always Valid |
| Session.HasValidSubscriptionIff | src/auth/session.rs:294-303 | a subscription is valid exactly when the clock drift is within a minute, the estimated server time is before the subscription's expiry and the token signature is valid; without a session it is never valid |
| Session.OfflineWindow | src/auth/session.rs:338-350 | for a token created with a window of `h` hours, the session passes its offline expiry exactly when `h` hours have passed on the monotonic clock, at once when `h` is 0 |
| Session.AfterLoad | src/auth/session.rs:250-278 | a loaded session never ends Offline; it is cleared exactly when verification fails and adopted exactly when every check passes |
| Session.LoadExistingSessionOutcome | src/auth/session.rs:245-287 | nothing stored or a failed load leaves the state Loading with nothing adopted or cleared; a loaded session never ends Offline and is cleared exactly when some check fails |
| Session.AfterLoadStates | src/auth/session.rs:252-277 | a bad signature and a replayed nonce get states of their own when they are the first failure, clock tampering shows as tampering unless an earlier check failed, and an adopted session is decided as the update decides it |
| Session.LoadAsWrittenScrambles | src/auth/session.rs:600-613 | as written, loading a saved session hands the cipher bytes to the JSON parser, and these equal the JSON's bytes only where cycled key and nonce bytes cancel |
| Session.LoadAsWrittenExample | src/auth/session.rs:577-613 | the text "{}" saved under key byte 1 and nonce "0" loads as the bytes 0x4A 0x4C instead of 0x7B 0x7D |
| Session.SaveLoadRoundTrip | src/auth/session.rs:577-613 | with loading corrected to decipher with the same key and nonce, a saved session's JSON bytes come back exactly |
| App.SelectLayout | src/main.rs:277-298 | the private layout is chosen exactly when the route would be authorized, and without a user the public layout is always chosen |
| App.SelectLayoutCases | src/main.rs:286-298 | for a signed-in user the subscription-expired, security-warning and session-expired layouts are chosen exactly for their states, whatever the subscription says; a valid session without a subscription and the loading, network-error, bad-signature and replay states fall through to the public layout |
| App.StatusLabel | src/main.rs:389-396 | the loading label is shown exactly for the loading, network-error, invalid-signature and replay states |
| App.StatusLabelInjective | src/main.rs:389-396 | states outside the loading group have pairwise different labels |
| App.ClearSession | src/main.rs:27-33 | user, session and error are gone and the state is Loading; the loading flag is untouched |
| App.ClearSessionIdempotent | src/main.rs:27-33 | clearing twice is clearing once, and a cleared state shows the public layout and the loading label |
| App.RefreshSession | src/main.rs:43-55 | a failed fetch sets NetworkError and returns its error; the refresh succeeds exactly when fetching and initializing both succeed; user, loading flag and error are never touched |
| App.RefreshFailureShowsPublic | src/main.rs:43-55 | after a failed fetch a signed-in user sees the public layout and the loading label |
| App.PerformLogout | src/main.rs:986-998 | the session is cleared and loading switched off whatever signing out returned, and that result is returned |
| App.LoginAsWrittenStaysLoading | src/main.rs:956-983 | as written, every path through login leaves the loading flag on |
| App.PerformLoginOutcome | src/main.rs:956-983 | corrected, login ends with loading off; it succeeds exactly when signing in succeeds and, for a user with a token, the refresh does too; on success the user is set and no error recorded; on failure the user is kept and an error recorded; the result is the one the code as written returns |
| Viewport.DevicePredicatesComplement | src/components/editable_grid/hooks.rs:20-28 | `is_mobile` and `is_desktop` are exact complements |
| Viewport.BreakpointOf | src/components/editable_grid/hooks.rs:39-45 | mobile exactly under 640, tablet exactly from 640 up to 1024, desktop exactly from 1024 |
| Viewport.DeviceTypeOf | src/components/editable_grid/hooks.rs:47-51 | the device is mobile exactly under 1024 |
| Viewport.DeviceMatchesBreakpoint | src/components/editable_grid/hooks.rs:39-51 | the device is mobile exactly when the breakpoint is not desktop |
| Viewport.BreakpointMonotone | src/components/editable_grid/hooks.rs:39-45 | a wider window never gets a smaller breakpoint |
| Viewport.InitialLayout | src/components/editable_grid/hooks.rs:32-33 | both signals start at desktop |
| Viewport.UpdateBreakpoint | src/components/editable_grid/hooks.rs:35-56 | without a window nothing changes; otherwise both signals follow the width, a non-numeric width counting as 1024, which is desktop |
| Viewport.UpdateAgrees | src/components/editable_grid/hooks.rs:35-56 | after an update from a window the device is mobile exactly when the breakpoint is not desktop |
| Viewport.ScreenPredicatesPartition | src/shared/hooks/use_responsive.rs:12-27 | exactly one size predicate holds, and "mobile or tablet" is "not desktop" |
| Viewport.ScreenSizeOf | src/shared/hooks/use_responsive.rs:30-46 | mobile exactly under 768, tablet from 768 up to 1024, desktop from 1024; no window or no numeric width gives desktop |
| Viewport.ClassifiersAgreeOnDesktop | src/shared/hooks/use_responsive.rs:30-46 | the two hooks agree on desktop and disagree between 640 and 768, where one says tablet and the other mobile |

## Left out

- View markup, CSS, presentational components, and the page components of the entry module. They decide nothing.
- Signals, effects, memos, and the debounce timer of the autocomplete search. Each callback is a pure transition over an explicit state.
- The `debounce_ms` setting, for the same reason.
- `validators::email`: it rests on a regular-expression library.
- UUID generation. Ids are parameters.
- IEEE `f64` behaviour: rounding, `{:.2}` formatting, exponent notation, and `inf`/`NaN`. Amounts are exact reals.
- Numbers.ParseDecimal: accepts only an optional sign, digits and at most one point. `str::parse::<f64>()` also reads exponents, `inf` and `NaN`, and this model reports those as unparseable.
- Numbers.FormatNumber: writes exact decimals with at most 1074 fraction digits. That covers every finite `f64`, but rounding to the nearest `f64` is not modelled.
- Text.ToLowerAscii: lower-cases only 'A' to 'Z'. `str::to_lowercase` maps all of Unicode.
- The average tax rate the tax card displays. It is presentation over floats.
- The seed data of the invoice state module. It is constant initial data.
- The custom-field value renderer. Its value types are not part of this model.
- The typst and PDF viewer wrappers.
- The JavaScript and Firebase bindings, and JSON serialization and parsing. The serialized texts of token, session and integrity data are parameters.
- localStorage, `Date.now`, `performance.now`, `crypto.getRandomValues` and the navigator-based fingerprint. They are readings in `Session.Environment`.
- Session: u64 and i64 overflow of timestamp arithmetic is not modelled. Times are unbounded naturals and drifts unbounded integers. The float-to-`u64` cast of elapsed time is modelled by `Session.CastU64`.
- `initialize_session_data` as one orchestration is not modelled. Its pieces are: token creation, payload encryption, the first integrity link, saving, and the state decision.
- `calculate_session_checksum` and the checksum comparison in loading are not modelled. The model takes a stored session up to the bytes handed to the JSON parser.
- Session.CreateSecureToken: the signature is defined, but the token's contract does not restate it. Session.CreatedTokenSignature states when the signature verifies. Creation keys the digest with the subscription token, while verification keys it with the fixed text "server_secret". A created token therefore verifies exactly when the two keyed digests coincide, in particular when the subscription token is that text. The model states this condition; it does not claim the mismatch is a defect.
- Autocomplete.HandleKey: its arrow-key branches use the corrected `Autocomplete.ArrowUp` (see Findings). Its contract states only that the arrow keys change nothing but the highlight.
- App: the login button's handler additionally overwrites the error with "Login failed: " and the error text. It lives in a view component, and only `perform_login` is modelled.
- Grid.Step, Grid.StepConsistent, Grid.RunConsistent, Grid.RunPreserves: these describe the grid with the corrected delete of the Findings. For the component as written, see Grid.StepAsWritten, Grid.StepAsWrittenBreaks, Grid.RunAsWrittenWithoutDeletes and Grid.RunAsWrittenBreaks.
- Grid.SubmitValidated and the catalogs' HandleSubmitKeepsAcceptable: `use_editable_grid` is not part of this model. Its actions are taken to be the view's callbacks.
- Viewport.UpdateBreakpoint: `inner_width()` returning an error panics at the `unwrap` in the breakpoint update. The model's window has no such case, so that panic is not modelled.
- App.ClearSession: the storage removal that `clear_session` triggers is I/O and is left out.

## Findings

| source | as written | input that shows it | evidently intended | confidence | as-written member | corrected member |
|---|---|---|---|---|---|---|
| src/components/invoice/custom_fields.rs:365 | the category select is given the category's display text ("Biller Address") while its options and the parser use the variant names ("BillerAddress") | category `BillerAddress`: the select gets "Biller Address", which matches no option and parses to `GlobalInvoice` | the select gets the option value, so showing a category and reading it back gives that category | high, not executed | CustomFields.CategorySelectAsWritten | CustomFields.CategorySelectRoundTrip |
| src/components/ui/autocomplete.rs:293-295 | ArrowUp from the first item of group `g` reads group `g - 1` without checking that it is still among the results | search "x" shows three groups; three ArrowDowns highlight group 2; search "a" leaves one group but keeps the highlight; ArrowUp indexes group 1 of one | a stale previous group wraps round to the last item, as ArrowDown does for a stale group | high, not executed | Autocomplete.StaleHighlightReachable | Autocomplete.ArrowUpUndoesArrowDown |
| src/main.rs:956-983 | `perform_login` switches `loading` on and never off | any login, successful or not | loading is switched off on every path, as `perform_logout` does | medium, not executed | App.LoginAsWrittenStaysLoading | App.PerformLoginOutcome |
| src/components/editable_grid/view.rs:62-71 | deleting an item before the one being edited keeps the editing index, which then names the next item | items [10, 20, 30, 40], edit 30 (index 2), delete 10, submit 31: 40 is overwritten and 30 is kept | the editing index moves down with the edited item | high, not executed | Grid.DeleteAsWrittenShiftsEdit | Grid.DeleteShiftsEdit |
| src/auth/session.rs:600-613 | loading only base64-decodes the stored text and never undoes the XOR cipher that saving applied | "{}" saved under key byte 1 and nonce "0" loads as the bytes 0x4A 0x4C ("JL"), not "{}" | loading deciphers with the key and nonce used for saving | high, not executed | Session.LoadAsWrittenExample | Session.SaveLoadRoundTrip |
