/** The editable grid's validation kernel: the `ValidationResult` record with
    its builders, the three length/presence validators, and `combine_results`,
    which folds many results into one. */
module Validation {
  import opened Wrappers
  import opened Text
  import Numbers

  /** Outcome of validating one form: a validity flag, free-standing messages,
      and messages keyed by field name. */
  datatype ValidationResult = ValidationResult(isValid: bool, errors: seq<string>, fieldErrors: map<string, string>)
  {
    predicate HasErrors() {
      !isValid
    }
  }

  /** The neutral result: valid, with no messages at all. */
  function New(): (r: ValidationResult)
    ensures r.isValid && |r.errors| == 0 && |r.fieldErrors| == 0
  {
    ValidationResult(true, [], map[])
  }

  /** Record a free-standing message; the result is invalid from then on. */
  function WithError(r: ValidationResult, error: string): (res: ValidationResult)
    ensures res.HasErrors()
    ensures res.errors == r.errors + [error] && res.fieldErrors == r.fieldErrors
  {
    r.(isValid := false, errors := r.errors + [error])
  }

  /** Record a message under `field`, replacing any earlier one for that field. */
  function WithFieldError(r: ValidationResult, field: string, error: string): (res: ValidationResult)
    ensures res.HasErrors()
    ensures res.errors == r.errors
    ensures field in res.fieldErrors && res.fieldErrors[field] == error
    ensures forall k :: k in r.fieldErrors && k != field ==> k in res.fieldErrors && res.fieldErrors[k] == r.fieldErrors[k]
    ensures forall k :: k in res.fieldErrors ==> k == field || k in r.fieldErrors
  {
    r.(isValid := false, fieldErrors := r.fieldErrors[field := error])
  }

  /** A result holding a single field error, as the forms build them for their number checks. */
  function FieldFailure(field: string, message: string): (r: ValidationResult)
    ensures !r.isValid && |r.errors| == 0 && r.fieldErrors == map[field := message]
  {
    WithFieldError(New(), field, message)
  }

  /** One builder call, for reasoning about chains of them. */
  datatype Builder = AddError(error: string) | AddFieldError(field: string, message: string)

  function ApplyBuilders(r: ValidationResult, bs: seq<Builder>): ValidationResult
  {
    if |bs| == 0 then r
    else
      var acc := ApplyBuilders(r, bs[..|bs| - 1]);
      match bs[|bs| - 1]
      case AddError(e) => WithError(acc, e)
      case AddFieldError(f, e) => WithFieldError(acc, f, e)
  }

  /** The free-standing messages a chain of builders adds, in call order. */
  function AddedErrors(bs: seq<Builder>): seq<string>
  {
    if |bs| == 0 then []
    else (if bs[0].AddError? then [bs[0].error] else []) + AddedErrors(bs[1..])
  }

  lemma {:induction false} AddedErrorsAppend(a: seq<Builder>, b: seq<Builder>)
    ensures AddedErrors(a + b) == AddedErrors(a) + AddedErrors(b)
  {
    if |a| == 0 {
      assert a + b == b;
    } else {
      assert (a + b)[1..] == a[1..] + b;
      AddedErrorsAppend(a[1..], b);
    }
  }

  /** No chain of builder calls turns an invalid result valid; a chain leaves a
      result valid only when it is empty and the start was valid; messages are
      appended in call order and field errors only ever gain keys. */
  lemma {:induction false} BuildersNeverRevalidate(r: ValidationResult, bs: seq<Builder>)
    ensures ApplyBuilders(r, bs).isValid <==> r.isValid && |bs| == 0
    ensures ApplyBuilders(r, bs).errors == r.errors + AddedErrors(bs)
    ensures r.fieldErrors.Keys <= ApplyBuilders(r, bs).fieldErrors.Keys
  {
    if |bs| > 0 {
      var init := bs[..|bs| - 1];
      BuildersNeverRevalidate(r, init);
      AddedErrorsAppend(init, [bs[|bs| - 1]]);
      assert init + [bs[|bs| - 1]] == bs;
      assert AddedErrors([bs[|bs| - 1]]) == if bs[|bs| - 1].AddError? then [bs[|bs| - 1].error] else [];
    }
  }

  /** The messages of the three validators, as `format!` builds them. */
  function RequiredMessage(fieldName: string): string {
    fieldName + " is required"
  }

  function MinLengthMessage(fieldName: string, min: nat): string {
    fieldName + " must be at least " + Numbers.NatToDigits(min) + " characters"
  }

  function MaxLengthMessage(fieldName: string, max: nat): string {
    fieldName + " must be no more than " + Numbers.NatToDigits(max) + " characters"
  }

  /** `validators::required`: a blank value (nothing left after trimming) is an error keyed by the field name. */
  function Required(value: string, fieldName: string): (r: ValidationResult)
    ensures r.isValid <==> !IsBlank(value)
    ensures |r.errors| == 0
    ensures r.isValid ==> |r.fieldErrors| == 0
    ensures !r.isValid ==> r.fieldErrors == map[fieldName := RequiredMessage(fieldName)]
  {
    TrimEmptyIffBlank(value);
    if |Trim(value)| == 0 then WithFieldError(New(), fieldName, RequiredMessage(fieldName))
    else New()
  }

  /** `validators::min_length`: fewer than `min` UTF-8 bytes is an error keyed by the field name. */
  function MinLength(value: string, min: nat, fieldName: string): (r: ValidationResult)
    ensures r.isValid <==> min <= Utf8Len(value)
    ensures |r.errors| == 0
    ensures r.isValid ==> |r.fieldErrors| == 0
    ensures !r.isValid ==> r.fieldErrors == map[fieldName := MinLengthMessage(fieldName, min)]
  {
    if Utf8Len(value) < min then
      WithFieldError(New(), fieldName, MinLengthMessage(fieldName, min))
    else New()
  }

  /** `validators::max_length`: more than `max` UTF-8 bytes is an error keyed by the field name. */
  function MaxLength(value: string, max: nat, fieldName: string): (r: ValidationResult)
    ensures r.isValid <==> Utf8Len(value) <= max
    ensures |r.errors| == 0
    ensures r.isValid ==> |r.fieldErrors| == 0
    ensures !r.isValid ==> r.fieldErrors == map[fieldName := MaxLengthMessage(fieldName, max)]
  {
    if Utf8Len(value) > max then
      WithFieldError(New(), fieldName, MaxLengthMessage(fieldName, max))
    else New()
  }

  /** The two validators disagree on whitespace: a run of spaces at least `min`
      long is long enough for `MinLength` yet fails `Required`. */
  lemma SpacesPassMinLengthFailRequired(n: nat, min: nat, fieldName: string)
    requires min <= n
    ensures MinLength(Spaces(n), min, fieldName).isValid
    ensures !Required(Spaces(n), fieldName).isValid
  {
    Utf8LenAscii(Spaces(n));
  }

  /** Lengths are counted in bytes: a value of `n` characters outside ASCII
      passes a minimum of `2 * n` even though it has only `n` characters. */
  lemma NonAsciiCountsBytes(value: string)
    requires forall i :: 0 <= i < |value| ==> 0x80 <= value[i] as int
    ensures MinLength(value, 2 * |value|, "f").isValid
  {
    Utf8LenAtLeastTwice(value);
  }

  lemma {:induction false} Utf8LenAtLeastTwice(s: string)
    requires forall i :: 0 <= i < |s| ==> 0x80 <= s[i] as int
    ensures 2 * |s| <= Utf8Len(s)
  {
    if |s| > 0 {
      Utf8LenAtLeastTwice(s[..|s| - 1]);
    }
  }

  /** Fold one result into the running combination: valid results add nothing;
      an invalid one clears validity and contributes its messages, its field
      errors overriding earlier ones for the same key. */
  function Absorb(acc: ValidationResult, r: ValidationResult): ValidationResult
  {
    if r.isValid then acc
    else ValidationResult(false, acc.errors + r.errors, acc.fieldErrors + r.fieldErrors)
  }

  /** `validators::combine_results`. */
  function CombineResults(rs: seq<ValidationResult>): ValidationResult
  {
    if |rs| == 0 then New() else Absorb(CombineResults(rs[..|rs| - 1]), rs[|rs| - 1])
  }

  /** Two combinations side by side: valid when both are, messages in order,
      field errors of the second overriding those of the first. */
  function Merge(x: ValidationResult, y: ValidationResult): ValidationResult
  {
    ValidationResult(x.isValid && y.isValid, x.errors + y.errors, x.fieldErrors + y.fieldErrors)
  }

  /** Combining a concatenation is merging the combinations of its parts, so
      forms may combine their checks group by group. */
  lemma {:induction false} CombineAppend(a: seq<ValidationResult>, b: seq<ValidationResult>)
    ensures CombineResults(a + b) == Merge(CombineResults(a), CombineResults(b))
    decreases |b|
  {
    if |b| == 0 {
      assert a + b == a;
      assert CombineResults(a).fieldErrors + map[] == CombineResults(a).fieldErrors;
    } else {
      var init, last := b[..|b| - 1], b[|b| - 1];
      assert (a + b)[..|a + b| - 1] == a + init;
      CombineAppend(a, init);
      var ca, ci := CombineResults(a), CombineResults(init);
      if !last.isValid {
        assert (ca.fieldErrors + ci.fieldErrors) + last.fieldErrors == ca.fieldErrors + (ci.fieldErrors + last.fieldErrors);
        assert (ca.errors + ci.errors) + last.errors == ca.errors + (ci.errors + last.errors);
      }
    }
  }

  /** The presence and length checks every name field of the invoice forms
      runs: required, at least `min` bytes and, when given, at most `max` bytes. */
  function NameChecks(value: string, field: string, min: nat, max: Option<nat>): seq<ValidationResult>
  {
    [Required(value, field), MinLength(value, min, field)]
      + (if max.Some? then [MaxLength(value, max.value, field)] else [])
  }

  /** A result that carries no free-standing message and field errors only under `keys`. */
  predicate KeyedWithin(r: ValidationResult, keys: set<string>) {
    |r.errors| == 0 && r.fieldErrors.Keys <= keys
  }

  /** Combining results keyed within a set of fields gives a result keyed within it. */
  lemma {:induction false} CombineKeyedWithin(rs: seq<ValidationResult>, keys: set<string>)
    requires forall i :: 0 <= i < |rs| ==> KeyedWithin(rs[i], keys)
    ensures KeyedWithin(CombineResults(rs), keys)
  {
    if |rs| > 0 {
      CombineKeyedWithin(rs[..|rs| - 1], keys);
    }
  }

  /** A name passes its checks exactly when it is not blank and its byte length
      is within bounds; every message it draws is keyed by its own field. */
  lemma CombineNameChecks(value: string, field: string, min: nat, max: Option<nat>)
    ensures CombineResults(NameChecks(value, field, min, max)).isValid <==>
      !IsBlank(value) && min <= Utf8Len(value) && (max.Some? ==> Utf8Len(value) <= max.value)
    ensures KeyedWithin(CombineResults(NameChecks(value, field, min, max)), {field})
  {
    NameChecksValid(value, field, min, max);
    NameChecksKeyed(value, field, min, max);
  }

  lemma NameChecksValid(value: string, field: string, min: nat, max: Option<nat>)
    ensures CombineResults(NameChecks(value, field, min, max)).isValid <==>
      !IsBlank(value) && min <= Utf8Len(value) && (max.Some? ==> Utf8Len(value) <= max.value)
  {
    var rs := NameChecks(value, field, min, max);
    CombineValid(rs);
    assert rs[0].isValid <==> !IsBlank(value);
    assert rs[1].isValid <==> min <= Utf8Len(value);
    if max.Some? {
      assert |rs| == 3;
      assert rs[2].isValid <==> Utf8Len(value) <= max.value;
    } else {
      assert |rs| == 2;
    }
  }

  lemma NameChecksKeyed(value: string, field: string, min: nat, max: Option<nat>)
    ensures KeyedWithin(CombineResults(NameChecks(value, field, min, max)), {field})
  {
    var rs := NameChecks(value, field, min, max);
    assert KeyedWithin(rs[0], {field}) && KeyedWithin(rs[1], {field});
    assert max.Some? ==> KeyedWithin(rs[2], {field});
    CombineKeyedWithin(rs, {field});
  }

  /** A check that found either nothing or one problem, reported under `field`. */
  function Problem(field: string, p: Option<string>): seq<ValidationResult>
  {
    match p
    case None => []
    case Some(m) => [FieldFailure(field, m)]
  }

  lemma CombineProblem(field: string, p: Option<string>)
    ensures CombineResults(Problem(field, p)).isValid <==> p.None?
    ensures KeyedWithin(CombineResults(Problem(field, p)), {field})
    ensures p.Some? ==> field in CombineResults(Problem(field, p)).fieldErrors
    ensures p.Some? ==> CombineResults(Problem(field, p)).fieldErrors[field] == p.value
  {
    if p.Some? {
      assert Problem(field, p)[..0] == [];
    }
  }

  /** One result on its own combines to itself, as far as validity and messages go. */
  lemma CombineSingle(r: ValidationResult)
    ensures CombineResults([r]).isValid == r.isValid
    ensures !r.isValid ==> CombineResults([r]).errors == r.errors && CombineResults([r]).fieldErrors == r.fieldErrors
    ensures r.isValid ==> CombineResults([r]) == New()
  {
    assert [r][..0] == [];
  }

  /** The messages a required-field check contributes: the field's "is required"
      message when the value is blank, nothing otherwise. */
  function RequiredErrors(value: string, fieldName: string): map<string, string> {
    if IsBlank(value) then map[fieldName := RequiredMessage(fieldName)] else map[]
  }

  /** A required-field check on its own combines to exactly its messages. */
  lemma CombineRequired(value: string, fieldName: string)
    ensures CombineResults([Required(value, fieldName)]).isValid <==> !IsBlank(value)
    ensures |CombineResults([Required(value, fieldName)]).errors| == 0
    ensures CombineResults([Required(value, fieldName)]).fieldErrors == RequiredErrors(value, fieldName)
  {
    CombineSingle(Required(value, fieldName));
  }

  /** A key none of the outer groups uses is reported exactly when the middle group reports it. */
  lemma KeyFromMiddle(k: string, a: map<string, string>, b: map<string, string>, c: map<string, string>)
    requires k !in a && k !in c
    ensures k in a + b + c <==> k in b
  {
  }

  /** A key the first two groups do not use is reported exactly as the last group reports it. */
  lemma KeyFromLast(k: string, a: map<string, string>, b: map<string, string>, c: map<string, string>)
    requires k !in a && k !in b
    ensures k in a + b + c <==> k in c
    ensures k in c ==> (a + b + c)[k] == c[k]
  {
  }

  /** Three groups of checks combine as the merge of their combinations. */
  lemma CombineThree(a: seq<ValidationResult>, b: seq<ValidationResult>, c: seq<ValidationResult>)
    ensures CombineResults(a + b + c) == Merge(Merge(CombineResults(a), CombineResults(b)), CombineResults(c))
  {
    CombineAppend(a + b, c);
    CombineAppend(a, b);
  }

  /** The loop of `combine_results`, front to back, as it is written. */
  method CombineResultsLoop(rs: seq<ValidationResult>) returns (combined: ValidationResult)
    ensures combined == CombineResults(rs)
    ensures combined.isValid <==> forall i :: 0 <= i < |rs| ==> rs[i].isValid
    ensures combined.errors == AllErrors(Invalid(rs))
  {
    combined := New();
    for i := 0 to |rs|
      invariant combined == CombineResults(rs[..i])
    {
      assert rs[..i + 1][..i] == rs[..i];
      if !rs[i].isValid {
        combined := ValidationResult(false, combined.errors + rs[i].errors, combined.fieldErrors + rs[i].fieldErrors);
      }
    }
    assert rs[..|rs|] == rs;
    CombineValid(rs);
    CombineErrors(rs);
  }

  /** Reference definitions, front to back: the invalid results in input
      order, and the concatenation of a list's messages. */
  function Invalid(rs: seq<ValidationResult>): seq<ValidationResult>
  {
    if |rs| == 0 then [] else (if rs[0].isValid then [] else [rs[0]]) + Invalid(rs[1..])
  }

  function AllErrors(rs: seq<ValidationResult>): seq<string>
  {
    if |rs| == 0 then [] else rs[0].errors + AllErrors(rs[1..])
  }

  lemma {:induction false} InvalidAppend(a: seq<ValidationResult>, b: seq<ValidationResult>)
    ensures Invalid(a + b) == Invalid(a) + Invalid(b)
  {
    if |a| == 0 {
      assert a + b == b;
    } else {
      assert (a + b)[1..] == a[1..] + b;
      InvalidAppend(a[1..], b);
    }
  }

  lemma {:induction false} AllErrorsAppend(a: seq<ValidationResult>, b: seq<ValidationResult>)
    ensures AllErrors(a + b) == AllErrors(a) + AllErrors(b)
  {
    if |a| == 0 {
      assert a + b == b;
    } else {
      assert (a + b)[1..] == a[1..] + b;
      AllErrorsAppend(a[1..], b);
    }
  }

  /** The combination is valid exactly when every input is (so the empty list gives a valid result). */
  lemma {:induction false} CombineValid(rs: seq<ValidationResult>)
    ensures CombineResults(rs).isValid <==> forall i :: 0 <= i < |rs| ==> rs[i].isValid
  {
    if |rs| > 0 {
      CombineValid(rs[..|rs| - 1]);
      assert forall i :: 0 <= i < |rs| - 1 ==> rs[..|rs| - 1][i] == rs[i];
    }
  }

  /** Combining nothing gives the neutral result. */
  lemma CombineEmpty()
    ensures CombineResults([]) == New()
  {
  }

  /** The combined messages are those of the invalid inputs, concatenated in
      input order; messages carried by valid inputs are dropped. */
  lemma {:induction false} CombineErrors(rs: seq<ValidationResult>)
    ensures CombineResults(rs).errors == AllErrors(Invalid(rs))
  {
    if |rs| > 0 {
      var init, last := rs[..|rs| - 1], rs[|rs| - 1];
      CombineErrors(init);
      assert init + [last] == rs;
      InvalidAppend(init, [last]);
      AllErrorsAppend(Invalid(init), Invalid([last]));
      assert Invalid([last]) == if last.isValid then [] else [last];
      assert AllErrors([last]) == last.errors;
    }
  }

  /** A field has a combined error exactly when some invalid input carries one for it. */
  lemma {:induction false} CombineFieldKeys(rs: seq<ValidationResult>, k: string)
    ensures k in CombineResults(rs).fieldErrors <==> exists i :: 0 <= i < |rs| && !rs[i].isValid && k in rs[i].fieldErrors
  {
    if |rs| > 0 {
      var init := rs[..|rs| - 1];
      CombineFieldKeys(init, k);
      if exists i :: 0 <= i < |init| && !init[i].isValid && k in init[i].fieldErrors {
        var i :| 0 <= i < |init| && !init[i].isValid && k in init[i].fieldErrors;
        assert rs[i] == init[i];
      }
      if exists i :: 0 <= i < |rs| && !rs[i].isValid && k in rs[i].fieldErrors {
        var i :| 0 <= i < |rs| && !rs[i].isValid && k in rs[i].fieldErrors;
        if i < |init| {
          assert init[i] == rs[i];
        }
      }
    }
  }

  /** On a key clash the later input's message wins: the combined message for
      `k` is the one from the last invalid input that has `k`. */
  lemma {:induction false} CombineLaterWins(rs: seq<ValidationResult>, k: string, j: nat)
    requires j < |rs| && !rs[j].isValid && k in rs[j].fieldErrors
    requires forall i :: j < i < |rs| && !rs[i].isValid ==> k !in rs[i].fieldErrors
    ensures k in CombineResults(rs).fieldErrors
    ensures CombineResults(rs).fieldErrors[k] == rs[j].fieldErrors[k]
  {
    var init, last := rs[..|rs| - 1], rs[|rs| - 1];
    if j < |rs| - 1 {
      assert init[j] == rs[j];
      CombineLaterWins(init, k, j);
    }
  }

  /** The neutral result may be inserted anywhere in a combination without effect. */
  lemma {:induction false} CombineNewIdentity(a: seq<ValidationResult>, b: seq<ValidationResult>)
    ensures CombineResults(a + [New()] + b) == CombineResults(a + b)
  {
    if |b| == 0 {
      assert a + [New()] + b == a + [New()];
      assert (a + [New()])[..|a|] == a;
      assert a + b == a;
    } else {
      var init, last := b[..|b| - 1], b[|b| - 1];
      CombineNewIdentity(a, init);
      assert (a + [New()] + b)[..|a + [New()] + b| - 1] == a + [New()] + init;
      assert (a + b)[..|a + b| - 1] == a + init;
    }
  }
}
