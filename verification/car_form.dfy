/** The car form's validation and its reset. */
module CarForm {
  import opened JsText
  import opened FormErrors
  import opened Optional
  import Cars

  /** The form's fields; the transmission has no rule of its own. */
  datatype Field = Brand | Model | ChassisNumber | Color | EnginePower | Transmission

  /** The raw text of each input, and the selected transmission. */
  datatype FormData = FormData(
    brand: string,
    model: string,
    chassisNumber: string,
    color: string,
    enginePower: string,
    transmission: string)

  /** The state the form starts from and is reset to: empty inputs and an
      automatic transmission. */
  const InitialForm: FormData := FormData("", "", "", "", "", Cars.DefaultTransmission)

  /** `isNaN(s) || parseFloat(s) <= 0`. On decimal literals `parseFloat` reads the
      same number `Number` does, so both tests consult `NumberValue`. */
  predicate PowerUnusable(s: string) {
    NumberValue(s).None? || NumberValue(s).value <= 0.0
  }

  /** `validate`: brand, model, chassis number and colour are required; the engine
      power is required and must be a positive number. */
  function Validate(f: FormData): (errors: map<Field, Problem>)
    ensures Brand in errors <==> IsBlank(f.brand)
    ensures Model in errors <==> IsBlank(f.model)
    ensures ChassisNumber in errors <==> IsBlank(f.chassisNumber)
    ensures Color in errors <==> IsBlank(f.color)
    ensures EnginePower in errors <==> IsBlank(f.enginePower) || PowerUnusable(f.enginePower)
    ensures EnginePower in errors ==>
      errors[EnginePower] == if IsBlank(f.enginePower) then Required else Invalid
    ensures Transmission !in errors
    ensures forall k :: k in errors && k != EnginePower ==> errors[k] == Required
  {
    Collect(IsBlank(f.brand), IsBlank(f.model), IsBlank(f.chassisNumber), IsBlank(f.color),
      PowerProblem(f.enginePower))
  }

  /** The engine power's test: required first, then a positive number. */
  function PowerProblem(s: string): Option<Problem> {
    if IsBlank(s) then Some(Required)
    else if PowerUnusable(s) then Some(Invalid)
    else None
  }

  /** The error map built from the outcome of each field's test, in the order
      `validate` runs them. */
  function Collect(brand: bool, model: bool, chassis: bool, color: bool, power: Option<Problem>)
    : (errors: map<Field, Problem>)
    ensures Brand in errors <==> brand
    ensures Model in errors <==> model
    ensures ChassisNumber in errors <==> chassis
    ensures Color in errors <==> color
    ensures EnginePower in errors <==> power.Some?
    ensures EnginePower in errors ==> errors[EnginePower] == power.value
    ensures Transmission !in errors
    ensures forall k :: k in errors && k != EnginePower ==> errors[k] == Required
  {
    var e0: map<Field, Problem> := map[];
    var e1 := if brand then e0[Brand := Required] else e0;
    var e2 := if model then e1[Model := Required] else e1;
    var e3 := if chassis then e2[ChassisNumber := Required] else e2;
    var e4 := if color then e3[Color := Required] else e3;
    if power.Some? then e4[EnginePower := power.value] else e4
  }

  /** `validate` returns true exactly when no error key was set. */
  predicate IsValid(f: FormData) {
    Validate(f) == map[]
  }

  /** A blank engine power reads as 0 to `Number`, so it would be rejected even
      without the "required" test; only the message differs. */
  lemma BlankPowerIsUnusable(s: string)
    requires IsBlank(s)
    ensures PowerUnusable(s)
  {
  }

  /** An engine power written as a plain numeral is rejected exactly when all of
      its digits are 0. */
  lemma NumeralPowerRule(f: FormData)
    requires |f.enginePower| >= 1 && AllDigits(f.enginePower)
    ensures EnginePower in Validate(f) <==> forall i :: 0 <= i < |f.enginePower| ==> f.enginePower[i] == '0'
  {
    NumeralNotBlank(f.enginePower);
    NumeralPowerUnusable(f.enginePower);
  }

  lemma NumeralPowerUnusable(s: string)
    requires |s| >= 1 && AllDigits(s)
    ensures PowerUnusable(s) <==> forall i :: 0 <= i < |s| ==> s[i] == '0'
  {
    NumberOfNumeral(s);
    DigitsValuePositive(s);
  }

  /** An engine power written with a fraction point, as in `0.5`, is rejected
      exactly when the number it denotes is 0. */
  lemma DecimalPowerRule(f: FormData, w: string, frac: string)
    requires AllDigits(w) && AllDigits(frac) && |w| + |frac| >= 1
    requires f.enginePower == w + "." + frac
    ensures EnginePower in Validate(f) <==> DecimalValue(w, frac) == 0.0
  {
    var s := f.enginePower;
    assert !IsBlank(s) by {
      assert s[|w|] == '.';
      BlankIffAllWhiteSpace(s);
    }
    NumberOfDecimal(w, frac);
  }

  /** An engine power of `0.5` is accepted. */
  lemma HalfPowerAccepted(f: FormData)
    requires f.enginePower == "0.5"
    ensures EnginePower !in Validate(f)
  {
    DecimalPowerRule(f, "0", "5");
    assert DigitsValue("5") == 5 by {
      assert "5"[..0] == [];
    }
    assert DigitsValue("0") == 0 by {
      assert "0"[..0] == [];
    }
  }

  /** The form is valid exactly when the four text fields are filled in and the
      engine power is a positive number. */
  lemma ValidIff(f: FormData)
    ensures IsValid(f) <==>
      !IsBlank(f.brand) && !IsBlank(f.model) && !IsBlank(f.chassisNumber) && !IsBlank(f.color) &&
      NumberValue(f.enginePower).Some? && NumberValue(f.enginePower).value > 0.0
  {
    var e := Validate(f);
    if !IsValid(f) {
      var k :| k in e;
    }
  }

  /** The transmission never influences the verdict. */
  lemma TransmissionIgnored(f: FormData, t: string)
    ensures Validate(f.(transmission := t)) == Validate(f)
  {
  }

  /** The form state after `handleSubmit`: reset to the initial state when the
      form is valid, unchanged otherwise. */
  function AfterSubmit(f: FormData): (next: FormData)
    ensures IsValid(f) ==> next == InitialForm && next.transmission == Cars.DefaultTransmission
    ensures IsValid(f) ==> Validate(next) != map[]
    ensures !IsValid(f) ==> next == f
  {
    if IsValid(f) then
      assert Brand in Validate(InitialForm);
      InitialForm
    else f
  }
}
