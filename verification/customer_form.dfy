/** The customer form's validation. */
module CustomerForm {
  import opened JsText
  import opened FormErrors
  import opened Optional

  /** The form's fields; address and income have no rule of their own. */
  datatype Field = FirstName | LastName | IdentityNumber | Address | PhoneNumber | Income

  /** The raw text of each input. */
  datatype FormData = FormData(
    firstName: string,
    lastName: string,
    identityNumber: string,
    address: string,
    phoneNumber: string,
    income: string)

  /** `/^\d{11}$/`: exactly eleven ASCII digits, nothing else (untrimmed). */
  predicate IsElevenDigits(s: string) {
    |s| == 11 && AllDigits(s)
  }

  /** `validate`: names and phone number are required; the identity number is
      required and must be eleven digits. */
  function Validate(f: FormData): (errors: map<Field, Problem>)
    ensures FirstName in errors <==> IsBlank(f.firstName)
    ensures LastName in errors <==> IsBlank(f.lastName)
    ensures PhoneNumber in errors <==> IsBlank(f.phoneNumber)
    ensures IdentityNumber in errors <==> !IsElevenDigits(f.identityNumber)
    ensures IdentityNumber in errors ==>
      errors[IdentityNumber] == if IsBlank(f.identityNumber) then Required else Invalid
    ensures Address !in errors && Income !in errors
    ensures forall k :: k in errors && k != IdentityNumber ==> errors[k] == Required
  {
    ElevenDigitsAreNotBlank(f.identityNumber);
    Collect(IsBlank(f.firstName), IsBlank(f.lastName), IdentityProblem(f.identityNumber),
      IsBlank(f.phoneNumber))
  }

  /** The identity number's test: required first, then the eleven-digit format. */
  function IdentityProblem(s: string): Option<Problem> {
    if IsBlank(s) then Some(Required)
    else if !IsElevenDigits(s) then Some(Invalid)
    else None
  }

  /** The error map built from the outcome of each field's test, in the order
      `validate` runs them. */
  function Collect(firstName: bool, lastName: bool, identity: Option<Problem>, phone: bool)
    : (errors: map<Field, Problem>)
    ensures FirstName in errors <==> firstName
    ensures LastName in errors <==> lastName
    ensures PhoneNumber in errors <==> phone
    ensures IdentityNumber in errors <==> identity.Some?
    ensures IdentityNumber in errors ==> errors[IdentityNumber] == identity.value
    ensures Address !in errors && Income !in errors
    ensures forall k :: k in errors && k != IdentityNumber ==> errors[k] == Required
  {
    var e0: map<Field, Problem> := map[];
    var e1 := if firstName then e0[FirstName := Required] else e0;
    var e2 := if lastName then e1[LastName := Required] else e1;
    var e3 := if identity.Some? then e2[IdentityNumber := identity.value] else e2;
    if phone then e3[PhoneNumber := Required] else e3
  }

  /** An eleven-digit number is never blank, so the "required" branch and the
      format branch never both apply. */
  lemma ElevenDigitsAreNotBlank(s: string)
    ensures IsElevenDigits(s) ==> !IsBlank(s)
  {
    BlankIffAllWhiteSpace(s);
    if IsElevenDigits(s) {
      assert IsDigit(s[0]) && !IsWhiteSpace(s[0]);
    }
  }

  /** `validate` returns true exactly when no error key was set. */
  predicate IsValid(f: FormData) {
    Validate(f) == map[]
  }

  /** The form is valid exactly when both names and the phone number are filled
      in and the identity number is eleven digits. */
  lemma ValidIff(f: FormData)
    ensures IsValid(f) <==>
      !IsBlank(f.firstName) && !IsBlank(f.lastName) && !IsBlank(f.phoneNumber) &&
      IsElevenDigits(f.identityNumber)
  {
    var e := Validate(f);
    if !IsValid(f) {
      var k :| k in e;
    }
  }

  /** Address and income never influence the verdict. */
  lemma AddressAndIncomeIgnored(f: FormData, address: string, income: string)
    ensures Validate(f.(address := address, income := income)) == Validate(f)
  {
  }
}
