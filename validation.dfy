/** lib/utils/validation.ts: the hand-written form checks. A JavaScript number is
    `JsNumber` (NaN, the two infinities or a finite value, taken as an exact real);
    a form field that may be `undefined`, `null` or missing is an `Option`. */
module Validation {
  import opened Wrappers
  import opened Text

  datatype JsNumber = NaN | PosInf | NegInf | Finite(value: real)

  /** The largest amount `validateAmount` and `validateMemberForm` accept. */
  const MaxAmount: real := 99999.99

  predicate BelowZero(x: JsNumber)
  {
    x.NegInf? || (x.Finite? && x.value < 0.0)
  }

  predicate AboveMax(x: JsNumber)
  {
    x.PosInf? || (x.Finite? && x.value > MaxAmount)
  }

  // ---- Single fields ----

  /** `validateRequired`: a value that is empty after trimming is missing. */
  function ValidateRequired(value: string, fieldName: string): (r: Option<string>)
    ensures r.Some? <==> forall k :: 0 <= k < |value| ==> IsSpace(value[k])
    ensures r.Some? ==> r.value == fieldName + " is required"
  {
    if Trim(value) == "" then Some(fieldName + " is required") else None
  }

  const PhoneError: string := "Invalid phone number format"

  predicate NonZeroDigit(c: char)
  {
    '1' <= c <= '9'
  }

  /** `[1-9][\d]{0,15}` matching the whole of `t`. */
  predicate UnsignedPhone(t: string)
  {
    1 <= |t| <= 16 && NonZeroDigit(t[0]) && forall k :: 1 <= k < |t| ==> IsDigit(t[k])
  }

  /** The language of `/^[\+]?[1-9][\d]{0,15}$/`: the unsigned form, or a `+` before it. */
  predicate PhoneShape(s: string)
  {
    UnsignedPhone(s) || (|s| > 0 && s[0] == '+' && UnsignedPhone(s[1..]))
  }

  /** Every character of `s` from position `i` on is a digit. */
  function DigitsFrom(s: string, i: nat): (b: bool)
    ensures b <==> forall k :: i <= k < |s| ==> IsDigit(s[k])
    decreases |s| - i
  {
    i >= |s| || (IsDigit(s[i]) && DigitsFrom(s, i + 1))
  }

  /** The regular expression's test, as a left-to-right scan: an optional `+`, a
      digit 1-9, then at most 15 more digits. */
  function PhoneTest(s: string): bool
  {
    var start := if |s| > 0 && s[0] == '+' then 1 else 0;
    start < |s| && NonZeroDigit(s[start]) && |s| - start <= 16 && DigitsFrom(s, start + 1)
  }

  /** The scan accepts exactly the strings of the regular expression's language. */
  lemma PhoneTestMatchesShape(s: string)
    ensures PhoneTest(s) <==> PhoneShape(s)
  {
    if |s| > 0 && s[0] == '+' {
      assert !UnsignedPhone(s);
      assert forall k :: 1 <= k < |s| - 1 ==> s[1..][k] == s[k + 1];
    }
  }

  /** `validatePhone`: the empty string passes; anything else must have the shape. */
  function ValidatePhone(phone: string): (r: Option<string>)
    ensures r.None? <==> phone == "" || PhoneShape(phone)
    ensures r.Some? ==> r.value == PhoneError
  {
    PhoneTestMatchesShape(phone);
    if phone == "" then None
    else if !PhoneTest(phone) then Some(PhoneError)
    else None
  }

  const NotPositiveError: string := "Amount must be a positive number"
  const TooLargeError: string := "Amount is too large"

  /** `validateAmount` on a number: NaN and negatives are refused first, then values
      above 99999.99; zero passes. */
  function ValidateAmount(x: JsNumber): (r: Option<string>)
    ensures r.None? <==> x.Finite? && 0.0 <= x.value <= MaxAmount
    ensures r == Some(NotPositiveError) <==> x.NaN? || BelowZero(x)
    ensures r == Some(TooLargeError) <==> AboveMax(x)
  {
    if x.NaN? || BelowZero(x) then Some(NotPositiveError)
    else if AboveMax(x) then Some(TooLargeError)
    else None
  }

  /** `s.replace(/[<>]/g, '')`: every character other than `<` and `>` is kept as
      often as it occurs, and `RemovesBracketsInPlace` says the order is kept too. */
  function StripBrackets(s: string): (r: string)
    ensures |r| <= |s|
    ensures forall c :: c in r <==> c in s && c != '<' && c != '>'
    ensures forall c :: multiset(r)[c] == if c == '<' || c == '>' then 0 else multiset(s)[c]
  {
    if s == [] then ""
    else
      assert s == [s[0]] + s[1..];
      if s[0] == '<' || s[0] == '>' then StripBrackets(s[1..])
      else [s[0]] + StripBrackets(s[1..])
  }

  /** `sanitizeString`: trims, then drops every angle bracket. The result holds no
      bracket, is no longer than the input and keeps every other character of the
      trimmed input. */
  function SanitizeString(input: string): (r: string)
    ensures '<' !in r && '>' !in r
    ensures |r| <= |input|
    ensures forall c :: c in r <==> c in Trim(input) && c != '<' && c != '>'
    ensures forall c :: multiset(r)[c] == if c == '<' || c == '>' then 0 else multiset(Trim(input))[c]
  {
    StripBrackets(Trim(input))
  }

  /** The global replace works character by character: stripping a concatenation
      strips each part, so the characters kept stay in their order. */
  lemma {:induction false} RemovesBracketsInPlace(a: string, b: string)
    ensures StripBrackets(a + b) == StripBrackets(a) + StripBrackets(b)
  {
    if a == [] {
      assert a + b == b;
    } else {
      assert (a + b)[0] == a[0] && (a + b)[1..] == a[1..] + b;
      RemovesBracketsInPlace(a[1..], b);
    }
  }

  /** A string without brackets is left as it is, so stripping twice is stripping once. */
  lemma {:induction false} StripBracketsIdempotent(s: string)
    ensures StripBrackets(StripBrackets(s)) == StripBrackets(s)
  {
    if s != [] {
      StripBracketsIdempotent(s[1..]);
      if s[0] != '<' && s[0] != '>' {
        assert ([s[0]] + StripBrackets(s[1..]))[1..] == StripBrackets(s[1..]);
      }
    }
  }

  /** Trimming comes before the brackets go, so a bracket can leave white space at
      the front of the result. */
  lemma SanitizedMayStartWithSpace()
    ensures SanitizeString("< a") == " a"
  {
    assert LeadingSpaces("< a") == 0;
    assert TrailingSpaces("< a") == 0;
    assert Trim("< a") == "< a";
    assert StripBrackets("a") == "a";
    assert StripBrackets(" a") == " a";
  }

  // ---- Schema results ----

  /** One zod issue: the path to the field and its message. */
  datatype Issue = Issue(path: seq<string>, message: string)

  datatype SafeParseResult = Success | Failure(issues: seq<Issue>)

  function IssueField(i: Issue): string
  {
    Join(i.path, ".")
  }

  /** The errors object after the issues are written in order; a later issue for the
      same field overwrites an earlier one. */
  function ErrorMap(issues: seq<Issue>): map<string, string>
  {
    if issues == [] then map[]
    else
      var last := issues[|issues| - 1];
      ErrorMap(issues[..|issues| - 1])[IssueField(last) := last.message]
  }

  /** The fields of the errors object are exactly the fields of the issues, and each
      holds the message of the last issue about it. */
  lemma {:induction false} ErrorMapFields(issues: seq<Issue>)
    ensures forall f :: f in ErrorMap(issues) <==> exists i :: i in issues && IssueField(i) == f
    ensures forall k :: 0 <= k < |issues| && (forall j :: k < j < |issues| ==> IssueField(issues[j]) != IssueField(issues[k])) ==>
              ErrorMap(issues)[IssueField(issues[k])] == issues[k].message
  {
    if issues != [] {
      var init := issues[..|issues| - 1];
      ErrorMapFields(init);
      assert forall i :: i in issues <==> i in init || i == issues[|issues| - 1];
      forall k | 0 <= k < |init| ensures init[k] == issues[k] {
      }
    }
  }

  /** `getValidationErrors`. */
  method GetValidationErrors(result: SafeParseResult) returns (errors: map<string, string>)
    ensures result.Success? ==> errors == map[]
    ensures result.Failure? ==> errors == ErrorMap(result.issues)
  {
    errors := map[];
    if result.Success? {
      return;
    }
    var issues := result.issues;
    var i := 0;
    while i < |issues|
      invariant 0 <= i <= |issues|
      invariant errors == ErrorMap(issues[..i])
    {
      assert issues[..i + 1][..i] == issues[..i];
      errors := errors[IssueField(issues[i]) := issues[i].message];
      i := i + 1;
    }
    assert issues[..|issues|] == issues;
  }

  // ---- The member form ----

  /** The fields `validateMemberForm` reads. */
  datatype MemberForm = MemberForm(
    name: Option<string>, phone: Option<string>, address: Option<string>,
    joinDate: Option<string>, monthlyDues: Option<JsNumber>, status: Option<string>)

  const NameRequired: string := "Name is required"
  const NameTooShort: string := "Name must be at least 2 characters"
  const NameTooLong: string := "Name is too long"
  const AddressTooLong: string := "Address is too long"
  const JoinDateRequired: string := "Join date is required"
  const DuesRequired: string := "Monthly dues is required and must be a valid number"
  const DuesNegative: string := "Monthly dues cannot be negative"
  const DuesTooLarge: string := "Monthly dues amount is too large"
  const StatusRequired: string := "Status is required"

  /** A field JavaScript treats as falsy: absent or the empty string. */
  predicate Blank(field: Option<string>)
  {
    field.None? || field.value == ""
  }

  /** `!x` for the dues: absent, zero or NaN. */
  predicate DuesMissing(x: Option<JsNumber>)
  {
    x.None? || x.value.NaN? || x.value == Finite(0.0)
  }

  /** The name check: missing after trimming, then too short, then too long. */
  function NameError(name: Option<string>): (r: Option<string>)
    ensures r.Some? <==> Blank(name) || |Trim(name.value)| < 2 || |Trim(name.value)| > 100
    ensures r == Some(NameRequired) <==> Blank(name) || Trim(name.value) == ""
    ensures r == Some(NameTooShort) <==> !Blank(name) && |Trim(name.value)| == 1
  {
    if Blank(name) || |Trim(name.value)| == 0 then Some(NameRequired)
    else if |Trim(name.value)| < 2 then Some(NameTooShort)
    else if |Trim(name.value)| > 100 then Some(NameTooLong)
    else None
  }

  /** The phone check, run only on a phone that is not blank after trimming. */
  function PhoneFieldError(phone: Option<string>): (r: Option<string>)
    ensures r.Some? <==> phone.Some? && Trim(phone.value) != "" && !PhoneShape(Trim(phone.value))
    ensures r.Some? ==> r.value == PhoneError
  {
    if phone.Some? && phone.value != "" && Trim(phone.value) != "" then ValidatePhone(Trim(phone.value))
    else None
  }

  function AddressError(address: Option<string>): (r: Option<string>)
    ensures r.Some? <==> address.Some? && |Trim(address.value)| > 500
    ensures r.Some? ==> r.value == AddressTooLong
  {
    if address.Some? && address.value != "" && |Trim(address.value)| > 500 then Some(AddressTooLong) else None
  }

  /** The dues check: `!dues` (absent, zero or NaN) first, then the sign, then the
      upper bound. */
  function DuesError(dues: Option<JsNumber>): (r: Option<string>)
    ensures r.Some? <==> DuesMissing(dues) || BelowZero(dues.value) || AboveMax(dues.value)
    ensures r == Some(DuesRequired) <==> DuesMissing(dues)
    ensures r.Some? && !DuesMissing(dues) ==> r.value == if BelowZero(dues.value) then DuesNegative else DuesTooLarge
  {
    if DuesMissing(dues) then Some(DuesRequired)
    else if BelowZero(dues.value) then Some(DuesNegative)
    else if AboveMax(dues.value) then Some(DuesTooLarge)
    else None
  }

  function StatusError(status: Option<string>): (r: Option<string>)
    ensures r.Some? <==> status != Some("active") && status != Some("inactive")
    ensures r.Some? ==> r.value == StatusRequired
  {
    if status.None? || status.value == "" || !(status.value in ["active", "inactive"]) then Some(StatusRequired)
    else None
  }

  /** `errors[key] = message` when a check produced a message. */
  function Put(errors: map<string, string>, key: string, e: Option<string>): (r: map<string, string>)
    ensures r.Keys == if e.Some? then errors.Keys + {key} else errors.Keys
    ensures e.Some? ==> r[key] == e.value
    ensures forall k :: k in errors && k != key ==> r[k] == errors[k]
  {
    if e.Some? then errors[key := e.value] else errors
  }

  /** `validateMemberForm`: each check adds at most one message, under its own field. */
  method ValidateMemberForm(data: MemberForm) returns (errors: map<string, string>)
    ensures errors.Keys <= {"name", "phone", "address", "join_date", "monthly_dues", "status"}
    ensures "name" in errors <==> NameError(data.name).Some?
    ensures "name" in errors ==> errors["name"] == NameError(data.name).value
    ensures "phone" in errors <==> PhoneFieldError(data.phone).Some?
    ensures "phone" in errors ==> errors["phone"] == PhoneError
    ensures "address" in errors <==> AddressError(data.address).Some?
    ensures "address" in errors ==> errors["address"] == AddressTooLong
    ensures "join_date" in errors <==> Blank(data.joinDate)
    ensures "join_date" in errors ==> errors["join_date"] == JoinDateRequired
    ensures "monthly_dues" in errors <==> DuesError(data.monthlyDues).Some?
    ensures "monthly_dues" in errors ==> errors["monthly_dues"] == DuesError(data.monthlyDues).value
    ensures "status" in errors <==> StatusError(data.status).Some?
    ensures "status" in errors ==> errors["status"] == StatusRequired
  {
    errors := map[];
    errors := Put(errors, "name", NameError(data.name));
    errors := Put(errors, "phone", PhoneFieldError(data.phone));
    errors := Put(errors, "address", AddressError(data.address));
    errors := Put(errors, "join_date", if Blank(data.joinDate) then Some(JoinDateRequired) else None);
    errors := Put(errors, "monthly_dues", DuesError(data.monthlyDues));
    errors := Put(errors, "status", StatusError(data.status));
  }
}
