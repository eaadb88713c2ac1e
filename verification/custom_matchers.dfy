/** The validators and guard chains of the error-handling test example:
    `validateEmail` (throws a `ValidationError`), the boolean helpers
    `isValidEmail`, `isPositiveNumber`, `isWithinRange`, `hasRequiredFields`,
    `Calculator.divide`, and the status `fetchData` settles with. */
module CustomMatchers {
  import opened Wrappers
  import opened Text

  /** `new ValidationError(message, field, code)`. */
  datatype ValidationError = ValidationError(message: string, field: string, code: string)

  /** `new ApiError(message, statusCode, endpoint)`. */
  datatype ApiError = ApiError(message: string, statusCode: int, endpoint: string)

  /** The value `fetchData` resolves with (its timestamp is not modelled). */
  datatype FetchedData = FetchedData(data: string, url: string)

  /** `validateEmail(email)`: `Ok(())` when it returns, `Err` with what it
      throws. The checks run in this order: empty, no '@', shorter than 5. */
  function ValidateEmail(email: string): (r: Result<(), ValidationError>)
    ensures email == "" ==> r == Err(ValidationError("Email is required", "email", "REQUIRED"))
    ensures email != "" && '@' !in email ==>
      r == Err(ValidationError("Email must contain @ symbol", "email", "INVALID_FORMAT"))
    ensures '@' in email && |email| < 5 ==>
      r == Err(ValidationError("Email is too short", "email", "TOO_SHORT"))
    ensures r.Ok? <==> '@' in email && |email| >= 5
    ensures r.Err? ==> r.error.field == "email"
  {
    IncludesChar(email, '@');
    if email == [] then Err(ValidationError("Email is required", "email", "REQUIRED"))
    else if !Includes(email, "@") then
      Err(ValidationError("Email must contain @ symbol", "email", "INVALID_FORMAT"))
    else if |email| < 5 then Err(ValidationError("Email is too short", "email", "TOO_SHORT"))
    else Ok(())
  }

  /** The missing '@' is reported before the length: a short string without
      '@' is a format error, not a length error. */
  lemma ValidateEmailExamples()
    ensures ValidateEmail("").error.code == "REQUIRED"
    ensures ValidateEmail("abc").error.code == "INVALID_FORMAT"
    ensures ValidateEmail("invalid").error.code == "INVALID_FORMAT"
    ensures ValidateEmail("a@b").error.code == "TOO_SHORT"
    ensures ValidateEmail("a@b.c").Ok?
  {
    assert "a@b"[1] == '@';
    assert "a@b.c"[1] == '@';
  }

  /** `isValidEmail(email)`: at least 5 characters and the first '@' neither
      first nor last. */
  function IsValidEmail(email: string): (r: bool)
    ensures r <==> |email| >= 5 && email[0] != '@' && '@' in email[..|email| - 1]
  {
    if |email| < 5 then false
    else
      var at := IndexOf(email, '@');
      assert '@' in email[..|email| - 1] <==> 0 <= at < |email| - 1 by {
        if '@' in email[..|email| - 1] {
          var k :| 0 <= k < |email| - 1 && email[..|email| - 1][k] == '@';
          assert email[k] == '@';
        }
        if 0 <= at < |email| - 1 {
          assert email[..|email| - 1][at] == '@';
        }
      }
      at > 0 && at < |email| - 1
  }

  lemma IsValidEmailExamples()
    ensures IsValidEmail("test@example.com")
    ensures IsValidEmail("valid.email@domain.org")
    ensures !IsValidEmail("@invalid.com") && !IsValidEmail("test")
  {
    assert "test@example.com"[..15][4] == '@';
    assert "valid.email@domain.org"[..21][11] == '@';
  }

  lemma IsValidEmailRejectsNoAt()
    ensures !IsValidEmail("invalid-email")
  {
    var s := "invalid-email";
    assert forall i :: 0 <= i < |s| ==> s[i] != '@';
  }

  /** `isPositiveNumber(num)`: strictly greater than 0. */
  function IsPositiveNumber(num: real): bool {
    num > 0.0
  }

  /** `isWithinRange(num, min, max)`: both bounds included. */
  function IsWithinRange(num: real, min: real, max: real): (r: bool)
    ensures r ==> min <= max
  {
    min <= num && num <= max
  }

  /** The bounds are inclusive, 0 is not positive, and an empty range
      contains nothing. */
  lemma NumberChecks(num: real, min: real, max: real)
    ensures IsWithinRange(min, min, max) <==> min <= max
    ensures IsWithinRange(max, min, max) <==> min <= max
    ensures max < min ==> !IsWithinRange(num, min, max)
    ensures !IsPositiveNumber(0.0) && IsPositiveNumber(0.1) && !IsPositiveNumber(-5.0)
    ensures IsWithinRange(0.0, 0.0, 5.0) && !IsWithinRange(15.0, 1.0, 10.0)
  {
  }

  /** The result of `hasRequiredFields`. */
  datatype FieldCheck = FieldCheck(valid: bool, missing: seq<string>)

  /** `fields.filter(f => !(f in obj))`, where `keys` are the property names
      the `in` operator finds on the object. */
  function MissingFields(keys: set<string>, fields: seq<string>): (r: seq<string>)
    ensures |r| <= |fields|
    ensures forall f :: f in r <==> f in fields && f !in keys
  {
    if fields == [] then []
    else (if fields[0] in keys then [] else [fields[0]]) + MissingFields(keys, fields[1..])
  }

  /** The missing fields keep the order of `fields`. */
  lemma {:induction false} MissingFieldsAppend(keys: set<string>, a: seq<string>, b: seq<string>)
    ensures MissingFields(keys, a + b) == MissingFields(keys, a) + MissingFields(keys, b)
  {
    if a == [] {
      assert a + b == b;
    } else {
      assert (a + b)[1..] == a[1..] + b;
      MissingFieldsAppend(keys, a[1..], b);
    }
  }

  /** `hasRequiredFields(obj, fields)`. */
  function HasRequiredFields(keys: set<string>, fields: seq<string>): (r: FieldCheck)
    ensures r.missing == MissingFields(keys, fields)
    ensures r.valid <==> forall i :: 0 <= i < |fields| ==> fields[i] in keys
  {
    var missing := MissingFields(keys, fields);
    assert missing != [] ==> missing[0] in missing;
    FieldCheck(|missing| == 0, missing)
  }

  lemma HasRequiredFieldsExample()
    ensures HasRequiredFields({"id", "name", "email"}, ["id", "name", "email"]) == FieldCheck(true, [])
    ensures HasRequiredFields({"id", "name"}, ["id", "name", "email"]) == FieldCheck(false, ["email"])
  {
    var fields := ["id", "name", "email"];
    assert fields[1..] == ["name", "email"];
    assert fields[1..][1..] == ["email"];
  }

  /** `Calculator.divide(a, b)`. */
  function CalculatorDivide(a: int, b: int): (r: Result<real, string>)
    ensures r.Err? <==> b == 0
    ensures r.Err? ==> r.error == "Division by zero"
    ensures r.Ok? ==> r.value * (b as real) == a as real
  {
    if b == 0 then Err("Division by zero") else Ok(a as real / b as real)
  }

  /** How `fetchData(url)` settles: rejected with an `ApiError` chosen by the
      first of "error", "notfound", "unauthorized" that the URL contains, or
      resolved with the data. */
  function FetchOutcome(url: string): (r: Result<FetchedData, ApiError>)
    ensures r.Ok? <==>
      !Includes(url, "error") && !Includes(url, "notfound") && !Includes(url, "unauthorized")
    ensures r.Ok? ==> r.value == FetchedData("success", url)
    ensures r.Err? ==> r.error.endpoint == url && r.error.statusCode in {500, 404, 401}
  {
    if Includes(url, "error") then Err(ApiError("Server error", 500, url))
    else if Includes(url, "notfound") then Err(ApiError("Not found", 404, url))
    else if Includes(url, "unauthorized") then Err(ApiError("Unauthorized", 401, url))
    else Ok(FetchedData("success", url))
  }

  /** The first of "error", "notfound", "unauthorized" that the URL contains
      decides the rejection: 500 "Server error", 404 "Not found" or 401
      "Unauthorized". */
  lemma FetchOutcomeSpec(url: string)
    ensures Includes(url, "error") ==>
      FetchOutcome(url) == Err(ApiError("Server error", 500, url))
    ensures !Includes(url, "error") && Includes(url, "notfound") ==>
      FetchOutcome(url) == Err(ApiError("Not found", 404, url))
    ensures !Includes(url, "error") && !Includes(url, "notfound") && Includes(url, "unauthorized") ==>
      FetchOutcome(url) == Err(ApiError("Unauthorized", 401, url))
  {
  }

  /** The URLs of the asynchronous error tests: each word selects its status.
      (The URL is a parameter fixed by `requires`, which keeps the verifier
      from unrolling `Includes` on a literal.) */
  lemma FetchErrorExample(url: string)
    requires url == "/error"
    ensures FetchOutcome(url) == Err(ApiError("Server error", 500, url))
  {
    assert "error" <= url[1..];
  }

  lemma FetchNotFoundExample(url: string)
    requires url == "/notfound"
    ensures FetchOutcome(url) == Err(ApiError("Not found", 404, url))
  {
    NotIncludes(url, "error");
    assert "notfound" <= url[1..];
  }

  lemma FetchUnauthorizedExample(url: string)
    requires url == "/unauthorized"
    ensures FetchOutcome(url) == Err(ApiError("Unauthorized", 401, url))
  {
    UnauthorizedUrlKeywords(url);
  }

  lemma UnauthorizedUrlKeywords(url: string)
    requires url == "/unauthorized"
    ensures !Includes(url, "error") && !Includes(url, "notfound") && Includes(url, "unauthorized")
  {
    NotIncludes(url, "error");
    NotIncludes(url, "notfound");
    assert "unauthorized" <= url[1..];
  }

  lemma FetchSuccessExample(url: string)
    requires url == "/success"
    ensures FetchOutcome(url) == Ok(FetchedData("success", url))
  {
    SuccessUrlHasNoKeyword(url);
  }

  lemma SuccessUrlHasNoKeyword(url: string)
    requires url == "/success"
    ensures !Includes(url, "error") && !Includes(url, "notfound") && !Includes(url, "unauthorized")
  {
    NotIncludes(url, "error");
    NotIncludes(url, "notfound");
    NotIncludes(url, "unauthorized");
  }

  /** A word whose first two characters never occur together in `s` is not
      included in it. */
  lemma NotIncludes(s: string, sub: string)
    requires |sub| >= 2
    requires forall i :: 0 <= i < |s| - 1 ==> s[i] != sub[0] || s[i + 1] != sub[1]
    ensures !Includes(s, sub)
  {
    forall i | 0 <= i <= |s| - |sub| ensures !(sub <= s[i..]) {
      assert s[i..][0] == s[i] && s[i..][1] == s[i + 1];
    }
  }
}
