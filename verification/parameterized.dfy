/** The functions of the parameterized-test example: `validatePassword`, the
    region-to-rate table of `calculateTax`, `processItems` and
    `classifyInput`. */
module ParameterizedTests {
  import opened Text

  // ---- validatePassword ----

  /** The five checks of `validatePassword`, in the order it runs them. */
  datatype PasswordCheck = TooShort | NoUppercase | NoLowercase | NoNumber | NoSpecial

  const CheckOrder: seq<PasswordCheck> := [TooShort, NoUppercase, NoLowercase, NoNumber, NoSpecial]

  /** The message each check pushes. */
  function Message(c: PasswordCheck): string {
    match c
    case TooShort => "Password must be at least 8 characters long"
    case NoUppercase => "Password must contain at least one uppercase letter"
    case NoLowercase => "Password must contain at least one lowercase letter"
    case NoNumber => "Password must contain at least one number"
    case NoSpecial => "Password must contain at least one special character (!@#$%^&*)"
  }

  /** Position of a check in `CheckOrder`. */
  function Rank(c: PasswordCheck): nat {
    match c
    case TooShort => 0
    case NoUppercase => 1
    case NoLowercase => 2
    case NoNumber => 3
    case NoSpecial => 4
  }

  /** The character class `[!@#$%^&*]`. */
  predicate IsSpecial(c: char) {
    c == '!' || c == '@' || c == '#' || c == '$' || c == '%' || c == '^' || c == '&' || c == '*'
  }

  /** `regex.test(password)` for a one-character class: some character is in it. */
  predicate HasUpper(p: string) { exists i :: 0 <= i < |p| && IsUpper(p[i]) }
  predicate HasLower(p: string) { exists i :: 0 <= i < |p| && IsLower(p[i]) }
  predicate HasDigit(p: string) { exists i :: 0 <= i < |p| && IsDigit(p[i]) }
  predicate HasSpecial(p: string) { exists i :: 0 <= i < |p| && IsSpecial(p[i]) }

  /** Whether check `c` reports an error for password `p`. */
  predicate Fails(p: string, c: PasswordCheck) {
    match c
    case TooShort => |p| < 8
    case NoUppercase => !HasUpper(p)
    case NoLowercase => !HasLower(p)
    case NoNumber => !HasDigit(p)
    case NoSpecial => !HasSpecial(p)
  }

  /** The checks among `checks` that fail, in the order given. */
  function FailingChecks(p: string, checks: seq<PasswordCheck>): (r: seq<PasswordCheck>)
    ensures |r| <= |checks|
  {
    if checks == [] then []
    else (if Fails(p, checks[0]) then [checks[0]] else []) + FailingChecks(p, checks[1..])
  }

  /** A check keeps its place in the filtered list exactly when it fails. */
  lemma {:induction false} FailingChecksMembers(p: string, checks: seq<PasswordCheck>)
    ensures forall c :: c in FailingChecks(p, checks) <==> c in checks && Fails(p, c)
  {
    if checks != [] {
      FailingChecksMembers(p, checks[1..]);
      assert checks == [checks[0]] + checks[1..];
    }
  }

  /** The one-element contribution of check `c`. */
  function IfFails(p: string, c: PasswordCheck): seq<PasswordCheck> {
    if Fails(p, c) then [c] else []
  }

  lemma FailingChecksCons(p: string, c: PasswordCheck, rest: seq<PasswordCheck>)
    ensures FailingChecks(p, [c] + rest) == IfFails(p, c) + FailingChecks(p, rest)
  {
    assert ([c] + rest)[1..] == rest;
  }

  /** Filtering the declared order, check by check. */
  lemma FailingChecksUnfold(p: string)
    ensures FailingChecks(p, CheckOrder) ==
      IfFails(p, TooShort) + (IfFails(p, NoUppercase) + (IfFails(p, NoLowercase)
      + (IfFails(p, NoNumber) + IfFails(p, NoSpecial))))
  {
    var r5 := FailingChecks(p, [NoSpecial]);
    FailingChecksCons(p, NoSpecial, []);
    assert r5 == IfFails(p, NoSpecial);
    FailingChecksCons(p, NoNumber, [NoSpecial]);
    var r4 := FailingChecks(p, [NoNumber, NoSpecial]);
    assert r4 == IfFails(p, NoNumber) + r5;
    FailingChecksCons(p, NoLowercase, [NoNumber, NoSpecial]);
    var r3 := FailingChecks(p, [NoLowercase, NoNumber, NoSpecial]);
    assert r3 == IfFails(p, NoLowercase) + r4;
    FailingChecksCons(p, NoUppercase, [NoLowercase, NoNumber, NoSpecial]);
    var r2 := FailingChecks(p, [NoUppercase, NoLowercase, NoNumber, NoSpecial]);
    assert r2 == IfFails(p, NoUppercase) + r3;
    FailingChecksCons(p, TooShort, [NoUppercase, NoLowercase, NoNumber, NoSpecial]);
    assert CheckOrder == [TooShort] + [NoUppercase, NoLowercase, NoNumber, NoSpecial];
  }

  /** The messages of a list of checks. */
  function Messages(checks: seq<PasswordCheck>): (r: seq<string>)
    ensures |r| == |checks|
    ensures forall i :: 0 <= i < |r| ==> r[i] == Message(checks[i])
  {
    seq(|checks|, i requires 0 <= i < |checks| => Message(checks[i]))
  }

  /** The errors `validatePassword` must report: the messages of the failing
      checks in the declared order. */
  function ExpectedErrors(p: string): seq<string> {
    Messages(FailingChecks(p, CheckOrder))
  }

  lemma ConcatAssoc<T>(a: seq<T>, b: seq<T>, c: seq<T>)
    ensures a + b + c == a + (b + c)
  {
  }

  lemma MessagesAppend(a: seq<PasswordCheck>, b: seq<PasswordCheck>)
    ensures Messages(a + b) == Messages(a) + Messages(b)
  {
  }

  /** The errors of check `c` alone: its message when it fails. */
  function CheckErrors(p: string, c: PasswordCheck): (r: seq<string>)
    ensures r == Messages(IfFails(p, c))
  {
    if Fails(p, c) then [Message(c)] else []
  }

  /** `ExpectedErrors` as the checks' errors one after another. */
  lemma ExpectedErrorsUnfold(p: string)
    ensures ExpectedErrors(p) == CheckErrors(p, TooShort) + CheckErrors(p, NoUppercase)
      + CheckErrors(p, NoLowercase) + CheckErrors(p, NoNumber) + CheckErrors(p, NoSpecial)
  {
    var c1, c2, c3 := IfFails(p, TooShort), IfFails(p, NoUppercase), IfFails(p, NoLowercase);
    var c4, c5 := IfFails(p, NoNumber), IfFails(p, NoSpecial);
    FailingChecksUnfold(p);
    MessagesAppend(c4, c5);
    MessagesAppend(c3, c4 + c5);
    MessagesAppend(c2, c3 + (c4 + c5));
    MessagesAppend(c1, c2 + (c3 + (c4 + c5)));
    var m1, m2, m3, m4, m5 := Messages(c1), Messages(c2), Messages(c3), Messages(c4), Messages(c5);
    assert ExpectedErrors(p) == m1 + (m2 + (m3 + (m4 + m5)));
    ConcatAssoc(m1, m2, m3 + (m4 + m5));
    ConcatAssoc(m1 + m2, m3, m4 + m5);
    ConcatAssoc(m1 + m2 + m3, m4, m5);
  }

  /** `validatePassword(password)`: each failing check pushes its message. */
  method ValidatePassword(password: string) returns (valid: bool, errors: seq<string>)
    ensures errors == ExpectedErrors(password)
    ensures valid <==> errors == []
  {
    errors := [];
    if |password| < 8 {
      errors := errors + [Message(TooShort)];
    }
    assert errors == CheckErrors(password, TooShort);
    ghost var before := errors;
    if !HasUpper(password) {
      errors := errors + [Message(NoUppercase)];
    }
    assert errors == before + CheckErrors(password, NoUppercase);
    before := errors;
    if !HasLower(password) {
      errors := errors + [Message(NoLowercase)];
    }
    assert errors == before + CheckErrors(password, NoLowercase);
    before := errors;
    if !HasDigit(password) {
      errors := errors + [Message(NoNumber)];
    }
    assert errors == before + CheckErrors(password, NoNumber);
    before := errors;
    if !HasSpecial(password) {
      errors := errors + [Message(NoSpecial)];
    }
    assert errors == before + CheckErrors(password, NoSpecial);
    ExpectedErrorsUnfold(password);
    valid := |errors| == 0;
  }

  /** Failing checks keep the declared order: ranks strictly increase. */
  lemma {:induction false} FailingChecksOrdered(p: string, checks: seq<PasswordCheck>)
    requires forall i, j :: 0 <= i < j < |checks| ==> Rank(checks[i]) < Rank(checks[j])
    ensures forall i, j :: 0 <= i < j < |FailingChecks(p, checks)| ==>
      Rank(FailingChecks(p, checks)[i]) < Rank(FailingChecks(p, checks)[j])
  {
    if checks != [] {
      FailingChecksOrdered(p, checks[1..]);
      FailingChecksMembers(p, checks[1..]);
      var rest := FailingChecks(p, checks[1..]);
      forall c | c in rest ensures Rank(checks[0]) < Rank(c) {
        var k :| 0 <= k < |checks[1..]| && checks[1..][k] == c;
        assert checks[k + 1] == c;
      }
    }
  }

  /** The messages are pairwise different. */
  lemma MessageInjective(a: PasswordCheck, b: PasswordCheck)
    ensures Message(a) == Message(b) <==> a == b
  {
  }

  /** What the tests rely on: an error is reported exactly when its check
      fails, at most five errors, each at most once, in the declared order,
      and the password is valid exactly when no check fails. */
  lemma ExpectedErrorsSpec(p: string)
    ensures |ExpectedErrors(p)| <= 5
    ensures forall c :: Message(c) in ExpectedErrors(p) <==> Fails(p, c)
    ensures forall i, j :: 0 <= i < j < |ExpectedErrors(p)| ==> ExpectedErrors(p)[i] != ExpectedErrors(p)[j]
    ensures ExpectedErrors(p) == [] <==>
      |p| >= 8 && HasUpper(p) && HasLower(p) && HasDigit(p) && HasSpecial(p)
  {
    var failing := FailingChecks(p, CheckOrder);
    var errors := ExpectedErrors(p);
    FailingChecksOrdered(p, CheckOrder);
    FailingChecksMembers(p, CheckOrder);
    forall c ensures Message(c) in errors <==> Fails(p, c) {
      if Message(c) in errors {
        var i :| 0 <= i < |errors| && errors[i] == Message(c);
        MessageInjective(failing[i], c);
        assert failing[i] in failing;
      }
      if Fails(p, c) {
        assert c in CheckOrder;
        var i :| 0 <= i < |failing| && failing[i] == c;
        assert errors[i] == Message(c);
      }
    }
    forall i, j | 0 <= i < j < |errors| ensures errors[i] != errors[j] {
      MessageInjective(failing[i], failing[j]);
    }
    if errors == [] {
      assert Message(TooShort) !in errors && Message(NoUppercase) !in errors;
      assert Message(NoLowercase) !in errors && Message(NoNumber) !in errors;
      assert Message(NoSpecial) !in errors;
    } else {
      assert errors[0] in errors;
      assert failing[0] in failing;
    }
  }

  /** A password of fewer than eight lower-case letters fails the length,
      upper-case, number and special-character checks, in that order. */
  lemma ShortLowercaseErrors(p: string)
    requires 0 < |p| < 8 && forall i :: 0 <= i < |p| ==> IsLower(p[i])
    ensures ExpectedErrors(p) ==
      [Message(TooShort), Message(NoUppercase), Message(NoNumber), Message(NoSpecial)]
  {
    ExpectedErrorsUnfold(p);
    assert CheckErrors(p, TooShort) == [Message(TooShort)];
    assert !HasUpper(p) && CheckErrors(p, NoUppercase) == [Message(NoUppercase)];
    assert IsLower(p[0]) && CheckErrors(p, NoLowercase) == [];
    assert !HasDigit(p) && CheckErrors(p, NoNumber) == [Message(NoNumber)];
    assert !HasSpecial(p) && CheckErrors(p, NoSpecial) == [Message(NoSpecial)];
  }

  /** The test table's "short". */
  lemma ShortPasswordErrors()
    ensures ExpectedErrors("short") ==
      [Message(TooShort), Message(NoUppercase), Message(NoNumber), Message(NoSpecial)]
  {
    ShortLowercaseErrors("short");
  }

  /** A password of at least eight characters with an upper-case letter, a
      lower-case letter, a digit and a special character is valid. */
  lemma AllChecksPass(p: string, upper: nat, lower: nat, digit: nat, special: nat)
    requires |p| >= 8 && upper < |p| && lower < |p| && digit < |p| && special < |p|
    requires IsUpper(p[upper]) && IsLower(p[lower]) && IsDigit(p[digit]) && IsSpecial(p[special])
    ensures ExpectedErrors(p) == []
  {
    ExpectedErrorsUnfold(p);
  }

  /** A password that fails exactly one check gets exactly that check's
      message, as each single-failure row of the test table expects. */
  lemma SingleFailure(p: string, c: PasswordCheck)
    requires Fails(p, c) && forall d :: d != c ==> !Fails(p, d)
    ensures ExpectedErrors(p) == [Message(c)]
  {
    ExpectedErrorsUnfold(p);
    match c
    case TooShort => assert !Fails(p, NoUppercase) && !Fails(p, NoLowercase) && !Fails(p, NoNumber) && !Fails(p, NoSpecial);
    case NoUppercase => assert !Fails(p, TooShort) && !Fails(p, NoLowercase) && !Fails(p, NoNumber) && !Fails(p, NoSpecial);
    case NoLowercase => assert !Fails(p, TooShort) && !Fails(p, NoUppercase) && !Fails(p, NoNumber) && !Fails(p, NoSpecial);
    case NoNumber => assert !Fails(p, TooShort) && !Fails(p, NoUppercase) && !Fails(p, NoLowercase) && !Fails(p, NoSpecial);
    case NoSpecial => assert !Fails(p, TooShort) && !Fails(p, NoUppercase) && !Fails(p, NoLowercase) && !Fails(p, NoNumber);
  }

  /** The test table's first valid password, "StrongPass123!". */
  lemma StrongPasswordValid()
    ensures ExpectedErrors("StrongPass123!") == []
  {
    AllChecksPass("StrongPass123!", 0, 1, 10, 13);
  }

  // ---- calculateTax ----

  /** The rate `calculateTax` uses for a region, in percent: the table entry,
      or the US rate for any other region. */
  function RatePercent(region: string): (r: nat)
    ensures 20 <= r <= 45
    ensures region !in {"US", "UK", "JP", "DE", "FR"} ==> r == 25
  {
    if region == "US" then 25
    else if region == "UK" then 20
    else if region == "JP" then 23
    else if region == "DE" then 42
    else if region == "FR" then 45
    else 25
  }

  /** The five listed rates, unknown regions paying the US rate, and the test
      table's expected taxes following from the rates. */
  lemma RateTable(region: string)
    ensures RatePercent("US") == 25 && RatePercent("UK") == 20 && RatePercent("JP") == 23
    ensures RatePercent("DE") == 42 && RatePercent("FR") == 45
    ensures region !in {"US", "UK", "JP", "DE", "FR"} ==> RatePercent(region) == RatePercent("US")
    ensures 50000 * RatePercent("US") == 12500 * 100 && 50000 * RatePercent("UK") == 10000 * 100
    ensures 50000 * RatePercent("JP") == 11500 * 100 && 50000 * RatePercent("DE") == 21000 * 100
    ensures 50000 * RatePercent("FR") == 22500 * 100 && 75000 * RatePercent("UNKNOWN") == 18750 * 100
  {
  }

  // ---- processItems ----

  /** A JavaScript value as `processItems` sees it. */
  datatype Value = Null | Undefined | Bool(b: bool) | Num(n: int) | Str(s: string)
                 | Obj(fields: map<string, Value>)

  /** `item && typeof item === "object" && "id" in item`. */
  predicate Identified(v: Value) {
    v.Obj? && "id" in v.fields
  }

  /** `{ ...item, processed: true }` (the timestamp is not modelled). */
  function MarkProcessed(v: Value): Value
    requires v.Obj?
  {
    Obj(v.fields["processed" := Bool(true)])
  }

  /** The processed list: the identified items, marked, in input order. */
  function ProcessedItems(items: seq<Value>): seq<Value> {
    if items == [] then []
    else
      var last := items[|items| - 1];
      ProcessedItems(items[..|items| - 1]) + (if Identified(last) then [MarkProcessed(last)] else [])
  }

  /** The processed list holds exactly the marked identified items; each keeps
      its fields and carries `processed: true`. */
  lemma {:induction false} ProcessedItemsSpec(items: seq<Value>)
    ensures |ProcessedItems(items)| <= |items|
    ensures forall v :: v in ProcessedItems(items) <==>
      exists x :: x in items && Identified(x) && v == MarkProcessed(x)
    ensures forall v :: v in ProcessedItems(items) ==>
      v.Obj? && "id" in v.fields && v.fields["processed"] == Bool(true)
  {
    if items != [] {
      var init, last := items[..|items| - 1], items[|items| - 1];
      ProcessedItemsSpec(init);
      assert items == init + [last];
      forall v ensures v in ProcessedItems(items) <==>
        exists x :: x in items && Identified(x) && v == MarkProcessed(x)
      {
        if v in ProcessedItems(items) && v !in ProcessedItems(init) {
          assert last in items;
        }
        if exists x :: x in items && Identified(x) && v == MarkProcessed(x) {
          var x :| x in items && Identified(x) && v == MarkProcessed(x);
          if x != last {
            assert x in init;
          }
        }
      }
    }
  }

  datatype ItemStats = ItemStats(total: nat, valid: nat, invalid: nat)

  /** `processItems(items)`: one pass that pushes each identified item, marked,
      and counts valid and invalid items. */
  method ProcessItems(items: seq<Value>) returns (processed: seq<Value>, stats: ItemStats)
    ensures processed == ProcessedItems(items)
    ensures stats.total == |items| && stats.valid == |processed|
    ensures stats.valid + stats.invalid == stats.total
  {
    processed := [];
    var valid, invalid := 0, 0;
    for i := 0 to |items|
      invariant processed == ProcessedItems(items[..i])
      invariant valid == |processed| && valid + invalid == i
    {
      var item := items[i];
      assert items[..i + 1][..i] == items[..i];
      if item.Obj? && "id" in item.fields {
        processed := processed + [MarkProcessed(item)];
        valid := valid + 1;
      } else {
        invalid := invalid + 1;
      }
    }
    assert items[..|items|] == items;
    stats := ItemStats(|items|, valid, invalid);
  }

  /** The snapshot test's data: three items with an id, one without, and null. */
  method SnapshotExample() returns (stats: ItemStats)
    ensures stats == ItemStats(5, 3, 2)
  {
    var item1 := Obj(map["id" := Num(1), "name" := Str("Item 1"), "type" := Str("product")]);
    var item2 := Obj(map["id" := Num(2), "name" := Str("Item 2"), "type" := Str("service")]);
    var noId := Obj(map["name" := Str("Invalid item")]);
    var item3 := Obj(map["id" := Num(3), "name" := Str("Item 3"), "type" := Str("digital")]);
    var data := [item1, item2, noId, Null, item3];
    var processed;
    processed, stats := ProcessItems(data);
    assert "id" !in noId.fields;
    ProcessedItemsSnoc([], item1);
    assert [] + [item1] == [item1];
    ProcessedItemsSnoc([item1], item2);
    assert [item1] + [item2] == [item1, item2];
    ProcessedItemsSnoc([item1, item2], noId);
    assert [item1, item2] + [noId] == [item1, item2, noId];
    ProcessedItemsSnoc([item1, item2, noId], Null);
    assert [item1, item2, noId] + [Null] == [item1, item2, noId, Null];
    ProcessedItemsSnoc([item1, item2, noId, Null], item3);
    assert [item1, item2, noId, Null] + [item3] == data;
    assert |ProcessedItems([item1, item2, noId, Null])| == 2;
  }

  lemma ProcessedItemsSnoc(init: seq<Value>, last: Value)
    ensures ProcessedItems(init + [last]) ==
      ProcessedItems(init) + (if Identified(last) then [MarkProcessed(last)] else [])
  {
    assert (init + [last])[..|init|] == init;
  }

  // ---- classifyInput ----

  datatype InputClass = Empty | Whitespace | Number | Mixed | Text

  /** `/^\d+$/.test(s)`: non-empty and only decimal digits. */
  predicate OnlyDigits(s: string) {
    |s| > 0 && forall i :: 0 <= i < |s| ==> IsDigit(s[i])
  }

  /** `/[a-zA-Z]/.test(s)`. */
  predicate HasLetter(s: string) { exists i :: 0 <= i < |s| && IsAsciiLetter(s[i]) }

  /** `classifyInput(str)`: the first matching rule of empty, blank after
      trimming, digits only, digit and letter, and otherwise text. */
  function ClassifyInput(s: string): (r: InputClass)
    ensures r == Empty <==> s == ""
    ensures r == Whitespace <==> s != "" && AllWhitespace(s)
    ensures r == Number <==> OnlyDigits(s)
    ensures r == Mixed <==> !OnlyDigits(s) && HasDigit(s) && HasLetter(s)
    ensures r == Text <==> !AllWhitespace(s) && !OnlyDigits(s) && !(HasDigit(s) && HasLetter(s))
  {
    if s == "" then Empty
    else if Trim(s) == "" then Whitespace
    else if OnlyDigits(s) then Number
    else if HasDigit(s) && HasLetter(s) then Mixed
    else Text
  }

  /** The test matrix: "" is empty, " " whitespace, "hello" text, "123" a
      number and "hello123" mixed. */
  lemma ClassifyBlankExamples()
    ensures ClassifyInput("") == Empty && ClassifyInput(" ") == Whitespace
  {
  }

  lemma ClassifyTextExample()
    ensures ClassifyInput("hello") == Text
  {
    var t := "hello";
    assert !IsJsWhitespace(t[0]) && !IsDigit(t[0]);
    assert !HasDigit(t);
  }

  lemma ClassifyNumberExample()
    ensures ClassifyInput("123") == Number
  {
    var n := "123";
    assert !IsJsWhitespace(n[0]);
    assert OnlyDigits(n);
  }

  lemma ClassifyMixedExample()
    ensures ClassifyInput("hello123") == Mixed
  {
    var m := "hello123";
    assert !IsJsWhitespace(m[0]) && IsAsciiLetter(m[0]) && IsDigit(m[5]);
    assert !OnlyDigits(m) && HasDigit(m) && HasLetter(m);
  }
}
