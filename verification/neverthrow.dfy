/** The neverthrow sample: results instead of exceptions for e-mail
    validation, division, a user lookup over a fixed table and an e-mail
    update that chains the two. */
module Neverthrow {
  import opened Wrappers
  import opened Text

  datatype User = User(id: int, name: string, email: string)

  /** The two error shapes, told apart by their `type` tag. */
  datatype AppError =
    | UserNotFound(userId: int, message: string)
    | InvalidEmail(email: string, message: string)

  // ---- validateEmail ----

  /** The character class `[^\s@]`. */
  predicate Plain(c: char) { !IsJsWhitespace(c) && c != '@' }

  predicate AllPlain(s: string) { forall i :: 0 <= i < |s| ==> Plain(s[i]) }

  /** `s` splits as the pattern `^[^\s@]+@[^\s@]+\.[^\s@]+$` reads it:
      a local part, '@', a host, '.', and a suffix, each non-empty and
      free of whitespace and '@'. */
  predicate Decomposes(s: string, local: string, host: string, suffix: string) {
    s == local + "@" + host + "." + suffix
    && |local| > 0 && |host| > 0 && |suffix| > 0
    && AllPlain(local) && AllPlain(host) && AllPlain(suffix)
  }

  ghost predicate MatchesPattern(s: string) {
    exists local, host, suffix :: Decomposes(s, local, host, suffix)
  }

  /** A '.' strictly inside `d`. */
  predicate HasInnerDot(d: string) { exists k :: 0 < k < |d| - 1 && d[k] == '.' }

  /** The matcher: split at the first '@' and check both sides. */
  function EmailMatches(s: string): bool {
    var at := IndexOf(s, '@');
    at > 0 && AllPlain(s[..at]) && AllPlain(s[at + 1..]) && HasInnerDot(s[at + 1..])
  }

  lemma AllPlainConcat(a: string, b: string)
    ensures AllPlain(a + b) <==> AllPlain(a) && AllPlain(b)
  {
    if AllPlain(a) && AllPlain(b) {
      forall i | 0 <= i < |a + b| ensures Plain((a + b)[i]) {
        if i < |a| { assert (a + b)[i] == a[i]; } else { assert (a + b)[i] == b[i - |a|]; }
      }
    }
    if AllPlain(a + b) {
      forall i | 0 <= i < |a| ensures Plain(a[i]) { assert (a + b)[i] == a[i]; }
      forall i | 0 <= i < |b| ensures Plain(b[i]) { assert (a + b)[|a| + i] == b[i]; }
    }
  }

  /** A printable ASCII character other than '@' is in `[^\s@]`. */
  lemma PrintablePlain(c: char)
    requires '!' <= c <= '~' && c != '@'
    ensures Plain(c)
  {
  }

  /** The first '@' of `prefix + rest` is at `|prefix|` when `prefix` has
      none and `rest` starts with one. */
  lemma IndexOfAfterPrefix(prefix: string, rest: string)
    requires '@' !in prefix && rest != [] && rest[0] == '@'
    ensures IndexOf(prefix + rest, '@') == |prefix|
  {
    assert (prefix + rest)[|prefix|] == '@';
  }

  lemma MatchHasDecomposition(s: string)
    requires EmailMatches(s)
    ensures MatchesPattern(s)
  {
    var at := IndexOf(s, '@');
    var d := s[at + 1..];
    var k :| 0 < k < |d| - 1 && d[k] == '.';
    var local, host, suffix := s[..at], d[..k], d[k + 1..];
    assert d == host + "." + suffix;
    assert s == local + "@" + d;
    AllPlainConcat(host + ".", suffix);
    AllPlainConcat(host, ".");
    assert Decomposes(s, local, host, suffix);
  }

  lemma DecompositionMatches(s: string, local: string, host: string, suffix: string)
    requires Decomposes(s, local, host, suffix)
    ensures EmailMatches(s)
  {
    var d := host + "." + suffix;
    assert s == local + ("@" + d);
    assert '@' !in local;
    IndexOfAfterPrefix(local, "@" + d);
    var at := IndexOf(s, '@');
    assert s[..at] == local;
    assert s[at + 1..] == d;
    assert d[|host|] == '.';
    PrintablePlain('.');
    AllPlainConcat(host + ".", suffix);
    AllPlainConcat(host, ".");
  }

  /** The matcher accepts exactly the strings the pattern describes. */
  lemma EmailMatchesPattern(s: string)
    ensures EmailMatches(s) <==> MatchesPattern(s)
  {
    if EmailMatches(s) {
      MatchHasDecomposition(s);
    }
    if MatchesPattern(s) {
      var local, host, suffix :| Decomposes(s, local, host, suffix);
      DecompositionMatches(s, local, host, suffix);
    }
  }

  /** No whitespace, exactly one '@' at `a`, not first, and a '.' inside the
      part after it. */
  predicate SingleAtShape(s: string, a: int) {
    (forall i :: 0 <= i < |s| ==> !IsJsWhitespace(s[i]))
    && 0 < a < |s| && s[a] == '@'
    && (forall j :: 0 <= j < |s| && j != a ==> s[j] != '@')
    && HasInnerDot(s[a + 1..])
  }

  lemma MatchHasShape(s: string)
    requires EmailMatches(s)
    ensures SingleAtShape(s, IndexOf(s, '@'))
  {
    var at := IndexOf(s, '@');
    forall i | 0 <= i < |s| ensures !IsJsWhitespace(s[i]) && (i != at ==> s[i] != '@') {
      if i < at { assert s[i] == s[..at][i]; }
      else if i > at { assert s[i] == s[at + 1..][i - at - 1]; }
    }
  }

  lemma ShapeMatches(s: string, a: int)
    requires SingleAtShape(s, a)
    ensures EmailMatches(s)
  {
    var at := IndexOf(s, '@');
    assert at == a;
    var local, domain := s[..at], s[at + 1..];
    assert AllPlain(local) by { forall i | 0 <= i < |local| ensures Plain(local[i]) { assert local[i] == s[i]; } }
    assert AllPlain(domain) by {
      forall i | 0 <= i < |domain| ensures Plain(domain[i]) { assert domain[i] == s[at + 1 + i]; }
    }
  }

  /** The accepted strings in plain terms: no whitespace, exactly one '@',
      not first, and a '.' strictly inside the part after it. */
  lemma EmailMatchesShape(s: string)
    ensures EmailMatches(s) <==> exists a :: SingleAtShape(s, a)
  {
    if EmailMatches(s) {
      MatchHasShape(s);
    }
    if exists a :: SingleAtShape(s, a) {
      var a :| SingleAtShape(s, a);
      ShapeMatches(s, a);
    }
  }

  /** `validateEmail(email)`. */
  function ValidateEmail(email: string): (r: Result<string, AppError>)
    ensures r.Ok? <==> EmailMatches(email)
    ensures r.Ok? ==> r.value == email
    ensures r.Err? ==> r.error == InvalidEmail(email, "Invalid email format: " + email)
  {
    if EmailMatches(email) then Ok(email)
    else Err(InvalidEmail(email, "Invalid email format: " + email))
  }

  /** A printable string without '@' is in `[^\s@]+` when non-empty. */
  lemma PrintableAllPlain(s: string)
    requires forall i :: 0 <= i < |s| ==> '!' <= s[i] <= '~' && s[i] != '@'
    ensures AllPlain(s)
  {
    forall i | 0 <= i < |s| ensures Plain(s[i]) { PrintablePlain(s[i]); }
  }

  /** An address written as `local@host.suffix` over printable characters. */
  lemma PrintableAddress(local: string, host: string, suffix: string)
    requires |local| > 0 && |host| > 0 && |suffix| > 0
    requires forall i :: 0 <= i < |local| ==> '!' <= local[i] <= '~' && local[i] != '@'
    requires forall i :: 0 <= i < |host| ==> '!' <= host[i] <= '~' && host[i] != '@'
    requires forall i :: 0 <= i < |suffix| ==> '!' <= suffix[i] <= '~' && suffix[i] != '@'
    ensures ValidateEmail(local + "@" + host + "." + suffix) == Ok(local + "@" + host + "." + suffix)
  {
    PrintableAllPlain(local);
    PrintableAllPlain(host);
    PrintableAllPlain(suffix);
    assert Decomposes(local + "@" + host + "." + suffix, local, host, suffix);
    EmailMatchesPattern(local + "@" + host + "." + suffix);
  }

  lemma ValidateEmailAlice()
    ensures ValidateEmail("alice@example.com") == Ok("alice@example.com")
  {
    PrintableAddress("alice", "example", "com");
    assert "alice" + "@" + "example" + "." + "com" == "alice@example.com";
  }

  lemma ValidateEmailAliceNew()
    ensures ValidateEmail("alice.new@example.com") == Ok("alice.new@example.com")
  {
    PrintableAddress("alice.new", "example", "com");
    assert "alice.new" + "@" + "example" + "." + "com" == "alice.new@example.com";
  }

  lemma ValidateEmailTest()
    ensures ValidateEmail("test@example.com") == Ok("test@example.com")
  {
    PrintableAddress("test", "example", "com");
    assert "test" + "@" + "example" + "." + "com" == "test@example.com";
  }

  /** An address without '@', such as "invalid-email", is rejected. */
  lemma NoAtRejected(email: string)
    requires '@' !in email
    ensures ValidateEmail(email) == Err(InvalidEmail(email, "Invalid email format: " + email))
  {
  }

  // ---- divide ----

  /** `divide(a, b)`: the quotient, or "Division by zero". */
  function Divide(a: real, b: real): (r: Result<real, string>)
    ensures r.Err? <==> b == 0.0
    ensures r.Err? ==> r.error == "Division by zero"
    ensures r.Ok? ==> r.value * b == a
  {
    if b == 0.0 then Err("Division by zero") else Ok(a / b)
  }

  /** The sample's divisions: 10 / 2, 10 / 0, and the combined 20 / 4,
      15 / 3, 10 / 2. */
  lemma DivideExamples()
    ensures Divide(10.0, 2.0) == Ok(5.0) && Divide(10.0, 0.0) == Err("Division by zero")
    ensures [Divide(20.0, 4.0), Divide(15.0, 3.0), Divide(10.0, 2.0)] == [Ok(5.0), Ok(5.0), Ok(5.0)]
  {
  }

  // ---- users ----

  const Users: seq<User> := [User(1, "Alice", "alice@example.com"), User(2, "Bob", "bob@example.com")]

  /** `users.find(u => u.id === id)`: the first user with that id. */
  function Find(users: seq<User>, id: int): (r: Option<User>)
    ensures r.None? <==> forall u :: u in users ==> u.id != id
    ensures r.Some? ==> r.value in users && r.value.id == id
  {
    if users == [] then None
    else if users[0].id == id then Some(users[0])
    else Find(users[1..], id)
  }

  /** `fetchUserFromDB(userId)` (the delay is not modelled). */
  function FetchUserFromDB(userId: int): (r: Option<User>)
    ensures r.Some? <==> userId == 1 || userId == 2
    ensures r.Some? ==> r.value in Users && r.value.id == userId
  {
    Find(Users, userId)
  }

  /** `getUser(userId)`. */
  function GetUser(userId: int): (r: Result<User, AppError>)
    ensures r.Ok? <==> userId == 1 || userId == 2
    ensures r.Ok? ==> r.value in Users && r.value.id == userId
    ensures r.Err? ==> r.error == UserNotFound(userId, "User with id " + IntToString(userId) + " not found")
  {
    match FetchUserFromDB(userId)
    case Some(user) => Ok(user)
    case None => Err(UserNotFound(userId, "User with id " + IntToString(userId) + " not found"))
  }

  lemma GetUserExamples()
    ensures GetUser(1) == Ok(User(1, "Alice", "alice@example.com"))
    ensures GetUser(2) == Ok(User(2, "Bob", "bob@example.com"))
    ensures GetUser(3) == Err(UserNotFound(3, "User with id 3 not found"))
  {
    assert IntToString(3) == "3";
    assert "User with id " + "3" + " not found" == "User with id 3 not found";
  }

  /** `updateUserEmail(userId, newEmail)`: validate first, then look the user
      up and replace only the e-mail. */
  function UpdateUserEmail(userId: int, newEmail: string): (r: Result<User, AppError>)
    ensures !EmailMatches(newEmail) ==> r == Err(InvalidEmail(newEmail, "Invalid email format: " + newEmail))
    ensures EmailMatches(newEmail) ==> (r.Ok? <==> GetUser(userId).Ok?)
    ensures r.Ok? ==> r.value == GetUser(userId).value.(email := newEmail)
    ensures r.Err? && EmailMatches(newEmail) ==> r.error == GetUser(userId).error && r.error.UserNotFound?
  {
    match ValidateEmail(newEmail)
    case Err(e) => Err(e)
    case Ok(_) =>
      match GetUser(userId)
      case Err(e) => Err(e)
      case Ok(user) => Ok(user.(email := newEmail))
  }

  /** An invalid e-mail is reported whatever the user id, so it takes
      precedence over a missing user; a successful update keeps the id and
      the name. */
  lemma UpdateUserEmailSpec(userId: int, newEmail: string)
    ensures !EmailMatches(newEmail) ==> UpdateUserEmail(userId, newEmail) == UpdateUserEmail(999, newEmail)
    ensures UpdateUserEmail(userId, newEmail).Ok? ==>
      var u := UpdateUserEmail(userId, newEmail).value;
      u.id == userId && u.email == newEmail && u.name == GetUser(userId).value.name
    ensures '@' !in newEmail ==> UpdateUserEmail(userId, newEmail) == Err(InvalidEmail(newEmail, "Invalid email format: " + newEmail))
  {
    if '@' !in newEmail {
      NoAtRejected(newEmail);
    }
  }

  /** The sample's update of user 1 to "alice.new@example.com". */
  lemma UpdateAliceExample()
    ensures UpdateUserEmail(1, "alice.new@example.com") == Ok(User(1, "Alice", "alice.new@example.com"))
  {
    ValidateEmailAliceNew();
    assert GetUser(1) == Ok(User(1, "Alice", "alice@example.com"));
  }

  /** The sample's update of the missing user 999 reports that user. */
  lemma UpdateMissingExample()
    ensures UpdateUserEmail(999, "test@example.com").Err?
    ensures UpdateUserEmail(999, "test@example.com").error.UserNotFound?
    ensures UpdateUserEmail(999, "test@example.com").error.userId == 999
  {
    ValidateEmailTest();
    UnknownUserNotFound(999, "test@example.com");
  }

  /** With a valid e-mail, an id outside the table gives USER_NOT_FOUND for
      that id. */
  lemma UnknownUserNotFound(userId: int, newEmail: string)
    requires EmailMatches(newEmail) && userId != 1 && userId != 2
    ensures UpdateUserEmail(userId, newEmail).Err?
    ensures UpdateUserEmail(userId, newEmail).error == UserNotFound(userId, "User with id " + IntToString(userId) + " not found")
  {
  }

  /** The sample's chain: user 1's stored e-mail validates. */
  lemma ChainExample()
    ensures GetUser(1).Ok? && ValidateEmail(GetUser(1).value.email) == Ok("alice@example.com")
  {
    ValidateEmailAlice();
    assert GetUser(1) == Ok(User(1, "Alice", "alice@example.com"));
  }
}
