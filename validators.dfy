/** Input validation for registration and login: the two regular expressions
    `^.+@.+\..+$` (email) and `^.{8,64}$` (password), stated over strings.
    In the regular expressions `.` is any character but a line feed and `$` is the
    very end of the input; a Dafny `char` is one Unicode scalar value, as `.` is. */
module Validators {
  import opened Wrappers

  /** `ValidationErrors`: which of the two checks failed. */
  datatype ValidationError = Email | Password

  predicate NoNewline(s: string) {
    '\n' !in s
  }

  /** The shape `a ++ "@" ++ b ++ "." ++ c` with `a`, `b`, `c` non-empty and no line feed. */
  ghost predicate EmailShape(s: string) {
    NoNewline(s) &&
    exists i, j :: 1 <= i && i + 2 <= j && j + 2 <= |s| && s[i] == '@' && s[j] == '.'
  }

  /** The least index `k >= from` with `s[k] == c`, or `|s|` when there is none. */
  function FirstIndexFrom(s: string, c: char, from: nat): (k: nat)
    requires from <= |s|
    ensures from <= k <= |s|
    ensures k < |s| ==> s[k] == c
    ensures forall m :: from <= m < k ==> s[m] != c
    decreases |s| - from
  {
    if from == |s| then |s|
    else if s[from] == c then from
    else FirstIndexFrom(s, c, from + 1)
  }

  /** The greatest index `k < bound` with `s[k] == c`, or `-1` when there is none. */
  function LastIndexBelow(s: string, c: char, bound: nat): (k: int)
    requires bound <= |s|
    ensures -1 <= k < bound
    ensures k >= 0 ==> s[k] == c
    ensures forall m :: k < m < bound ==> s[m] != c
  {
    if bound == 0 then -1
    else if s[bound - 1] == c then bound - 1
    else LastIndexBelow(s, c, bound - 1)
  }

  /** `Validator::email`: the earliest '@' that has a character before it must come
      at least two characters ahead of the last '.' that has a character after it. */
  function ValidateEmail(input: string): (r: Result<(), ValidationError>)
    ensures r.Err? ==> r.error == ValidationError.Email
  {
    if |input| < 2 || !NoNewline(input) then Err(ValidationError.Email)
    else
      var at := FirstIndexFrom(input, '@', 1);
      var dot := LastIndexBelow(input, '.', |input| - 1);
      if at + 2 <= dot then Ok(()) else Err(ValidationError.Email)
  }

  /** `Validator::password`: 8 to 64 characters, none of them a line feed. */
  function ValidatePassword(input: string): (r: Result<(), ValidationError>)
    ensures r.Err? ==> r.error == ValidationError.Password
    ensures r.Ok? <==> NoNewline(input) && 8 <= |input| <= 64
  {
    if NoNewline(input) && 8 <= |input| <= 64 then Ok(()) else Err(ValidationError.Password)
  }

  /** The scanning check is exactly the regular expression's language. */
  lemma EmailAcceptsExactlyTheShape(s: string)
    ensures ValidateEmail(s).Ok? <==> EmailShape(s)
  {
    if EmailShape(s) {
      var i, j :| 1 <= i && i + 2 <= j && j + 2 <= |s| && s[i] == '@' && s[j] == '.';
      var at := FirstIndexFrom(s, '@', 1);
      var dot := LastIndexBelow(s, '.', |s| - 1);
      assert at <= i;
      assert j <= dot;
    }
    if ValidateEmail(s).Ok? {
      var at := FirstIndexFrom(s, '@', 1);
      var dot := LastIndexBelow(s, '.', |s| - 1);
      assert 1 <= at && at + 2 <= dot && dot + 2 <= |s| && s[at] == '@' && s[dot] == '.';
    }
  }

  /** Any `a ++ "@" ++ b ++ "." ++ c` with non-empty parts and no line feed is accepted. */
  lemma EmailAcceptsSplit(a: string, b: string, c: string)
    requires |a| > 0 && |b| > 0 && |c| > 0
    requires NoNewline(a + "@" + b + "." + c)
    ensures ValidateEmail(a + "@" + b + "." + c) == Ok(())
  {
    var s := a + "@" + b + "." + c;
    var i, j := |a|, |a| + 1 + |b|;
    assert s[i] == '@' && s[j] == '.';
    assert 1 <= i && i + 2 <= j && j + 2 <= |s|;
    EmailAcceptsExactlyTheShape(s);
  }

  /** Every accepted email splits as `a ++ "@" ++ b ++ "." ++ c` with non-empty parts. */
  lemma EmailAcceptedSplits(s: string) returns (a: string, b: string, c: string)
    requires ValidateEmail(s).Ok?
    ensures |a| > 0 && |b| > 0 && |c| > 0 && NoNewline(s)
    ensures s == a + "@" + b + "." + c
  {
    var i := FirstIndexFrom(s, '@', 1);
    var j := LastIndexBelow(s, '.', |s| - 1);
    a, b, c := s[..i], s[i + 1..j], s[j + 1..];
    assert s == s[..i] + [s[i]] + s[i + 1..j] + [s[j]] + s[j + 1..];
  }

  /** An accepted email contains both an '@' and a '.'. */
  lemma EmailAcceptedHasAtAndDot(s: string)
    requires ValidateEmail(s).Ok?
    ensures '@' in s && '.' in s
  {
    EmailAcceptsExactlyTheShape(s);
  }

  /** An accepted vector of the unit test `test_email_validator`. */
  lemma EmailVectorPlain()
    ensures ValidateEmail("dimashur@gmail.com") == Ok(())
  {
    var s := "dimashur@gmail.com";
    assert EmailShape(s) by { assert NoNewline(s); assert s[8] == '@' && s[14] == '.'; }
    EmailAcceptsExactlyTheShape(s);
  }

  /** An accepted vector of the unit test `test_email_validator`. */
  lemma EmailVectorDottedUser()
    ensures ValidateEmail("dimashur.edu@gmail.com") == Ok(())
  {
    var s := "dimashur.edu@gmail.com";
    assert EmailShape(s) by { assert NoNewline(s); assert s[12] == '@' && s[18] == '.'; }
    EmailAcceptsExactlyTheShape(s);
  }

  /** An accepted vector of the unit test `test_email_validator`. */
  lemma EmailVectorTwoDotsUser()
    ensures ValidateEmail("dima.shur.edu@gmail.com") == Ok(())
  {
    var s := "dima.shur.edu@gmail.com";
    assert EmailShape(s) by { assert NoNewline(s); assert s[13] == '@' && s[19] == '.'; }
    EmailAcceptsExactlyTheShape(s);
  }

  /** The rejected email vectors of the unit test `test_email_validator`. */
  lemma EmailTestVectorsRejected()
    ensures ValidateEmail("di@gmail") == Err(ValidationError.Email)
    ensures ValidateEmail("@") == Err(ValidationError.Email)
    ensures ValidateEmail("") == Err(ValidationError.Email)
  {
  }

  /** The password vectors of the unit test `test_password_validator`. */
  lemma PasswordTestVectors()
    ensures ValidatePassword("111222444") == Ok(())
    ensures ValidatePassword("djaodjaosdj") == Ok(())
    ensures ValidatePassword("qwerty11") == Ok(())
    ensures ValidatePassword("44009922") == Ok(())
    ensures ValidatePassword("") == Err(ValidationError.Password)
    ensures ValidatePassword("qwe") == Err(ValidationError.Password)
    ensures ValidatePassword("123") == Err(ValidationError.Password)
    ensures ValidatePassword("some very long password which should be rejected. the maximum allowed length is 64 characters long")
            == Err(ValidationError.Password)
  {
  }
}
