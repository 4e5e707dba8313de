/**
 The user-profile validators: password charset and length, CIS phone numbers,
 and Telegram usernames. Each regular expression of the Python validators is written
 out as an explicit predicate over characters and lengths.
 */
module UserValidators {
  import opened Text
  import opened Validation

  // ---- password ----

  const MinPasswordLength := 8

  /** The class `[A-Za-z0-9@#$%^&+=!*()-]`. */
  predicate IsPasswordChar(c: char) {
    IsLetter(c) || IsDigit(c) || c in "@#$%^&+=!*()-"
  }

  /** `re.fullmatch(r"[A-Za-z0-9@#$%^&+=!*()-]+", s)`. */
  predicate PasswordCharsetMatches(s: string) {
    |s| >= 1 && forall i :: 0 <= i < |s| ==> IsPasswordChar(s[i])
  }

  function ValidatePassword(password: string): (r: Result<string>)
    ensures r.Ok? <==> |password| >= 8 && forall i :: 0 <= i < |password| ==> IsPasswordChar(password[i])
    ensures r.Ok? ==> r.value == password
    ensures |password| < 8 ==> r == Err(PasswordTooShort)
    ensures |password| >= 8 && r.Err? ==> r.error == PasswordCharset
  {
    if |password| < MinPasswordLength then Err(PasswordTooShort)
    else if !PasswordCharsetMatches(password) then Err(PasswordCharset)
    else Ok(password)
  }

  /** A password that was accepted once is accepted again, unchanged. */
  lemma ValidatePasswordIdempotent(password: string)
    requires ValidatePassword(password).Ok?
    ensures ValidatePassword(ValidatePassword(password).value) == ValidatePassword(password)
  {
  }

  /** Accepted passwords carry no whitespace and nothing outside ASCII. */
  lemma AcceptedPasswordIsPlainAscii(password: string, i: int)
    requires ValidatePassword(password).Ok?
    requires 0 <= i < |password|
    ensures !IsSpace(password[i]) && password[i] as int < 128
  {
  }

  /** A typical password passes; the same length with a space does not; a
      short one with a bad character reports the length. */
  lemma PasswordExamples()
    ensures ValidatePassword("Abc12345!") == Ok("Abc12345!")
    ensures ValidatePassword("Abc 12345") == Err(PasswordCharset)
    ensures ValidatePassword("a b") == Err(PasswordTooShort)
  {
    var bad := "Abc 12345";
    assert !IsPasswordChar(bad[3]);
  }

  // ---- phone ----

  /** The characters `re.sub(r"[^0-9+]", "", phone)` keeps. */
  predicate IsPhoneChar(c: char) { IsDigit(c) || c == '+' }

  /** `re.sub(r"[^0-9+]", "", s)`: delete every character that is not an
      ASCII digit or '+', keeping the others in order. */
  function KeepPhoneChars(s: string): (r: string)
    ensures |r| <= |s|
    ensures forall i :: 0 <= i < |r| ==> IsPhoneChar(r[i])
    ensures (forall i :: 0 <= i < |s| ==> IsPhoneChar(s[i])) ==> r == s
    decreases |s|
  {
    if |s| == 0 then []
    else (if IsPhoneChar(s[0]) then [s[0]] else []) + KeepPhoneChars(s[1..])
  }

  /** Deletion works character by character: it distributes over concatenation. */
  lemma {:induction false} KeepPhoneCharsConcat(a: string, b: string)
    ensures KeepPhoneChars(a + b) == KeepPhoneChars(a) + KeepPhoneChars(b)
    decreases |a|
  {
    if |a| == 0 {
      assert a + b == b;
    } else {
      assert (a + b)[0] == a[0];
      assert (a + b)[1..] == a[1..] + b;
      KeepPhoneCharsConcat(a[1..], b);
    }
  }

  /** Every digit and '+' survives as often as it occurs; nothing else does. */
  lemma {:induction false} KeepPhoneCharsCounts(s: string, c: char)
    ensures multiset(KeepPhoneChars(s))[c] == if IsPhoneChar(c) then multiset(s)[c] else 0
    decreases |s|
  {
    if |s| > 0 {
      assert s == [s[0]] + s[1..];
      KeepPhoneCharsCounts(s[1..], c);
    }
  }

  const OneDigitCodes := ["7", "8"]
  const TwoDigitCodes := ["38", "39", "98", "99"]

  /** A number split the way `^\+?(7|8|3[8-9]|[9][8-9])(\d{10})$` splits it. */
  datatype PhoneParts = PhoneParts(plus: bool, code: string, subscriber: string)

  predicate WellFormedParts(p: PhoneParts) {
    (p.code in OneDigitCodes || p.code in TwoDigitCodes) && |p.subscriber| == 10 && AllDigits(p.subscriber)
  }

  function ComposePhone(p: PhoneParts): string {
    (if p.plus then "+" else "") + p.code + p.subscriber
  }

  /** The phone pattern as a parser: `Some` exactly when `re.fullmatch` succeeds,
      with the optional '+', the country code and the ten subscriber digits. */
  function ParsePhone(s: string): (r: Option<PhoneParts>)
    ensures r.Some? ==> WellFormedParts(r.value) && ComposePhone(r.value) == s
  {
    var plus := |s| > 0 && s[0] == '+';
    var body := if plus then s[1..] else s;
    if |body| == 11 && body[..1] in OneDigitCodes && AllDigits(body[1..]) then
      assert ComposePhone(PhoneParts(plus, body[..1], body[1..])) == s;
      Some(PhoneParts(plus, body[..1], body[1..]))
    else if |body| == 12 && body[..2] in TwoDigitCodes && AllDigits(body[2..]) then
      assert ComposePhone(PhoneParts(plus, body[..2], body[2..])) == s;
      Some(PhoneParts(plus, body[..2], body[2..]))
    else None
  }

  /** Every well-formed number is matched, and split back into its parts. */
  lemma ParseComposePhone(p: PhoneParts)
    requires WellFormedParts(p)
    ensures ParsePhone(ComposePhone(p)) == Some(p)
  {
    var s := ComposePhone(p);
    var body := p.code + p.subscriber;
    assert IsDigit(p.code[0]);
    if p.plus {
      assert s == "+" + body;
      assert s[1..] == body;
    } else {
      assert s == body;
    }
    if |p.code| == 1 {
      assert body[..1] == p.code && body[1..] == p.subscriber;
    } else {
      assert |body| == 12;
      assert body[..2] == p.code && body[2..] == p.subscriber;
    }
  }

  /** A composed number is 11 to 13 characters long and is all digits except
      an optional leading '+'. */
  lemma ComposedPhoneShape(p: PhoneParts)
    requires WellFormedParts(p)
    ensures var s := ComposePhone(p);
      && 11 <= |s| <= 13
      && (forall i :: 0 < i < |s| ==> IsDigit(s[i]))
      && (IsDigit(s[0]) || s[0] == '+')
      && (s[0] == '+' <==> p.plus)
  {
    var s := ComposePhone(p);
    var body := p.code + p.subscriber;
    assert AllDigits(body);
    assert IsDigit(p.code[0]);
    if p.plus {
      assert s == "+" + body;
      assert forall i :: 0 < i < |s| ==> s[i] == body[i - 1];
    } else {
      assert s == body;
    }
  }

  function ValidatePhone(phone: Option<string>): (r: Result<string>)
    ensures !Truthy(phone) ==> r == Ok("")
    ensures Truthy(phone) ==> (r.Ok? <==> ParsePhone(KeepPhoneChars(phone.value)).Some?)
    ensures Truthy(phone) && r.Ok? ==> r.value == KeepPhoneChars(phone.value)
    ensures r.Err? ==> r.error == PhoneFormat
  {
    if !Truthy(phone) then Ok("")
    else
      var stripped := KeepPhoneChars(phone.value);
      if ParsePhone(stripped).None? then Err(PhoneFormat) else Ok(stripped)
  }

  /** What an accepted number looks like: 11 to 13 characters, all digits
      except an optional leading '+'; and validating it again returns it unchanged. */
  lemma AcceptedPhoneShape(phone: string)
    requires phone != "" && ValidatePhone(Some(phone)).Ok?
    ensures var r := ValidatePhone(Some(phone)).value;
      && 11 <= |r| <= 13
      && (forall i :: 0 < i < |r| ==> IsDigit(r[i]))
      && (IsDigit(r[0]) || r[0] == '+')
      && ValidatePhone(Some(r)) == Ok(r)
  {
    var r := KeepPhoneChars(phone);
    var p := ParsePhone(r).value;
    ComposedPhoneShape(p);
    assert KeepPhoneChars(r) == r;
  }

  /** Every number of the documented shape (the error message's samples
      +79991112233 and 89991112233 among them) is accepted unchanged: together
      with `AcceptedPhoneShape` and `ParsePhone`'s contract this pins the
      accepted set down exactly. */
  lemma WellFormedPhoneAccepted(p: PhoneParts)
    requires WellFormedParts(p)
    ensures ValidatePhone(Some(ComposePhone(p))) == Ok(ComposePhone(p))
  {
    var s := ComposePhone(p);
    ComposedPhoneShape(p);
    ParseComposePhone(p);
    assert forall i :: 0 <= i < |s| ==> IsPhoneChar(s[i]);
  }

  /** A number with a country code outside the list is refused even when
      its length fits: "+1" and ten digits is not a CIS number. */
  lemma {:induction false} PhoneRejectsOtherCodes(sub: string)
    requires |sub| == 10 && AllDigits(sub)
    ensures ValidatePhone(Some("+1" + sub)) == Err(PhoneFormat)
  {
    var s := "+1" + sub;
    assert forall i :: 0 <= i < |s| ==> IsPhoneChar(s[i]) by {
      forall i | 0 <= i < |s| ensures IsPhoneChar(s[i]) {
        if i >= 2 { assert s[i] == sub[i - 2]; }
      }
    }
    assert KeepPhoneChars(s) == s;
    var body := s[1..];
    assert |body| == 11 && body[..1] == "1";
    assert body[..1] !in OneDigitCodes;
  }

  // ---- Telegram ----

  /** The class `[A-Za-z0-9_-]`. */
  predicate IsTelegramChar(c: char) {
    IsLetter(c) || IsDigit(c) || c == '_' || c == '-'
  }

  predicate IsEdgeChar(c: char) { c == '_' || c == '-' }

  /** `re.fullmatch(r"^[A-Za-z0-9_-]{5,32}$", s)`. */
  predicate TelegramPatternMatches(s: string) {
    5 <= |s| <= 32 && forall i :: 0 <= i < |s| ==> IsTelegramChar(s[i])
  }

  /** Removes one leading '@', if there is one. */
  function DropAt(s: string): (r: string)
    ensures StartsWith(s, "@") ==> "@" + r == s
    ensures !StartsWith(s, "@") ==> r == s
  {
    if |s| > 0 && s[0] == '@' then s[1..] else s
  }

  function ValidateTelegram(telegram: Option<string>): (r: Result<string>)
    ensures !Truthy(telegram) ==> r == Ok("")
    ensures Truthy(telegram) ==> var u := DropAt(telegram.value);
      && (r.Ok? <==> 5 <= |u| <= 32 && (forall i :: 0 <= i < |u| ==> IsTelegramChar(u[i]))
                     && !IsEdgeChar(u[0]) && !IsEdgeChar(u[|u| - 1]))
      && (r.Ok? ==> r.value == u)
      && (!TelegramPatternMatches(u) ==> r == Err(TelegramFormat))
      && (TelegramPatternMatches(u) && r.Err? ==> r.error == TelegramEdge)
  {
    if !Truthy(telegram) then Ok("")
    else
      var u := DropAt(telegram.value);
      if !TelegramPatternMatches(u) then Err(TelegramFormat)
      else if IsEdgeChar(u[0]) || IsEdgeChar(u[|u| - 1]) then Err(TelegramEdge)
      else Ok(u)
  }

  /** An accepted username never starts with '@', neither starts nor ends with
      '_' or '-', and validating it again returns it unchanged. */
  lemma AcceptedTelegramShape(telegram: string)
    requires telegram != "" && ValidateTelegram(Some(telegram)).Ok?
    ensures var r := ValidateTelegram(Some(telegram)).value;
      && !StartsWith(r, "@")
      && !IsEdgeChar(r[0]) && !IsEdgeChar(r[|r| - 1])
      && ValidateTelegram(Some(r)) == Ok(r)
  {
    var r := ValidateTelegram(Some(telegram)).value;
    assert IsTelegramChar(r[0]);
  }

  /** Exactly one leading '@' is ignored: a second one is rejected. */
  lemma TelegramSingleAt(u: string)
    requires u != "" && !StartsWith(u, "@")
    ensures ValidateTelegram(Some("@" + u)) == ValidateTelegram(Some(u))
    ensures ValidateTelegram(Some("@@" + u)) == Err(TelegramFormat)
  {
    assert DropAt("@" + u) == u;
    var w := DropAt("@@" + u);
    assert w == "@" + u;
    assert !IsTelegramChar(w[0]);
  }
}
