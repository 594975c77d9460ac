/** The password policy and the e-mail and phone-number patterns checked at
    registration and password reset. */
module Validation {
  import opened Strings

  const MinPasswordLength: nat := 8

  /** The sample of common passwords rejected in any letter case. */
  const CommonPasswords: seq<string> :=
    ["password123", "qwerty123", "12345678", "admin123", "letmein123"]

  /** The special characters of the policy: `[!@#$%^&*]`. */
  predicate IsSpecial(c: char) {
    c in "!@#$%^&*"
  }

  predicate IsUpperAscii(c: char) {
    'A' <= c <= 'Z'
  }

  predicate IsLowerAscii(c: char) {
    'a' <= c <= 'z'
  }

  predicate HasUpper(p: string) {
    exists i :: 0 <= i < |p| && IsUpperAscii(p[i])
  }

  predicate HasLower(p: string) {
    exists i :: 0 <= i < |p| && IsLowerAscii(p[i])
  }

  predicate HasDigit(p: string) {
    exists i :: 0 <= i < |p| && IsAsciiDigit(p[i])
  }

  predicate HasSpecial(p: string) {
    exists i :: 0 <= i < |p| && IsSpecial(p[i])
  }

  predicate IsCommon(p: string) {
    ToLower(p) in CommonPasswords
  }

  /** The policy as one statement: long enough, one character of each of
      the four classes, and not a common password. */
  predicate StrongPassword(p: string) {
    && Utf16Length(p) >= MinPasswordLength
    && HasUpper(p) && HasLower(p) && HasDigit(p) && HasSpecial(p)
    && !IsCommon(p)
  }

  /** The six rules of the policy, in the order they are checked. */
  datatype Rule = LengthRule | UpperRule | LowerRule | DigitRule | SpecialRule | CommonRule {
    /** The message pushed when the rule is broken. */
    function Message(): string {
      match this
      case LengthRule => "Password must be at least 8 characters long"
      case UpperRule => "Password must contain at least one uppercase letter"
      case LowerRule => "Password must contain at least one lowercase letter"
      case DigitRule => "Password must contain at least one number"
      case SpecialRule => "Password must contain at least one special character (!@#$%^&*)"
      case CommonRule => "Password is too common. Please choose a more secure password"
    }
  }

  const AllRules: seq<Rule> := [LengthRule, UpperRule, LowerRule, DigitRule, SpecialRule, CommonRule]

  /** Whether `p` breaks `rule`. */
  predicate Breaks(p: string, rule: Rule) {
    match rule
    case LengthRule => Utf16Length(p) < MinPasswordLength
    case UpperRule => !HasUpper(p)
    case LowerRule => !HasLower(p)
    case DigitRule => !HasDigit(p)
    case SpecialRule => !HasSpecial(p)
    case CommonRule => IsCommon(p)
  }

  /** `{ isValid, errors }` returned by `validatePassword`. */
  datatype PasswordCheck = PasswordCheck(isValid: bool, errors: seq<string>)

  /** Whether some character of `p` satisfies `f` (a `RegExp.test` with a
      one-class pattern). */
  function AnyChar(p: string, f: char -> bool): (r: bool)
    ensures r <==> exists i :: 0 <= i < |p| && f(p[i])
  {
    if |p| == 0 then false
    else
      assert forall i :: 0 < i < |p| ==> p[i] == p[1..][i - 1];
      f(p[0]) || AnyChar(p[1..], f)
  }

  function Unless(failed: bool, rule: Rule): seq<Rule> {
    if failed then [rule] else []
  }

  /** Prepending an optional rule keeps a subsequence a subsequence. */
  lemma UnlessKeepsOrder(failed: bool, rule: Rule, kept: seq<Rule>, rest: seq<Rule>)
    requires IsSubseq(kept, rest)
    ensures IsSubseq(Unless(failed, rule) + kept, [rule] + rest)
  {
    if failed {
      SubseqCons(rule, kept, rest);
    } else {
      SubseqSkip(rule, kept, rest);
      assert Unless(failed, rule) + kept == kept;
    }
  }

  /** The rules whose flags are set, in the order of the checks. */
  function Chain(a: bool, b: bool, c: bool, d: bool, e: bool, f: bool): (r: seq<Rule>)
    ensures && (LengthRule in r <==> a) && (UpperRule in r <==> b) && (LowerRule in r <==> c)
            && (DigitRule in r <==> d) && (SpecialRule in r <==> e) && (CommonRule in r <==> f)
    ensures IsSubseq(r, AllRules)
  {
    UnlessChainMembers(a, b, c, d, e, f);
    UnlessChainInOrder(a, b, c, d, e, f);
    Unless(a, LengthRule) + (Unless(b, UpperRule) + (Unless(c, LowerRule)
      + (Unless(d, DigitRule) + (Unless(e, SpecialRule) + Unless(f, CommonRule)))))
  }

  /** The rules `p` breaks: each broken rule once, in the order of the
      checks. */
  function BrokenRules(p: string): (r: seq<Rule>)
    ensures LengthRule in r <==> Breaks(p, LengthRule)
    ensures UpperRule in r <==> Breaks(p, UpperRule)
    ensures LowerRule in r <==> Breaks(p, LowerRule)
    ensures DigitRule in r <==> Breaks(p, DigitRule)
    ensures SpecialRule in r <==> Breaks(p, SpecialRule)
    ensures CommonRule in r <==> Breaks(p, CommonRule)
    ensures IsSubseq(r, AllRules)
  {
    var r := Chain(Utf16Length(p) < MinPasswordLength, !AnyChar(p, IsUpperAscii), !AnyChar(p, IsLowerAscii),
                   !AnyChar(p, IsAsciiDigit), !AnyChar(p, IsSpecial), IsCommon(p));
    r
  }

  /** A rule is in the chain exactly when its flag is set. */
  lemma UnlessChainMembers(a: bool, b: bool, c: bool, d: bool, e: bool, f: bool)
    ensures var chain := Unless(a, LengthRule) + (Unless(b, UpperRule) + (Unless(c, LowerRule)
                     + (Unless(d, DigitRule) + (Unless(e, SpecialRule) + Unless(f, CommonRule)))));
      && (LengthRule in chain <==> a) && (UpperRule in chain <==> b) && (LowerRule in chain <==> c)
      && (DigitRule in chain <==> d) && (SpecialRule in chain <==> e) && (CommonRule in chain <==> f)
  {
  }

  /** Keeping any of the six rules keeps them in the order of the checks. */
  lemma UnlessChainInOrder(a: bool, b: bool, c: bool, d: bool, e: bool, f: bool)
    ensures IsSubseq(Unless(a, LengthRule) + (Unless(b, UpperRule) + (Unless(c, LowerRule)
                     + (Unless(d, DigitRule) + (Unless(e, SpecialRule) + Unless(f, CommonRule))))),
                     AllRules)
  {
    var kf := Unless(f, CommonRule);
    SubseqRefl([CommonRule]);
    if !f { SubseqSkip(CommonRule, [], []); }
    var ke := Unless(e, SpecialRule) + kf;
    UnlessKeepsOrder(e, SpecialRule, kf, [CommonRule]);
    var kd := Unless(d, DigitRule) + ke;
    UnlessKeepsOrder(d, DigitRule, ke, [SpecialRule, CommonRule]);
    var kc := Unless(c, LowerRule) + kd;
    UnlessKeepsOrder(c, LowerRule, kd, [DigitRule, SpecialRule, CommonRule]);
    var kb := Unless(b, UpperRule) + kc;
    UnlessKeepsOrder(b, UpperRule, kc, [LowerRule, DigitRule, SpecialRule, CommonRule]);
    UnlessKeepsOrder(a, LengthRule, kb, [UpperRule, LowerRule, DigitRule, SpecialRule, CommonRule]);
    assert [LengthRule] + [UpperRule, LowerRule, DigitRule, SpecialRule, CommonRule] == AllRules;
  }

  /** `validatePassword`: one message per broken rule, in the order of the
      checks, and valid exactly when there is none. */
  function ValidatePassword(p: string): (r: PasswordCheck)
    ensures r.isValid <==> |r.errors| == 0
    ensures |r.errors| == |BrokenRules(p)| <= |AllRules|
    ensures forall i :: 0 <= i < |r.errors| ==> r.errors[i] == BrokenRules(p)[i].Message()
  {
    var broken := BrokenRules(p);
    SubseqLength(broken, AllRules);
    PasswordCheck(|broken| == 0, seq(|broken|, i requires 0 <= i < |broken| => broken[i].Message()))
  }

  /** A password is accepted exactly when it meets the whole policy, and
      every rule it breaks is reported. */
  lemma PasswordValidIffStrong(p: string)
    ensures ValidatePassword(p).isValid <==> StrongPassword(p)
    ensures forall rule :: Breaks(p, rule) ==> rule.Message() in ValidatePassword(p).errors
  {
    var broken := BrokenRules(p);
    var r := ValidatePassword(p);
    forall rule | Breaks(p, rule)
      ensures rule.Message() in r.errors
    {
      BrokenMeans(p, rule);
      var i :| 0 <= i < |broken| && broken[i] == rule;
      assert r.errors[i] == rule.Message();
    }
    if !StrongPassword(p) {
      var rule :=
        if Utf16Length(p) < MinPasswordLength then LengthRule
        else if !HasUpper(p) then UpperRule
        else if !HasLower(p) then LowerRule
        else if !HasDigit(p) then DigitRule
        else if !HasSpecial(p) then SpecialRule
        else CommonRule;
      BrokenMeans(p, rule);
    }
  }

  /** A rule is reported exactly when it is broken. */
  lemma BrokenMeans(p: string, rule: Rule)
    ensures rule in BrokenRules(p) <==> Breaks(p, rule)
  {
    match rule
    case LengthRule =>
    case UpperRule =>
    case LowerRule =>
    case DigitRule =>
    case SpecialRule =>
    case CommonRule =>
  }

  /** A common password is refused whatever its letter case. */
  lemma CommonPasswordIgnoresCase(p: string, q: string)
    requires ToLower(p) == ToLower(q)
    ensures CommonRule in BrokenRules(p) <==> CommonRule in BrokenRules(q)
  {
  }

  /** `[^\s@]`: a character that may appear in each part of an address. */
  predicate Plain(c: char) {
    !IsSpace(c) && c != '@'
  }

  predicate AllPlain(s: string) {
    forall i :: 0 <= i < |s| ==> Plain(s[i])
  }

  /** `s` splits as `a@b.c` with three non-empty parts of plain
      characters; `b` may itself hold dots, so the dot can be any dot after
      the first character of the domain. */
  predicate EmailForm(s: string, a: string, b: string, c: string) {
    && |a| > 0 && |b| > 0 && |c| > 0
    && AllPlain(a) && AllPlain(b) && AllPlain(c)
    && s == a + "@" + b + "." + c
  }

  /** What `/^[^\s@]+@[^\s@]+\.[^\s@]+$/` accepts. */
  ghost predicate MatchesEmail(s: string) {
    exists a, b, c :: EmailForm(s, a, b, c)
  }

  /** The same pattern by positions: the only `@` at `k`, a dot at `d` with
      at least one character between them and one after it, and no white
      space anywhere. */
  predicate EmailAt(s: string, k: int, d: int) {
    && 0 < k && k + 1 < d < |s| - 1
    && s[k] == '@' && s[d] == '.'
    && forall i :: 0 <= i < |s| && i != k ==> Plain(s[i])
  }

  lemma EmailFormAt(s: string, a: string, b: string, c: string)
    requires EmailForm(s, a, b, c)
    ensures EmailAt(s, |a|, |a| + 1 + |b|)
  {
    var k, d := |a|, |a| + 1 + |b|;
    forall i | 0 <= i < |s| && i != k
      ensures Plain(s[i])
    {
      if i < k { assert s[i] == a[i]; }
      else if i < d { assert s[i] == b[i - k - 1]; }
      else if i > d { assert s[i] == c[i - d - 1]; }
    }
  }

  lemma EmailAtForm(s: string, k: int, d: int)
    requires EmailAt(s, k, d)
    ensures EmailForm(s, s[..k], s[k + 1..d], s[d + 1..])
  {
    assert s == s[..k] + "@" + s[k + 1..d] + "." + s[d + 1..];
    PlainSlice(s, 0, k);
    PlainSlice(s, k + 1, d);
    PlainSlice(s, d + 1, |s|);
  }

  lemma PlainSlice(s: string, lo: int, hi: int)
    requires 0 <= lo <= hi <= |s|
    requires forall i :: lo <= i < hi ==> Plain(s[i])
    ensures AllPlain(s[lo..hi])
  {
  }

  /** `validateEmail`: one pass for the `@` and the white space, one for
      the dot. */
  method ValidateEmail(s: string) returns (ok: bool)
    ensures ok <==> MatchesEmail(s)
  {
    var at := -1;
    var i := 0;
    while i < |s|
      invariant 0 <= i <= |s|
      invariant -1 <= at < i
      invariant at >= 0 ==> s[at] == '@'
      invariant forall j :: 0 <= j < i && j != at ==> Plain(s[j])
    {
      if IsSpace(s[i]) || (s[i] == '@' && at >= 0) {
        if MatchesEmail(s) {
          var a, b, c :| EmailForm(s, a, b, c);
          EmailFormAt(s, a, b, c);
        }
        return false;
      }
      if s[i] == '@' {
        at := i;
      }
      i := i + 1;
    }
    if at <= 0 {
      if MatchesEmail(s) {
        var a, b, c :| EmailForm(s, a, b, c);
        EmailFormAt(s, a, b, c);
      }
      return false;
    }
    var d := at + 2;
    while d < |s| - 1
      invariant at + 2 <= d
      invariant forall e :: at + 2 <= e < d && e < |s| - 1 ==> s[e] != '.'
    {
      if s[d] == '.' {
        EmailAtForm(s, at, d);
        return true;
      }
      d := d + 1;
    }
    if MatchesEmail(s) {
      var a, b, c :| EmailForm(s, a, b, c);
      EmailFormAt(s, a, b, c);
    }
    return false;
  }

  /** `[\d\s-]`: a character allowed after the optional plus sign. */
  predicate PhoneChar(c: char) {
    IsAsciiDigit(c) || IsSpace(c) || c == '-'
  }

  /** At least ten digits, spaces or hyphens: `[\d\s-]{10,}`. */
  predicate PhoneBody(s: string) {
    |s| >= 10 && forall i :: 0 <= i < |s| ==> PhoneChar(s[i])
  }

  /** What `/^\+?[\d\s-]{10,}$/` accepts: the body, after an optional
      leading `+`. */
  predicate MatchesPhone(s: string) {
    PhoneBody(s) || (|s| > 0 && s[0] == '+' && PhoneBody(s[1..]))
  }

  /** `validatePhoneNumber`: a `+` is never a body character, so the plus
      is taken when present and the rest scanned once. */
  method ValidatePhoneNumber(s: string) returns (ok: bool)
    ensures ok <==> MatchesPhone(s)
  {
    var start := if |s| > 0 && s[0] == '+' then 1 else 0;
    var body := s[start..];
    if |body| < 10 {
      return false;
    }
    var i := 0;
    while i < |body|
      invariant 0 <= i <= |body|
      invariant forall j :: 0 <= j < i ==> PhoneChar(body[j])
    {
      if !PhoneChar(body[i]) {
        assert start == 1 ==> !PhoneChar(s[0]);
        return false;
      }
      i := i + 1;
    }
    return true;
  }
}
