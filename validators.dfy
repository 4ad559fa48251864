/** The two input validators of src/utils.py, as hand-written recognisers
    over ASCII text, each shown equal to the regular expression it stands for.
    Python's `re.match` anchors at the start; `$` matches at the end of the
    text or just before a final newline, which both validators inherit. */
module Validators {
  import opened Text

  predicate IsAsciiLetter(c: char) { 'a' <= c <= 'z' || 'A' <= c <= 'Z' }

  /** `[a-zA-Z0-9._%+-]` */
  predicate IsLocalChar(c: char) {
    IsAsciiLetter(c) || IsAsciiDigit(c) || c == '.' || c == '_' || c == '%' || c == '+' || c == '-'
  }

  /** `[a-zA-Z0-9.-]` */
  predicate IsDomainChar(c: char) {
    IsAsciiLetter(c) || IsAsciiDigit(c) || c == '.' || c == '-'
  }

  /** `[a-zA-Z0-9._%+-]+` */
  predicate LocalText(s: string) {
    |s| >= 1 && forall i :: 0 <= i < |s| ==> IsLocalChar(s[i])
  }

  /** `[a-zA-Z0-9.-]+` */
  predicate DomainText(s: string) {
    |s| >= 1 && forall i :: 0 <= i < |s| ==> IsDomainChar(s[i])
  }

  /** `[a-zA-Z]{2,}` */
  predicate TopLabel(s: string) {
    |s| >= 2 && forall i :: 0 <= i < |s| ==> IsAsciiLetter(s[i])
  }

  // ---------------------------------------------------------------- email

  /** The e-mail pattern matches `s` (anchored at both ends) with its '@' at
      index `at` and its `\.` at index `dot`. */
  ghost predicate EmailSplitAt(s: string, at: int, dot: int) {
    && 0 <= at < dot < |s|
    && LocalText(s[..at]) && s[at] == '@'
    && DomainText(s[at + 1..dot]) && s[dot] == '.'
    && TopLabel(s[dot + 1..])
  }

  /** The regular expression's meaning: some way of splitting the text fits. */
  ghost predicate EmailPattern(s: string) {
    exists at, dot :: EmailSplitAt(s, at, dot)
  }

  /** Index of the first `c` in `s`, or |s| when there is none. */
  function FirstIndex(s: string, c: char): (k: nat)
    ensures k <= |s|
    ensures k < |s| ==> s[k] == c
    ensures forall i :: 0 <= i < k ==> s[i] != c
  {
    if s == [] then 0 else if s[0] == c then 0 else 1 + FirstIndex(s[1..], c)
  }

  /** Index of the last `c` in `s`, or -1 when there is none. */
  function LastIndex(s: string, c: char): (k: int)
    ensures -1 <= k < |s|
    ensures 0 <= k ==> s[k] == c
    ensures forall i :: k < i < |s| ==> s[i] != c
  {
    if s == [] then -1 else if s[|s| - 1] == c then |s| - 1 else LastIndex(s[..|s| - 1], c)
  }

  /** The recogniser: split at the first '@' and, in what follows, at the
      last '.'. */
  predicate EmailShape(s: string) {
    var at := FirstIndex(s, '@');
    at < |s| && LocalText(s[..at]) && DomainShape(s[at + 1..])
  }

  predicate DomainShape(d: string) {
    var dot := LastIndex(d, '.');
    0 <= dot && DomainText(d[..dot]) && TopLabel(d[dot + 1..])
  }

  /** validate_email */
  predicate ValidateEmail(email: string) {
    || EmailShape(email)
    || (|email| > 0 && email[|email| - 1] == '\n' && EmailShape(email[..|email| - 1]))
  }

  lemma ShapeGivesPattern(s: string)
    requires EmailShape(s)
    ensures EmailPattern(s)
  {
    var at := FirstIndex(s, '@');
    var d := s[at + 1..];
    var k := LastIndex(d, '.');
    assert d[..k] == s[at + 1..at + 1 + k];
    assert d[k + 1..] == s[at + 1 + k + 1..];
    assert EmailSplitAt(s, at, at + 1 + k);
  }

  lemma SplitIsFirstAt(s: string, a: int, b: int)
    requires EmailSplitAt(s, a, b)
    ensures FirstIndex(s, '@') == a
  {
    forall i | 0 <= i < a ensures s[i] != '@' {
      assert s[..a][i] == s[i];
    }
  }

  lemma SplitIsLastDot(d: string, k: int)
    requires 0 <= k < |d| && d[k] == '.' && TopLabel(d[k + 1..])
    ensures LastIndex(d, '.') == k
  {
    forall i | k < i < |d| ensures d[i] != '.' {
      assert d[i] == d[k + 1..][i - k - 1];
    }
  }

  lemma PatternGivesShape(s: string)
    requires EmailPattern(s)
    ensures EmailShape(s)
  {
    var a, b :| EmailSplitAt(s, a, b);
    SplitIsFirstAt(s, a, b);
    var d := s[a + 1..];
    var k := b - a - 1;
    assert d[k + 1..] == s[b + 1..];
    SplitIsLastDot(d, k);
    assert d[..k] == s[a + 1..b];
  }

  /** The recogniser accepts exactly what the regular expression matches:
      neither character class admits '@', so the split must be at the first
      '@'; the top label admits no '.', so `\.` must be the last '.'. */
  lemma EmailShapeIsPattern(s: string)
    ensures EmailShape(s) <==> EmailPattern(s)
  {
    if EmailShape(s) {
      ShapeGivesPattern(s);
    }
    if EmailPattern(s) {
      PatternGivesShape(s);
    }
  }

  /** validate_email accepts exactly the texts the pattern matches, and
      those followed by one newline. */
  lemma ValidateEmailIff(s: string)
    ensures ValidateEmail(s) <==>
      || EmailPattern(s)
      || (|s| > 0 && s[|s| - 1] == '\n' && EmailPattern(s[..|s| - 1]))
  {
    EmailShapeIsPattern(s);
    if |s| > 0 {
      EmailShapeIsPattern(s[..|s| - 1]);
    }
  }

  lemma NoAtInDomain(d: string)
    requires DomainShape(d)
    ensures '@' !in d
  {
    var dot := LastIndex(d, '.');
    assert d == d[..dot] + [d[dot]] + d[dot + 1..];
    assert '@' !in d[..dot];
    assert '@' !in d[dot + 1..];
  }

  lemma OneAtBetween(l: string, r: string)
    requires '@' !in l && '@' !in r
    ensures multiset(l + ['@'] + r)['@'] == 1
  {
    assert multiset(l + ['@'] + r) == multiset(l) + multiset{'@'} + multiset(r);
  }

  lemma OneAtInShape(t: string)
    requires EmailShape(t)
    ensures multiset(t)['@'] == 1
  {
    var at := FirstIndex(t, '@');
    var l, d := t[..at], t[at + 1..];
    NoAtInDomain(d);
    assert '@' !in l by {
      forall i | 0 <= i < |l| ensures l[i] != '@' {
        assert l[i] == t[i];
      }
    }
    assert t == l + [t[at]] + d;
    OneAtBetween(l, d);
  }

  /** An accepted address holds exactly one '@'. */
  lemma ExactlyOneAt(s: string)
    requires ValidateEmail(s)
    ensures multiset(s)['@'] == 1
  {
    if EmailShape(s) {
      OneAtInShape(s);
    } else {
      var t := s[..|s| - 1];
      OneAtInShape(t);
      assert s == t + ['\n'];
      assert multiset(s) == multiset(t) + multiset{'\n'};
    }
  }

  /** Without a final newline, validate_email is the recogniser itself. */
  lemma ValidateEmailNoNewline(s: string)
    requires |s| == 0 || s[|s| - 1] != '\n'
    ensures ValidateEmail(s) == EmailShape(s)
  {
  }

  /** As written, a trailing newline gets through: `$` also matches just
      before a final newline. */
  lemma EmailTrailingNewlineAccepted()
    ensures ValidateEmail("a@b.co\n") && '\n' in "a@b.co\n"
  {
    var t := "a@b.co";
    assert "a@b.co\n"[..6] == t;
    assert t[..1] == "a" && t[2..3] == "b" && t[4..] == "co";
    assert EmailSplitAt(t, 1, 3);
    PatternGivesShape(t);
  }

  /** A text made of the pattern's pieces holds no newline. */
  lemma ShapeHasNoNewline(l: string, d: string, top: string)
    requires LocalText(l) && DomainText(d) && TopLabel(top)
    ensures '\n' !in l + ['@'] + d + ['.'] + top
  {
    var s := l + ['@'] + d + ['.'] + top;
    forall i | 0 <= i < |s| ensures s[i] != '\n' {
      if i < |l| {
        assert s[i] == l[i];
      } else if |l| < i < |l| + 1 + |d| {
        assert s[i] == d[i - |l| - 1];
      } else if |l| + 1 + |d| < i {
        assert s[i] == top[i - |l| - 2 - |d|];
      }
    }
  }

  /** The evidently intended check (a full match, `re.fullmatch` or `\Z`)
      is the recogniser alone, and it never accepts a newline. */
  lemma EmailShapeRejectsNewline(s: string)
    requires EmailShape(s)
    ensures '\n' !in s
  {
    var at := FirstIndex(s, '@');
    var d := s[at + 1..];
    var dot := LastIndex(d, '.');
    assert s == s[..at] + ['@'] + d[..dot] + ['.'] + d[dot + 1..];
    ShapeHasNoNewline(s[..at], d[..dot], d[dot + 1..]);
  }

  /** An address starting with '@' (empty local part) is rejected. */
  lemma RejectsEmptyLocal(s: string)
    requires |s| > 0 && s[0] == '@'
    ensures !ValidateEmail(s)
  {
    assert FirstIndex(s, '@') == 0;
    if |s| > 1 {
      assert FirstIndex(s[..|s| - 1], '@') == 0;
    }
  }

  /** A domain without any '.' is rejected. */
  lemma RejectsDomainWithoutDot(local: string, domain: string)
    requires '@' !in local && '.' !in domain
    ensures !ValidateEmail(local + "@" + domain)
  {
    var s := local + "@" + domain;
    assert FirstIndex(s, '@') == |local| by {
      assert s[|local|] == '@';
      assert forall i :: 0 <= i < |local| ==> s[i] == local[i];
    }
    assert s[|local| + 1..] == domain;
    if |s| > 0 && s[|s| - 1] == '\n' {
      var t := s[..|s| - 1];
      assert |domain| > 0;
      assert t == local + "@" + domain[..|domain| - 1];
      assert FirstIndex(t, '@') == |local| by {
        assert t[|local|] == '@';
        assert forall i :: 0 <= i < |local| ==> t[i] == local[i];
      }
      assert t[|local| + 1..] == domain[..|domain| - 1];
      assert '.' !in domain[..|domain| - 1];
    }
  }

  /** With no '.' after index `j`, the '.' at `j` is the last one. */
  lemma LastDotAt(d: string, j: nat)
    requires j < |d| && d[j] == '.' && '.' !in d[j + 1..]
    ensures LastIndex(d, '.') == j
  {
    forall i | j < i < |d| ensures d[i] != '.' {
      assert d[i] == d[j + 1..][i - j - 1];
    }
  }

  /** A final label that is not two or more ASCII letters (one letter, or a
      digit or '-' in it) is refused by the recogniser. */
  lemma BadTopNoShape(prefix: string, top: string)
    requires '.' !in top && !TopLabel(top)
    ensures !EmailShape(prefix + "." + top)
  {
    var s := prefix + "." + top;
    var p := |prefix|;
    var at := FirstIndex(s, '@');
    if at < |s| {
      var d := s[at + 1..];
      assert s[p] == '.';
      if at < p {
        var j := p - at - 1;
        assert d[j + 1..] == top;
        LastDotAt(d, j);
      } else {
        assert d == top[at - p..];
        forall i | 0 <= i < |d| ensures d[i] != '.' {
          assert d[i] == top[i + at - p];
        }
      }
    }
  }

  /** A final label that is not two or more ASCII letters is rejected, with
      or without the trailing newline the pattern tolerates (the label itself
      holds no newline). */
  lemma RejectsBadTopLabel(prefix: string, top: string)
    requires '.' !in top && '\n' !in top && !TopLabel(top)
    ensures !ValidateEmail(prefix + "." + top)
  {
    var s := prefix + "." + top;
    if |top| > 0 {
      assert s[|s| - 1] == top[|top| - 1];
    }
    BadTopNoShape(prefix, top);
  }

  // ---------------------------------------------------------------- phone

  /** `s.replace(c, '')` */
  function Without(s: string, c: char): (r: string)
    ensures c !in r && |r| <= |s|
  {
    if s == [] then [] else (if s[0] == c then [] else [s[0]]) + Without(s[1..], c)
  }

  /** Every other character is kept. */
  lemma {:induction false} WithoutKeeps(s: string, c: char, x: char)
    requires x != c
    ensures x in Without(s, c) <==> x in s
  {
    if s != [] {
      WithoutKeeps(s[1..], c, x);
      assert s == [s[0]] + s[1..];
    }
  }

  lemma {:induction false} WithoutConcat(a: string, b: string, c: char)
    ensures Without(a + b, c) == Without(a, c) + Without(b, c)
  {
    if a != [] {
      var h := if a[0] == c then [] else [a[0]];
      calc {
        Without(a + b, c);
        { assert (a + b)[0] == a[0] && (a + b)[1..] == a[1..] + b; }
        h + Without(a[1..] + b, c);
        { WithoutConcat(a[1..], b, c); }
        h + (Without(a[1..], c) + Without(b, c));
        (h + Without(a[1..], c)) + Without(b, c);
        Without(a, c) + Without(b, c);
      }
    } else {
      assert a + b == b;
    }
  }

  /** `phone.replace(' ', '').replace('-', '')` */
  function Stripped(phone: string): (t: string)
    ensures ' ' !in t && '-' !in t
  {
    WithoutKeeps(Without(phone, ' '), '-', ' ');
    Without(Without(phone, ' '), '-')
  }

  /** The phone pattern matches `t` with the optional '+' taking `k`
      characters. */
  ghost predicate PhoneSplitAt(t: string, k: int) {
    && 0 <= k < |t| && |t| - k <= 16
    && (k == 0 || (k == 1 && t[0] == '+'))
    && '1' <= t[k] <= '9'
    && AllDigits(t[k + 1..])
  }

  /** `[\+]?[1-9][\d]{0,15}` anchored at both ends. */
  ghost predicate PhonePattern(t: string) {
    exists k :: PhoneSplitAt(t, k)
  }

  /** The recogniser: skip a leading '+' if there is one, then one digit
      1-9 and up to fifteen more digits. */
  predicate PhoneShape(t: string) {
    var u := if |t| > 0 && t[0] == '+' then t[1..] else t;
    1 <= |u| <= 16 && '1' <= u[0] <= '9' && AllDigits(u[1..])
  }

  /** validate_phone */
  predicate ValidatePhone(phone: string) {
    var t := Stripped(phone);
    PhoneShape(t) || (|t| > 0 && t[|t| - 1] == '\n' && PhoneShape(t[..|t| - 1]))
  }

  /** The recogniser accepts exactly what the pattern matches: when the
      text starts with '+', leaving the optional '+' unmatched cannot work,
      because '+' is not in [1-9]. */
  /** validate_phone holds exactly when the pattern matches the text with
      spaces and dashes removed, or that text less one final newline. */
  lemma ValidatePhoneIff(p: string)
    ensures ValidatePhone(p) <==>
      var t := Stripped(p);
      || PhonePattern(t)
      || (|t| > 0 && t[|t| - 1] == '\n' && PhonePattern(t[..|t| - 1]))
  {
    var t := Stripped(p);
    PhoneShapeIsPattern(t);
    if |t| > 0 {
      PhoneShapeIsPattern(t[..|t| - 1]);
    }
  }

  lemma PhoneShapeIsPattern(t: string)
    ensures PhoneShape(t) <==> PhonePattern(t)
  {
    if PhoneShape(t) {
      if |t| > 0 && t[0] == '+' {
        assert t[2..] == t[1..][1..];
        assert PhoneSplitAt(t, 1);
      } else {
        assert PhoneSplitAt(t, 0);
      }
    }
    if PhonePattern(t) {
      var k :| PhoneSplitAt(t, k);
      if k == 1 {
        assert t[1..][1..] == t[2..];
      }
    }
  }

  lemma WithoutOne(x: char, c: char)
    ensures Without([x], c) == if x == c then [] else [x]
  {
    assert [x][1..] == [];
  }

  /** Removing `c` from a text with one more `c` in it. */
  lemma DropOwn(a: string, b: string, c: char)
    ensures Without(a + [c] + b, c) == Without(a + b, c)
  {
    WithoutConcat(a + [c], b, c);
    WithoutConcat(a, [c], c);
    WithoutOne(c, c);
    assert Without(a, c) + [] == Without(a, c);
    WithoutConcat(a, b, c);
  }

  /** Removing `c` keeps any other character where it was. */
  lemma KeepOther(a: string, x: char, b: string, c: char)
    requires x != c
    ensures Without(a + [x] + b, c) == Without(a, c) + [x] + Without(b, c)
  {
    WithoutConcat(a + [x], b, c);
    WithoutConcat(a, [x], c);
    WithoutOne(x, c);
  }

  lemma StrippedIgnoresSeparator(a: string, b: string, c: char)
    requires c == ' ' || c == '-'
    ensures Stripped(a + [c] + b) == Stripped(a + b)
  {
    if c == ' ' {
      DropOwn(a, b, ' ');
    } else {
      var a1, b1 := Without(a, ' '), Without(b, ' ');
      KeepOther(a, '-', b, ' ');
      DropOwn(a1, b1, '-');
      WithoutConcat(a, b, ' ');
    }
  }

  /** Spaces and '-' anywhere in the input make no difference. */
  lemma SeparatorIgnored(a: string, b: string, c: char)
    requires c == ' ' || c == '-'
    ensures ValidatePhone(a + [c] + b) == ValidatePhone(a + b)
  {
    StrippedIgnoresSeparator(a, b, c);
  }

  /** Number of ASCII digits in a text. */
  function DigitCount(t: string): nat {
    if t == [] then 0 else (if IsAsciiDigit(t[0]) then 1 else 0) + DigitCount(t[1..])
  }

  lemma {:induction false} DigitCountAllDigits(t: string)
    requires AllDigits(t)
    ensures DigitCount(t) == |t|
  {
    if t != [] {
      DigitCountAllDigits(t[1..]);
    }
  }

  lemma {:induction false} DigitCountConcat(a: string, b: string)
    ensures DigitCount(a + b) == DigitCount(a) + DigitCount(b)
  {
    if a != [] {
      assert (a + b)[0] == a[0] && (a + b)[1..] == a[1..] + b;
      DigitCountConcat(a[1..], b);
    } else {
      assert a + b == b;
    }
  }

  lemma PhoneShapeDigits(t: string)
    requires PhoneShape(t)
    ensures 1 <= DigitCount(t) <= 16
  {
    var u := if |t| > 0 && t[0] == '+' then t[1..] else t;
    assert AllDigits(u) by {
      assert forall i :: 1 <= i < |u| ==> u[i] == u[1..][i - 1];
    }
    DigitCountAllDigits(u);
    if u != t {
      assert t == ['+'] + u;
      DigitCountConcat(['+'], u);
    }
  }

  /** An accepted number has between 1 and 16 digits once separators are
      removed. */
  lemma AcceptedDigitCount(phone: string)
    requires ValidatePhone(phone)
    ensures 1 <= DigitCount(Stripped(phone)) <= 16
  {
    var t := Stripped(phone);
    if PhoneShape(t) {
      PhoneShapeDigits(t);
    } else {
      var t' := t[..|t| - 1];
      PhoneShapeDigits(t');
      assert t == t' + ['\n'];
      DigitCountConcat(t', ['\n']);
    }
  }

  /** As written, a trailing newline gets through here too. */
  lemma PhoneTrailingNewlineAccepted()
    ensures ValidatePhone("1\n") && '\n' in "1\n"
  {
    assert Without("1\n", ' ') == "1\n";
    assert Without("1\n", '-') == "1\n";
    assert Stripped("1\n") == "1\n";
    assert "1\n"[..1] == "1";
  }

  /** The evidently intended check, a full match of the stripped text, never
      accepts a newline. */
  lemma PhoneShapeRejectsNewline(t: string)
    requires PhoneShape(t)
    ensures '\n' !in t
  {
    var u := if |t| > 0 && t[0] == '+' then t[1..] else t;
    forall i | 0 <= i < |t| ensures t[i] != '\n' {
      if u != t {
        if 0 < i {
          assert t[i] == u[i - 1];
          if 1 < i {
            assert u[i - 1] == u[1..][i - 2];
          }
        }
      } else if 0 < i {
        assert t[i] == u[1..][i - 1];
      }
    }
  }

  /** The empty input, a lone '+' and a number starting with '0' are
      rejected (separators aside). */
  lemma RejectsEmptyPlusAndLeadingZero(phone: string)
    requires Stripped(phone) == "" || Stripped(phone) == "+" || (|Stripped(phone)| > 0 && Stripped(phone)[0] == '0')
    ensures !ValidatePhone(phone)
  {
    var t := Stripped(phone);
    if |t| > 1 {
      assert t[..|t| - 1][0] == '0';
    }
  }
}
