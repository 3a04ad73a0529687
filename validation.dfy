/** The two input validators of the complaint form,
    `is_valid_email` and `is_valid_mobile` (app.py:163-167).

    Each is one anchored `re.match`. The patterns use only character
    classes, single characters and `+`, so they are modelled by a small
    anchored matcher for exactly that fragment (`FullMatch`), and the
    lemmas at the end say in plain terms which strings each accepts.
    Character classes are the ASCII ones: `\w` is `[A-Za-z0-9_]`, `\d` is
    `[0-9]`. */
module Validation {
  import opened Text

  predicate IsDigit(c: char) { '0' <= c <= '9' }

  predicate IsWordChar(c: char)
  {
    'a' <= c <= 'z' || 'A' <= c <= 'Z' || IsDigit(c) || c == '_'
  }

  /** The character classes the two patterns use. */
  datatype CharClass =
    | Digit          // \d
    | Word           // \w
    | WordDotDash    // [\w\.-]
    | Literal(c: char)

  predicate InClass(k: CharClass, c: char)
  {
    match k
    case Digit => IsDigit(c)
    case Word => IsWordChar(c)
    case WordDotDash => IsWordChar(c) || c == '.' || c == '-'
    case Literal(x) => c == x
  }

  /** One element of a pattern: a class matched once, or one or more times
      (`+`). */
  datatype Term = Once(k: CharClass) | OneOrMore(k: CharClass)

  /** `p` matches the whole of `s`: the meaning of `^p$` under `re.match`. */
  predicate FullMatch(p: seq<Term>, s: string)
    decreases |s|
  {
    if p == [] then s == []
    else if s == [] then false
    else
      match p[0]
      case Once(k) => InClass(k, s[0]) && FullMatch(p[1..], s[1..])
      case OneOrMore(k) =>
        InClass(k, s[0]) && (FullMatch(p[1..], s[1..]) || FullMatch(p, s[1..]))
  }

  /** `^[\w\.-]+@[\w\.-]+\.\w+$` */
  const EMAIL_PATTERN: seq<Term> :=
    [OneOrMore(WordDotDash), Once(Literal('@')), OneOrMore(WordDotDash),
     Once(Literal('.')), OneOrMore(Word)]

  /** `^\d{10}$` */
  const MOBILE_PATTERN: seq<Term> := Repeat(Once(Digit), 10)

  /** `t{n}`: the term `t` written `n` times. */
  function Repeat(t: Term, n: nat): seq<Term>
  {
    if n == 0 then [] else [t] + Repeat(t, n - 1)
  }

  predicate IsValidEmail(email: string) { FullMatch(EMAIL_PATTERN, email) }

  predicate IsValidMobile(mobile: string) { FullMatch(MOBILE_PATTERN, mobile) }

  predicate AllIn(k: CharClass, s: string)
  {
    forall i :: 0 <= i < |s| ==> InClass(k, s[i])
  }

  // ---------------------------------------------------------------------
  // How each kind of term consumes input

  lemma OnceStep(k: CharClass, rest: seq<Term>, s: string)
    ensures FullMatch([Once(k)] + rest, s)
        <==> |s| > 0 && InClass(k, s[0]) && FullMatch(rest, s[1..])
  {
    assert ([Once(k)] + rest)[1..] == rest;
  }

  /** A `+` term that takes the first `n` characters. */
  lemma {:induction false} OneOrMoreIntro(k: CharClass, rest: seq<Term>, s: string, n: nat)
    requires 1 <= n <= |s| && AllIn(k, s[..n]) && FullMatch(rest, s[n..])
    ensures FullMatch([OneOrMore(k)] + rest, s)
    decreases n
  {
    var p := [OneOrMore(k)] + rest;
    assert p[0] == OneOrMore(k) && p[1..] == rest;
    assert s[..n][0] == s[0];
    if n == 1 {
      assert FullMatch(p[1..], s[1..]);
    } else {
      assert s[1..][..n - 1] == s[..n][1..];
      assert s[1..][n - 1..] == s[n..];
      OneOrMoreIntro(k, rest, s[1..], n - 1);
    }
  }

  /** Every match of a `+` term takes some non-empty prefix of the class. */
  lemma {:induction false} OneOrMoreElim(k: CharClass, rest: seq<Term>, s: string) returns (n: nat)
    requires FullMatch([OneOrMore(k)] + rest, s)
    ensures 1 <= n <= |s| && AllIn(k, s[..n]) && FullMatch(rest, s[n..])
    decreases |s|
  {
    var p := [OneOrMore(k)] + rest;
    assert p[0] == OneOrMore(k) && p[1..] == rest;
    if FullMatch(rest, s[1..]) {
      n := 1;
    } else {
      var m := OneOrMoreElim(k, rest, s[1..]);
      n := m + 1;
      assert s[..n] == [s[0]] + s[1..][..m];
      assert s[n..] == s[1..][m..];
    }
  }

  /** A `+` term at the end of a pattern takes the rest of the input. */
  lemma OneOrMoreLast(k: CharClass, s: string)
    ensures FullMatch([OneOrMore(k)], s) <==> |s| > 0 && AllIn(k, s)
  {
    var p: seq<Term> := [OneOrMore(k)];
    assert p == [OneOrMore(k)] + [];
    if FullMatch(p, s) {
      var n := OneOrMoreElim(k, [], s);
      assert s[..n] == s;
    }
    if |s| > 0 && AllIn(k, s) {
      assert s[..|s|] == s;
      OneOrMoreIntro(k, [], s, |s|);
    }
  }

  /** `n` single-class terms match exactly the strings of length `n` drawn
      from the class. */
  lemma {:induction false} RepeatMatch(k: CharClass, n: nat, s: string)
    ensures FullMatch(Repeat(Once(k), n), s) <==> |s| == n && AllIn(k, s)
    decreases n
  {
    if n > 0 {
      var q := Repeat(Once(k), n - 1);
      OnceStep(k, q, s);
      if s != [] {
        RepeatMatch(k, n - 1, s[1..]);
        assert AllIn(k, s) <==> InClass(k, s[0]) && AllIn(k, s[1..]) by {
          if InClass(k, s[0]) && AllIn(k, s[1..]) {
            forall i | 0 <= i < |s| ensures InClass(k, s[i]) {
              if i > 0 { assert s[i] == s[1..][i - 1]; }
            }
          }
        }
      }
    }
  }

  // ---------------------------------------------------------------------
  // is_valid_mobile

  /** `is_valid_mobile(s)` holds iff `s` is exactly ten ASCII digits. */
  lemma MobileIsTenDigits(s: string)
    ensures IsValidMobile(s) <==> |s| == 10 && forall i :: 0 <= i < |s| ==> IsDigit(s[i])
  {
    RepeatMatch(Digit, 10, s);
  }

  // ---------------------------------------------------------------------
  // is_valid_email

  /** The shape of an accepted address, stated character by character:
      exactly one `@`; a non-empty local part of word characters, `.` and
      `-`; a domain containing `.`; after the domain's last `.` a non-empty
      run of word characters; before it a non-empty run of word
      characters, `.` and `-`. */
  predicate EmailShape(s: string)
  {
    && multiset(s)['@'] == 1
    && '@' in s
    && |LocalPart(s)| > 0 && AllIn(WordDotDash, LocalPart(s))
    && DomainShape(DomainPart(s))
  }

  /** The text before the first `@`. */
  function LocalPart(s: string): string
    requires '@' in s
  {
    s[..IndexOf(s, '@')]
  }

  /** The text after the first `@`. */
  function DomainPart(s: string): string
    requires '@' in s
  {
    s[IndexOf(s, '@') + 1..]
  }

  predicate DomainShape(domain: string)
  {
    && '.' in domain
    && 0 < LastIndexOf(domain, '.') < |domain| - 1
    && AllIn(WordDotDash, domain[..LastIndexOf(domain, '.')])
    && AllIn(Word, domain[LastIndexOf(domain, '.') + 1..])
  }

  lemma NotInClass(k: CharClass, s: string, c: char)
    requires AllIn(k, s) && !InClass(k, c)
    ensures c !in s
  {
  }

  /** `[\w\.-]+\.\w+` matches a host run, a dot and a top-level run. */
  lemma DomainPartsMatch(host: string, tld: string)
    requires |host| > 0 && AllIn(WordDotDash, host)
    requires |tld| > 0 && AllIn(Word, tld)
    ensures FullMatch([OneOrMore(WordDotDash), Once(Literal('.')), OneOrMore(Word)], host + ['.'] + tld)
  {
    var r3: seq<Term> := [Once(Literal('.')), OneOrMore(Word)];
    OneOrMoreLast(Word, tld);
    assert r3 == [Once(Literal('.'))] + [OneOrMore(Word)];
    OnceStep(Literal('.'), [OneOrMore(Word)], ['.'] + tld);
    assert (['.'] + tld)[1..] == tld;
    var t2 := host + ['.'] + tld;
    assert t2[..|host|] == host && t2[|host|..] == ['.'] + tld;
    OneOrMoreIntro(WordDotDash, r3, t2, |host|);
    assert [OneOrMore(WordDotDash)] + r3 == [OneOrMore(WordDotDash), Once(Literal('.')), OneOrMore(Word)];
  }

  /** The three runs of the pattern, put together, match. */
  lemma EmailPartsMatch(local: string, host: string, tld: string)
    requires |local| > 0 && AllIn(WordDotDash, local)
    requires |host| > 0 && AllIn(WordDotDash, host)
    requires |tld| > 0 && AllIn(Word, tld)
    ensures IsValidEmail(local + ['@'] + host + ['.'] + tld)
  {
    var s := local + ['@'] + host + ['.'] + tld;
    var r2: seq<Term> := [OneOrMore(WordDotDash), Once(Literal('.')), OneOrMore(Word)];
    var r1: seq<Term> := [Once(Literal('@'))] + r2;
    assert EMAIL_PATTERN == [OneOrMore(WordDotDash)] + r1;
    var t2 := host + ['.'] + tld;
    DomainPartsMatch(host, tld);
    var t1 := ['@'] + t2;
    OnceStep(Literal('@'), r2, t1);
    assert t1[1..] == t2;
    assert s == local + t1;
    assert s[..|local|] == local && s[|local|..] == t1;
    OneOrMoreIntro(WordDotDash, r1, s, |local|);
  }

  /** Three such runs, put together, have the shape of an address. */
  lemma EmailPartsShape(local: string, host: string, tld: string)
    requires |local| > 0 && AllIn(WordDotDash, local)
    requires |host| > 0 && AllIn(WordDotDash, host)
    requires |tld| > 0 && AllIn(Word, tld)
    ensures EmailShape(local + ['@'] + host + ['.'] + tld)
  {
    var domain := host + ['.'] + tld;
    var s := local + ['@'] + domain;
    Regroup(local + ['@'] + host + ['.'] + tld, local, domain, host, tld);
    SingleAt(local, domain);
    assert LocalPart(s) == local && DomainPart(s) == domain;
    DomainParts(host, tld);
  }

  /** An `@` between two runs without `@` is the only one, and splits the
      address there. */
  lemma SingleAt(local: string, domain: string)
    requires '@' !in local && '@' !in domain
    ensures multiset(local + ['@'] + domain)['@'] == 1
    ensures '@' in local + ['@'] + domain
    ensures IndexOf(local + ['@'] + domain, '@') == |local|
    ensures LocalPart(local + ['@'] + domain) == local
    ensures DomainPart(local + ['@'] + domain) == domain
  {
    var s := local + ['@'] + domain;
    assert multiset(s) == multiset(local) + multiset(['@']) + multiset(domain);
    assert s[..|local|] == local && s[|local|] == '@';
    IndexOfIs(s, '@', |local|);
    assert s[|local| + 1..] == domain;
  }

  lemma DomainParts(host: string, tld: string)
    requires |host| > 0 && AllIn(WordDotDash, host)
    requires |tld| > 0 && AllIn(Word, tld)
    ensures '@' !in host + ['.'] + tld
    ensures DomainShape(host + ['.'] + tld)
  {
    var domain := host + ['.'] + tld;
    NotInClass(WordDotDash, host, '@');
    NotInClass(Word, tld, '@');
    NotInClass(Word, tld, '.');
    assert domain[|host|] == '.' && domain[|host| + 1..] == tld;
    LastIndexOfIs(domain, '.', |host|);
    assert domain[..|host|] == host;
  }

  /** What the pattern's tail `[\w\.-]+\.\w+` matches. */
  lemma DomainMatchParts(t: string) returns (host: string, tld: string)
    requires FullMatch([OneOrMore(WordDotDash), Once(Literal('.')), OneOrMore(Word)], t)
    ensures t == host + ['.'] + tld
    ensures |host| > 0 && AllIn(WordDotDash, host)
    ensures |tld| > 0 && AllIn(Word, tld)
  {
    var r3: seq<Term> := [Once(Literal('.')), OneOrMore(Word)];
    assert [OneOrMore(WordDotDash), Once(Literal('.')), OneOrMore(Word)] == [OneOrMore(WordDotDash)] + r3;
    var n := OneOrMoreElim(WordDotDash, r3, t);
    var rest := t[n..];
    assert r3 == [Once(Literal('.'))] + [OneOrMore(Word)];
    OnceStep(Literal('.'), [OneOrMore(Word)], rest);
    host, tld := t[..n], rest[1..];
    OneOrMoreLast(Word, tld);
    assert rest == ['.'] + tld;
    assert t == host + rest;
  }

  lemma EmailMatchHasShape(s: string)
    requires IsValidEmail(s)
    ensures EmailShape(s)
  {
    var r2: seq<Term> := [OneOrMore(WordDotDash), Once(Literal('.')), OneOrMore(Word)];
    var r1: seq<Term> := [Once(Literal('@'))] + r2;
    assert EMAIL_PATTERN == [OneOrMore(WordDotDash)] + r1;
    var n := OneOrMoreElim(WordDotDash, r1, s);
    var t := s[n..];
    OnceStep(Literal('@'), r2, t);
    var domain := t[1..];
    var host, tld := DomainMatchParts(domain);
    var local := s[..n];
    assert s == local + ['@'] + domain by {
      assert t == ['@'] + domain;
      assert s == local + t;
    }
    Regroup(s, local, domain, host, tld);
    EmailPartsShape(local, host, tld);
  }

  /** An address of that shape is its three runs joined by `@` and `.`. */
  lemma EmailShapeParts(s: string) returns (local: string, host: string, tld: string)
    requires EmailShape(s)
    ensures s == local + ['@'] + host + ['.'] + tld
    ensures |local| > 0 && AllIn(WordDotDash, local)
    ensures |host| > 0 && AllIn(WordDotDash, host)
    ensures |tld| > 0 && AllIn(Word, tld)
  {
    var at := IndexOf(s, '@');
    var domain := DomainPart(s);
    var dot := LastIndexOf(domain, '.');
    local, host, tld := LocalPart(s), domain[..dot], domain[dot + 1..];
    assert s == local + ['@'] + domain by {
      assert s == s[..at] + [s[at]] + s[at + 1..];
    }
    assert domain == host + ['.'] + tld by {
      assert domain == domain[..dot] + [domain[dot]] + domain[dot + 1..];
    }
    Regroup(s, local, domain, host, tld);
  }

  lemma Regroup(s: string, local: string, domain: string, host: string, tld: string)
    requires s == local + ['@'] + domain && domain == host + ['.'] + tld
    ensures s == local + ['@'] + host + ['.'] + tld
  {
  }

  lemma EmailShapeMatches(s: string)
    requires EmailShape(s)
    ensures IsValidEmail(s)
  {
    var local, host, tld := EmailShapeParts(s);
    EmailPartsMatch(local, host, tld);
  }

  /** `is_valid_email(s)` holds iff `s` has the shape `EmailShape`
      describes. */
  lemma EmailPatternMeaning(s: string)
    ensures IsValidEmail(s) <==> EmailShape(s)
  {
    if IsValidEmail(s) { EmailMatchHasShape(s); }
    if EmailShape(s) { EmailShapeMatches(s); }
  }

  /** An address without `@`, or whose text after the `@` has no `.`, is
      refused. */
  lemma EmailNeedsAtAndDot(s: string)
    requires '@' !in s || '.' !in s[IndexOf(s, '@') + 1..]
    ensures !IsValidEmail(s)
  {
    EmailPatternMeaning(s);
  }
}
