/** The JavaScript string primitives the spreadsheet parser relies on:
    `trim`, `toLowerCase`, `toUpperCase`, `includes` and `String(n)` for an
    integer. Case mapping is modelled on ASCII letters only. */
module JsText {

  /** JavaScript's WhiteSpace and LineTerminator characters: the set `trim`
      removes and the regular-expression class `\s` matches. */
  predicate IsWhitespace(c: char)
  {
    c == ' ' || c == '\t' || c == '\n' || c == '\r' || c == '\U{000B}' || c == '\U{000C}'
    || c == '\U{00A0}' || c == '\U{1680}' || ('\U{2000}' <= c <= '\U{200A}')
    || c == '\U{2028}' || c == '\U{2029}' || c == '\U{202F}' || c == '\U{205F}'
    || c == '\U{3000}' || c == '\U{FEFF}'
  }

  predicate AllWhitespace(s: string)
  {
    forall i :: 0 <= i < |s| ==> IsWhitespace(s[i])
  }

  function LowerChar(c: char): char
  {
    if 'A' <= c <= 'Z' then (c as int - 'A' as int + 'a' as int) as char else c
  }

  function UpperChar(c: char): char
  {
    if 'a' <= c <= 'z' then (c as int - 'a' as int + 'A' as int) as char else c
  }

  /** `s.toLowerCase()` */
  function Lower(s: string): string
  {
    seq(|s|, i requires 0 <= i < |s| => LowerChar(s[i]))
  }

  /** `s.toUpperCase()` */
  function Upper(s: string): string
  {
    seq(|s|, i requires 0 <= i < |s| => UpperChar(s[i]))
  }

  /** Number of leading whitespace characters. */
  function LeadingWhitespace(s: string): (n: nat)
    ensures n <= |s|
  {
    if s == [] || !IsWhitespace(s[0]) then 0 else 1 + LeadingWhitespace(s[1..])
  }

  /** The leading run is whitespace and is maximal. */
  lemma {:induction false} LeadingWhitespaceSpec(s: string)
    ensures var n := LeadingWhitespace(s);
      AllWhitespace(s[..n]) && (n < |s| ==> !IsWhitespace(s[n]))
  {
    if s != [] && IsWhitespace(s[0]) {
      LeadingWhitespaceSpec(s[1..]);
      var k := LeadingWhitespace(s[1..]);
      assert s[1..][..k] == s[1..k + 1];
    }
  }

  /** Length of `s` once its trailing whitespace is removed. */
  function TrailingCut(s: string): (n: nat)
    ensures n <= |s|
  {
    if s == [] || !IsWhitespace(s[|s| - 1]) then |s| else TrailingCut(s[..|s| - 1])
  }

  /** What follows the cut is whitespace, and the cut is as far left as it goes. */
  lemma {:induction false} TrailingCutSpec(s: string)
    ensures var n := TrailingCut(s);
      AllWhitespace(s[n..]) && (n > 0 ==> !IsWhitespace(s[n - 1]))
  {
    if s != [] && IsWhitespace(s[|s| - 1]) {
      TrailingCutSpec(s[..|s| - 1]);
      var k := TrailingCut(s[..|s| - 1]);
      assert s[..|s| - 1][k..] + [s[|s| - 1]] == s[k..];
    }
  }

  /** `s.trimStart()`, which is also what the regular expression `\s*` consumes. */
  function TrimStart(s: string): string
  {
    s[LeadingWhitespace(s)..]
  }

  /** `s.trim()` */
  function Trim(s: string): string
  {
    TrimStart(s[..TrailingCut(s)])
  }

  /** A string is trimmed when it neither starts nor ends with whitespace. */
  predicate IsTrimmed(s: string)
  {
    s == [] || (!IsWhitespace(s[0]) && !IsWhitespace(s[|s| - 1]))
  }

  /** `trim` removes exactly a whitespace prefix and a whitespace suffix and
      leaves a trimmed string; it is blank exactly when `s` is all whitespace. */
  lemma TrimSpec(s: string)
    ensures exists a, b :: 0 <= a <= b <= |s| && Trim(s) == s[a..b]
                           && AllWhitespace(s[..a]) && AllWhitespace(s[b..])
    ensures IsTrimmed(Trim(s))
    ensures Trim(s) == [] <==> AllWhitespace(s)
  {
    var b := TrailingCut(s);
    var t := s[..b];
    var a := LeadingWhitespace(t);
    TrailingCutSpec(s);
    LeadingWhitespaceSpec(t);
    assert Trim(s) == s[a..b];
    assert s[..a] == t[..a];
    if Trim(s) == [] {
      assert a == b;
      forall i | 0 <= i < |s| ensures IsWhitespace(s[i]) {
        if i < a { assert s[..a][i] == s[i]; } else { assert s[b..][i - b] == s[i]; }
      }
    } else {
      assert Trim(s)[0] == t[a];
      assert Trim(s)[|Trim(s)| - 1] == s[b - 1];
    }
  }

  /** Trimming a trimmed string changes nothing, so `trim` is idempotent. */
  lemma TrimOfTrimmed(s: string)
    requires IsTrimmed(s)
    ensures Trim(s) == s
  {
    TrailingCutSpec(s);
    LeadingWhitespaceSpec(s);
    assert s == [] || s[..TrailingCut(s)] == s;
  }

  lemma TrimIdempotent(s: string)
    ensures Trim(Trim(s)) == Trim(s)
  {
    TrimSpec(s);
    TrimOfTrimmed(Trim(s));
  }

  /** `sub` occurs in `s` at position `i`. */
  predicate OccursAt(s: string, sub: string, i: int)
  {
    0 <= i && i + |sub| <= |s| && s[i..i + |sub|] == sub
  }

  /** `s.includes(sub)` */
  function Contains(s: string, sub: string): bool
    decreases |s|
  {
    if |sub| <= |s| && s[..|sub|] == sub then true
    else if s == [] then false
    else Contains(s[1..], sub)
  }

  /** `Contains` is the substring test: it holds exactly when `sub` occurs
      in `s` at some position. */
  lemma {:induction false} ContainsSpec(s: string, sub: string)
    ensures Contains(s, sub) <==> exists i :: OccursAt(s, sub, i)
    decreases |s|
  {
    if |sub| <= |s| && s[..|sub|] == sub {
      assert OccursAt(s, sub, 0);
    } else if s == [] {
      assert forall i :: !OccursAt(s, sub, i);
    } else {
      ContainsSpec(s[1..], sub);
      forall i | 0 < i ensures OccursAt(s, sub, i) <==> OccursAt(s[1..], sub, i - 1) {
        if i + |sub| <= |s| {
          assert s[1..][i - 1..i - 1 + |sub|] == s[i..i + |sub|];
        }
      }
      assert !OccursAt(s, sub, 0);
      if Contains(s[1..], sub) {
        var i :| OccursAt(s[1..], sub, i);
        assert OccursAt(s, sub, i + 1);
      }
    }
  }

  lemma NotContainsByFirstChar(s: string, sub: string)
    requires |sub| > 0
    requires forall i :: 0 <= i <= |s| - |sub| ==> s[i] != sub[0]
    ensures !Contains(s, sub)
  {
    ContainsSpec(s, sub);
  }

  /** JavaScript's `length`: the number of UTF-16 code units, so a
      character beyond U+FFFF counts twice. */
  function Utf16Length(s: string): nat
  {
    if s == [] then 0 else (if s[0] as int >= 0x1_0000 then 2 else 1) + Utf16Length(s[1..])
  }

  /** A string of characters up to U+FFFF has as many code units as characters. */
  lemma {:induction false} Utf16LengthOfBmp(s: string)
    requires forall i :: 0 <= i < |s| ==> s[i] as int < 0x1_0000
    ensures Utf16Length(s) == |s|
  {
    if s != [] {
      Utf16LengthOfBmp(s[1..]);
    }
  }

  function DigitChar(d: nat): char
    requires d < 10
  {
    ('0' as int + d) as char
  }

  /** Decimal digits of a natural number, most significant first. */
  function NatDecimal(n: nat): (r: string)
    ensures |r| > 0 && forall i :: 0 <= i < |r| ==> '0' <= r[i] <= '9'
  {
    if n < 10 then [DigitChar(n)] else NatDecimal(n / 10) + [DigitChar(n % 10)]
  }

  /** `String(n)` for an integer `n`. */
  function IntDecimal(n: int): (r: string)
    ensures |r| > 0 && (r[0] == '-' <==> n < 0)
  {
    if n < 0 then "-" + NatDecimal(-n) else NatDecimal(n)
  }

  /** The value of a string of decimal digits. */
  function DecimalValue(s: string): int
  {
    if s == [] then 0 else DecimalValue(s[..|s| - 1]) * 10 + (s[|s| - 1] as int - '0' as int)
  }

  /** Reading the digits back gives the number, so `String(n)` is injective
      on naturals. */
  lemma {:induction false} NatDecimalRoundTrip(n: nat)
    ensures DecimalValue(NatDecimal(n)) == n
  {
    if n >= 10 {
      NatDecimalRoundTrip(n / 10);
      var r := NatDecimal(n / 10) + [DigitChar(n % 10)];
      assert r[..|r| - 1] == NatDecimal(n / 10);
    }
  }
}
