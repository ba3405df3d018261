/** MAC normalisation: every spelling of an address is one identity. */
module Macs {
  import opened Prelude
  import opened Text

  type Octet = x: nat | x < 256
  type Mac = m: seq<Octet> | |m| == 6 witness [0, 0, 0, 0, 0, 0]

  datatype MacParseError = WrongLength(found: nat) | NotHex(ch: char)

  predicate IsSeparator(c: char) {
    c == ':' || c == '-' || c == '.' || c == '_' || c == ' '
  }

  predicate IsHex(c: char) {
    '0' <= c <= '9' || 'a' <= c <= 'f' || 'A' <= c <= 'F'
  }

  function HexValue(c: char): (v: nat)
    requires IsHex(c)
    ensures v < 16
  {
    if '0' <= c <= '9' then c as int - '0' as int
    else if 'a' <= c <= 'f' then c as int - 'a' as int + 10
    else c as int - 'A' as int + 10
  }

  /** The spelling with its separators removed. */
  function Clean(s: string): string {
    if s == "" then ""
    else (if IsSeparator(s[0]) then "" else [s[0]]) + Clean(s[1..])
  }

  predicate AllHex(s: string) {
    forall i :: 0 <= i < |s| ==> IsHex(s[i])
  }

  function FirstNonHex(s: string): char
    requires !AllHex(s)
  {
    if !IsHex(s[0]) then s[0] else FirstNonHex(s[1..])
  }

  function Pair(digits: string, i: nat): Octet
    requires AllHex(digits) && 2 * i + 1 < |digits|
  {
    16 * HexValue(digits[2 * i]) + HexValue(digits[2 * i + 1])
  }

  function Octets(digits: string): (m: Mac)
    requires AllHex(digits) && |digits| == 12
    ensures forall k :: 0 <= k < 6 ==> m[k] == Pair(digits, k)
  {
    [Pair(digits, 0), Pair(digits, 1), Pair(digits, 2), Pair(digits, 3), Pair(digits, 4), Pair(digits, 5)]
  }

  function Parse(s: string): Result<Mac, MacParseError> {
    var digits := Clean(s);
    if !AllHex(digits) then Err(NotHex(FirstNonHex(digits)))
    else if |digits| != 12 then Err(WrongLength(|digits|))
    else Ok(Octets(digits))
  }

  lemma {:induction false} CleanSnoc(s: string, c: char)
    ensures Clean(s + [c]) == Clean(s) + if IsSeparator(c) then "" else [c]
  {
    if s != "" {
      assert (s + [c])[1..] == s[1..] + [c];
      CleanSnoc(s[1..], c);
    }
  }

  lemma {:induction false} FirstNonHexAfter(a: string, c: char, b: string)
    requires AllHex(a) && !IsHex(c)
    ensures (a + [c] + b)[|a|] == c
    ensures FirstNonHex(a + [c] + b) == c
  {
    if a != "" {
      assert (a + [c] + b)[1..] == a[1..] + [c] + b;
      FirstNonHexAfter(a[1..], c, b);
    }
  }

  lemma {:induction false} CleanAppend(a: string, b: string)
    ensures Clean(a + b) == Clean(a) + Clean(b)
  {
    if a == "" {
      assert a + b == b;
    } else {
      assert (a + b)[1..] == a[1..] + b;
      CleanAppend(a[1..], b);
    }
  }

  lemma {:induction false} StopsAt(s: string, i: nat)
    requires i < |s| && AllHex(Clean(s[..i])) && !IsSeparator(s[i]) && !IsHex(s[i])
    ensures Parse(s) == Err(NotHex(s[i]))
  {
    CleanSnoc(s[..i], s[i]);
    CleanAppend(s[..i] + [s[i]], s[i + 1..]);
    assert s == s[..i] + [s[i]] + s[i + 1..];
    FirstNonHexAfter(Clean(s[..i]), s[i], Clean(s[i + 1..]));
  }

  /** The parser as the server runs it: one pass filling twelve nibbles, counting every digit. */
  method ParseMac(input: string) returns (r: Result<Mac, MacParseError>)
    ensures r == Parse(input)
  {
    var nibbles := new nat[12](_ => 0);
    var seen := 0;
    for i := 0 to |input|
      invariant AllHex(Clean(input[..i])) && seen == |Clean(input[..i])|
      invariant forall k :: 0 <= k < seen && k < 12 ==> nibbles[k] == HexValue(Clean(input[..i])[k])
    {
      var ch := input[i];
      CleanSnoc(input[..i], ch);
      assert input[..i + 1] == input[..i] + [ch];
      if IsSeparator(ch) {
        continue;
      }
      if !IsHex(ch) {
        StopsAt(input, i);
        return Err(NotHex(ch));
      }
      if seen < 12 {
        nibbles[seen] := HexValue(ch);
      }
      seen := seen + 1;
    }
    assert input[..|input|] == input;
    if seen != 12 {
      return Err(WrongLength(seen));
    }
    var octets := new nat[6](_ => 0);
    for i := 0 to 6
      invariant forall k :: 0 <= k < 12 ==> nibbles[k] == HexValue(Clean(input)[k])
      invariant forall k :: 0 <= k < i ==> octets[k] == Pair(Clean(input), k)
    {
      octets[i] := 16 * nibbles[i * 2] + nibbles[i * 2 + 1];
    }
    return Ok([octets[0], octets[1], octets[2], octets[3], octets[4], octets[5]]);
  }

  function HexChar(n: nat): (c: char)
    requires n < 16
    ensures IsHex(c) && !IsSeparator(c) && HexValue(c) == n
  {
    if n < 10 then ('0' as int + n) as char else ('a' as int + n - 10) as char
  }

  function Hex2(o: Octet): string {
    [HexChar(o / 16), HexChar(o % 16)]
  }

  function Print(m: Mac): string {
    Hex2(m[0]) + ":" + Hex2(m[1]) + ":" + Hex2(m[2]) + ":" + Hex2(m[3]) + ":" + Hex2(m[4]) + ":" + Hex2(m[5])
  }

  /** The twelve digits of a MAC in print. */
  function Digits(m: Mac): string {
    seq(12, i requires 0 <= i < 12 => HexChar(if i % 2 == 0 then m[i / 2] / 16 else m[i / 2] % 16))
  }

  lemma {:induction false} DigitsOf(m: Mac)
    ensures AllHex(Digits(m))
    ensures Octets(Digits(m)) == m
  {
    forall k | 0 <= k < 6
      ensures Pair(Digits(m), k) == m[k]
    {
      assert Digits(m)[2 * k] == HexChar(m[k] / 16);
      assert Digits(m)[2 * k + 1] == HexChar(m[k] % 16);
    }
  }

  lemma {:induction false} CleanTwo(a: char, b: char)
    requires !IsSeparator(a) && !IsSeparator(b)
    ensures Clean([a, b]) == [a, b]
  {
    assert [a, b][1..] == [b] && [b][1..] == "";
    assert Clean([b]) == [b] + Clean("");
  }

  lemma {:induction false} CleanStep(p: string, o: Octet)
    ensures Clean(p + ":" + Hex2(o)) == Clean(p) + Hex2(o)
  {
    CleanSnoc(p, ':');
    CleanAppend(p + ":", Hex2(o));
    CleanTwo(HexChar(o / 16), HexChar(o % 16));
  }

  lemma {:induction false} CleanPrint(m: Mac)
    ensures Clean(Print(m)) == Digits(m)
  {
    CleanTwo(HexChar(m[0] / 16), HexChar(m[0] % 16));
    var p1 := Hex2(m[0]) + ":" + Hex2(m[1]);
    var p2 := p1 + ":" + Hex2(m[2]);
    var p3 := p2 + ":" + Hex2(m[3]);
    var p4 := p3 + ":" + Hex2(m[4]);
    CleanStep(Hex2(m[0]), m[1]);
    CleanStep(p1, m[2]);
    CleanStep(p2, m[3]);
    CleanStep(p3, m[4]);
    CleanStep(p4, m[5]);
    assert Clean(Print(m)) == Hex2(m[0]) + Hex2(m[1]) + Hex2(m[2]) + Hex2(m[3]) + Hex2(m[4]) + Hex2(m[5]);
    assert Hex2(m[0]) + Hex2(m[1]) + Hex2(m[2]) + Hex2(m[3]) + Hex2(m[4]) + Hex2(m[5]) == Digits(m);
  }

  /** Parsing inverts printing, for every address. */
  lemma {:induction false} ParseOfPrint(m: Mac)
    ensures Parse(Print(m)) == Ok(m)
  {
    CleanPrint(m);
    DigitsOf(m);
  }

  lemma {:induction false} PrintIsInjective(a: Mac, b: Mac)
    requires Print(a) == Print(b)
    ensures a == b
  {
    ParseOfPrint(a);
    ParseOfPrint(b);
  }

  // ---- which spellings name the same machine --------------------------------

  lemma {:induction false} LowerAt(s: string)
    requires AllHex(s)
    ensures |Lower(s)| == |s|
    ensures forall i :: 0 <= i < |s| ==> Lower(s)[i] == HexChar(HexValue(s[i]))
  {
    if s != "" {
      LowerAt(s[1..]);
    }
  }

  lemma {:induction false} PairParts(digits: string, k: nat)
    requires AllHex(digits) && 2 * k + 1 < |digits|
    ensures Pair(digits, k) / 16 == HexValue(digits[2 * k])
    ensures Pair(digits, k) % 16 == HexValue(digits[2 * k + 1])
  {
  }

  lemma {:induction false} DigitAt(s: string, k: nat)
    requires AllHex(s) && |s| == 12 && k < 6
    ensures Digits(Octets(s))[2 * k] == HexChar(HexValue(s[2 * k]))
    ensures Digits(Octets(s))[2 * k + 1] == HexChar(HexValue(s[2 * k + 1]))
  {
    PairParts(s, k);
    assert Octets(s)[k] == Pair(s, k);
  }

  /** Lowercased digits are what the address they denote prints as. */
  lemma {:induction false} LowerIsDigits(s: string)
    requires AllHex(s) && |s| == 12
    ensures Lower(s) == Digits(Octets(s))
  {
    LowerAt(s);
    forall i | 0 <= i < 12
      ensures Lower(s)[i] == Digits(Octets(s))[i]
    {
      DigitAt(s, i / 2);
      assert i == 2 * (i / 2) || i == 2 * (i / 2) + 1;
    }
  }

  /** Two accepted spellings name one machine exactly when they agree up to separators and case. */
  lemma {:induction false} SameMacIffSameDigits(s: string, t: string)
    requires Parse(s).Ok? && Parse(t).Ok?
    ensures Parse(s) == Parse(t) <==> Lower(Clean(s)) == Lower(Clean(t))
  {
    LowerIsDigits(Clean(s));
    LowerIsDigits(Clean(t));
    DigitsOf(Parse(s).value);
    DigitsOf(Parse(t).value);
  }

  /**
   * Accepted means exactly: twelve hex digits once separators are gone. Printing what was
   * read gives those digits, lowercased.
   */
  lemma {:induction false} AcceptedSpellings(s: string)
    ensures Parse(s).Ok? <==> |Clean(s)| == 12 && AllHex(Clean(s))
    ensures Parse(s).Ok? ==> Clean(Print(Parse(s).value)) == Lower(Clean(s))
  {
    if Parse(s).Ok? {
      CleanPrint(Parse(s).value);
      LowerIsDigits(Clean(s));
    }
  }

  // ---- every separator, and the errors -----------------------------------------

  /** What may stand between digits. */
  predicate MaySeparate(c: char) {
    c in {':', '-', '.', '_', ' '}
  }

  predicate IsFine(c: char) {
    MaySeparate(c) || '0' <= c <= '9' || 'a' <= c <= 'f' || 'A' <= c <= 'F'
  }

  lemma {:induction false} CleanOfFine(s: string)
    requires forall i :: 0 <= i < |s| ==> IsFine(s[i])
    ensures AllHex(Clean(s))
  {
    if s != "" {
      CleanOfFine(s[1..]);
    }
  }

  /** The first character that is neither a digit nor a separator is what a refusal names. */
  lemma {:induction false} FirstBadCharacterIsNamed(s: string, i: nat)
    requires i < |s| && !IsFine(s[i]) && forall j :: 0 <= j < i ==> IsFine(s[j])
    ensures Parse(s) == Err(NotHex(s[i]))
  {
    CleanOfFine(s[..i]);
    StopsAt(s, i);
  }

  /** Without one, it is the number of digits. */
  lemma {:induction false} DigitCountIsNamed(s: string)
    requires forall i :: 0 <= i < |s| ==> IsFine(s[i])
    ensures var n := |Clean(s)|; if n == 12 then Parse(s).Ok? else Parse(s) == Err(WrongLength(n))
  {
    CleanOfFine(s);
  }

  lemma {:induction false} CleanIgnoresSeparator(s: string, a: char, b: char)
    requires MaySeparate(a) && MaySeparate(b)
    ensures Clean(Replace(s, a, b)) == Clean(s)
  {
    if s != "" {
      var t := Replace(s, a, b);
      assert t[1..] == Replace(s[1..], a, b);
      CleanIgnoresSeparator(s[1..], a, b);
    }
  }

  /** Every address reads back from its print with any of the separators in place of the colons. */
  lemma {:induction false} AnySeparatorReads(m: Mac, separator: char)
    requires MaySeparate(separator)
    ensures Parse(Replace(Print(m), ':', separator)) == Ok(m)
  {
    CleanIgnoresSeparator(Print(m), ':', separator);
    ParseOfPrint(m);
  }

  // ---- the derived order -----------------------------------------------------

  /** The lexicographic order on octets. */
  predicate Less(a: seq<Octet>, b: seq<Octet>)
    requires |a| == |b|
  {
    a != [] && (a[0] < b[0] || (a[0] == b[0] && Less(a[1..], b[1..])))
  }

  /** One address before another: the first octet in which they differ is the smaller. */
  lemma {:induction false} LessExactly(a: seq<Octet>, b: seq<Octet>)
    requires |a| == |b|
    ensures Less(a, b) <==> exists n :: 0 <= n < |a| && a[..n] == b[..n] && a[n] < b[n]
  {
    if a != [] {
      LessExactly(a[1..], b[1..]);
      if n :| 0 <= n < |a| && a[..n] == b[..n] && a[n] < b[n] {
        if n > 0 {
          assert a[0] == a[..n][0] == b[..n][0] == b[0];
          assert a[1..][..n - 1] == a[..n][1..] == b[..n][1..] == b[1..][..n - 1];
          assert a[1..][n - 1] < b[1..][n - 1];
        }
      }
      if Less(a, b) {
        if a[0] < b[0] {
          assert a[..0] == b[..0];
        } else {
          var n :| 0 <= n < |a| - 1 && a[1..][..n] == b[1..][..n] && a[1..][n] < b[1..][n];
          assert a[..n + 1] == [a[0]] + a[1..][..n] == b[..n + 1];
        }
      }
    }
  }

  lemma {:induction false} LessIsTotal(a: seq<Octet>, b: seq<Octet>)
    requires |a| == |b|
    ensures Less(a, b) || a == b || Less(b, a)
    ensures !(Less(a, b) && Less(b, a))
    ensures !Less(a, a)
  {
    if a != [] {
      LessIsTotal(a[1..], b[1..]);
      if a[0] == b[0] && a[1..] == b[1..] {
        assert a == [a[0]] + a[1..] == b;
      }
    }
  }

  lemma {:induction false} LessIsTransitive(a: seq<Octet>, b: seq<Octet>, c: seq<Octet>)
    requires |a| == |b| == |c| && Less(a, b) && Less(b, c)
    ensures Less(a, c)
  {
    if a[0] == b[0] == c[0] {
      LessIsTransitive(a[1..], b[1..], c[1..]);
    }
  }
}
