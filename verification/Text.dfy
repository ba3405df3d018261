/** Text handling as Rust's `str` methods do it, on sequences of characters. */
module Text {
  import opened Prelude

  // ---- whitespace and trimming ------------------------------------------

  /** The characters with Unicode's White_Space property. */
  predicate IsWhitespace(c: char) {
    var u := c as int;
    9 <= u <= 13 || u == 0x20 || u == 0x85 || u == 0xA0 || u == 0x1680 || 0x2000 <= u <= 0x200A ||
    u == 0x2028 || u == 0x2029 || u == 0x202F || u == 0x205F || u == 0x3000
  }

  predicate NoWhitespace(s: string) {
    forall i :: 0 <= i < |s| ==> !IsWhitespace(s[i])
  }

  function TrimStart(s: string): string {
    if s != "" && IsWhitespace(s[0]) then TrimStart(s[1..]) else s
  }

  function TrimEnd(s: string): (r: string)
    ensures r <= s
    ensures r != "" ==> !IsWhitespace(r[|r| - 1])
  {
    if s != "" && IsWhitespace(s[|s| - 1]) then TrimEnd(s[..|s| - 1]) else s
  }

  function Trim(s: string): string {
    TrimEnd(TrimStart(s))
  }

  /** A value that survives trimming: what `trim` can return, other than nothing. */
  predicate Trimmed(s: string) {
    s != "" && !IsWhitespace(s[0]) && !IsWhitespace(s[|s| - 1])
  }

  lemma {:induction false} TrimYieldsTrimmed(s: string)
    ensures Trim(s) == "" || Trimmed(Trim(s))
    ensures forall c :: c in Trim(s) ==> c in s
  {
    if s != "" && IsWhitespace(s[0]) {
      TrimYieldsTrimmed(s[1..]);
    } else {
      assert Trim(s) <= s;
    }
  }

  lemma {:induction false} TrimEndAfter(a: string, b: string)
    requires a != "" && !IsWhitespace(a[|a| - 1])
    ensures TrimEnd(a + b) == a + TrimEnd(b)
    decreases |b|
  {
    if b != "" && IsWhitespace(b[|b| - 1]) {
      assert (a + b)[..|a + b| - 1] == a + b[..|b| - 1];
      TrimEndAfter(a, b[..|b| - 1]);
    }
  }

  // ---- searching and splitting -------------------------------------------

  /** The first position of `c`, or the length when there is none. */
  function IndexOf(s: string, c: char): (i: nat)
    ensures i <= |s|
    ensures i < |s| ==> s[i] == c
    ensures c !in s[..i]
  {
    if s == "" || s[0] == c then 0
    else
      var j := IndexOf(s[1..], c);
      assert s[..j + 1] == [s[0]] + s[1..][..j];
      j + 1
  }

  lemma {:induction false} IndexOfIs(a: string, c: char, b: string)
    requires c !in a
    ensures IndexOf(a + [c] + b, c) == |a|
  {
    var s := a + [c] + b;
    assert s[|a|] == c;
    assert s[..|a|] == a;
  }

  /** `split_once`: around the first `c`. */
  function SplitOnce(s: string, c: char): Option<(string, string)> {
    var i := IndexOf(s, c);
    if i == |s| then None else Some((s[..i], s[i + 1..]))
  }

  lemma {:induction false} SplitOnceIs(a: string, c: char, b: string)
    requires c !in a
    ensures SplitOnce(a + [c] + b, c) == Some((a, b))
  {
    IndexOfIs(a, c, b);
    var s := a + [c] + b;
    assert s[..|a|] == a && s[|a| + 1..] == b;
  }

  /** `to_ascii_lowercase`. */
  function Lower(s: string): string {
    if s == "" then ""
    else [if 'A' <= s[0] <= 'Z' then (s[0] as int + 32) as char else s[0]] + Lower(s[1..])
  }

  function Replace(s: string, a: char, b: char): string {
    seq(|s|, i requires 0 <= i < |s| => if s[i] == a then b else s[i])
  }

  function StripCr(line: string): string {
    if line != "" && line[|line| - 1] == '\r' then line[..|line| - 1] else line
  }

  /** `str::lines`: terminators dropped, an unterminated last line kept as it is. */
  function Lines(s: string): seq<string>
    decreases |s|
  {
    if s == "" then []
    else
      var i := IndexOf(s, '\n');
      if i == |s| then [s] else [StripCr(s[..i])] + Lines(s[i + 1..])
  }

  lemma {:induction false} LinesSplit(a: string, b: string)
    requires '\n' !in a
    ensures Lines(a + "\n" + b) == [StripCr(a)] + Lines(b)
  {
    IndexOfIs(a, '\n', b);
    var s := a + "\n" + b;
    assert s[..|a|] == a && s[|a| + 1..] == b;
  }

  lemma {:induction false} LinesLast(a: string)
    requires '\n' !in a
    ensures Lines(a) == if a == "" then [] else [a]
  {
  }

  function Unlines(lines: seq<string>): string {
    if lines == [] then "" else lines[0] + "\n" + Unlines(lines[1..])
  }

  /** Lines written out read back as they were, when none holds a line break. */
  lemma {:induction false} LinesOfUnlines(lines: seq<string>)
    requires forall l :: l in lines ==> '\n' !in l && '\r' !in l
    ensures Lines(Unlines(lines)) == lines
  {
    if lines != [] {
      LinesOfUnlines(lines[1..]);
      LinesSplit(lines[0], Unlines(lines[1..]));
      assert StripCr(lines[0]) == lines[0];
    }
  }

  /** A carriage return before a line break is trimmed like other whitespace. */
  lemma {:induction false} TrimDropsCr(line: string)
    ensures Trim(StripCr(line)) == Trim(line)
    decreases |line|
  {
    if line != "" && line[|line| - 1] == '\r' {
      var rest := line[..|line| - 1];
      assert StripCr(line) == rest && IsWhitespace('\r');
      if IsWhitespace(line[0]) {
        assert Trim(line) == Trim(line[1..]);
        if rest == "" {
          assert line[1..] == "";
        } else {
          assert line[1..][..|line| - 2] == rest[1..];
          assert StripCr(line[1..]) == rest[1..];
          TrimDropsCr(line[1..]);
        }
      } else {
        assert TrimStart(line) == line && TrimStart(rest) == rest;
        assert TrimEnd(line) == TrimEnd(rest);
      }
    }
  }

  // ---- words ----------------------------------------------------------------

  /** `split_whitespace`, with `word` the part of the current word already read. */
  function Words(word: string, s: string): seq<string>
    decreases |s|
  {
    if s == "" then
      if word == "" then [] else [word]
    else if IsWhitespace(s[0]) then
      (if word == "" then [] else [word]) + Words("", s[1..])
    else
      Words(word + [s[0]], s[1..])
  }

  function SplitWhitespace(s: string): seq<string> {
    Words("", s)
  }

  lemma {:induction false} WordsAcross(word: string, a: string, b: string)
    ensures Words(word, a + " " + b) == Words(word, a) + Words("", b)
    decreases |a|
  {
    var s := a + " " + b;
    if a == "" {
      assert s[1..] == b;
    } else {
      assert s[0] == a[0] && s[1..] == a[1..] + " " + b;
      if IsWhitespace(a[0]) {
        WordsAcross("", a[1..], b);
      } else {
        WordsAcross(word + [a[0]], a[1..], b);
      }
    }
  }

  lemma {:induction false} WordsOfWord(word: string, a: string)
    requires NoWhitespace(a)
    ensures Words(word, a) == if word + a == "" then [] else [word + a]
    decreases |a|
  {
    if a == "" {
      assert word + a == word;
    } else {
      assert NoWhitespace(a[1..]);
      WordsOfWord(word + [a[0]], a[1..]);
      assert word + [a[0]] + a[1..] == word + a;
    }
  }

  function Join(parts: seq<string>): string {
    if parts == [] then ""
    else if |parts| == 1 then parts[0]
    else parts[0] + " " + Join(parts[1..])
  }

  lemma {:induction false} JoinHolds(parts: seq<string>, c: char)
    requires c != ' ' && forall p :: p in parts ==> c !in p
    ensures c !in Join(parts)
  {
    if |parts| > 1 {
      assert parts[0] in parts;
      JoinHolds(parts[1..], c);
    } else if |parts| == 1 {
      assert parts[0] in parts;
    }
  }

  function FlatWords(parts: seq<string>): seq<string> {
    if parts == [] then [] else SplitWhitespace(parts[0]) + FlatWords(parts[1..])
  }

  /** Splitting joined parts gives the words of each part in turn. */
  lemma {:induction false} SplitOfJoin(parts: seq<string>)
    ensures SplitWhitespace(Join(parts)) == FlatWords(parts)
  {
    if parts == [] {
    } else if |parts| == 1 {
      assert FlatWords(parts[1..]) == [];
    } else {
      SplitOfJoin(parts[1..]);
      WordsAcross("", parts[0], Join(parts[1..]));
    }
  }

  // ---- decimal numbers --------------------------------------------------------

  predicate IsDigit(c: char) {
    '0' <= c <= '9'
  }

  predicate AllDigits(s: string) {
    forall i :: 0 <= i < |s| ==> IsDigit(s[i])
  }

  function DigitChar(n: nat): (c: char)
    requires n < 10
    ensures IsDigit(c) && c as int == '0' as int + n
  {
    ('0' as int + n) as char
  }

  function Decimal(n: nat): (s: string)
    ensures s != "" && AllDigits(s)
  {
    if n < 10 then [DigitChar(n)] else Decimal(n / 10) + [DigitChar(n % 10)]
  }

  function DigitsValue(s: string): nat
    requires AllDigits(s)
  {
    if s == "" then 0
    else 10 * DigitsValue(s[..|s| - 1]) + (s[|s| - 1] as int - '0' as int)
  }

  /** `str::parse` for an unsigned integer no greater than `max`: an optional plus sign, then digits. */
  function ParseUnsigned(s: string, max: nat): Option<nat> {
    var digits := if s != "" && s[0] == '+' then s[1..] else s;
    if digits == "" || !AllDigits(digits) || DigitsValue(digits) > max then None
    else Some(DigitsValue(digits))
  }

  lemma {:induction false} DecimalValue(n: nat)
    ensures DigitsValue(Decimal(n)) == n
  {
    if n >= 10 {
      DecimalValue(n / 10);
      var s := Decimal(n);
      assert s[..|s| - 1] == Decimal(n / 10);
    } else {
      assert Decimal(n)[..0] == "";
    }
  }

  lemma {:induction false} ParseOfDecimal(n: nat, max: nat)
    requires n <= max
    ensures ParseUnsigned(Decimal(n), max) == Some(n)
  {
    DecimalValue(n);
    assert Decimal(n)[0] != '+' by { assert IsDigit(Decimal(n)[0]); }
  }

  /** A number is read back with or without a plus sign, unless it is too large. */
  lemma {:induction false} ParseUnsignedExactly(n: nat, max: nat)
    ensures ParseUnsigned(Decimal(n), max) == if n <= max then Some(n) else None
    ensures ParseUnsigned("+" + Decimal(n), max) == if n <= max then Some(n) else None
  {
    DecimalValue(n);
    assert Decimal(n)[0] != '+' by { assert IsDigit(Decimal(n)[0]); }
    assert ("+" + Decimal(n))[1..] == Decimal(n);
  }

  /** Nothing else is a number. */
  lemma {:induction false} OnlyDigitsParse(s: string, max: nat)
    ensures ParseUnsigned(s, max).Some? ==>
              && ParseUnsigned(s, max).value <= max && s != ""
              && forall i :: 0 <= i < |s| ==> IsDigit(s[i]) || (i == 0 && s[0] == '+' && |s| > 1)
  {
    if s != "" && s[0] == '+' {
      assert forall i :: 0 < i < |s| ==> s[i] == s[1..][i - 1];
    }
  }
}
