/**
 * The stamp file of self-refreshing boot media: what the init writes beside an
 * image and how it reads it back, also when the write was torn.
 */
module Stamp {
  import opened Prelude
  import opened Text

  /** What is at the stamp's path. `Garbled` is a file that is not UTF-8. */
  datatype StampFile = Missing | Text(text: string) | Garbled

  /** In pieces: the verifier takes a literal apart character by character, and this one is too long for it. */
  const HEADER := "# written by " + ("stormnetboot-init; " + ("the digest of " + ("the UKI in " + ESP_UKI)))
  const ESP_UKI := "EFI/BOOT/BOOTX64.EFI"
  const KEY := "pallet"

  /** The digest one line of a stamp declares. */
  function PalletOf(line: string): Option<string> {
    var l := Trim(line);
    if l == "" || l[0] == '#' then None
    else
      match SplitOnce(l, '=')
      case None => None
      case Some((key, value)) =>
        if Trim(key) == KEY && Trim(value) != "" then Some(Trim(value)) else None
  }

  function FirstPallet(lines: seq<string>): Option<string> {
    if lines == [] then None
    else
      var p := PalletOf(lines[0]);
      if p.Some? then p else FirstPallet(lines[1..])
  }

  function ReadPallet(text: string): Option<string> {
    FirstPallet(Lines(text))
  }

  function ReadStamp(f: StampFile): Option<string> {
    if f.Text? then ReadPallet(f.text) else None
  }

  /** The file written once the image is in place. */
  function StampText(wanted: string): string {
    HEADER + "\n" + KEY + "=" + wanted + "\n"
  }

  /** The init's reader: a loop over the lines that stops at the first digest. */
  method ReadPalletFile(f: StampFile) returns (found: Option<string>)
    ensures found == ReadStamp(f)
  {
    if !f.Text? {
      return None;
    }
    var lines := Lines(f.text);
    for i := 0 to |lines|
      invariant FirstPallet(lines) == FirstPallet(lines[i..])
    {
      var line := Trim(lines[i]);
      if line == "" || line[0] == '#' {
        continue;
      }
      var parts := SplitOnce(line, '=');
      if parts.Some? && Trim(parts.value.0) == KEY {
        var value := Trim(parts.value.1);
        if value != "" {
          return Some(value);
        }
      }
    }
    return None;
  }

  // ---- which texts declare a digest -------------------------------------------

  /** The line is no comment, its trimmed key is `pallet` and its trimmed value is this digest. */
  ghost predicate Declares(line: string, digest: string) {
    var l := Trim(line);
    && l != "" && l[0] != '#' && digest != ""
    && exists i :: 0 <= i < |l| && l[i] == '=' && '=' !in l[..i] && Trim(l[..i]) == "pallet" &&
                   Trim(l[i + 1..]) == digest
  }

  ghost predicate DeclaresNothing(line: string) {
    forall digest :: !Declares(line, digest)
  }

  lemma {:induction false} PalletOfExactly(line: string, digest: string)
    ensures PalletOf(line) == Some(digest) <==> Declares(line, digest)
  {
    var l := Trim(line);
    if i :| 0 <= i < |l| && l[i] == '=' && '=' !in l[..i] {
      assert l == l[..i] + ['='] + l[i + 1..];
      SplitOnceIs(l[..i], '=', l[i + 1..]);
    }
  }

  lemma {:induction false} PalletOfNothing(line: string)
    ensures PalletOf(line) == None <==> DeclaresNothing(line)
  {
    forall digest
      ensures PalletOf(line) == Some(digest) <==> Declares(line, digest)
    {
      PalletOfExactly(line, digest);
    }
  }

  /** The n-th line declares the digest and none before it declares any. */
  ghost predicate FirstDeclared(lines: seq<string>, n: nat, digest: string) {
    n < |lines| && Declares(lines[n], digest) && forall k :: 0 <= k < n ==> DeclaresNothing(lines[k])
  }

  ghost function FirstOf(lines: seq<string>, p: string -> Option<string>): Option<string> {
    if lines == [] then None else if p(lines[0]).Some? then p(lines[0]) else FirstOf(lines[1..], p)
  }

  ghost predicate FirstAt(lines: seq<string>, n: nat, digest: string, p: string -> Option<string>) {
    n < |lines| && p(lines[n]) == Some(digest) && forall k :: 0 <= k < n ==> p(lines[k]) == None
  }

  lemma {:induction false} FirstAtExactly(lines: seq<string>, digest: string, p: string -> Option<string>)
    ensures FirstOf(lines, p) == Some(digest) <==> exists n: nat :: FirstAt(lines, n, digest, p)
  {
    if lines != [] {
      FirstAtExactly(lines[1..], digest, p);
      if n: nat :| FirstAt(lines, n, digest, p) {
        assert n > 0 ==> FirstAt(lines[1..], n - 1, digest, p);
      }
      if FirstOf(lines, p) == Some(digest) {
        if p(lines[0]).Some? {
          assert FirstAt(lines, 0, digest, p);
        } else {
          var n: nat :| FirstAt(lines[1..], n, digest, p);
          assert FirstAt(lines, n + 1, digest, p);
        }
      }
    }
  }

  lemma {:induction false} FirstPalletIs(lines: seq<string>)
    ensures FirstPallet(lines) == FirstOf(lines, PalletOf)
  {
    if lines != [] {
      FirstPalletIs(lines[1..]);
    }
  }

  lemma {:induction false} FirstAtIsDeclared(lines: seq<string>, n: nat, digest: string)
    ensures FirstAt(lines, n, digest, PalletOf) <==> FirstDeclared(lines, n, digest)
  {
    if n < |lines| {
      PalletOfExactly(lines[n], digest);
      forall k | 0 <= k < n
        ensures PalletOf(lines[k]) == None <==> DeclaresNothing(lines[k])
      {
        PalletOfNothing(lines[k]);
      }
    }
  }

  /** For every text: a digest is read exactly when it is the first one any line declares. */
  lemma {:induction false} ReadIsFirstDeclared(text: string, digest: string)
    ensures ReadPallet(text) == Some(digest) <==> exists n: nat :: FirstDeclared(Lines(text), n, digest)
  {
    FirstPalletIs(Lines(text));
    FirstAtExactly(Lines(text), digest, PalletOf);
    forall n: nat
      ensures FirstAt(Lines(text), n, digest, PalletOf) <==> FirstDeclared(Lines(text), n, digest)
    {
      FirstAtIsDeclared(Lines(text), n, digest);
    }
  }

  lemma {:induction false} SilentLines(lines: seq<string>)
    requires forall line :: line in lines ==> DeclaresNothing(line)
    ensures FirstPallet(lines) == None
  {
    if lines != [] {
      assert lines[0] in lines;
      PalletOfNothing(lines[0]);
      SilentLines(lines[1..]);
    }
  }

  /** A text no line of which declares a digest reads as nothing. */
  lemma {:induction false} SilentTextReadsNothing(text: string)
    requires forall line :: line in Lines(text) ==> DeclaresNothing(line)
    ensures ReadPallet(text) == None
  {
    SilentLines(Lines(text));
  }

  lemma {:induction false} AfterSilentLines(before: seq<string>, text: string)
    requires forall line :: line in before ==> '\n' !in line && DeclaresNothing(line)
    ensures ReadPallet(Unlines(before) + text) == ReadPallet(text)
  {
    if before == [] {
      assert Unlines(before) + text == text;
    } else {
      var tail := Unlines(before[1..]) + text;
      assert Unlines(before) + text == before[0] + "\n" + tail;
      LinesSplit(before[0], tail);
      TrimDropsCr(before[0]);
      assert before[0] in before;
      PalletOfNothing(before[0]);
      assert ([StripCr(before[0])] + Lines(tail))[1..] == Lines(tail);
      AfterSilentLines(before[1..], text);
    }
  }

  lemma {:induction false} KeyIsPallet(digest: string)
    ensures "pallet=" + digest == KEY + "=" + digest
  {
  }

  lemma {:induction false} PalletLineIsRead(digest: string, rest: string)
    requires IsDigest(digest)
    ensures ReadPallet((KEY + "=" + digest) + "\n" + rest) == Some(digest)
  {
    var line := KEY + "=" + digest;
    assert '\n' !in line;
    LinesSplit(line, rest);
    assert line[|line| - 1] == digest[|digest| - 1];
    TornKeyLine(digest, digest);
    assert TrimEnd(digest) == digest;
  }

  /** A `pallet=` line after lines that declare nothing is read, whatever follows it. */
  lemma {:induction false} DeclaredDigestIsRead(before: seq<string>, digest: string, rest: string)
    requires IsDigest(digest)
    requires forall line :: line in before ==> '\n' !in line && DeclaresNothing(line)
    ensures ReadPallet(Unlines(before) + (("pallet=" + digest) + "\n" + rest)) == Some(digest)
  {
    KeyIsPallet(digest);
    AfterSilentLines(before, ("pallet=" + digest) + "\n" + rest);
    PalletLineIsRead(digest, rest);
  }

  /** Blank lines and comments are among the lines that declare nothing. */
  lemma {:induction false} BlanksAndCommentsAreSilent(line: string)
    requires Trim(line) == "" || Trim(line)[0] == '#'
    ensures DeclaresNothing(line)
  {
  }

  // ---- what a digest can look like ------------------------------------------

  predicate IsDigest(w: string) {
    Trimmed(w) && '\n' !in w
  }

  lemma {:induction false} LinesHoldNoNewline(text: string)
    ensures forall line :: line in Lines(text) ==> '\n' !in line
    decreases |text|
  {
    if text != "" {
      var i := IndexOf(text, '\n');
      if i < |text| {
        LinesHoldNoNewline(text[i + 1..]);
      }
    }
  }

  lemma {:induction false} PalletOfIsDigest(line: string)
    requires '\n' !in line
    ensures PalletOf(line).Some? ==> IsDigest(PalletOf(line).value)
  {
    var l := Trim(line);
    TrimYieldsTrimmed(line);
    if PalletOf(line).Some? {
      TrimYieldsTrimmed(SplitOnce(l, '=').value.1);
    }
  }

  lemma {:induction false} FirstPalletIsDigest(lines: seq<string>)
    requires forall line :: line in lines ==> '\n' !in line
    ensures FirstPallet(lines).Some? ==> IsDigest(FirstPallet(lines).value)
  {
    if lines != [] {
      PalletOfIsDigest(lines[0]);
      FirstPalletIsDigest(lines[1..]);
    }
  }

  /** Whatever a stamp or a golden's `media.conf` reads as is fit to be written to a stamp again. */
  lemma {:induction false} ReadYieldsDigest(f: StampFile)
    ensures ReadStamp(f).Some? ==> IsDigest(ReadStamp(f).value)
  {
    if f.Text? {
      LinesHoldNoNewline(f.text);
      FirstPalletIsDigest(Lines(f.text));
    }
  }

  // ---- reading back what was written -------------------------------------

  predicate IsComment(line: string) {
    line != "" && line[0] == '#' && '\n' !in line
  }

  lemma {:induction false} HeaderIsComment()
    ensures IsComment(HEADER)
  {
    assert "# written by "[0] == '#';
    assert '\n' !in "# written by " && '\n' !in "stormnetboot-init; " && '\n' !in "the digest of ";
    assert '\n' !in "the UKI in " && '\n' !in ESP_UKI;
  }

  lemma {:induction false} CommentDeclaresNothing(line: string)
    requires line == "" || IsComment(line)
    ensures PalletOf(line) == None
  {
    if line != "" {
      assert line == "#" + line[1..];
      TrimEndAfter("#", line[1..]);
    }
  }

  lemma {:induction false} TornKey(k: nat)
    requires k <= |KEY|
    ensures PalletOf(KEY[..k]) == None
  {
    assert '=' !in KEY[..k];
    TrimYieldsTrimmed(KEY[..k]);
    assert '=' !in Trim(KEY[..k]);
  }

  lemma {:induction false} TrimmedKeyLine(v: string)
    ensures Trim(KEY + "=" + v) == KEY + ['='] + TrimEnd(v)
  {
    var line := KEY + "=" + v;
    assert line[0] == KEY[0] == 'p';
    assert TrimStart(line) == line;
    TrimEndAfter(KEY + "=", v);
  }

  lemma {:induction false} PrefixIsTrimmed(v: string, w: string)
    requires Trimmed(w) && v <= w
    ensures Trim(TrimEnd(v)) == TrimEnd(v)
  {
    var value := TrimEnd(v);
    if value != "" {
      assert value[0] == w[0];
    }
    assert TrimStart(value) == value && TrimEnd(value) == value;
  }

  lemma {:induction false} KeyIsTrimmed()
    ensures Trim(KEY) == KEY && '=' !in KEY && KEY[0] != '#'
  {
    assert TrimStart(KEY) == KEY && TrimEnd(KEY) == KEY;
  }

  /** A key line with only the first part of its value. */
  lemma {:induction false} TornKeyLine(v: string, w: string)
    requires Trimmed(w) && v <= w
    ensures PalletOf(KEY + "=" + v) == if TrimEnd(v) == "" then None else Some(TrimEnd(v))
  {
    KeyIsTrimmed();
    TrimmedKeyLine(v);
    PrefixIsTrimmed(v, w);
    SplitOnceIs(KEY, '=', TrimEnd(v));
    assert (KEY + ['='] + TrimEnd(v))[0] == KEY[0];
  }

  lemma {:induction false} AfterComment(header: string, rest: string)
    requires IsComment(header)
    ensures ReadPallet(header + "\n" + rest) == ReadPallet(rest)
  {
    LinesSplit(header, rest);
    var line := StripCr(header);
    assert line == "" || IsComment(line);
    CommentDeclaresNothing(line);
    assert ([line] + Lines(rest))[1..] == Lines(rest);
  }

  lemma {:induction false} OneLine(line: string)
    requires '\n' !in line
    ensures ReadPallet(line) == PalletOf(line)
    ensures StripCr(line) == line ==> ReadPallet(line + "\n") == PalletOf(line)
  {
    LinesLast(line);
    LinesSplit(line, "");
    assert line + "\n" + "" == line + "\n";
    assert PalletOf("") == None;
    var one := [line];
    assert one[1..] == [];
    assert FirstPallet(one) == PalletOf(line);
  }

  /** Writing a digest and reading it back gives that digest. */
  lemma {:induction false} WholeStampReads(w: string)
    requires IsDigest(w)
    ensures ReadPallet(StampText(w)) == Some(w)
  {
    StampParts(w);
    HeaderIsComment();
    AfterComment(HEADER, (KEY + "=" + w) + "\n" + "");
    PalletLineIsRead(w, "");
  }

  lemma {:induction false} StampParts(w: string)
    ensures StampText(w) == HEADER + "\n" + ((KEY + "=" + w) + "\n" + "")
  {
  }

  /** What is written is a comment and the digest under the reader's key. */
  lemma {:induction false} StampIsAPalletLine(w: string)
    ensures IsComment(HEADER) && StampText(w) == HEADER + "\n" + (("pallet=" + w) + "\n")
  {
    HeaderIsComment();
    KeyIsPallet(w);
    assert StampText(w) == HEADER + "\n" + ((KEY + "=" + w) + "\n");
  }

  /** The second line cut off anywhere. */
  lemma {:induction false} TornSecondLine(w: string, n: nat)
    requires IsDigest(w) && n <= |KEY| + 1 + |w|
    ensures var r := ReadPallet((KEY + "=" + w)[..n]); r.None? || (r.value != "" && r.value <= w)
  {
    var part := (KEY + "=" + w)[..n];
    assert '\n' !in part;
    OneLine(part);
    if n <= |KEY| {
      assert part == KEY[..n];
      TornKey(n);
    } else {
      var v := w[..n - |KEY| - 1];
      assert part == KEY + "=" + v;
      TornKeyLine(v, w);
      assert TrimEnd(v) <= v <= w;
    }
  }

  lemma {:induction false} TornFirstLine(header: string, k: nat)
    requires IsComment(header) && k <= |header|
    ensures ReadPallet(header[..k]) == None
  {
    OneLine(header[..k]);
    CommentDeclaresNothing(header[..k]);
  }

  lemma {:induction false} CutOf(header: string, line: string, k: nat)
    requires k <= |header| + 1 + |line|
    ensures (header + "\n" + line + "\n")[..k] ==
            if k <= |header| then header[..k] else header + "\n" + line[..k - |header| - 1]
  {
  }

  /** A stamp cut off anywhere reads as nothing, or as a prefix of the digest being written. */
  lemma {:induction false} TornStampReads(w: string, k: nat)
    requires IsDigest(w) && k <= |StampText(w)|
    ensures var r := ReadPallet(StampText(w)[..k]); r.None? || (r.value != "" && r.value <= w)
  {
    var line := KEY + "=" + w;
    assert StampText(w) == HEADER + "\n" + line + "\n";
    if k == |StampText(w)| {
      assert StampText(w)[..k] == StampText(w);
      WholeStampReads(w);
    } else {
      HeaderIsComment();
      CutOf(HEADER, line, k);
      if k <= |HEADER| {
        TornFirstLine(HEADER, k);
      } else {
        TornSecondLine(w, k - |HEADER| - 1);
        AfterComment(HEADER, line[..k - |HEADER| - 1]);
      }
    }
  }
}
