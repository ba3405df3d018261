/**
 * Progress reports: JSON written by hand in the initramfs, read by the server.
 */
module Reports {
  import opened Prelude
  import opened Text
  import opened Macs
  import opened BootStates

  // ---- writing, in the initramfs --------------------------------------------------

  function EscapeChar(c: char): string {
    if c == '"' then "\\\""
    else if c == '\\' then "\\\\"
    else if c == '\n' then "\\n"
    else if c == '\r' then "\\r"
    else if c == '\t' then "\\t"
    else if c as int < 0x20 then " "
    else [c]
  }

  function Escape(s: string): string {
    if s == "" then "" else EscapeChar(s[0]) + Escape(s[1..])
  }

  lemma {:induction false} EscapeSnoc(s: string, c: char)
    ensures Escape(s + [c]) == Escape(s) + EscapeChar(c)
  {
    if s == "" {
      assert [c][1..] == "";
    } else {
      assert (s + [c])[1..] == s[1..] + [c];
      EscapeSnoc(s[1..], c);
    }
  }

  /** The escaper as the init runs it, pushing onto a string. */
  method EscapeText(s: string) returns (out: string)
    ensures out == Escape(s)
  {
    out := "";
    for i := 0 to |s|
      invariant out == Escape(s[..i])
    {
      var c := s[i];
      EscapeSnoc(s[..i], c);
      assert s[..i + 1] == s[..i] + [c];
      if c == '"' {
        out := out + "\\\"";
      } else if c == '\\' {
        out := out + "\\\\";
      } else if c == '\n' {
        out := out + "\\n";
      } else if c == '\r' {
        out := out + "\\r";
      } else if c == '\t' {
        out := out + "\\t";
      } else if c as int < 0x20 {
        out := out + " ";
      } else {
        out := out + [c];
      }
    }
    assert s[..|s|] == s;
  }

  function Member(name: string, value: string): string {
    "\"" + (name + ("\":\"" + (Escape(value) + "\"")))
  }

  function BuildBody(mac: string, phase: string, detail: Option<string>): string {
    "{" + (Member("mac", mac) + ("," + (Member("phase", phase) +
      (if detail.Some? then "," + (Member("detail", detail.value) + "}") else "}"))))
  }

  // ---- reading, by the rules of section 7 of RFC 8259 ---------------------------------

  function Unescape(c: char): Option<char> {
    if c == '"' || c == '\\' || c == '/' then Some(c)
    else if c == 'b' then Some(8 as char)
    else if c == 'f' then Some(12 as char)
    else if c == 'n' then Some('\n')
    else if c == 'r' then Some('\r')
    else if c == 't' then Some('\t')
    else None
  }

  /** The characters of a string up to its closing quote, and what follows it. A raw control character is an error. */
  function ReadChars(s: string): Option<(string, string)>
    decreases |s|
  {
    if s == "" || (s[0] as int) < 0x20 then None
    else if s[0] == '"' then Some(("", s[1..]))
    else if s[0] == '\\' then
      if |s| < 2 || Unescape(s[1]).None? then None else Push(Unescape(s[1]).value, ReadChars(s[2..]))
    else Push(s[0], ReadChars(s[1..]))
  }

  function Push(c: char, r: Option<(string, string)>): Option<(string, string)> {
    if r.None? then None else Some(([c] + r.value.0, r.value.1))
  }

  function ReadString(s: string): Option<(string, string)> {
    if s != "" && s[0] == '"' then ReadChars(s[1..]) else None
  }

  lemma {:induction false} ReadStringShortens(s: string)
    ensures ReadChars(s).Some? ==> |ReadChars(s).value.1| < |s|
    decreases |s|
  {
    if s != "" && (s[0] as int) >= 0x20 && s[0] != '"' {
      if s[0] != '\\' {
        ReadStringShortens(s[1..]);
      } else if |s| >= 2 {
        ReadStringShortens(s[2..]);
      }
    }
  }

  /** The members of an object of strings, after its opening brace. */
  function ReadMembers(s: string): Option<seq<(string, string)>>
    decreases |s|
  {
    match ReadString(s)
    case None => None
    case Some((name, afterName)) =>
      if afterName == "" || afterName[0] != ':' then None
      else
        match ReadString(afterName[1..])
        case None => None
        case Some((value, afterValue)) =>
          if afterValue == "}" then Some([(name, value)])
          else if afterValue == "" || afterValue[0] != ',' then None
          else
            ReadStringShortens(s[1..]);
            ReadStringShortens(afterName[1..][1..]);
            var rest := ReadMembers(afterValue[1..]);
            if rest.None? then None else Some([(name, value)] + rest.value)
  }

  function ReadObject(body: string): Option<seq<(string, string)>> {
    if body != "" && body[0] == '{' then ReadMembers(body[1..]) else None
  }

  // ---- what reading gives back ------------------------------------------------------------

  function SanitisedChar(c: char): char {
    if c as int < 0x20 && c != '\n' && c != '\r' && c != '\t' then ' ' else c
  }

  /** A text with the control characters JSON cannot carry raw, other than line breaks and tabs, turned into spaces. */
  function Sanitised(s: string): string {
    if s == "" then ""
    else [SanitisedChar(s[0])] + Sanitised(s[1..])
  }

  predicate NoControl(s: string) {
    forall i :: 0 <= i < |s| ==> s[i] as int >= 0x20
  }

  /** One escaped character reads back as itself, or as a space. */
  lemma {:induction false} ReadOfEscapedChar(c: char, tail: string)
    ensures ReadChars(EscapeChar(c) + tail) == Push(SanitisedChar(c), ReadChars(tail))
    ensures NoControl(EscapeChar(c))
  {
    var e := EscapeChar(c);
    assert (e + tail)[|e|..] == tail;
  }

  lemma {:induction false} Reassociate(a: string, b: string, c: string)
    ensures (a + b) + c == a + (b + c)
  {
  }

  lemma {:induction false} ReadOfEscape(s: string, rest: string)
    ensures ReadChars(Escape(s) + ("\"" + rest)) == Some((Sanitised(s), rest))
    ensures NoControl(Escape(s))
  {
    if s == "" {
      assert Escape(s) + ("\"" + rest) == "\"" + rest;
      assert ("\"" + rest)[1..] == rest;
    } else {
      ReadOfEscape(s[1..], rest);
      var tail := Escape(s[1..]) + ("\"" + rest);
      Reassociate(EscapeChar(s[0]), Escape(s[1..]), "\"" + rest);
      ReadOfEscapedChar(s[0], tail);
    }
  }

  lemma {:induction false} PlainText(s: string)
    requires forall i :: 0 <= i < |s| ==> s[i] != '"' && s[i] != '\\' && s[i] as int >= 0x20
    ensures Escape(s) == s && Sanitised(s) == s
  {
    if s != "" {
      PlainText(s[1..]);
      assert EscapeChar(s[0]) == [s[0]];
    }
  }

  /** A written member, taken apart from the left. */
  lemma {:induction false} MemberOpens(name: string, text: string, rest: string)
    ensures ("\"" + (name + ("\":\"" + (text + "\"")))) + rest ==
            "\"" + (name + ("\"" + (":" + ("\"" + (text + ("\"" + rest))))))
  {
    var tail := text + "\"";
    Reassociate("\"", name + ("\":\"" + tail), rest);
    Reassociate(name, "\":\"" + tail, rest);
    Reassociate("\":\"", tail, rest);
    Reassociate(text, "\"", rest);
    assert "\":\"" == "\"" + (":" + "\"");
    Reassociate("\"", ":" + "\"", tail + rest);
    Reassociate(":", "\"", tail + rest);
  }

  /** One member, read up to what follows its value. */
  lemma {:induction false} ReadOfMember(name: string, value: string, rest: string)
    requires forall i :: 0 <= i < |name| ==> name[i] != '"' && name[i] != '\\' && name[i] as int >= 0x20
    ensures var s := Member(name, value) + rest;
            && ReadString(s) == Some((name, ":" + ("\"" + (Escape(value) + ("\"" + rest)))))
            && ReadString("\"" + (Escape(value) + ("\"" + rest))) == Some((Sanitised(value), rest))
  {
    var quoted := "\"" + (Escape(value) + ("\"" + rest));
    var s := Member(name, value) + rest;
    MemberOpens(name, Escape(value), rest);
    assert s[1..] == name + ("\"" + (":" + quoted));
    PlainText(name);
    ReadOfEscape(name, ":" + quoted);
    assert quoted[1..] == Escape(value) + ("\"" + rest);
    ReadOfEscape(value, rest);
  }

  /** Reading members, when the first reads as a name and a value with something after it. */
  lemma {:induction false} ReadFirst(s: string, name: string, quoted: string, value: string, after: string)
    requires ReadString(s) == Some((name, ":" + quoted)) && ReadString(quoted) == Some((value, after))
    ensures after == "}" ==> ReadMembers(s) == Some([(name, value)])
    ensures after != "" && after[0] == ',' && ReadMembers(after[1..]).Some? ==>
              ReadMembers(s) == Some([(name, value)] + ReadMembers(after[1..]).value)
  {
    assert (":" + quoted)[1..] == quoted;
  }

  lemma {:induction false} ReadOfLastMember(name: string, value: string)
    requires forall i :: 0 <= i < |name| ==> name[i] != '"' && name[i] != '\\' && name[i] as int >= 0x20
    ensures ReadMembers(Member(name, value) + "}") == Some([(name, Sanitised(value))])
  {
    ReadOfMember(name, value, "}");
    ReadFirst(Member(name, value) + "}", name, "\"" + (Escape(value) + ("\"" + "}")), Sanitised(value), "}");
  }

  lemma {:induction false} ReadOfNextMember(name: string, value: string, rest: string)
    requires forall i :: 0 <= i < |name| ==> name[i] != '"' && name[i] != '\\' && name[i] as int >= 0x20
    requires ReadMembers(rest).Some?
    ensures ReadMembers(Member(name, value) + ("," + rest)) ==
            Some([(name, Sanitised(value))] + ReadMembers(rest).value)
  {
    ReadOfMember(name, value, "," + rest);
    assert ("," + rest)[1..] == rest;
    ReadFirst(Member(name, value) + ("," + rest), name, "\"" + (Escape(value) + ("\"" + ("," + rest))),
              Sanitised(value), "," + rest);
  }

  /** Reading the body by JSON's rules gives back what was reported, for all texts. */
  lemma {:induction false} ReadOfBody(mac: string, phase: string, detail: Option<string>)
    ensures ReadObject(BuildBody(mac, phase, detail)) ==
            Some([("mac", Sanitised(mac)), ("phase", Sanitised(phase))] +
                 if detail.Some? then [("detail", Sanitised(detail.value))] else [])
  {
    var body := BuildBody(mac, phase, detail);
    var last := if detail.Some? then "," + (Member("detail", detail.value) + "}") else "}";
    var second := Member("phase", phase) + last;
    assert body[1..] == Member("mac", mac) + ("," + second);
    if detail.Some? {
      ReadOfLastMember("detail", detail.value);
      ReadOfNextMember("phase", phase, Member("detail", detail.value) + "}");
    } else {
      ReadOfLastMember("phase", phase);
    }
    ReadOfNextMember("mac", mac, second);
    var tail := if detail.Some? then [("detail", Sanitised(detail.value))] else [];
    if detail.None? {
      assert [("phase", Sanitised(phase))] + tail == [("phase", Sanitised(phase))];
    }
    assert ReadMembers(second) == Some([("phase", Sanitised(phase))] + tail);
    assert [("mac", Sanitised(mac))] + ([("phase", Sanitised(phase))] + tail) ==
           [("mac", Sanitised(mac)), ("phase", Sanitised(phase))] + tail;
  }

  lemma {:induction false} MemberHasNoControl(name: string, value: string)
    requires NoControl(name)
    ensures NoControl(Member(name, value))
  {
    ReadOfEscape(value, "");
  }

  /** The body is one line: no raw control character gets through. */
  lemma {:induction false} BodyHasNoControl(mac: string, phase: string, detail: Option<string>)
    ensures NoControl(BuildBody(mac, phase, detail))
  {
    MemberHasNoControl("mac", mac);
    MemberHasNoControl("phase", phase);
    if detail.Some? {
      MemberHasNoControl("detail", detail.value);
    }
  }

  // ---- what the server makes of it ----------------------------------------------------------

  function ParsePhase(raw: string): Option<Phase> {
    PhaseNamed(Replace(Lower(Trim(raw)), '_', '-'))
  }

  function PhaseNamed(slug: string): Option<Phase> {
    if slug == "script-fetched" then Some(ScriptFetched)
    else if slug == "assets-fetched" then Some(AssetsFetched)
    else if slug == "root-attached" then Some(RootAttached)
    else if slug == "running" then Some(Running)
    else if slug == "assimilating" then Some(Assimilating)
    else if slug == "local" then Some(Local)
    else if slug == "failed" then Some(Failed)
    else None
  }

  function Field(members: seq<(string, string)>, name: string): Option<string> {
    if members == [] then None
    else if members[0].0 == name then Some(members[0].1)
    else Field(members[1..], name)
  }

  /** The observation a report leads to; None is a refused request. */
  function Received(body: string, now: nat): Option<Report> {
    match ReadObject(body)
    case None => None
    case Some(members) =>
      var mac, phase := Field(members, "mac"), Field(members, "phase");
      if mac.None? || phase.None? || Macs.Parse(mac.value).Err? || ParsePhase(phase.value).None? then None
      else Some(Observe(Macs.Parse(mac.value).value, ParsePhase(phase.value).value, Field(members, "detail"), now))
  }

  predicate IsSlugText(s: string) {
    s != "" && forall i :: 0 <= i < |s| ==> s[i] == '-' || 'a' <= s[i] <= 'z'
  }

  lemma {:induction false} SlugsAreSlugText(p: Phase)
    ensures IsSlugText(Slug(p))
  {
  }

  lemma {:induction false} LowerOfLower(s: string)
    requires forall i :: 0 <= i < |s| ==> !('A' <= s[i] <= 'Z')
    ensures Lower(s) == s
  {
    if s != "" {
      LowerOfLower(s[1..]);
    }
  }

  /** A slug reaches the server's match as it is. */
  lemma {:induction false} SlugTextIsFixed(s: string)
    requires IsSlugText(s)
    ensures Replace(Lower(Trim(s)), '_', '-') == s && Sanitised(s) == s
  {
    assert TrimStart(s) == s && TrimEnd(s) == s;
    LowerOfLower(s);
    PlainText(s);
    assert Replace(s, '_', '-') == s;
  }

  lemma {:induction false} SlugParses(p: Phase)
    ensures ParsePhase(Slug(p)) == Some(p)
  {
    SlugsAreSlugText(p);
    SlugTextIsFixed(Slug(p));
  }

  lemma {:induction false} PrintIsPlain(m: Mac)
    ensures Sanitised(Print(m)) == Print(m)
  {
    forall i | 0 <= i < 6
      ensures forall k :: 0 <= k < 2 ==> Hex2(m[i])[k] != '"' && Hex2(m[i])[k] != '\\' && Hex2(m[i])[k] as int >= 0x20
    {
    }
    PlainText(Print(m));
  }

  lemma {:induction false} FieldsOfReport(mac: string, phase: string, detail: Option<string>)
    ensures var members := [("mac", mac), ("phase", phase)] + if detail.Some? then [("detail", detail.value)] else [];
            Field(members, "mac") == Some(mac) && Field(members, "phase") == Some(phase)
              && Field(members, "detail") == detail
  {
    var members := [("mac", mac), ("phase", phase)] + if detail.Some? then [("detail", detail.value)] else [];
    assert "mac" != "phase" && "mac" != "detail" && "phase" != "detail" by {
      assert |"mac"| == 3 && |"phase"| == 5 && |"detail"| == 6;
    }
    assert members[1..][0] == ("phase", phase);
    assert Field(members[1..][1..], "detail") == detail by {
      assert members[1..][1..] == if detail.Some? then [("detail", detail.value)] else [];
    }
  }

  /** A phase text as the server compares it. */
  function Normalised(phase: string): string {
    Replace(Lower(Trim(phase)), '_', '-')
  }

  lemma {:induction false} NamedExactly(slug: string, p: Phase)
    ensures PhaseNamed(slug) == Some(p) <==> slug == Slug(p)
  {
    if slug == Slug(p) {
      SlugsAreSlugText(p);
      SlugTextIsFixed(slug);
      SlugParses(p);
    }
  }

  /**
   * From the initramfs to the tracker, for all texts: a report is recorded if and only if
   * its MAC is one and its phase, once normalised, is the slug of a phase, and then as
   * that phase of that machine with its detail.
   */
  lemma {:induction false} RecordedExactly(mac: string, phase: string, detail: Option<string>, now: nat)
    ensures var r := Received(BuildBody(mac, phase, detail), now);
            var parsed, named := Macs.Parse(Sanitised(mac)), Normalised(Sanitised(phase));
            && (r.Some? <==> parsed.Ok? && exists p :: named == Slug(p))
            && (forall p :: parsed.Ok? && named == Slug(p) ==>
                  r == Some(Observe(parsed.value, p,
                                    if detail.Some? then Some(Sanitised(detail.value)) else None, now)))
  {
    ReadOfBody(mac, phase, detail);
    FieldsOfReport(Sanitised(mac), Sanitised(phase), if detail.Some? then Some(Sanitised(detail.value)) else None);
    var named := Normalised(Sanitised(phase));
    forall p
      ensures PhaseNamed(named) == Some(p) <==> named == Slug(p)
    {
      NamedExactly(named, p);
    }
    if PhaseNamed(named).Some? {
      assert named == Slug(PhaseNamed(named).value);
    }
  }

  /** A report of a phase arrives as that phase of that machine. */
  lemma {:induction false} ReportArrives(m: Mac, p: Phase, detail: Option<string>, now: nat)
    ensures Received(BuildBody(Print(m), Slug(p), detail), now) ==
            Some(Observe(m, p, if detail.Some? then Some(Sanitised(detail.value)) else None, now))
  {
    RecordedExactly(Print(m), Slug(p), detail, now);
    PrintIsPlain(m);
    ParseOfPrint(m);
    SlugsAreSlugText(p);
    SlugTextIsFixed(Slug(p));
  }

  /** The init's report of rewritten boot media names no phase, so the server refuses it. */
  lemma {:induction false} MediaUpdatedIsRefused(mac: string, detail: Option<string>, now: nat)
    ensures Received(BuildBody(mac, "media-updated", detail), now) == None
  {
    MediaUpdatedIsNoPhase();
    SlugTextIsFixed("media-updated");
    RecordedExactly(mac, "media-updated", detail, now);
  }

  lemma {:induction false} MediaUpdatedIsNoPhase()
    ensures IsSlugText("media-updated") && forall p :: "media-updated" != Slug(p)
  {
    assert |"media-updated"| == 13 && "media-updated"[0] == 'm';
    forall p
      ensures "media-updated" != Slug(p)
    {
      assert p.RootAttached? ==> Slug(p)[0] == 'r';
    }
  }
}
