// adaptation.py: the text of a capsule file, how it is printed and how it is read back. Line ends are
// taken after the translation that reading a text file performs.
module Capsule {
  import Utf8
  import opened Wrappers

  // ---------------------------------------------------------------- whitespace and lines

  /** What Python's `str.split()` and `strip()` treat as whitespace. */
  predicate IsSpace(c: char)
  {
    var n := c as int;
    9 <= n <= 13 || 28 <= n <= 32 || n == 0x85 || n == 0xA0 || n == 0x1680 || 0x2000 <= n <= 0x200A
    || n == 0x2028 || n == 0x2029 || n == 0x202F || n == 0x205F || n == 0x3000
  }

  /** Where Python's `splitlines()` breaks a text. */
  predicate IsBreak(c: char)
  {
    var n := c as int;
    10 <= n <= 13 || 28 <= n <= 30 || n == 0x85 || n == 0x2028 || n == 0x2029
  }

  predicate IsNewline(c: char)
  {
    c == '\n'
  }

  predicate IsColon(c: char)
  {
    c == ':'
  }

  predicate OneLine(s: string)
  {
    forall i :: 0 <= i < |s| ==> !IsBreak(s[i])
  }

  predicate Trimmed(s: string)
  {
    s == "" || (!IsSpace(s[0]) && !IsSpace(s[|s| - 1]))
  }

  /** Words joined by single blanks. */
  predicate Normal(s: string)
  {
    && s != "" && Trimmed(s)
    && (forall i :: 0 <= i < |s| && IsSpace(s[i]) ==> s[i] == ' ')
    && (forall i :: 0 <= i < |s| - 1 && IsSpace(s[i]) ==> !IsSpace(s[i + 1]))
  }

  function StripLeft(s: string): string
  {
    if s != "" && IsSpace(s[0]) then StripLeft(s[1..]) else s
  }

  function StripRight(s: string): string
  {
    if s != "" && IsSpace(s[|s| - 1]) then StripRight(s[..|s| - 1]) else s
  }

  function Strip(s: string): string
  {
    StripRight(StripLeft(s))
  }

  /** `" ".join(value.split())`, one character at a time; `pending` says a word has ended. */
  function Collapse(s: string, started: bool, pending: bool): string
  {
    if s == "" then ""
    else if IsSpace(s[0]) then Collapse(s[1..], started, started)
    else (if pending then [' ', s[0]] else [s[0]]) + Collapse(s[1..], true, false)
  }

  const LINE_MAX := 16000

  function Line(value: string): Option<string>
  {
    var line := Collapse(value, false, false);
    if line == "" || |line| > LINE_MAX then None else Some(line)
  }

  /** Blanks in the collapsed rest of a text: only single ones, none at the end, one in front if pending. */
  predicate CollapsedRest(s: string, pending: bool)
  {
    && (forall i :: 0 <= i < |s| && IsSpace(s[i]) ==> s[i] == ' ')
    && (forall i :: 0 <= i < |s| - 1 && IsSpace(s[i]) ==> !IsSpace(s[i + 1]))
    && (s != "" ==> !IsSpace(s[|s| - 1]) && (IsSpace(s[0]) <==> pending))
  }

  lemma {:induction false} CollapseCollapses(s: string, started: bool, pending: bool)
    requires pending ==> started
    ensures CollapsedRest(Collapse(s, started, pending), pending)
      || (CollapsedRest(Collapse(s, started, pending), true) && started)
  {
    if s != "" {
      if IsSpace(s[0]) {
        CollapseCollapses(s[1..], started, started);
      } else {
        CollapseCollapses(s[1..], true, false);
      }
    }
  }

  lemma {:induction false} CollapseFixes(s: string)
    requires forall i :: 0 <= i < |s| && IsSpace(s[i]) ==> s[i] == ' '
    requires forall i :: 0 <= i < |s| - 1 && IsSpace(s[i]) ==> !IsSpace(s[i + 1])
    requires s != "" ==> !IsSpace(s[|s| - 1])
    ensures Collapse(s, true, false) == s
    decreases |s|
  {
    if s != "" {
      if IsSpace(s[0]) {
        assert s[1..][0] == s[1] && s[1..][1..] == s[2..];
        CollapseFixes(s[2..]);
        assert s == [' ', s[1]] + s[2..];
      } else {
        CollapseFixes(s[1..]);
        assert s == [s[0]] + s[1..];
      }
    }
  }

  /** What `_line` returns is normal, and it changes nothing that is normal already. */
  lemma {:induction false} LineNormalizes(value: string)
    ensures Line(value).Some? ==> Normal(Line(value).value) && Line(Line(value).value) == Line(value)
    ensures Normal(value) && |value| <= LINE_MAX ==> Line(value) == Some(value)
  {
    CollapseCollapses(value, false, false);
    NormalCollapses(Collapse(value, false, false));
    NormalCollapses(value);
  }

  lemma {:induction false} NormalCollapses(s: string)
    ensures Normal(s) ==> Collapse(s, false, false) == s
  {
    if Normal(s) {
      CollapseFixes(s[1..]);
      assert s == [s[0]] + s[1..];
    }
  }

  lemma {:induction false} NormalIsOneLine(s: string)
    requires Normal(s)
    ensures OneLine(s) && Strip(s) == s
  {
    assert StripLeft(s) == s;
  }

  // ---------------------------------------------------------------- printing

  datatype Capsule = Capsule(
    id: string, status: string, scope: string, created: string, updated: string,
    triggers: seq<string>, title: string, rule: string, verification: string)

  function TriggerLines(triggers: seq<string>): seq<string>
  {
    if triggers == [] then [] else ["- " + triggers[0]] + TriggerLines(triggers[1..])
  }

  function FieldLines(fields: seq<(string, string)>): seq<string>
  {
    if fields == [] then [] else [fields[0].0 + ": " + fields[0].1] + FieldLines(fields[1..])
  }

  function HeaderLines(c: Capsule): seq<string>
  {
    FieldLines([("id", c.id), ("status", c.status), ("scope", c.scope), ("created", c.created), ("updated", c.updated)])
    + ["triggers:"] + TriggerLines(c.triggers)
  }

  function JoinLines(lines: seq<string>): string
  {
    if lines == [] then "" else if |lines| == 1 then lines[0] else lines[0] + "\n" + JoinLines(lines[1..])
  }

  function Body(title: string, rule: string, verification: string): string
  {
    "\n# " + title + "\n\n## Rule\n\n" + rule + "\n\n## Verification\n\n" + verification + "\n"
  }

  const OPEN := "---\n"
  const CLOSE := "\n---\n"

  function Print(c: Capsule): string
  {
    OPEN + JoinLines(HeaderLines(c)) + CLOSE + Body(c.title, c.rule, c.verification)
  }

  // ---------------------------------------------------------------- reading

  /** The first place where `needle` stands in a text. */
  function Find(needle: string, s: string): (at: Option<nat>)
    ensures at.Some? ==> at.value <= |s|
  {
    if needle <= s then Some(0)
    else if s == "" then None
    else
      var rest := Find(needle, s[1..]);
      if rest.None? then None else Some(rest.value + 1)
  }

  /** The length of the first line of a text. */
  function LineLength(s: string, isEnd: char -> bool): (n: nat)
    ensures n <= |s|
  {
    if s == "" || isEnd(s[0]) then 0 else 1 + LineLength(s[1..], isEnd)
  }

  function SplitLines(s: string): seq<string>
    decreases |s|
  {
    if s == "" then []
    else
      var n := LineLength(s, IsBreak);
      if n == |s| then [s] else [s[..n]] + SplitLines(s[n + 1..])
  }

  datatype Metadata = Metadata(fields: map<string, string>, triggers: seq<string>)

  function ReadLine(m: Metadata, line: string): Metadata
  {
    if "- " <= line then m.(triggers := m.triggers + [line[2..]])
    else
      var n := LineLength(line, IsColon);
      if n == |line| || line[..n] == "triggers" then m
      else m.(fields := m.fields[line[..n] := Strip(line[n + 1..])])
  }

  function ReadLines(m: Metadata, lines: seq<string>): Metadata
    decreases |lines|
  {
    if lines == [] then m else ReadLines(ReadLine(m, lines[0]), lines[1..])
  }

  method ReadHeader(lines: seq<string>) returns (m: Metadata)
    ensures m == ReadLines(Metadata(map[], []), lines)
  {
    m := Metadata(map[], []);
    for i := 0 to |lines|
      invariant ReadLines(Metadata(map[], []), lines) == ReadLines(m, lines[i..])
    {
      assert lines[i..][0] == lines[i] && lines[i..][1..] == lines[i + 1..];
      var line := lines[i];
      if "- " <= line {
        m := m.(triggers := m.triggers + [line[2..]]);
      } else {
        var n := LineLength(line, IsColon);
        if n < |line| && line[..n] != "triggers" {
          m := m.(fields := m.fields[line[..n] := Strip(line[n + 1..])]);
        }
      }
    }
  }

  /** The pattern for the title: a line that starts with `# ` and goes on. */
  function FindTitle(s: string, atStart: bool): Option<string>
  {
    if s == "" then None
    else if atStart && "# " <= s && LineLength(s, IsNewline) >= 3 then Some(s[2..LineLength(s, IsNewline)])
    else FindTitle(s[1..], s[0] == '\n')
  }

  function BlankLength(s: string): (n: nat)
    ensures n <= |s|
  {
    if s == "" || !IsSpace(s[0]) then 0 else 1 + BlankLength(s[1..])
  }

  /** Whitespace up to a newline and then some text: the longest whitespace that leaves any. */
  function TextAfterBlank(s: string, p: nat): Option<string>
    requires p <= BlankLength(s)
  {
    if p == 0 then None
    else if s[p - 1] == '\n' && p < |s| then Some(s[p..])
    else TextAfterBlank(s, p - 1)
  }

  const RULE := "## Rule"
  const VERIFICATION := "\n## Verification"

  datatype Sections = Sections(rule: string, verification: string)

  /** The shortest rule text that a verification section follows. */
  function UpToVerification(rule: string, s: string): Option<Sections>
    decreases |s|
  {
    var rest := if VERIFICATION <= s then s[|VERIFICATION|..] else "";
    var verification := TextAfterBlank(rest, BlankLength(rest));
    if VERIFICATION <= s && verification.Some? then Some(Sections(rule, verification.value))
    else if s == "" then None
    else UpToVerification(rule + [s[0]], s[1..])
  }

  /** After the heading: whitespace up to a newline, the longest first, and then the sections. */
  function AfterHeading(s: string, p: nat): Option<Sections>
    requires p <= BlankLength(s)
  {
    if p == 0 then None
    else
      var sections := if s[p - 1] == '\n' then UpToVerification("", s[p..]) else None;
      if sections.Some? then sections else AfterHeading(s, p - 1)
  }

  /** The pattern for the two sections, at the first heading from which it fits. */
  function FindSections(s: string): Option<Sections>
    decreases |s|
  {
    var rest := if RULE <= s then s[|RULE|..] else "";
    var sections := AfterHeading(rest, BlankLength(rest));
    if RULE <= s && sections.Some? then sections
    else if s == "" then None
    else FindSections(s[1..])
  }

  predicate IsId(id: string)
  {
    && 2 <= |id| <= 64 && id[0] != '-'
    && forall i :: 0 <= i < |id| ==> 'a' <= id[i] <= 'z' || '0' <= id[i] <= '9' || id[i] == '-'
  }

  predicate IsScope(scope: string)
  {
    scope in ["global", "cao", "project", "task"]
  }

  function Field(m: Metadata, key: string): string
  {
    if key in m.fields then m.fields[key] else ""
  }

  const SIZE_MAX := 128000

  function Utf8Size(s: string): nat
  {
    |Utf8.Encode(s)|
  }

  /** Reading the capsule file of the name `stem`; absent fields read as empty. */
  function Read(stem: string, text: string): Option<Capsule>
  {
    if Utf8Size(text) > SIZE_MAX || !(OPEN <= text) then None
    else
      var end := Find(CLOSE, text[|OPEN|..]);
      if end.None? then None else ReadParts(stem, text[|OPEN|..], end.value)
  }

  function ReadParts(stem: string, s: string, end: nat): Option<Capsule>
    requires end <= |s|
  {
    var m := ReadLines(Metadata(map[], []), SplitLines(s[..end]));
    var body := if end + |CLOSE| <= |s| then s[end + |CLOSE|..] else "";
    var title, sections := FindTitle(body, true), FindSections(body);
    if !IsId(Field(m, "id")) || Field(m, "id") != stem || !IsScope(Field(m, "scope")) || title.None? || sections.None? then None
    else Some(Capsule(Field(m, "id"), Field(m, "status"), Field(m, "scope"), Field(m, "created"), Field(m, "updated"),
                      m.triggers, title.value, Strip(sections.value.rule), Strip(sections.value.verification)))
  }

  // ---------------------------------------------------------------- the header reads back

  lemma {:induction false} LineLengthAt(s: string, rest: string, isEnd: char -> bool)
    requires forall i :: 0 <= i < |s| ==> !isEnd(s[i])
    requires rest != "" ==> isEnd(rest[0])
    ensures LineLength(s + rest, isEnd) == |s|
  {
    if s == "" {
      assert s + rest == rest;
    } else {
      assert (s + rest)[1..] == s[1..] + rest;
      LineLengthAt(s[1..], rest, isEnd);
    }
  }

  lemma {:induction false} StripsOuter(s: string)
    requires Trimmed(s)
    ensures Strip(" " + s) == s && Strip(s) == s
  {
    var t := " " + s;
    assert t[1..] == s && IsSpace(t[0]);
    assert StripLeft(t) == StripLeft(s) == s;
    assert StripRight(s) == s;
  }

  lemma {:induction false} StripsNewline(s: string)
    requires Trimmed(s) && s != ""
    ensures Strip(s + "\n") == s
  {
    var t := s + "\n";
    assert t[..|t| - 1] == s && IsSpace(t[|t| - 1]) && t[0] == s[0];
    assert StripLeft(t) == t;
    assert StripRight(t) == StripRight(s) == s;
  }

  predicate IsKey(key: string)
  {
    key != "" && key[0] != '-' && key != "triggers" && forall i :: 0 <= i < |key| ==> key[i] != ':'
  }

  lemma {:induction false} FieldLineReads(m: Metadata, key: string, value: string)
    requires IsKey(key) && Trimmed(value)
    ensures ReadLine(m, key + ": " + value) == m.(fields := m.fields[key := value])
  {
    var line := key + ": " + value;
    assert line == key + (": " + value);
    LineLengthAt(key, ": " + value, IsColon);
    assert line[..|key|] == key && line[|key| + 1..] == " " + value;
    StripsOuter(value);
    assert line[0] == key[0];
  }

  function Fields(m: map<string, string>, fields: seq<(string, string)>): map<string, string>
    decreases |fields|
  {
    if fields == [] then m else Fields(m[fields[0].0 := fields[0].1], fields[1..])
  }

  lemma {:induction false} FieldLinesRead(m: Metadata, fields: seq<(string, string)>, rest: seq<string>)
    requires forall i :: 0 <= i < |fields| ==> IsKey(fields[i].0) && Trimmed(fields[i].1)
    ensures ReadLines(m, FieldLines(fields) + rest) == ReadLines(m.(fields := Fields(m.fields, fields)), rest)
    decreases |fields|
  {
    if fields == [] {
      assert FieldLines(fields) + rest == rest;
    } else {
      var line := fields[0].0 + ": " + fields[0].1;
      assert FieldLines(fields) + rest == [line] + (FieldLines(fields[1..]) + rest);
      FieldLineReads(m, fields[0].0, fields[0].1);
      FieldLinesRead(ReadLine(m, line), fields[1..], rest);
    }
  }

  lemma {:induction false} TriggerLineReads(m: Metadata, trigger: string)
    ensures ReadLine(m, "- " + trigger) == m.(triggers := m.triggers + [trigger])
  {
    assert ("- " + trigger)[2..] == trigger;
  }

  lemma {:induction false} TriggerLinesRead(m: Metadata, triggers: seq<string>)
    ensures ReadLines(m, TriggerLines(triggers)) == m.(triggers := m.triggers + triggers)
    decreases |triggers|
  {
    if triggers == [] {
      assert m.triggers + triggers == m.triggers;
    } else {
      var lines, next := TriggerLines(triggers), m.(triggers := m.triggers + [triggers[0]]);
      TriggerLineReads(m, triggers[0]);
      assert lines[0] == "- " + triggers[0] && lines[1..] == TriggerLines(triggers[1..]);
      TriggerLinesRead(next, triggers[1..]);
      assert m.triggers + [triggers[0]] + triggers[1..] == m.triggers + triggers;
    }
  }

  /** The fields and triggers of a header read back in order. */
  lemma {:induction false} HeaderReads(fields: seq<(string, string)>, triggers: seq<string>)
    requires forall i :: 0 <= i < |fields| ==> IsKey(fields[i].0) && Trimmed(fields[i].1)
    ensures ReadLines(Metadata(map[], []), FieldLines(fields) + ["triggers:"] + TriggerLines(triggers))
      == Metadata(Fields(map[], fields), triggers)
  {
    var rest := ["triggers:"] + TriggerLines(triggers);
    assert FieldLines(fields) + ["triggers:"] + TriggerLines(triggers) == FieldLines(fields) + rest;
    FieldLinesRead(Metadata(map[], []), fields, rest);
    TriggersRead(Metadata(Fields(map[], fields), []), triggers);
    assert [] + triggers == triggers;
  }

  lemma {:induction false} TriggersRead(m: Metadata, triggers: seq<string>)
    ensures ReadLines(m, ["triggers:"] + TriggerLines(triggers)) == m.(triggers := m.triggers + triggers)
  {
    var rest := ["triggers:"] + TriggerLines(triggers);
    assert rest[1..] == TriggerLines(triggers) && rest[0] == "triggers:";
    LabelReads(m);
    TriggerLinesRead(m, triggers);
  }

  lemma {:induction false} LabelReads(m: Metadata)
    ensures ReadLine(m, "triggers:") == m
  {
    LineLengthAt("triggers", ":", IsColon);
    assert "triggers" + ":" == "triggers:" && "triggers:"[..8] == "triggers";
  }

  lemma {:induction false} SplitsJoined(lines: seq<string>)
    requires lines != [] && lines[|lines| - 1] != "" && forall i :: 0 <= i < |lines| ==> OneLine(lines[i])
    ensures SplitLines(JoinLines(lines)) == lines && JoinLines(lines) != ""
    decreases |lines|
  {
    var l := lines[0];
    if |lines| == 1 {
      LineLengthAt(l, "", IsBreak);
      assert l + "" == l;
    } else {
      var rest := JoinLines(lines[1..]);
      SplitsJoined(lines[1..]);
      LineLengthAt(l, "\n" + rest, IsBreak);
      var s := JoinLines(lines);
      assert s == l + ("\n" + rest);
      assert s[..|l|] == l && s[|l| + 1..] == rest;
    }
  }

  lemma {:induction false} FindSkips(needle: string, s: string, rest: string)
    requires needle != "" && forall i :: 0 <= i < |s| ==> !(needle <= (s + rest)[i..])
    ensures Find(needle, s + rest) == (if Find(needle, rest).None? then None else Some(Find(needle, rest).value + |s|))
  {
    if s == "" {
      assert s + rest == rest;
    } else {
      assert (s + rest)[1..] == s[1..] + rest;
      forall i | 0 <= i < |s[1..]| ensures !(needle <= (s[1..] + rest)[i..]) {
        assert (s[1..] + rest)[i..] == (s + rest)[i + 1..];
      }
      FindSkips(needle, s[1..], rest);
      assert (s + rest)[0..] == s + rest;
    }
  }

  predicate HeaderLine(line: string)
  {
    OneLine(line) && !("---" <= line)
  }

  /** The closing line is found right after the header lines. */
  lemma {:induction false} FindsClose(lines: seq<string>, rest: string)
    requires lines != [] && forall i :: 0 <= i < |lines| ==> HeaderLine(lines[i])
    ensures Find(CLOSE, JoinLines(lines) + CLOSE + rest) == Some(|JoinLines(lines)|)
    decreases |lines|
  {
    var l := lines[0];
    if |lines| == 1 {
      assert JoinLines(lines) + CLOSE + rest == l + (CLOSE + rest);
      SkipsLastLine(l, rest);
    } else {
      var after := JoinLines(lines[1..]) + CLOSE + rest;
      FindsClose(lines[1..], rest);
      assert JoinLines(lines) + CLOSE + rest == (l + "\n") + after;
      assert after == JoinLines(lines[1..]) + (CLOSE + rest);
      StartsWithFirst(lines[1..], CLOSE + rest);
      SkipsLine(l, lines[1], after);
    }
  }

  lemma {:induction false} SkipsLastLine(l: string, rest: string)
    requires HeaderLine(l)
    ensures Find(CLOSE, l + (CLOSE + rest)) == Some(|l|)
  {
    var tail := CLOSE + rest;
    forall i | 0 <= i < |l| ensures !(CLOSE <= (l + tail)[i..]) {
      assert (l + tail)[i..][0] == l[i];
    }
    FindSkips(CLOSE, l, tail);
  }

  lemma {:induction false} SkipsLine(l: string, next: string, after: string)
    requires HeaderLine(l) && HeaderLine(next) && next + "\n" <= after && Find(CLOSE, after).Some?
    ensures Find(CLOSE, (l + "\n") + after) == Some(Find(CLOSE, after).value + |l| + 1)
  {
    forall i | 0 <= i < |l + "\n"| ensures !(CLOSE <= ((l + "\n") + after)[i..]) {
      if i < |l| {
        assert ((l + "\n") + after)[i..][0] == l[i];
      } else {
        assert ((l + "\n") + after)[i..] == "\n" + after;
        NoDashes(next, after);
      }
    }
    FindSkips(CLOSE, l + "\n", after);
  }

  lemma {:induction false} StartsWithFirst(lines: seq<string>, rest: string)
    requires lines != [] && rest != "" && rest[0] == '\n'
    ensures lines[0] + "\n" <= JoinLines(lines) + rest
  {
    if |lines| > 1 {
      assert JoinLines(lines) + rest == (lines[0] + "\n") + (JoinLines(lines[1..]) + rest);
    } else {
      assert JoinLines(lines) + rest == (lines[0] + "\n") + rest[1..];
    }
  }

  lemma {:induction false} NoDashes(line: string, text: string)
    requires HeaderLine(line) && line + "\n" <= text
    ensures !(CLOSE <= "\n" + text)
  {
    var shown := line + "\n";
    var k := if shown[0] != '-' then 0 else if shown[1] != '-' then 1 else 2;
    assert |line| >= 3 && line[0] == '-' && line[1] == '-' && line[2] == '-' ==> "---" <= line;
    assert k < |shown| && shown[k] != '-';
    assert ("\n" + text)[k + 1] == text[k] == shown[k];
    assert CLOSE[k + 1] == '-';
  }

  // ---------------------------------------------------------------- the title reads back

  lemma {:induction false} TitleReads(title: string, rest: string)
    requires title != "" && OneLine(title)
    ensures FindTitle("\n# " + title + "\n" + rest, true) == Some(title)
  {
    var s := "\n# " + title + "\n" + rest;
    var t := "# " + title + "\n" + rest;
    assert s[1..] == t && s[0] == '\n';
    assert t == ("# " + title) + ("\n" + rest);
    forall i | 0 <= i < |"# " + title| ensures !IsNewline(("# " + title)[i]) {
      assert i >= 2 ==> ("# " + title)[i] == title[i - 2];
    }
    LineLengthAt("# " + title, "\n" + rest, IsNewline);
    assert t[2..2 + |title|] == title;
    assert "# " <= t;
    assert FindTitle(t, true) == Some(title);
    assert FindTitle(s, true) == FindTitle(t, true);
  }

  // ---------------------------------------------------------------- the sections read back

  /** Where the pattern for the sections fits. */
  predicate Fits(s: string)
  {
    RULE <= s && AfterHeading(s[|RULE|..], BlankLength(s[|RULE|..])).Some?
  }

  lemma {:induction false} FindSectionsHere(s: string)
    requires Fits(s)
    ensures FindSections(s) == AfterHeading(s[|RULE|..], BlankLength(s[|RULE|..]))
  {
  }

  lemma {:induction false} FindSectionsSkips(s: string, rest: string)
    requires forall i :: 0 <= i < |s| ==> !Fits((s + rest)[i..])
    ensures FindSections(s + rest) == FindSections(rest)
  {
    if s == "" {
      assert s + rest == rest;
    } else {
      assert (s + rest)[1..] == s[1..] + rest;
      forall i | 0 <= i < |s[1..]| ensures !Fits((s[1..] + rest)[i..]) {
        assert (s[1..] + rest)[i..] == (s + rest)[i + 1..];
      }
      assert (s + rest)[0..] == s + rest && !Fits(s + rest);
      FindSectionsSkips(s[1..], rest);
    }
  }

  /** A heading followed by a word, or by one blank and a word, does not fit. */
  lemma {:induction false} WordAfterHeading(s: string)
    requires s != "" && (!IsSpace(s[0]) || (s[0] == ' ' && |s| > 1 && !IsSpace(s[1])))
    ensures AfterHeading(s, BlankLength(s)).None?
  {
    if IsSpace(s[0]) {
      assert BlankLength(s[1..]) == 0;
      assert AfterHeading(s, 0).None?;
    }
  }

  /** Two newlines and a word: the heading's blank is both newlines. */
  lemma {:induction false} TwoNewlines(s: string)
    requires s != "" && !IsSpace(s[0])
    ensures BlankLength("\n\n" + s) == 2 && ("\n\n" + s)[2..] == s && ("\n\n" + s)[1] == '\n'
  {
    var t := "\n\n" + s;
    assert t[1..] == "\n" + s && t[1..][1..] == s;
    assert BlankLength(s) == 0;
    assert BlankLength(t[1..]) == 1;
  }

  lemma {:induction false} VerificationReads(verification: string)
    requires verification != "" && !IsSpace(verification[0])
    ensures var rest := "\n\n" + verification + "\n"; TextAfterBlank(rest, BlankLength(rest)) == Some(verification + "\n")
  {
    var rest := "\n\n" + verification + "\n";
    assert rest == "\n\n" + (verification + "\n");
    TwoNewlines(verification + "\n");
  }

  lemma {:induction false} SkipRuleText(before: string, s: string, n: nat)
    requires n <= |s| && forall i :: 0 <= i < n ==> !(VERIFICATION <= s[i..])
    decreases n
    ensures UpToVerification(before, s) == UpToVerification(before + s[..n], s[n..])
  {
    if n == 0 {
      assert before + s[..0] == before && s[0..] == s;
    } else {
      assert s[0..] == s;
      forall i | 0 <= i < n - 1 ensures !(VERIFICATION <= s[1..][i..]) {
        assert s[1..][i..] == s[i + 1..];
      }
      SkipRuleText(before + [s[0]], s[1..], n - 1);
      assert before + [s[0]] + s[1..][..n - 1] == before + s[..n];
      assert s[1..][n - 1..] == s[n..];
    }
  }

  function VerificationText(verification: string): string
  {
    VERIFICATION + ("\n\n" + verification + "\n")
  }

  lemma {:induction false} AtVerification(before: string, verification: string)
    requires verification != "" && !IsSpace(verification[0])
    ensures UpToVerification(before, VerificationText(verification)) == Some(Sections(before, verification + "\n"))
  {
    var s := VerificationText(verification);
    assert s[|VERIFICATION|..] == "\n\n" + verification + "\n";
    VerificationReads(verification);
  }

  /** Text in which no newline is followed by the verification heading is rule text. */
  lemma {:induction false} RuleTextReads(before: string, s: string, verification: string)
    requires verification != "" && !IsSpace(verification[0])
    requires forall i :: 0 <= i < |s| ==> !(VERIFICATION <= (s + VerificationText(verification))[i..])
    ensures UpToVerification(before, s + VerificationText(verification)) == Some(Sections(before + s, verification + "\n"))
  {
    var t := s + VerificationText(verification);
    SkipRuleText(before, t, |s|);
    assert t[..|s|] == s && t[|s|..] == VerificationText(verification);
    AtVerification(before + s, verification);
  }

  lemma {:induction false} NoVerificationHeading(s: string, tail: string, i: nat)
    requires i < |s| && (s[i] != '\n' || (i + 1 < |s + tail| && (s + tail)[i + 1] != '#') || (i + 2 < |s + tail| && (s + tail)[i + 2] != '#')
      || (i + 4 < |s + tail| && (s + tail)[i + 4] != 'V'))
    ensures !(VERIFICATION <= (s + tail)[i..])
  {
    var t := (s + tail)[i..];
    assert t[0] == s[i];
    assert i + 1 < |s + tail| ==> t[1] == (s + tail)[i + 1];
    assert i + 2 < |s + tail| ==> t[2] == (s + tail)[i + 2];
    assert i + 4 < |s + tail| ==> t[4] == (s + tail)[i + 4];
    assert VERIFICATION[0] == '\n' && VERIFICATION[1] == '#' && VERIFICATION[2] == '#' && VERIFICATION[4] == 'V';
  }

  function SectionText(rule: string, verification: string): string
  {
    RULE + ("\n\n" + (rule + "\n" + VerificationText(verification)))
  }

  lemma {:induction false} PlainTextHasNoHeading(rule: string, tail: string, i: nat)
    requires OneLine(rule) && i <= |rule| && tail != "" && tail[0] != '#'
    ensures !(VERIFICATION <= ((rule + "\n") + tail)[i..])
  {
    var body := rule + "\n";
    if i < |rule| {
      assert body[i] == rule[i];
    } else {
      assert (body + tail)[i + 1] == tail[0];
    }
    NoVerificationHeading(body, tail, i);
  }

  lemma {:induction false} PlainRuleReads(rule: string, verification: string)
    requires Normal(rule) && Normal(verification)
    ensures UpToVerification("", rule + "\n" + VerificationText(verification)) == Some(Sections(rule + "\n", verification + "\n"))
  {
    NormalIsOneLine(rule);
    var body, tail := rule + "\n", VerificationText(verification);
    forall i | 0 <= i < |body| ensures !(VERIFICATION <= (body + tail)[i..]) {
      PlainTextHasNoHeading(rule, tail, i);
    }
    RuleTextReads("", body, verification);
    assert "" + body == body;
  }

  lemma {:induction false} AfterHeadingReads(s: string, text: string)
    requires RULE <= s && s[|RULE|..] == "\n\n" + text && text != "" && !IsSpace(text[0]) && UpToVerification("", text).Some?
    ensures Fits(s) && FindSections(s) == UpToVerification("", text)
  {
    TwoNewlines(text);
    FindSectionsHere(s);
  }

  lemma {:induction false} SectionsRead(rule: string, verification: string)
    requires Normal(rule) && Normal(verification)
    ensures FindSections(SectionText(rule, verification)) == Some(Sections(rule + "\n", verification + "\n"))
  {
    var text := rule + "\n" + VerificationText(verification);
    PlainRuleReads(rule, verification);
    assert text[0] == rule[0];
    AfterHeadingReads(SectionText(rule, verification), text);
  }

  // ---------------------------------------------------------------- headings inside the title

  function TitleText(title: string): string
  {
    "\n# " + title + "\n\n"
  }

  lemma {:induction false} TitleTextAt(title: string, i: nat)
    requires i < |TitleText(title)|
    ensures TitleText(title)[i] ==
      if i == 0 then '\n' else if i == 1 then '#' else if i == 2 then ' ' else if i < 3 + |title| then title[i - 3] else '\n'
  {
  }

  lemma {:induction false} NoHeadingAcross(title: string, rest: string, i: nat)
    requires i < |TitleText(title)| && (i < 3 || i + |RULE| > 3 + |title|)
    ensures !(RULE <= (TitleText(title) + rest)[i..])
  {
    var t := TitleText(title) + rest;
    var k := if i == 1 then 1 else if 3 <= i < 3 + |title| then 3 + |title| - i else 0;
    TitleTextAt(title, i + k);
    assert t[i..][k] == t[i + k] == TitleText(title)[i + k];
    assert RULE == ['#', '#', ' ', 'R', 'u', 'l', 'e'];
    assert k < |RULE| && RULE[k] != t[i..][k];
  }

  /** In the title line the pattern fits nowhere but at a heading that ends the title. */
  lemma {:induction false} NoFitInTitle(title: string, rest: string, i: nat)
    requires Normal(title) && i < |TitleText(title)| && i + |RULE| != 3 + |title|
    ensures !Fits((TitleText(title) + rest)[i..])
  {
    var t := TitleText(title) + rest;
    if i < 3 || i + |RULE| > 3 + |title| {
      NoHeadingAcross(title, rest, i);
    } else {
      var j := i + |RULE| - 3;
      TitleTextAt(title, j + 3);
      TitleTextAt(title, j + 4);
      assert |t[i..]| > |RULE| + 1;
      var after := t[i..][|RULE|..];
      assert after[0] == t[j + 3] == title[j];
      assert after[1] == t[j + 4];
      WordAfterHeading(after);
    }
  }

  lemma {:induction false} EndsWithHeading(title: string, rest: string)
    requires |title| >= |RULE|
    ensures RULE <= (TitleText(title) + rest)[3 + |title| - |RULE|..] <==> title[|title| - |RULE|..] == RULE
  {
    var t := TitleText(title) + rest;
    var from := 3 + |title| - |RULE|;
    forall k | 0 <= k < |RULE| ensures t[from..][k] == title[|title| - |RULE|..][k] {
      TitleTextAt(title, from + k);
      assert t[from..][k] == t[from + k] == TitleText(title)[from + k];
    }
    assert t[from..][..|RULE|] == title[|title| - |RULE|..];
  }

  lemma {:induction false} BodyShape(title: string, rule: string, verification: string)
    ensures Body(title, rule, verification) == TitleText(title) + SectionText(rule, verification)
  {
  }

  predicate EndsInHeading(title: string)
  {
    |title| >= |RULE| && title[|title| - |RULE|..] == RULE
  }

  /** Unless the title ends with the heading, the sections are found where they were printed. */
  lemma {:induction false} BodySectionsRead(title: string, rule: string, verification: string)
    requires Normal(title) && Normal(rule) && Normal(verification) && !EndsInHeading(title)
    ensures FindSections(Body(title, rule, verification)) == Some(Sections(rule + "\n", verification + "\n"))
  {
    var rest := SectionText(rule, verification);
    BodyShape(title, rule, verification);
    forall i | 0 <= i < |TitleText(title)| ensures !Fits((TitleText(title) + rest)[i..]) {
      if i + |RULE| == 3 + |title| && i >= 3 {
        EndsWithHeading(title, rest);
      } else if i + |RULE| == 3 + |title| {
        NoHeadingAcross(title, rest, i);
      } else {
        NoFitInTitle(title, rest, i);
      }
    }
    FindSectionsSkips(TitleText(title), rest);
    SectionsRead(rule, verification);
  }

  // ---------------------------------------------------------------- a title that ends with the heading

  lemma {:induction false} RuleTextGrows(before: string, s: string)
    ensures UpToVerification(before, s).Some? ==> before <= UpToVerification(before, s).value.rule
    decreases |s|
  {
    if s != "" {
      RuleTextGrows(before + [s[0]], s[1..]);
    }
  }

  lemma {:induction false} StripKeeps(s: string, k: nat)
    requires k < |s| && !IsSpace(s[0]) && !IsSpace(s[k])
    ensures |Strip(s)| > k && Strip(s) <= s
  {
    StripRightKeeps(s, k);
  }

  lemma {:induction false} StripRightKeeps(s: string, k: nat)
    requires k < |s| && !IsSpace(s[k])
    ensures |StripRight(s)| > k && StripRight(s) <= s
  {
    if IsSpace(s[|s| - 1]) {
      StripRightKeeps(s[..|s| - 1], k);
    }
  }

  lemma {:induction false} VerificationRule(rule: string, rest: string)
    requires OneLine(rule) && VERIFICATION <= "\n" + rule + "\n" + rest
    ensures |rule| > 3 && rule[3] == 'V'
  {
    var s := "\n" + rule + "\n" + rest;
    assert VERIFICATION == ['\n', '#', '#', ' ', 'V', 'e', 'r', 'i', 'f', 'i', 'c', 'a', 't', 'i', 'o', 'n'];
    assert forall k :: 0 <= k < |VERIFICATION| ==> s[k] == VERIFICATION[k];
    assert s[|rule| + 1] == '\n';
    assert forall k :: 1 <= k < |VERIFICATION| ==> VERIFICATION[k] != '\n';
    assert s[4] == 'V';
  }

  lemma {:induction false} SectionTextChars(rule: string, verification: string)
    requires rule != ""
    ensures var s := SectionText(rule, verification);
      && |s| > 10 && s[0] == '#' && s[3] == 'R' && s[6] == 'e' && s[7] == '\n' && s[8] == '\n' && s[9] == rule[0]
      && (forall k :: 0 <= k < 7 ==> s[k] != '\n')
  {
    assert RULE == ['#', '#', ' ', 'R', 'u', 'l', 'e'];
  }

  lemma {:induction false} SectionTextTail(rule: string, verification: string)
    ensures SectionText(rule, verification)[8..] == "\n" + rule + "\n" + VerificationText(verification)
  {
    var s := SectionText(rule, verification);
    assert s == (RULE + "\n") + ("\n" + rule + "\n" + VerificationText(verification));
  }

  lemma {:induction false} NoVerificationInHeading(rule: string, verification: string, i: nat)
    requires Normal(rule) && i < 10 && i != 8
    ensures !(VERIFICATION <= SectionText(rule, verification)[i..])
  {
    var s := SectionText(rule, verification);
    SectionTextChars(rule, verification);
    assert s[i..][0] == s[i] && s[i..][1] == s[i + 1];
    assert VERIFICATION[0] == '\n' && VERIFICATION[1] == '#';
  }

  lemma {:induction false} ReadsLess(rule: string, verification: string, read: string)
    requires Normal(rule) && VERIFICATION <= SectionText(rule, verification)[8..]
    requires SectionText(rule, verification)[..8] <= read
    ensures Strip(read) != rule
  {
    var s := SectionText(rule, verification);
    NormalIsOneLine(rule);
    SectionTextChars(rule, verification);
    SectionTextTail(rule, verification);
    VerificationRule(rule, VerificationText(verification));
    assert forall k :: 0 <= k < 8 ==> read[k] == s[k];
    StripKeeps(read, 6);
    assert Strip(read)[3] == read[3];
  }

  lemma {:induction false} ReadsMore(rule: string, verification: string, read: string)
    requires Normal(rule) && SectionText(rule, verification)[..10] <= read
    ensures Strip(read) != rule
  {
    var s := SectionText(rule, verification);
    NormalIsOneLine(rule);
    SectionTextChars(rule, verification);
    assert forall k :: 0 <= k < 10 ==> read[k] == s[k];
    StripKeeps(read, 9);
    assert Strip(read)[7] == read[7] && IsBreak('\n');
  }

  /** The text after the title's heading never reads as the rule that was printed. */
  lemma {:induction false} DoubledReadsDifferently(rule: string, verification: string)
    requires Normal(rule) && Normal(verification)
    ensures var found := UpToVerification("", SectionText(rule, verification)); found.Some? ==> Strip(found.value.rule) != rule
  {
    var s := SectionText(rule, verification);
    SectionTextChars(rule, verification);
    var n := if VERIFICATION <= s[8..] then 8 else 10;
    forall i | 0 <= i < n ensures !(VERIFICATION <= s[i..]) {
      if i != 8 {
        NoVerificationInHeading(rule, verification, i);
      }
    }
    SkipRuleText("", s, n);
    assert "" + s[..n] == s[..n];
    RuleTextGrows(s[..n], s[n..]);
    var found := UpToVerification("", s);
    if found.Some? {
      if n == 8 {
        ReadsLess(rule, verification, found.value.rule);
      } else {
        ReadsMore(rule, verification, found.value.rule);
      }
    }
  }

  /** Text that the last section ends always reads as some rule. */
  lemma {:induction false} SomeRuleReads(before: string, s: string, verification: string)
    requires verification != "" && !IsSpace(verification[0])
    ensures UpToVerification(before, s + VerificationText(verification)).Some?
    decreases |s|
  {
    var t := s + VerificationText(verification);
    if s == "" {
      assert t == VerificationText(verification);
      AtVerification(before, verification);
    } else {
      assert t[1..] == s[1..] + VerificationText(verification);
      SomeRuleReads(before + [s[0]], s[1..], verification);
    }
  }

  lemma {:induction false} DoubledHeading(s: string, rule: string, verification: string)
    requires Normal(rule) && Normal(verification)
    requires RULE <= s && s[|RULE|..] == "\n\n" + SectionText(rule, verification)
    ensures FindSections(s) == UpToVerification("", SectionText(rule, verification)) && FindSections(s).Some?
  {
    var rest, body := SectionText(rule, verification), RULE + ("\n\n" + (rule + "\n"));
    SectionTextChars(rule, verification);
    assert rest == body + VerificationText(verification);
    SomeRuleReads("", body, verification);
    AfterHeadingReads(s, rest);
  }

  lemma {:induction false} FindsTitleHeading(title: string, rest: string)
    requires Normal(title) && EndsInHeading(title)
    ensures var t, from := TitleText(title) + rest, 3 + |title| - |RULE|; FindSections(t) == FindSections(t[from..])
  {
    var t := TitleText(title) + rest;
    var from := 3 + |title| - |RULE|;
    assert t[..from] + t[from..] == t;
    forall i | 0 <= i < |t[..from]| ensures !Fits((t[..from] + t[from..])[i..]) {
      NoFitInTitle(title, rest, i);
    }
    FindSectionsSkips(t[..from], t[from..]);
  }

  /** A title that ends with the heading makes the file read back with another rule. */
  lemma {:induction false} HeadingTitleReadsDifferently(title: string, rule: string, verification: string)
    requires Normal(title) && Normal(rule) && Normal(verification) && EndsInHeading(title)
    ensures FindSections(TitleText(title) + SectionText(rule, verification)).Some?
    ensures Strip(FindSections(TitleText(title) + SectionText(rule, verification)).value.rule) != rule
  {
    var rest := SectionText(rule, verification);
    FindsTitleHeading(title, rest);
    EndsWithHeading(title, rest);
    AfterTitleHeading(title, rule, verification);
    DoubledHeading((TitleText(title) + rest)[3 + |title| - |RULE|..], rule, verification);
    DoubledReadsDifferently(rule, verification);
  }

  lemma {:induction false} AfterTitleHeading(title: string, rule: string, verification: string)
    requires EndsInHeading(title)
    ensures var t := TitleText(title) + SectionText(rule, verification);
      t[3 + |title| - |RULE|..][|RULE|..] == "\n\n" + SectionText(rule, verification)
  {
    var t := TitleText(title) + SectionText(rule, verification);
    assert t == ("\n# " + title) + ("\n\n" + SectionText(rule, verification));
    assert t[3 + |title| - |RULE|..][|RULE|..] == t[3 + |title|..];
  }

  // ---------------------------------------------------------------- the whole file

  /** What `record` prints: the identity and scope are checked, the texts are lines. */
  predicate Printable(c: Capsule)
  {
    && IsId(c.id) && IsScope(c.scope)
    && OneLine(c.status) && Trimmed(c.status) && OneLine(c.created) && Trimmed(c.created) && OneLine(c.updated) && Trimmed(c.updated)
    && (forall i :: 0 <= i < |c.triggers| ==> Normal(c.triggers[i]))
    && Normal(c.title) && Normal(c.rule) && Normal(c.verification)
  }

  function HeaderFields(c: Capsule): seq<(string, string)>
  {
    [("id", c.id), ("status", c.status), ("scope", c.scope), ("created", c.created), ("updated", c.updated)]
  }

  lemma {:induction false} FieldLinesAt(fields: seq<(string, string)>)
    ensures |FieldLines(fields)| == |fields|
    ensures forall i :: 0 <= i < |fields| ==> FieldLines(fields)[i] == fields[i].0 + ": " + fields[i].1
  {
    if fields != [] {
      FieldLinesAt(fields[1..]);
    }
  }

  lemma {:induction false} TriggerLinesAt(triggers: seq<string>)
    ensures |TriggerLines(triggers)| == |triggers|
    ensures forall i :: 0 <= i < |triggers| ==> TriggerLines(triggers)[i] == "- " + triggers[i]
  {
    if triggers != [] {
      TriggerLinesAt(triggers[1..]);
    }
  }

  lemma {:induction false} KeyLineIsHeaderLine(key: string, value: string)
    requires IsKey(key) && OneLine(key) && OneLine(value)
    ensures HeaderLine(key + ": " + value)
  {
    var line := key + ": " + value;
    assert line[0] == key[0];
    forall i | 0 <= i < |line| ensures !IsBreak(line[i]) {
      assert line[i] == if i < |key| then key[i] else if i == |key| then ':' else if i == |key| + 1 then ' ' else value[i - |key| - 2];
    }
  }

  lemma {:induction false} TriggerLineIsHeaderLine(trigger: string)
    requires OneLine(trigger)
    ensures HeaderLine("- " + trigger)
  {
    var line := "- " + trigger;
    assert line[1] == ' ';
    forall i | 0 <= i < |line| ensures !IsBreak(line[i]) {
      assert line[i] == if i == 0 then '-' else if i == 1 then ' ' else trigger[i - 2];
    }
  }

  lemma {:induction false} HeaderLinesAreHeaderLines(c: Capsule)
    requires Printable(c)
    ensures HeaderLines(c) != [] && HeaderLines(c)[|HeaderLines(c)| - 1] != ""
    ensures forall i :: 0 <= i < |HeaderLines(c)| ==> HeaderLine(HeaderLines(c)[i])
  {
    var fields, lines := HeaderFields(c), HeaderLines(c);
    FieldLinesAt(fields);
    TriggerLinesAt(c.triggers);
    HeaderFieldsAreKeys(c);
    assert lines == FieldLines(fields) + ["triggers:"] + TriggerLines(c.triggers);
    forall i | 0 <= i < |lines| ensures HeaderLine(lines[i]) && lines[i] != "" {
      if i < |fields| {
        KeyLineIsHeaderLine(fields[i].0, fields[i].1);
      } else if i == |fields| {
        LabelIsHeaderLine();
      } else {
        NormalIsOneLine(c.triggers[i - |fields| - 1]);
        TriggerLineIsHeaderLine(c.triggers[i - |fields| - 1]);
      }
    }
  }

  lemma {:induction false} LabelIsHeaderLine()
    ensures HeaderLine("triggers:")
  {
    assert "triggers:"[0] == 't';
    assert forall i :: 0 <= i < 9 ==> 'a' <= "triggers:"[i] <= 'z' || "triggers:"[i] == ':';
  }

  lemma {:induction false} HeaderFieldsAreKeys(c: Capsule)
    requires Printable(c)
    ensures forall i :: 0 <= i < |HeaderFields(c)| ==>
      IsKey(HeaderFields(c)[i].0) && OneLine(HeaderFields(c)[i].0) && OneLine(HeaderFields(c)[i].1) && Trimmed(HeaderFields(c)[i].1)
  {
    IdAndScopeArePlain(c);
  }

  lemma {:induction false} IdAndScopeArePlain(c: Capsule)
    requires IsId(c.id) && IsScope(c.scope)
    ensures OneLine(c.id) && Trimmed(c.id) && OneLine(c.scope) && Trimmed(c.scope)
  {
    assert c.scope == "global" || c.scope == "cao" || c.scope == "project" || c.scope == "task";
  }

  /** The header of a printed capsule reads back field by field. */
  lemma {:induction false} PrintedHeaderReads(c: Capsule)
    requires Printable(c)
    ensures ReadLines(Metadata(map[], []), SplitLines(JoinLines(HeaderLines(c)))) == Metadata(Fields(map[], HeaderFields(c)), c.triggers)
  {
    HeaderLinesAreHeaderLines(c);
    SplitsJoined(HeaderLines(c));
    HeaderFieldsAreKeys(c);
    HeaderReads(HeaderFields(c), c.triggers);
  }

  lemma {:induction false} FieldsHold(c: Capsule)
    ensures var m := Metadata(Fields(map[], HeaderFields(c)), c.triggers);
      && Field(m, "id") == c.id && Field(m, "status") == c.status && Field(m, "scope") == c.scope
      && Field(m, "created") == c.created && Field(m, "updated") == c.updated
  {
    var m1: map<string, string> := map["id" := c.id];
    var m2 := m1["status" := c.status];
    var m3 := m2["scope" := c.scope];
    var m4 := m3["created" := c.created];
    var m5 := m4["updated" := c.updated];
    var f := HeaderFields(c);
    assert Fields(map[], f) == Fields(m1, f[1..]) == Fields(m2, f[1..][1..]) == Fields(m3, f[1..][1..][1..])
      == Fields(m4, f[1..][1..][1..][1..]) == Fields(m5, f[1..][1..][1..][1..][1..]);
    assert f[1..][1..][1..][1..][1..] == [];
  }

  lemma {:induction false} PrintedParts(c: Capsule)
    requires Printable(c)
    ensures var s, end := JoinLines(HeaderLines(c)) + CLOSE + Body(c.title, c.rule, c.verification), |JoinLines(HeaderLines(c))|;
      && OPEN <= Print(c) && Print(c)[|OPEN|..] == s && Find(CLOSE, s) == Some(end)
      && s[..end] == JoinLines(HeaderLines(c)) && end + |CLOSE| <= |s| && s[end + |CLOSE|..] == Body(c.title, c.rule, c.verification)
  {
    HeaderLinesAreHeaderLines(c);
    FindsClose(HeaderLines(c), Body(c.title, c.rule, c.verification));
    var s := JoinLines(HeaderLines(c)) + CLOSE + Body(c.title, c.rule, c.verification);
    assert Print(c) == OPEN + s;
    assert s == JoinLines(HeaderLines(c)) + (CLOSE + Body(c.title, c.rule, c.verification));
    assert s == (JoinLines(HeaderLines(c)) + CLOSE) + Body(c.title, c.rule, c.verification);
  }

  lemma {:induction false} BodyTitleReads(title: string, rule: string, verification: string)
    requires Normal(title)
    ensures FindTitle(Body(title, rule, verification), true) == Some(title)
  {
    var rest := "\n## Rule\n\n" + rule + "\n\n## Verification\n\n" + verification + "\n";
    NormalIsOneLine(title);
    TitleReads(title, rest);
    assert Body(title, rule, verification) == "\n# " + title + "\n" + rest;
  }

  lemma {:induction false} PartsRead(c: Capsule, s: string, end: nat)
    requires IsId(c.id) && IsScope(c.scope) && Normal(c.title) && end + |CLOSE| <= |s|
    requires ReadLines(Metadata(map[], []), SplitLines(s[..end])) == Metadata(Fields(map[], HeaderFields(c)), c.triggers)
    requires s[end + |CLOSE|..] == Body(c.title, c.rule, c.verification)
    ensures var sections := FindSections(Body(c.title, c.rule, c.verification));
      ReadParts(c.id, s, end) == if sections.None? then None
        else Some(c.(rule := Strip(sections.value.rule), verification := Strip(sections.value.verification)))
  {
    FieldsHold(c);
    BodyTitleReads(c.title, c.rule, c.verification);
  }

  /** A printed capsule reads as itself but for what the body's pattern makes of the sections. */
  lemma {:induction false} PrintedReads(c: Capsule)
    requires Printable(c) && Utf8Size(Print(c)) <= SIZE_MAX
    ensures var sections := FindSections(Body(c.title, c.rule, c.verification));
      Read(c.id, Print(c)) == if sections.None? then None
        else Some(c.(rule := Strip(sections.value.rule), verification := Strip(sections.value.verification)))
  {
    PrintedParts(c);
    PrintedHeaderReads(c);
    PartsRead(c, Print(c)[|OPEN|..], |JoinLines(HeaderLines(c))|);
  }

  /**
   * Reading what was printed returns the same capsule exactly when the title does not end with the
   * heading of the rule section; if it does, the capsule reads back with another rule.
   */
  lemma {:induction false} RoundTripsExactly(c: Capsule)
    requires Printable(c) && Utf8Size(Print(c)) <= SIZE_MAX
    ensures Read(c.id, Print(c)) == Some(c) <==> !EndsInHeading(c.title)
    ensures EndsInHeading(c.title) ==> Read(c.id, Print(c)).Some? && Read(c.id, Print(c)).value.rule != c.rule
  {
    PrintedReads(c);
    BodyShape(c.title, c.rule, c.verification);
    if EndsInHeading(c.title) {
      HeadingTitleReadsDifferently(c.title, c.rule, c.verification);
    } else {
      BodySectionsRead(c.title, c.rule, c.verification);
      StripsNewline(c.rule);
      StripsNewline(c.verification);
    }
  }

  // ---------------------------------------------------------------- a capsule that does not read back

  const HEADING_TITLED := Capsule("ab", "active", "global", "now", "now", ["t"], "A ## Rule", "Do it", "Look")

  lemma {:induction false} SizeBound(s: string)
    ensures Utf8Size(s) <= 4 * |s|
  {
    if s != "" {
      SizeBound(s[1..]);
    }
  }

  lemma {:induction false} JoinedBound(lines: seq<string>, width: nat)
    requires forall i :: 0 <= i < |lines| ==> |lines[i]| <= width
    ensures |JoinLines(lines)| <= |lines| * (width + 1)
  {
    if |lines| > 1 {
      JoinedBound(lines[1..], width);
      assert |lines| * (width + 1) == (|lines| - 1) * (width + 1) + width + 1;
    }
  }

  lemma {:induction false} HeadingTitledIsPrintable()
    ensures Printable(HEADING_TITLED) && EndsInHeading(HEADING_TITLED.title) && Utf8Size(Print(HEADING_TITLED)) <= SIZE_MAX
  {
    HeadingTitledTexts();
    HeadingTitledNames();
    HeadingTitledIsSmall();
  }

  lemma {:induction false} HeadingTitledTexts()
    ensures Normal("t") && Normal("Do it") && Normal("Look") && Normal("A ## Rule") && EndsInHeading("A ## Rule")
  {
    HeadingTitle();
  }

  lemma {:induction false} HeadingTitle()
    ensures Normal("A ## Rule") && EndsInHeading("A ## Rule")
  {
    var title := "A ## Rule";
    assert title[|title| - |RULE|..] == RULE;
    forall i | 0 <= i < |title| && IsSpace(title[i]) ensures i == 1 || i == 4 {
    }
  }

  lemma {:induction false} HeadingTitledNames()
    ensures IsId("ab") && IsScope("global")
    ensures OneLine("active") && Trimmed("active") && OneLine("now") && Trimmed("now")
  {
  }

  lemma {:induction false} HeadingTitledIsSmall()
    ensures Utf8Size(Print(HEADING_TITLED)) <= SIZE_MAX
  {
    var c := HEADING_TITLED;
    FieldLinesAt(HeaderFields(c));
    TriggerLinesAt(c.triggers);
    forall i | 0 <= i < |HeaderLines(c)| ensures |HeaderLines(c)[i]| <= 20 {
      assert HeaderLines(c) == FieldLines(HeaderFields(c)) + ["triggers:"] + TriggerLines(c.triggers);
    }
    JoinedBound(HeaderLines(c), 20);
    SizeBound(Print(c));
  }

  /** A concrete capsule within the size limit whose file reads back with another rule. */
  lemma {:induction false} HeadingTitleDoesNotReadBack()
    ensures Printable(HEADING_TITLED) && Utf8Size(Print(HEADING_TITLED)) <= SIZE_MAX
    ensures var back := Read(HEADING_TITLED.id, Print(HEADING_TITLED)); back.Some? && back.value.rule != "Do it"
  {
    HeadingTitledIsPrintable();
    RoundTripsExactly(HEADING_TITLED);
  }
}
