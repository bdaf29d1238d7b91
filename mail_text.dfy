/**
 * Text handling of index.js: turning a notification email into plain text
 * (`getEmailMessageBodyPlaintext`) and reading one labelled field out of it
 * (`getArqBackupSectionValueFromBody`). JavaScript's string primitives that the
 * code relies on (`trim`, `search`, `substring`, `split`, the tag-stripping
 * `replace`) are modelled with their JavaScript meaning.
 */
module MailText {
  import opened Wrappers

  /** The characters JavaScript's `String.prototype.trim` removes: WhiteSpace and LineTerminator. */
  predicate IsJsWhitespace(c: char) {
    || c == ' ' || c == '\t' || c == '\n' || c == '\r'
    || c == '\U{000B}' || c == '\U{000C}' || c == '\U{00A0}' || c == '\U{1680}'
    || ('\U{2000}' <= c <= '\U{200A}')
    || c == '\U{2028}' || c == '\U{2029}' || c == '\U{202F}' || c == '\U{205F}'
    || c == '\U{3000}' || c == '\U{FEFF}'
  }

  predicate AllWhitespace(s: string) {
    forall i :: 0 <= i < |s| ==> IsJsWhitespace(s[i])
  }

  /** The number of whitespace characters `s` starts with. */
  function LeadingWhitespace(s: string): (n: nat)
    ensures n <= |s| && AllWhitespace(s[..n])
    ensures n == |s| || !IsJsWhitespace(s[n])
    decreases |s|
  {
    if s != [] && IsJsWhitespace(s[0]) then
      var n := 1 + LeadingWhitespace(s[1..]);
      assert s[..n] == [s[0]] + s[1..][..n - 1];
      n
    else 0
  }

  /** The length of `s` without the whitespace it ends with. */
  function TrailingWhitespaceStart(s: string): (n: nat)
    ensures n <= |s| && AllWhitespace(s[n..])
    ensures n == 0 || !IsJsWhitespace(s[n - 1])
    decreases |s|
  {
    if s != [] && IsJsWhitespace(s[|s| - 1]) then
      var n := TrailingWhitespaceStart(s[..|s| - 1]);
      assert s[n..] == s[..|s| - 1][n..] + [s[|s| - 1]];
      n
    else |s|
  }

  /** JavaScript `s.trim()`: the infix of `s` between whitespace-only ends that neither starts nor ends with whitespace. */
  function Trim(s: string): (r: string)
    ensures var a := LeadingWhitespace(s);
      && a + |r| <= |s| && r == s[a..a + |r|]
      && AllWhitespace(s[..a]) && AllWhitespace(s[a + |r|..])
    ensures r == [] || (!IsJsWhitespace(r[0]) && !IsJsWhitespace(r[|r| - 1]))
  {
    var a := LeadingWhitespace(s);
    var n := TrailingWhitespaceStart(s[a..]);
    SuffixSlices(s, a, n);
    s[a..a + n]
  }

  /** Slices of `s[a..]` as slices of `s`. */
  lemma SuffixSlices(s: string, a: nat, n: nat)
    requires a + n <= |s|
    ensures s[a..][..n] == s[a..a + n] && s[a..][n..] == s[a + n..]
    ensures n > 0 ==> s[a..a + n][0] == s[a] && s[a..a + n][n - 1] == s[a..][n - 1]
  {
  }

  /** JavaScript `s.split('\n')[0]`: everything before the first newline. */
  function FirstLine(s: string): (r: string)
    ensures |r| <= |s| && r == s[..|r|]
    ensures '\n' !in r
    ensures |r| == |s| || s[|r|] == '\n'
  {
    if s == [] || s[0] == '\n' then [] else [s[0]] + FirstLine(s[1..])
  }

  predicate OccursAt(s: string, t: string, k: int) {
    0 <= k && k + |t| <= |s| && s[k..k + |t|] == t
  }

  /** The first position at or after `from` where `t` occurs in `s`, or -1. */
  function SearchFrom(s: string, t: string, from: nat): (r: int)
    requires from <= |s|
    ensures r == -1 || (from <= r && OccursAt(s, t, r))
    ensures forall k :: from <= k && (r == -1 || k < r) ==> !OccursAt(s, t, k)
    decreases |s| - from
  {
    if from + |t| > |s| then -1
    else if s[from..from + |t|] == t then from
    else SearchFrom(s, t, from + 1)
  }

  /**
   * JavaScript `s.search(t)` for a pattern without regular-expression
   * metacharacters (the three section tags have none): the index of the
   * first occurrence of `t`, or -1 when there is none.
   */
  function Search(s: string, t: string): (r: int)
    ensures r == -1 <==> forall k :: !OccursAt(s, t, k)
    ensures r != -1 ==> OccursAt(s, t, r) && forall k :: 0 <= k < r ==> !OccursAt(s, t, k)
  {
    SearchFrom(s, t, 0)
  }

  function Clamp(x: int, n: nat): (r: nat)
    ensures r <= n
    ensures 0 <= x <= n ==> r == x
  {
    if x < 0 then 0 else if x > n then n else x
  }

  /** JavaScript `s.substring(start, end)`: both bounds clamped to `[0, |s|]` and swapped if out of order. */
  function Substring(s: string, start: int, end: int): (r: string)
    ensures 0 <= start <= end <= |s| ==> r == s[start..end]
    ensures end == |s| ==> r == s[Clamp(start, |s|)..]
  {
    var a, b := Clamp(start, |s|), Clamp(end, |s|);
    if a <= b then s[a..b] else s[b..a]
  }

  /** One line of text that neither starts nor ends with whitespace. */
  predicate IsTrimmedLine(r: string) {
    '\n' !in r && (r == [] || (!IsJsWhitespace(r[0]) && !IsJsWhitespace(r[|r| - 1])))
  }

  /**
   * What the field reader keeps of the text that follows a tag: leading
   * whitespace (newlines included) skipped, everything up to the next
   * newline, trimmed.
   */
  function ValueAfter(rest: string): (r: string)
    ensures IsTrimmedLine(r)
  {
    var line := FirstLine(Trim(rest));
    var r := Trim(line);
    NoNewlineInInfix(line, LeadingWhitespace(line), |r|);
    r
  }

  /**
   * `getArqBackupSectionValueFromBody(tag, body)` exactly as written: the
   * value after the first occurrence of `tag`. When `tag` is absent `search`
   * yields -1 and the text is read from offset `|tag| - 1` instead.
   */
  function SectionValue(tag: string, body: string): (r: string)
    ensures IsTrimmedLine(r)
  {
    ValueAfter(Substring(body, Search(body, tag) + |tag|, |body|))
  }

  lemma NoNewlineInInfix(s: string, a: nat, n: nat)
    requires a + n <= |s| && '\n' !in s
    ensures '\n' !in s[a..a + n]
  {
    assert forall c :: c in s[a..a + n] ==> c in s;
  }

  /** Whitespace-only strings stay whitespace-only when concatenated. */
  lemma AllWhitespaceConcat(s: string, t: string)
    requires AllWhitespace(s) && AllWhitespace(t)
    ensures AllWhitespace(s + t)
  {
    assert forall k :: 0 <= k < |s + t| ==> (s + t)[k] == if k < |s| then s[k] else t[k - |s|];
  }

  /**
   * `r` sits at `body[i..i + |r|]`, after a whitespace-only stretch that starts
   * at `v`, and only whitespace follows it up to position `e`, which is a
   * newline or the end of `body`; no newline lies between `i` and `e`.
   */
  ghost predicate LaidOut(body: string, v: nat, r: string, i: nat, e: nat) {
    && v <= i && i + |r| <= e <= |body|
    && body[i..i + |r|] == r
    && AllWhitespace(body[v..i]) && AllWhitespace(body[i + |r|..e])
    && '\n' !in body[i..e]
    && (e == |body| || body[e] == '\n')
  }

  /**
   * The layout fact behind `SectionValueLocated`, stated over the pieces that
   * `Trim`, `FirstLine` and `Trim` again cut out of `rest`.
   */
  lemma InfixLocated(rest: string, a: nat, t: string, line: string, b: nat, r: string) returns (i: nat, e: nat)
    requires a + |t| <= |rest| && t == rest[a..a + |t|]
    requires AllWhitespace(rest[..a]) && AllWhitespace(rest[a + |t|..])
    requires |line| <= |t| && line == t[..|line|] && '\n' !in line
    requires |line| == |t| || t[|line|] == '\n'
    requires b + |r| <= |line| && r == line[b..b + |r|]
    requires AllWhitespace(line[..b]) && AllWhitespace(line[b + |r|..])
    ensures LaidOut(rest, 0, r, i, e)
  {
    i := a + b;
    assert line == rest[a..a + |line|];
    StartLocated(rest, a, line, b, r);
    if |line| < |t| {
      e := a + |line|;
      LineEndLocated(rest, a, line, b, r);
      assert rest[e] == t[|line|];
    } else {
      e := TailEndLocated(rest, a, line, b, r);
    }
  }

  /** The value starts after the whitespace before the trimmed text and the whitespace before the value within its line. */
  lemma StartLocated(rest: string, a: nat, line: string, b: nat, r: string)
    requires a + |line| <= |rest| && line == rest[a..a + |line|]
    requires b + |r| <= |line| && r == line[b..b + |r|]
    requires AllWhitespace(rest[..a]) && AllWhitespace(line[..b])
    ensures rest[a + b..a + b + |r|] == r
    ensures AllWhitespace(rest[0..a + b])
  {
    forall k | 0 <= k < |r| ensures rest[a + b..a + b + |r|][k] == r[k] {
      assert r[k] == line[b + k] == rest[a + b + k];
    }
    assert rest[0..a + b] == rest[..a] + line[..b];
    AllWhitespaceConcat(rest[..a], line[..b]);
  }

  /** The case where the first line ends before the trimmed text does. */
  lemma LineEndLocated(rest: string, a: nat, line: string, b: nat, r: string)
    requires a + |line| <= |rest| && line == rest[a..a + |line|] && '\n' !in line
    requires b + |r| <= |line| && AllWhitespace(line[b + |r|..])
    ensures '\n' !in rest[a + b..a + |line|]
    ensures AllWhitespace(rest[a + b + |r|..a + |line|])
  {
    assert rest[a + b..a + |line|] == line[b..];
    assert forall c :: c in line[b..] ==> c in line;
    assert rest[a + b + |r|..a + |line|] == line[b + |r|..];
  }

  /** The case where the first line is all of the trimmed text: the whitespace after it runs to a newline or the end. */
  lemma TailEndLocated(rest: string, a: nat, line: string, b: nat, r: string) returns (e: nat)
    requires a + |line| <= |rest| && line == rest[a..a + |line|] && '\n' !in line
    requires AllWhitespace(rest[a + |line|..])
    requires b + |r| <= |line| && AllWhitespace(line[b + |r|..])
    ensures a + |line| <= e <= |rest|
    ensures '\n' !in rest[a + b..e]
    ensures AllWhitespace(rest[a + b + |r|..e])
    ensures e == |rest| || rest[e] == '\n'
  {
    var w := rest[a + |line|..];
    var wl := FirstLine(w);
    e := a + |line| + |wl|;
    assert e < |rest| ==> rest[e] == w[|wl|];
    assert rest[a + b + |r|..e] == line[b + |r|..] + wl;
    assert AllWhitespace(wl) by {
      assert forall c :: c in wl ==> c in w;
    }
    AllWhitespaceConcat(line[b + |r|..], wl);
    assert rest[a + b..e] == line[b..] + wl;
    assert forall c :: c in line[b..] ==> c in line;
  }

  /**
   * Inside any text `rest`, `ValueAfter(rest)` is found after a
   * whitespace-only stretch, and only whitespace follows it up to the next
   * newline or the end of `rest`.
   */
  lemma FirstTrimmedLineLocated(rest: string) returns (i: nat, e: nat)
    ensures LaidOut(rest, 0, ValueAfter(rest), i, e)
  {
    var t := Trim(rest);
    var line := FirstLine(t);
    var r := Trim(line);
    i, e := InfixLocated(rest, LeadingWhitespace(rest), t, line, LeadingWhitespace(line), r);
  }

  /** Moves a layout fact about `body[v..]` back to positions in `body`. */
  lemma ShiftLocated(body: string, v: nat, r: string, i: nat, e: nat)
    requires v <= |body|
    requires LaidOut(body[v..], 0, r, i, e)
    ensures LaidOut(body, v, r, v + i, v + e)
  {
    assert body[v + i..v + i + |r|] == body[v..][i..i + |r|];
    assert body[v..v + i] == body[v..][0..i];
    assert body[v + i + |r|..v + e] == body[v..][i + |r|..e];
    assert body[v + i..v + e] == body[v..][i..e];
  }

  /** The value of a tag that ends at `v` is read from `body[v..]`. */
  lemma SectionValueAt(tag: string, body: string, v: nat)
    requires v <= |body| && v == Search(body, tag) + |tag|
    ensures SectionValue(tag, body) == ValueAfter(body[v..])
  {
    calc {
      SectionValue(tag, body);
      ValueAfter(Substring(body, v, |body|));
      { assert Substring(body, v, |body|) == body[v..]; }
      ValueAfter(body[v..]);
    }
  }

  /** `trim` yields nothing exactly when the text is whitespace only. */
  lemma TrimEmpty(s: string)
    ensures Trim(s) == [] <==> AllWhitespace(s)
  {
    var a := LeadingWhitespace(s);
    var r := Trim(s);
    assert s == s[..a] + r + s[a + |r|..];
    assert r == [] || r[0] == s[a];
    if r == [] {
      AllWhitespaceConcat(s[..a], s[a..]);
    }
  }

  /**
   * The value read after a tag is empty exactly when only whitespace follows
   * the tag: a blank rest of the tag's line makes the reader take the next
   * non-blank line instead.
   */
  lemma ValueAfterEmpty(rest: string)
    ensures ValueAfter(rest) == [] <==> AllWhitespace(rest)
  {
    var t := Trim(rest);
    var line := FirstLine(t);
    TrimEmpty(rest);
    TrimEmpty(line);
    assert t == [] || (line != [] && line[0] == t[0]);
  }

  /**
   * Where a found field's value sits in the body: after the tag and some
   * whitespace, followed by whitespace up to a newline or the end; it is
   * empty exactly when nothing but whitespace follows the tag.
   */
  lemma SectionValueLocated(tag: string, body: string, v: nat)
    requires Search(body, tag) != -1 && v == Search(body, tag) + |tag|
    ensures exists i, e :: LaidOut(body, v, SectionValue(tag, body), i, e)
    ensures SectionValue(tag, body) == [] <==> AllWhitespace(body[v..])
  {
    assert OccursAt(body, tag, Search(body, tag));
    var rest := body[v..];
    SectionValueAt(tag, body, v);
    var i, e := FirstTrimmedLineLocated(rest);
    ShiftLocated(body, v, SectionValue(tag, body), i, e);
    ValueAfterEmpty(rest);
  }

  // ---------------------------------------------------------------------------
  // An absent tag

  /**
   * With the tag absent, `search` yields -1 and the value is read from offset
   * `|tag| - 1` of the body (or its end), as if a tag had been found there.
   */
  lemma MissingTagReadsFromTagLength(tag: string, body: string)
    requires forall k :: !OccursAt(body, tag, k)
    ensures |tag| >= 1
    ensures SectionValue(tag, body) == ValueAfter(body[Clamp(|tag| - 1, |body|)..])
  {
    assert OccursAt(body, [], 0);
  }

  /** A line without a newline is its own first line. */
  lemma FirstLineOfSingleLine(s: string)
    requires '\n' !in s
    ensures FirstLine(s) == s
  {
  }

  /** Text that neither starts nor ends with whitespace is left alone by `trim`. */
  lemma TrimOfTrimmed(s: string)
    requires s == [] || (!IsJsWhitespace(s[0]) && !IsJsWhitespace(s[|s| - 1]))
    ensures Trim(s) == s
  {
    if s != [] {
      assert LeadingWhitespace(s) == 0;
      assert TrailingWhitespaceStart(s[0..]) == |s| by { assert s[0..] == s; }
    }
  }

  lemma ErrorsTagAbsentFromPlanLine()
    ensures forall k :: !OccursAt("Backup Plan: Laptop", "Errors:", k)
  {
    var body := "Backup Plan: Laptop";
    assert 'E' !in body;
    forall k ensures !OccursAt(body, "Errors:", k) {
      if 0 <= k && k + 7 <= |body| {
        assert body[k..k + 7][0] == body[k];
        assert body[k] in body;
      }
    }
  }

  /** `trim` removes one leading space from otherwise trimmed text. */
  lemma TrimLeadingSpace(t: string)
    requires t == [] || (!IsJsWhitespace(t[0]) && !IsJsWhitespace(t[|t| - 1]))
    ensures Trim([' '] + t) == t
  {
    var rest := [' '] + t;
    assert rest[1..] == t;
    assert LeadingWhitespace(rest) == 1 + LeadingWhitespace(t);
    TrimOfTrimmed(t);
  }

  /** A single trimmed line after one space is read back unchanged. */
  lemma ValueAfterSpacedLine(t: string)
    requires '\n' !in t
    requires t == [] || (!IsJsWhitespace(t[0]) && !IsJsWhitespace(t[|t| - 1]))
    ensures ValueAfter([' '] + t) == t
  {
    TrimLeadingSpace(t);
    FirstLineOfSingleLine(t);
    TrimOfTrimmed(t);
  }

  lemma PlanLineFromOffsetSix(body: string)
    requires body == "Backup Plan: Laptop"
    ensures ValueAfter(body[6..]) == "Plan: Laptop"
  {
    var t := body[7..];
    assert body[6..] == [' '] + t;
    assert t == "Plan: Laptop";
    ValueAfterSpacedLine(t);
  }

  /** A body with no `Errors:` line still yields a non-empty `Errors:` value, cut out of the plan line. */
  lemma MissingErrorsFieldYieldsGarbage()
    ensures SectionValue("Errors:", "Backup Plan: Laptop") == "Plan: Laptop"
    ensures FindSectionValue("Errors:", "Backup Plan: Laptop") == None
  {
    ErrorsTagAbsentFromPlanLine();
    MissingTagReadsFromTagLength("Errors:", "Backup Plan: Laptop");
    PlanLineFromOffsetSix("Backup Plan: Laptop");
  }

  /** Field extraction with absence made explicit: `None` exactly when the tag does not occur. */
  function FindSectionValue(tag: string, body: string): (r: Option<string>)
    ensures r.None? <==> forall k :: !OccursAt(body, tag, k)
    ensures r.Some? ==> r.value == SectionValue(tag, body) && IsTrimmedLine(r.value)
  {
    if Search(body, tag) == -1 then None else Some(SectionValue(tag, body))
  }

  /** The three fields a notification is read for, as text still to be parsed. */
  datatype RawFields = RawFields(backupPlan: string, endTime: string, errors: string)

  const BackupPlanTag := "Backup Plan:"
  const EndTimeTag := "End Time:"
  const ErrorsTag := "Errors:"

  /** The fields of one notification, or `None` when any of the three tags is missing. */
  function ExtractFields(text: string): (r: Option<RawFields>)
    ensures r.Some? <==>
      && (exists k :: OccursAt(text, BackupPlanTag, k))
      && (exists k :: OccursAt(text, EndTimeTag, k))
      && (exists k :: OccursAt(text, ErrorsTag, k))
    ensures r.Some? ==> r.value == RawFields(
      SectionValue(BackupPlanTag, text), SectionValue(EndTimeTag, text), SectionValue(ErrorsTag, text))
  {
    match (FindSectionValue(BackupPlanTag, text), FindSectionValue(EndTimeTag, text), FindSectionValue(ErrorsTag, text))
    case (Some(plan), Some(end), Some(errors)) => Some(RawFields(plan, end, errors))
    case _ => None
  }

  // ---------------------------------------------------------------------------
  // Markup stripping: `text.replace(/(<([^>]+)>)/g, "\n")`

  /** `s[i..j + 1]` is a match of `<[^>]+>`: a `<`, one or more characters other than `>`, then `>`. */
  predicate TagSpanAt(s: string, i: int, j: int) {
    && 0 <= i && i + 2 <= j < |s|
    && s[i] == '<' && s[j] == '>'
    && forall k :: i < k < j ==> s[k] != '>'
  }

  ghost predicate HasTagSpan(s: string) {
    exists i, j :: TagSpanAt(s, i, j)
  }

  /** The index of the first `>` at or after `from`, or -1. */
  function CloseIndex(s: string, from: nat): (r: int)
    requires from <= |s|
    ensures r == -1 || (from <= r < |s| && s[r] == '>')
    ensures forall k :: from <= k < |s| && (r == -1 || k < r) ==> s[k] != '>'
    decreases |s| - from
  {
    if from == |s| then -1 else if s[from] == '>' then from else CloseIndex(s, from + 1)
  }

  /**
   * The global replacement, left to right: where a `<` opens a span that a
   * later `>` closes after at least one other character, the whole span
   * becomes one newline; every other character is kept.
   */
  function StripTags(s: string): (r: string)
    ensures |r| <= |s|
    ensures forall c :: c in r ==> c in s || c == '\n'
    decreases |s|
  {
    if s == [] then []
    else if s[0] == '<' && |s| >= 2 && CloseIndex(s, 1) >= 2 then
      var tail := s[CloseIndex(s, 1) + 1..];
      assert forall c :: c in tail ==> c in s;
      "\n" + StripTags(tail)
    else
      assert forall c :: c in s[1..] ==> c in s;
      [s[0]] + StripTags(s[1..])
  }

  /** Stripping adds no `>`: every `>` it outputs was in the input. */
  lemma {:induction false} StripTagsKeepsNoClose(s: string)
    requires '>' !in s
    ensures '>' !in StripTags(s)
    decreases |s|
  {
    if s != [] {
      assert '>' !in s[1..];
      StripTagsKeepsNoClose(s[1..]);
    }
  }

  /** Away from the first character, spans of `[c] + rest` are the spans of `rest`, one position later. */
  lemma SpanAfterFirst(c: char, rest: string, i: int, j: int)
    requires 1 <= i
    ensures TagSpanAt([c] + rest, i, j) <==> TagSpanAt(rest, i - 1, j - 1)
  {
    var r := [c] + rest;
    if i + 2 <= j < |r| {
      assert r[i] == rest[i - 1] && r[j] == rest[j - 1];
      assert (forall k :: i < k < j ==> r[k] != '>') <==> (forall k :: i - 1 < k < j - 1 ==> rest[k] != '>') by {
        forall k | i < k < j ensures r[k] == rest[k - 1] { }
        forall k | i - 1 < k < j - 1 ensures rest[k] == r[k + 1] { }
      }
    }
  }

  /** One character put in front of span-free text opens a span only if it is `<` and a `>` follows at distance two or more. */
  lemma NoSpanPrepend(c: char, rest: string)
    requires !HasTagSpan(rest)
    requires c == '<' ==> rest == [] || rest[0] == '>' || '>' !in rest
    ensures !HasTagSpan([c] + rest)
  {
    var r := [c] + rest;
    forall i, j ensures !TagSpanAt(r, i, j) {
      if i == 0 {
        if c == '<' && rest != [] && 2 <= j < |r| {
          if rest[0] == '>' {
            assert r[1] == '>';
          } else {
            assert r[j] == rest[j - 1];
          }
        }
      } else if 1 <= i {
        SpanAfterFirst(c, rest, i, j);
      }
    }
  }

  /** No `<[^>]+>` span is left in the output of the replacement. */
  lemma {:induction false} StripTagsLeavesNoSpan(s: string)
    ensures !HasTagSpan(StripTags(s))
    decreases |s|
  {
    if s == [] {
      return;
    }
    if s[0] == '<' && |s| >= 2 && CloseIndex(s, 1) >= 2 {
      var tail := s[CloseIndex(s, 1) + 1..];
      StripTagsLeavesNoSpan(tail);
      NoSpanPrepend('\n', StripTags(tail));
    } else {
      var rest := StripTags(s[1..]);
      StripTagsLeavesNoSpan(s[1..]);
      if s[0] == '<' && |s| >= 2 {
        if CloseIndex(s, 1) == -1 {
          assert '>' !in s[1..] by {
            forall k | 0 <= k < |s[1..]| ensures s[1..][k] != '>' { assert s[1..][k] == s[k + 1]; }
          }
          StripTagsKeepsNoClose(s[1..]);
        } else {
          assert s[1..][0] == '>';
        }
      }
      NoSpanPrepend(s[0], rest);
    }
  }

  /** Text without a tag span passes through the replacement unchanged. */
  lemma {:induction false} StripTagsIdentity(s: string)
    requires !HasTagSpan(s)
    ensures StripTags(s) == s
    decreases |s|
  {
    if s != [] {
      if |s| >= 2 {
        assert !TagSpanAt(s, 0, CloseIndex(s, 1));
      }
      forall i, j | TagSpanAt(s[1..], i, j) ensures false {
        assert TagSpanAt(s, i + 1, j + 1) by {
          forall k | i + 1 < k < j + 1 ensures s[k] != '>' { assert s[k] == s[1..][k - 1]; }
        }
      }
      StripTagsIdentity(s[1..]);
    }
  }

  /** Stripping twice is stripping once. */
  lemma StripTagsIdempotent(s: string)
    ensures StripTags(StripTags(s)) == StripTags(s)
  {
    StripTagsLeavesNoSpan(s);
    StripTagsIdentity(StripTags(s));
  }

  // ---------------------------------------------------------------------------
  // Choosing the text of a message

  /** One MIME part of a message, its payload already decoded from base64. */
  datatype MimePart = MimePart(mimeType: string, data: string)

  /** A message payload: an optional list of parts and an optional inline body, both decoded. */
  datatype Payload = Payload(parts: Option<seq<MimePart>>, body: Option<string>)

  /** What `getEmailMessageBodyPlaintext` yields: a string, `undefined`, or a thrown TypeError. */
  datatype BodyText = Text(value: string) | Undefined | TypeError

  const PlainTextType := "text/plain"

  /**
   * `getEmailMessageBodyPlaintext` as written. Its loop counter is declared
   * `const`, so the loop inspects part 0 only and then throws at `i++`.
   */
  function BodyPlaintext(p: Payload): (r: BodyText)
    ensures p.parts.Some? && r.Text? ==> p.parts.value != [] && r.value == p.parts.value[0].data
    ensures p.parts.Some? ==> (r.TypeError? <==> p.parts.value != [] && p.parts.value[0].mimeType != PlainTextType)
    ensures p.parts.None? ==> r == if p.body.Some? then Text(StripTags(p.body.value)) else Undefined
  {
    match p.parts
    case Some(parts) =>
      if parts == [] then Undefined
      else if parts[0].mimeType == PlainTextType then Text(parts[0].data)
      else TypeError
    case None =>
      if p.body.Some? then Text(StripTags(p.body.value)) else Undefined
  }

  /** A plain-text part that comes after another part makes the loop throw instead of returning it. */
  lemma ConstCounterThrowsPastFirstPart()
    ensures BodyPlaintext(Payload(Some([MimePart("text/html", "<p>x</p>"), MimePart(PlainTextType, "x")]), None)) == TypeError
  {
  }

  predicate IsFirstPlainText(parts: seq<MimePart>, k: int) {
    && 0 <= k < |parts| && parts[k].mimeType == PlainTextType
    && forall j :: 0 <= j < k ==> parts[j].mimeType != PlainTextType
  }

  /**
   * `getEmailMessageBodyPlaintext` as evidently intended (a mutable loop
   * counter): the first text/plain part, scanning every part.
   */
  method PlaintextOf(p: Payload) returns (r: BodyText)
    ensures r != TypeError
    ensures p.parts.Some? ==> (r.Text? <==> exists k :: 0 <= k < |p.parts.value| && p.parts.value[k].mimeType == PlainTextType)
    ensures p.parts.Some? && r.Text? ==> exists k :: IsFirstPlainText(p.parts.value, k) && r.value == p.parts.value[k].data
    ensures p.parts.None? ==> r == if p.body.Some? then Text(StripTags(p.body.value)) else Undefined
    ensures BodyPlaintext(p) != TypeError ==> r == BodyPlaintext(p)
  {
    if p.parts.Some? {
      var parts := p.parts.value;
      var i := 0;
      while i < |parts|
        invariant 0 <= i <= |parts|
        invariant forall j :: 0 <= j < i ==> parts[j].mimeType != PlainTextType
      {
        if parts[i].mimeType == PlainTextType {
          assert IsFirstPlainText(parts, i);
          return Text(parts[i].data);
        }
        i := i + 1;
      }
      r := Undefined;
    } else if p.body.Some? {
      r := Text(StripTags(p.body.value));
    } else {
      r := Undefined;
    }
  }
}
