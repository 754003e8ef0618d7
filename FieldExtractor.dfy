/**
 * Field extraction from recognised licence text.
 *
 * `GetInfoArrRaw` picks six raw lines out of one OCR result (name+birth, the same again,
 * address, issue, validity, number); `FormatFromLines` turns one aligned set of such lines
 * into the six final fields (name, birth, address, issue, validity, number).
 *
 * NFKC normalisation and the CJK date/line patterns are uninterpreted (`TextRules`); the
 * literal-token steps in between (blank stripping, label and prefix removal, the era cut,
 * the five-digit code, the digits-only number) are written out with java.util.regex's
 * leftmost, left-to-right semantics.
 */
module FieldExtractor {
  import opened Wrappers
  import opened KotlinText

  /** A match range `[start, end)` (`range.first`, `range.last + 1`). */
  datatype Span = Span(start: nat, end: nat)

  /**
   * The uninterpreted parts: NFKC normalisation; the finds of the seven raw-line patterns,
   * each giving the leftmost match's text (`find(text)?.value`); and the formatter's
   * DATE_ANY, giving the leftmost match's range.
   */
  datatype TextRules = TextRules(
    nfkc: string -> string,
    nameBirth: string -> Option<string>,
    nameOnly: string -> Option<string>,
    birthOnly: string -> Option<string>,
    address: string -> Option<string>,
    issue: string -> Option<string>,
    validity: string -> Option<string>,
    number: string -> Option<string>,
    dateAny: string -> Option<Span>)

  /** A regex match range lies inside the searched string (DATE_ANY never matches ""). */
  ghost predicate DatesInBounds(rules: TextRules) {
    forall s :: rules.dateAny(s).Some? ==>
      rules.dateAny(s).value.start < rules.dateAny(s).value.end <= |s|
  }

  // ---------------------------------------------------------------- getInfoArrRaw

  /** Kotlin `replace(old, new)` on a single character. */
  function ReplaceChar(s: string, from: char, to: char): (r: string)
    ensures |r| == |s|
    ensures forall k :: 0 <= k < |s| ==> r[k] == (if s[k] == from then to else s[k])
    ensures from != to ==> from !in r
  {
    seq(|s|, k requires 0 <= k < |s| => if s[k] == from then to else s[k])
  }

  /** A character absent from `s` is absent from its trim, which is an infix of `s`. */
  lemma TrimKeepsAbsent(s: string, c: char)
    requires c !in s
    ensures c !in Trim(s)
  {
    TrimInfix(s);
  }

  /** The text every raw pattern searches: NFKC, no-break spaces made plain, both bars dropped, trimmed. */
  function CleanText(rules: TextRules, raw: string): (text: string)
    ensures |text| <= |rules.nfkc(raw)|
    ensures Trimmed(text)
  {
    Trim(Keep(ReplaceChar(rules.nfkc(raw), '\U{00A0}', ' '), IsNotBar))
  }

  predicate IsNotBar(c: char) {
    c != '|' && c != '｜'
  }

  /** The cleaned text has no no-break space and no bar, and no blank at either end. */
  lemma CleanTextIsClean(rules: TextRules, raw: string)
    ensures var text := CleanText(rules, raw);
      && '\U{00A0}' !in text && '|' !in text && '｜' !in text
      && Trimmed(text)
  {
    var spaced := ReplaceChar(rules.nfkc(raw), '\U{00A0}', ' ');
    var unbarred := Keep(spaced, IsNotBar);
    KeepFrom(spaced, IsNotBar);
    TrimKeepsAbsent(unbarred, '\U{00A0}');
    TrimKeepsAbsent(unbarred, '|');
    TrimKeepsAbsent(unbarred, '｜');
  }

  /** Slot 0 (and 1): the combined match, else both single-line matches joined, else "". */
  function NameBirthLine(rules: TextRules, text: string): (line: string)
    ensures rules.nameBirth(text).GetOr("") != "" ==> line == rules.nameBirth(text).value
    ensures line != "" <==>
      rules.nameBirth(text).GetOr("") != "" || (rules.nameOnly(text).Some? && rules.birthOnly(text).Some?)
    ensures rules.nameBirth(text).GetOr("") == "" && rules.nameOnly(text).Some? && rules.birthOnly(text).Some? ==>
      line == Trim(rules.nameOnly(text).value) + " " + Trim(rules.birthOnly(text).value)
  {
    var combined := rules.nameBirth(text).GetOr("");
    if combined != "" then combined
    else if rules.nameOnly(text).Some? && rules.birthOnly(text).Some? then
      Trim(rules.nameOnly(text).value) + " " + Trim(rules.birthOnly(text).value)
    else ""
  }

  /** The six raw lines found in the cleaned text, a missing match giving "". */
  function RawLines(rules: TextRules, text: string): (r: seq<string>)
    ensures |r| == 6 && r[0] == r[1]
    ensures r[0] == NameBirthLine(rules, text)
    ensures r[2] == rules.address(text).GetOr("") && r[3] == rules.issue(text).GetOr("")
    ensures r[4] == rules.validity(text).GetOr("") && r[5] == rules.number(text).GetOr("")
  {
    var line1 := NameBirthLine(rules, text);
    [line1, line1,
     rules.address(text).GetOr(""),
     rules.issue(text).GetOr(""),
     rules.validity(text).GetOr(""),
     rules.number(text).GetOr("")]
  }

  /** `getInfoArrRaw`: the raw lines of the cleaned recognised text; slot 1 copies slot 0. */
  function GetInfoArrRaw(rules: TextRules, raw: string): (r: seq<string>)
    ensures |r| == 6 && r[0] == r[1]
    ensures r == RawLines(rules, CleanText(rules, raw))
  {
    RawLines(rules, CleanText(rules, raw))
  }

  // ---------------------------------------------------------------- formatFromLines

  /** `lines.getOrNull(i).orEmpty()`. */
  function LineAt(lines: seq<string>, i: nat): string {
    if i < |lines| then lines[i] else ""
  }

  /** The four dash characters the cleaner folds to '-': U+30FC, U+2212, U+2015, U+FF0D. */
  predicate IsDash(c: char) {
    c == 'ー' || c == '−' || c == '―' || c == '－'
  }

  /** `replace(Regex("[ー−―－]"), "-")`: each dash becomes '-', every other character stays. */
  function FoldDashes(n: string): (f: string)
    ensures |f| == |n|
    ensures forall k :: 0 <= k < |n| ==> f[k] == (if IsDash(n[k]) then '-' else n[k])
    ensures forall k :: 0 <= k < |f| ==> !IsDash(f[k])
  {
    seq(|n|, k requires 0 <= k < |n| => if IsDash(n[k]) then '-' else n[k])
  }

  /**
   * `preClean`: NFKC, dashes folded to '-', then every `\s` removed, the rest kept in order;
   * no dash and no `\s` is left.
   */
  function PreClean(rules: TextRules, raw: string): (t: string)
    ensures t == Keep(FoldDashes(rules.nfkc(raw)), IsNotRegexSpace)
    ensures forall k :: 0 <= k < |t| ==> !IsRegexSpace(t[k]) && !IsDash(t[k])
  {
    var folded := FoldDashes(rules.nfkc(raw));
    assert forall c :: c in folded ==> !IsDash(c);
    KeepFrom(folded, IsNotRegexSpace);
    Keep(folded, IsNotRegexSpace)
  }

  /** The first index at or after `i` not in `\s` (the greedy `\s*`). */
  function SkipSpaces(s: string, i: nat): (e: nat)
    requires i <= |s|
    ensures i <= e <= |s| && (e == |s| || !IsRegexSpace(s[e]))
    ensures forall k :: i <= k < e ==> IsRegexSpace(s[k])
    decreases |s| - i
  {
    if i < |s| && IsRegexSpace(s[i]) then SkipSpaces(s, i + 1) else i
  }

  /** Just after the last line terminator before `q`, or 0: where `.*?` reaching `q` can start. */
  function LineStart(s: string, q: nat): (p: nat)
    requires q <= |s|
    ensures p <= q
    ensures p == 0 || IsLineTerminator(s[p - 1])
    ensures forall k :: p <= k < q ==> !IsLineTerminator(s[k])
    decreases q
  {
    if q == 0 || IsLineTerminator(s[q - 1]) then q else LineStart(s, q - 1)
  }

  /**
   * The leftmost match of `.*?氏名\s*[:：]?`. It starts at the beginning of the line that
   * holds the first 氏名 (no earlier start can reach a 氏名 without crossing a line
   * terminator), and runs past that 氏名, the blanks after it and one optional colon.
   */
  function NameLabel(s: string): (m: Option<Span>)
    ensures m.Some? <==> Contains(s, "氏名")
    ensures m.Some? ==>
      var q := IndexOf(s, "氏名").value;
      && m.value.start <= q && q + 2 <= m.value.end <= |s|
      && (m.value.start == 0 || IsLineTerminator(s[m.value.start - 1]))
      && (forall k :: m.value.start <= k < q ==> !IsLineTerminator(s[k]))
      && (forall k :: q + 2 <= k < m.value.end - 1 ==> IsRegexSpace(s[k]))
    ensures m.Some? ==>
      var j := SkipSpaces(s, IndexOf(s, "氏名").value + 2);
      m.value.end == if j < |s| && (s[j] == ':' || s[j] == '：') then j + 1 else j
  {
    match IndexOf(s, "氏名")
    case None => None
    case Some(q) =>
      var e := SkipSpaces(s, q + 2);
      var e' := if e < |s| && (s[e] == ':' || s[e] == '：') then e + 1 else e;
      Some(Span(LineStart(s, q), e'))
  }

  /** `replaceFirst(Regex(".*?氏名\\s*[:：]?"), "")`. */
  function StripNameLabel(s: string): (r: string)
    ensures !Contains(s, "氏名") ==> r == s
    ensures Contains(s, "氏名") ==> |r| + 2 <= |s|
    ensures Contains(s, "氏名") ==> r == s[..NameLabel(s).value.start] + s[NameLabel(s).value.end..]
  {
    match NameLabel(s)
    case None => s
    case Some(m) => s[..m.start] + s[m.end..]
  }

  /** One of the three era names starts at `e`. */
  predicate EraAt(s: string, e: nat) {
    e + 2 <= |s| &&
    ((s[e] == '昭' && s[e + 1] == '和') || (s[e] == '平' && s[e + 1] == '成') || (s[e] == '令' && s[e + 1] == '和'))
  }

  /** The first line terminator at or after `i`, or `|s|`: where the greedy `.*` stops. */
  function LineEnd(s: string, i: nat): (m: nat)
    requires i <= |s|
    ensures i <= m <= |s| && (m == |s| || IsLineTerminator(s[m]))
    ensures forall k :: i <= k < m ==> !IsLineTerminator(s[k])
    decreases |s| - i
  {
    if i == |s| || IsLineTerminator(s[i]) then i else LineEnd(s, i + 1)
  }

  /** Where a non-multiline `$` matches: the end, or before a final terminator or "\r\n". */
  predicate DollarAt(s: string, m: nat) {
    m == |s|
    || (m + 1 == |s| && IsLineTerminator(s[m]))
    || (m + 2 == |s| && s[m] == '\r' && s[m + 1] == '\n')
  }

  /** `(昭和|平成|令和).*$` matches at `e`. */
  predicate EraTailAt(s: string, e: nat) {
    EraAt(s, e) && DollarAt(s, LineEnd(s, e + 2))
  }

  /**
   * `replace(Regex("(昭和|平成|令和).*$"), "")`: the leftmost era name whose line is the
   * last one is cut off together with the rest of that line. Only one match is possible.
   */
  function CutEra(s: string): (r: string)
    ensures (forall e: nat :: !EraTailAt(s, e)) ==> r == s
    ensures forall e: nat :: EraTailAt(s, e) && (forall j: nat :: j < e ==> !EraTailAt(s, j)) ==>
      r == s[..e] + s[LineEnd(s, e + 2)..]
  {
    var p := (e: nat) => EraTailAt(s, e);
    assert forall e: nat :: p(e) == EraTailAt(s, e);
    match FirstFrom(0, |s|, p)
    case None => s
    case Some(e) => s[..e] + s[LineEnd(s, e + 2)..]
  }

  predicate IsNotBirthMark(c: char) {
    c != '生'
  }

  /**
   * `(name, birth)`: both "" unless the line has the 氏名 label and a date follows it; then
   * the line after the label splits at the first date: the name is what precedes it (era
   * tail cut), the birth date is the date's text without 生, both trimmed.
   */
  function NameAndBirth(rules: TextRules, l1: string): (nb: (string, string))
    requires DatesInBounds(rules)
    ensures !Contains(l1, "氏名") ==> nb == ("", "")
    ensures Contains(l1, "氏名") && rules.dateAny(Trim(StripNameLabel(l1))).None? ==> nb == ("", "")
    ensures Contains(l1, "氏名") && rules.dateAny(Trim(StripNameLabel(l1))).Some? ==>
      var body := Trim(StripNameLabel(l1));
      var dm := rules.dateAny(body).value;
      && nb.0 == Trim(CutEra(body[..dm.start]))
      && nb.1 == Trim(Keep(DateText(rules, body), IsNotBirthMark))
    ensures '生' !in nb.1
    ensures Trimmed(nb.0) && Trimmed(nb.1)
  {
    if Contains(l1, "氏名") then
      var body := Trim(StripNameLabel(l1));
      match rules.dateAny(body)
      case None => ("", "")
      case Some(dm) =>
        var birthText := Keep(body[dm.start..dm.end], IsNotBirthMark);
        TrimKeepsAbsent(birthText, '生');
        (Trim(CutEra(body[..dm.start])), Trim(birthText))
    else ("", "")
  }

  /** `[交文]付` occurs at `i`. */
  predicate IssueMarkAt(s: string, i: nat) {
    i + 2 <= |s| && (s[i] == '交' || s[i] == '文') && s[i + 1] == '付'
  }

  /**
   * `replace(Regex("[交文]付"), "")`: one left-to-right pass, dropping each mark found. The
   * result keeps the input's characters in order, and a line without a mark is unchanged.
   */
  function RemoveIssueMarks(s: string): (r: string)
    ensures |r| <= |s|
    ensures forall c :: c in r ==> c in s
    ensures IsSubsequence(r, s)
    ensures (forall i: nat :: !IssueMarkAt(s, i)) ==> r == s
    decreases |s|
  {
    if |s| >= 2 && (s[0] == '交' || s[0] == '文') && s[1] == '付' then
      assert IssueMarkAt(s, 0);
      SubsequenceOfSuffix(RemoveIssueMarks(s[2..]), s, 2);
      RemoveIssueMarks(s[2..])
    else if s == [] then []
    else
      var rest := RemoveIssueMarks(s[1..]);
      assert forall c :: c in rest ==> c in s[1..];
      assert forall i: nat :: IssueMarkAt(s[1..], i) ==> IssueMarkAt(s, i + 1);
      assert ([s[0]] + rest)[1..] == rest;
      [s[0]] + rest
  }

  /** A run of exactly five ASCII digits, with no digit just before or just after it. */
  predicate FiveDigitRunAt(s: string, i: nat) {
    && i + 5 <= |s|
    && (forall k :: i <= k < i + 5 ==> IsRegexDigit(s[k]))
    && (i == 0 || !IsRegexDigit(s[i - 1]))
    && (i + 5 == |s| || !IsRegexDigit(s[i + 5]))
  }

  /** `Regex("(?<!\\d)\\d{5}(?!\\d)").find(s)?.value.orEmpty()`: the leftmost such run. */
  function FiveDigitCode(s: string): (code: string)
    ensures code != "" <==> exists i: nat :: FiveDigitRunAt(s, i)
    ensures code != "" ==> |code| == 5 && forall k :: 0 <= k < 5 ==> IsRegexDigit(code[k])
    ensures code != "" ==> exists i: nat :: FiveDigitRunAt(s, i) && code == s[i..i + 5]
                                    && forall j: nat :: j < i ==> !FiveDigitRunAt(s, j)
  {
    var p := (i: nat) => FiveDigitRunAt(s, i);
    assert forall i: nat :: p(i) == FiveDigitRunAt(s, i);
    match FirstFrom(0, |s|, p)
    case None => ""
    case Some(i) => s[i..i + 5]
  }

  /** `DATE_ANY.find(s)?.value ?: ""`: the text of the leftmost date, or "". */
  function DateText(rules: TextRules, s: string): (d: string)
    requires DatesInBounds(rules)
    ensures rules.dateAny(s).None? ==> d == ""
    ensures rules.dateAny(s).Some? ==> d != "" && OccursAt(s, d, rules.dateAny(s).value.start)
  {
    match rules.dateAny(s)
    case None => ""
    case Some(dm) => s[dm.start..dm.end]
  }

  /**
   * The issue field: the date of line 3 (marks removed), followed by `(code)` exactly when
   * both a date and a five-digit code are found there.
   */
  function IssueField(rules: TextRules, l3: string): (issue: string)
    requires DatesInBounds(rules)
    ensures var s := RemoveIssueMarks(l3); var d := DateText(rules, s); var code := FiveDigitCode(s);
      && (issue == "" <==> rules.dateAny(s).None?)
      && |d| <= |issue| && issue[..|d|] == d
      && (|issue| > |d| <==> d != "" && code != "")
      && (|issue| > |d| ==> issue[|d|..] == "(" + code + ")")
  {
    var s := RemoveIssueMarks(l3);
    var dateOnly := DateText(rules, s);
    var code := FiveDigitCode(s);
    if dateOnly != "" && code != "" then
      var tail := "(" + code + ")";
      assert (dateOnly + tail)[..|dateOnly|] == dateOnly && (dateOnly + tail)[|dateOnly|..] == tail;
      dateOnly + tail
    else
      assert dateOnly[..|dateOnly|] == dateOnly;
      dateOnly
  }

  predicate IsKouChar(c: char) {
    c == '効' || c == '效'
  }

  /** `まで[有領]?[効效]` occurs at `i`. */
  predicate ValidityMarkAt(s: string, i: nat) {
    && i + 3 <= |s| && s[i] == 'ま' && s[i + 1] == 'で'
    && (IsKouChar(s[i + 2]) || (i + 4 <= |s| && (s[i + 2] == '有' || s[i + 2] == '領') && IsKouChar(s[i + 3])))
  }

  /**
   * `replace(Regex("まで[有領]?[効效]"), "")`: one left-to-right pass. The result keeps the
   * input's characters in order, and a line without a mark is unchanged.
   */
  function RemoveValidityMarks(s: string): (r: string)
    ensures |r| <= |s|
    ensures forall c :: c in r ==> c in s
    ensures IsSubsequence(r, s)
    ensures (forall i: nat :: !ValidityMarkAt(s, i)) ==> r == s
    decreases |s|
  {
    if |s| >= 4 && s[0] == 'ま' && s[1] == 'で' && (s[2] == '有' || s[2] == '領') && (s[3] == '効' || s[3] == '效') then
      assert ValidityMarkAt(s, 0);
      SubsequenceOfSuffix(RemoveValidityMarks(s[4..]), s, 4);
      RemoveValidityMarks(s[4..])
    else if |s| >= 3 && s[0] == 'ま' && s[1] == 'で' && (s[2] == '効' || s[2] == '效') then
      assert ValidityMarkAt(s, 0);
      SubsequenceOfSuffix(RemoveValidityMarks(s[3..]), s, 3);
      RemoveValidityMarks(s[3..])
    else if s == [] then []
    else
      var rest := RemoveValidityMarks(s[1..]);
      assert forall c :: c in rest ==> c in s[1..];
      assert forall i: nat :: ValidityMarkAt(s[1..], i) ==> ValidityMarkAt(s, i + 1);
      assert ([s[0]] + rest)[1..] == rest;
      [s[0]] + rest
  }

  /** The first character followed by the next `i - 1` is the first `i`. */
  lemma PrefixCons(s: string, i: nat, rest: string)
    requires 0 < i <= |s|
    ensures [s[0]] + (s[1..][..i - 1] + rest) == s[..i] + rest
  {
    assert [s[0]] + s[1..][..i - 1] == s[..i];
  }

  /** A mark at the front is dropped; any other first character is kept. */
  lemma RemoveIssueMarksStep(s: string)
    requires s != []
    ensures IssueMarkAt(s, 0) ==> RemoveIssueMarks(s) == RemoveIssueMarks(s[2..])
    ensures !IssueMarkAt(s, 0) ==> RemoveIssueMarks(s) == [s[0]] + RemoveIssueMarks(s[1..])
  {
  }

  /**
   * At the leftmost issue mark the pass keeps everything before it, drops the two mark
   * characters and goes on after them.
   */
  lemma {:induction false} RemoveIssueMarksAtLeftmost(s: string, i: nat)
    requires IssueMarkAt(s, i) && forall j: nat :: j < i ==> !IssueMarkAt(s, j)
    ensures RemoveIssueMarks(s) == s[..i] + RemoveIssueMarks(s[i + 2..])
  {
    RemoveIssueMarksStep(s);
    if i == 0 {
      assert s[..i] + RemoveIssueMarks(s[i + 2..]) == RemoveIssueMarks(s[2..]);
    } else {
      var t := s[1..];
      assert !IssueMarkAt(s, 0);
      assert IssueMarkAt(t, i - 1);
      forall j: nat | j < i - 1
        ensures !IssueMarkAt(t, j)
      {
        assert !IssueMarkAt(s, j + 1);
      }
      RemoveIssueMarksAtLeftmost(t, i - 1);
      var rest := RemoveIssueMarks(s[i + 2..]);
      assert t[i - 1 + 2..] == s[i + 2..];
      assert RemoveIssueMarks(t) == t[..i - 1] + rest;
      PrefixCons(s, i, rest);
    }
  }

  /** The length of the validity mark at `i`: 4 with 有 or 領 before the 効, 3 without. */
  function ValidityMarkLength(s: string, i: nat): (n: nat)
    requires ValidityMarkAt(s, i)
    ensures n == 3 || n == 4
    ensures i + n <= |s|
  {
    if i + 4 <= |s| && (s[i + 2] == '有' || s[i + 2] == '領') && IsKouChar(s[i + 3]) then 4 else 3
  }

  /**
   * At the leftmost validity mark the pass keeps everything before it, drops the longest
   * mark there (the optional 有/領 is greedy) and goes on after it.
   */
  lemma RemoveValidityMarksStep(s: string)
    requires s != []
    ensures ValidityMarkAt(s, 0) ==> RemoveValidityMarks(s) == RemoveValidityMarks(s[ValidityMarkLength(s, 0)..])
    ensures !ValidityMarkAt(s, 0) ==> RemoveValidityMarks(s) == [s[0]] + RemoveValidityMarks(s[1..])
  {
  }

  /** Dropping the first character moves the leftmost validity mark one place left. */
  lemma ValidityMarkShift(s: string, i: nat)
    requires 0 < i && ValidityMarkAt(s, i) && forall j: nat :: j < i ==> !ValidityMarkAt(s, j)
    ensures !ValidityMarkAt(s, 0)
    ensures ValidityMarkAt(s[1..], i - 1) && forall j: nat :: j < i - 1 ==> !ValidityMarkAt(s[1..], j)
    ensures ValidityMarkLength(s[1..], i - 1) == ValidityMarkLength(s, i)
  {
    forall j: nat | j < i - 1
      ensures !ValidityMarkAt(s[1..], j)
    {
      assert !ValidityMarkAt(s, j + 1);
    }
  }

  lemma {:induction false} RemoveValidityMarksAtLeftmost(s: string, i: nat)
    requires ValidityMarkAt(s, i) && forall j: nat :: j < i ==> !ValidityMarkAt(s, j)
    ensures RemoveValidityMarks(s) == s[..i] + RemoveValidityMarks(s[i + ValidityMarkLength(s, i)..])
  {
    RemoveValidityMarksStep(s);
    var n := ValidityMarkLength(s, i);
    if i == 0 {
      assert s[..i] + RemoveValidityMarks(s[i + n..]) == RemoveValidityMarks(s[n..]);
    } else {
      var t := s[1..];
      ValidityMarkShift(s, i);
      RemoveValidityMarksAtLeftmost(t, i - 1);
      var rest := RemoveValidityMarks(s[i + n..]);
      assert t[i - 1 + n..] == s[i + n..];
      assert RemoveValidityMarks(t) == t[..i - 1] + rest;
      PrefixCons(s, i, rest);
    }
  }

  /** The number field: `replace("第","")`, `replace("号","")`, then every `\D` removed. */
  function NumberField(l5: string): (no: string)
    ensures no == Keep(l5, IsRegexDigit)
  {
    var a := Keep(l5, c => c != '第');
    KeepAbsorbed(a, c => c != '号', IsRegexDigit);
    KeepAbsorbed(l5, c => c != '第', IsRegexDigit);
    Keep(Keep(a, c => c != '号'), IsRegexDigit)
  }

  /**
   * The list of six strings `formatFromLines` returns, as a record: `At(i)` is the list's
   * element `i`.
   */
  datatype Formatted = Formatted(name: string, birth: string, addr: string, issue: string, valid: string, no: string)
  {
    function At(i: nat): string
      requires i < FIELD_COUNT
    {
      match i
      case 0 => name
      case 1 => birth
      case 2 => addr
      case 3 => issue
      case 4 => valid
      case _ => no
    }
  }

  const FIELD_COUNT: nat := 6

  /** `formatFromLines`: each field read from its own cleaned line; slot 1 is never read. */
  function FormatFromLines(rules: TextRules, lines: seq<string>): (r: Formatted)
    requires DatesInBounds(rules)
    ensures (r.name, r.birth) == NameAndBirth(rules, PreClean(rules, LineAt(lines, 0)))
    ensures !Contains(PreClean(rules, LineAt(lines, 0)), "氏名") ==> r.name == "" && r.birth == ""
    ensures '生' !in r.birth && Trimmed(r.name) && Trimmed(r.birth)
    ensures r.addr == RemovePrefix(PreClean(rules, LineAt(lines, 2)), "住所")
    ensures r.issue == IssueField(rules, PreClean(rules, LineAt(lines, 3)))
    ensures r.valid == RemoveValidityMarks(PreClean(rules, LineAt(lines, 4)))
    ensures r.no == Keep(PreClean(rules, LineAt(lines, 5)), IsRegexDigit)
    ensures forall k :: 0 <= k < |r.no| ==> IsRegexDigit(r.no[k])
  {
    var nb := NameAndBirth(rules, PreClean(rules, LineAt(lines, 0)));
    Formatted(nb.0, nb.1,
              RemovePrefix(PreClean(rules, LineAt(lines, 2)), "住所"),
              IssueField(rules, PreClean(rules, LineAt(lines, 3))),
              RemoveValidityMarks(PreClean(rules, LineAt(lines, 4))),
              NumberField(PreClean(rules, LineAt(lines, 5))))
  }

  /** The label match swallows whatever precedes 氏名 on its line, then the colon. */
  lemma StripNameLabelExample()
    ensures StripNameLabel("番号氏名：山田") == "山田"
  {
    var s := "番号氏名：山田";
    assert s[0..2][0] == '番' && s[1..3][0] == '号';
    assert !OccursAt(s, "氏名", 0) && !OccursAt(s, "氏名", 1);
    assert s[2..4] == "氏名";
    assert OccursAt(s, "氏名", 2);
    assert IndexOf(s, "氏名") == Some(2);
    assert LineStart(s, 2) == 0 && SkipSpaces(s, 4) == 4;
    assert NameLabel(s) == Some(Span(0, 5));
  }

  /** None of the characters of `s` is a `\s` character, a dash or a line terminator. */
  predicate Solid(s: string) {
    forall k :: 0 <= k < |s| ==> !IsRegexSpace(s[k]) && !IsDash(s[k]) && !IsLineTerminator(s[k])
  }

  /** Without dashes, cleaning a line only drops its `\s` characters. */
  lemma PreCleanWithoutDashes(rules: TextRules, raw: string)
    requires forall k :: 0 <= k < |rules.nfkc(raw)| ==> !IsDash(rules.nfkc(raw)[k])
    ensures PreClean(rules, raw) == Keep(rules.nfkc(raw), IsNotRegexSpace)
  {
    var n := rules.nfkc(raw);
    assert FoldDashes(n) == n;
  }

  /** The blanked name line `氏名 <name> <date> 生`. */
  function NameLineText(name: string, date: string): string {
    "氏名" + [' '] + name + [' '] + date + [' '] + "生"
  }

  lemma NameLineSolidParts(name: string, date: string)
    requires Solid(name) && Solid(date)
    ensures forall k :: 0 <= k < |NameLineText(name, date)| ==> !IsDash(NameLineText(name, date)[k])
  {
    var raw := NameLineText(name, date);
    forall k | 0 <= k < |raw|
      ensures !IsDash(raw[k])
    {
      if 3 <= k < 3 + |name| {
        assert raw[k] == name[k - 3];
      } else if 4 + |name| <= k < 4 + |name| + |date| {
        assert raw[k] == date[k - 4 - |name|];
      }
    }
  }

  lemma KeepLiteralParts()
    ensures Keep([' '], IsNotRegexSpace) == []
    ensures Keep("生", IsNotRegexSpace) == "生"
    ensures Keep("氏名", IsNotRegexSpace) == "氏名"
  {
    KeepAll("生", IsNotRegexSpace);
    KeepAll("氏名", IsNotRegexSpace);
  }

  /** Dropping the `\s` characters of the blanked name line closes it up. */
  lemma DropBlanksOfNameLine(name: string, date: string)
    requires Solid(name) && Solid(date)
    ensures Keep(NameLineText(name, date), IsNotRegexSpace) == "氏名" + name + date + "生"
  {
    var a, sp, g := "氏名", [' '], "生";
    KeepLiteralParts();
    KeepAll(name, IsNotRegexSpace);
    KeepAll(date, IsNotRegexSpace);
    KeepAppend(a, sp, IsNotRegexSpace);
    assert Keep(a + sp, IsNotRegexSpace) == a;
    KeepAppend(a + sp, name, IsNotRegexSpace);
    assert Keep(a + sp + name, IsNotRegexSpace) == a + name;
    KeepAppend(a + sp + name, sp, IsNotRegexSpace);
    assert Keep(a + sp + name + sp, IsNotRegexSpace) == a + name;
    KeepAppend(a + sp + name + sp, date, IsNotRegexSpace);
    assert Keep(a + sp + name + sp + date, IsNotRegexSpace) == a + name + date;
    KeepAppend(a + sp + name + sp + date, sp, IsNotRegexSpace);
    assert Keep(a + sp + name + sp + date + sp, IsNotRegexSpace) == a + name + date;
    KeepAppend(a + sp + name + sp + date + sp, g, IsNotRegexSpace);
  }

  /** Cleaning the blanked name line (a line NFKC leaves alone) closes up the blanks. */
  lemma PreCleanOfNameLine(rules: TextRules, name: string, date: string)
    requires Solid(name) && Solid(date)
    requires rules.nfkc(NameLineText(name, date)) == NameLineText(name, date)
    ensures PreClean(rules, NameLineText(name, date)) == "氏名" + name + date + "生"
  {
    NameLineSolidParts(name, date);
    PreCleanWithoutDashes(rules, NameLineText(name, date));
    DropBlanksOfNameLine(name, date);
  }

  /** The label of a cleaned name line is its first two characters. */
  lemma NameLabelOfNameLine(name: string, body: string)
    requires body != [] && !IsRegexSpace(body[0]) && body[0] != ':' && body[0] != '：'
    ensures Contains("氏名" + body, "氏名") && StripNameLabel("氏名" + body) == body
  {
    var l1 := "氏名" + body;
    assert l1[..2] == "氏名";
    assert OccursAt(l1, "氏名", 0);
    assert IndexOf(l1, "氏名") == Some(0);
    assert l1[2] == body[0];
    assert SkipSpaces(l1, 2) == 2;
    assert NameLabel(l1) == Some(Span(0, 2));
    assert l1[2..] == body;
  }

  /** Behind the label of a cleaned name line `氏名<name><date>生` lies `<name><date>生`. */
  lemma NameBodyOfNameLine(name: string, date: string)
    requires Solid(name) && name != [] && Trimmed(name) && name[0] != ':' && name[0] != '：'
    ensures var l1 := "氏名" + name + date + "生";
      Contains(l1, "氏名") && Trim(StripNameLabel(l1)) == name + date + "生"
  {
    var body := name + date + "生";
    assert "氏名" + name + date + "生" == "氏名" + body;
    assert body[0] == name[0] && body[|body| - 1] == '生';
    WideNotWhitespace('生');
    NameLabelOfNameLine(name, body);
    TrimNoOp(body);
  }

  /** The birth date of `<name><date>生` is `<date>` when the date pattern finds it there. */
  lemma BirthOfNameBody(rules: TextRules, name: string, date: string)
    requires DatesInBounds(rules) && Trimmed(date)
    requires forall k :: 0 <= k < |date| ==> date[k] != '生'
    requires rules.dateAny(name + date + "生") == Some(Span(|name|, |name| + |date|))
    ensures Trim(Keep(DateText(rules, name + date + "生"), IsNotBirthMark)) == date
  {
    var body := name + date + "生";
    assert body[|name|..|name| + |date|] == date;
    KeepAll(date, IsNotBirthMark);
    TrimNoOp(date);
  }

  /** The name before the date of `<name><date>生` is `<name>` when it holds no era name. */
  lemma NameOfNameBody(name: string, date: string)
    requires Trimmed(name) && forall e: nat :: !EraAt(name, e)
    ensures Trim(CutEra((name + date + "生")[..|name|])) == name
  {
    assert (name + date + "生")[..|name|] == name;
    assert CutEra(name) == name;
    TrimNoOp(name);
  }

  /**
   * A cleaned name line `氏名<name><date>生`, where the date pattern finds `<date>` right
   * after the name, yields exactly that name and that date.
   */
  lemma NameAndBirthOfNameLine(rules: TextRules, name: string, date: string)
    requires DatesInBounds(rules)
    requires Solid(name) && Solid(date) && name != [] && Trimmed(name) && Trimmed(date)
    requires name[0] != ':' && name[0] != '：'
    requires forall e: nat :: !EraAt(name, e)
    requires forall k :: 0 <= k < |date| ==> date[k] != '生'
    requires rules.dateAny(name + date + "生") == Some(Span(|name|, |name| + |date|))
    ensures NameAndBirth(rules, "氏名" + name + date + "生") == (name, date)
  {
    NameBodyOfNameLine(name, date);
    BirthOfNameBody(rules, name, date);
    NameOfNameBody(name, date);
  }

  /** The name and the date of the example line meet what `NameAndBirthOfNameLine` asks. */
  lemma ExampleNameAndDate(name: string, date: string)
    requires name == "山田太郎" && date == "昭和50年1月1日"
    ensures Solid(name) && Solid(date) && name != [] && Trimmed(name) && Trimmed(date)
    ensures name[0] != ':' && name[0] != '：'
    ensures forall e: nat :: !EraAt(name, e)
    ensures forall k :: 0 <= k < |date| ==> date[k] != '生'
    ensures NameLineText(name, date) == "氏名 山田太郎 昭和50年1月1日 生"
    ensures name + date + "生" == "山田太郎昭和50年1月1日生"
  {
    WideNotWhitespace('山');
    WideNotWhitespace('郎');
    WideNotWhitespace('昭');
    WideNotWhitespace('日');
  }

  /**
   * A licence name line: the blanks go, the label goes, and the line splits at the date into
   * the name and the birth date (生 dropped).
   */
  lemma NameAndBirthExample(rules: TextRules)
    requires DatesInBounds(rules)
    requires rules.nfkc("氏名 山田太郎 昭和50年1月1日 生") == "氏名 山田太郎 昭和50年1月1日 生"
    requires rules.dateAny("山田太郎昭和50年1月1日生") == Some(Span(4, 13))
    ensures var r := FormatFromLines(rules, ["氏名 山田太郎 昭和50年1月1日 生"]);
      r.name == "山田太郎" && r.birth == "昭和50年1月1日"
  {
    var name, date := "山田太郎", "昭和50年1月1日";
    ExampleNameAndDate(name, date);
    var lines := [NameLineText(name, date)];
    assert LineAt(lines, 0) == NameLineText(name, date);
    PreCleanOfNameLine(rules, name, date);
    NameAndBirthOfNameLine(rules, name, date);
  }

  /** The code is the leftmost run of exactly five digits. */
  lemma FiveDigitCodeFound()
    ensures FiveDigitCode("令和2年3月4日12345") == "12345"
  {
    var s := "令和2年3月4日12345";
    assert FiveDigitRunAt(s, 8);
    assert !IsRegexDigit(s[1]) && !IsRegexDigit(s[3]) && !IsRegexDigit(s[5]) && !IsRegexDigit(s[7]);
    assert forall j: nat :: j < 8 ==> !FiveDigitRunAt(s, j);
  }

  /** Six digits in a row, or four, hold no code. */
  lemma FiveDigitCodeAbsent()
    ensures FiveDigitCode("123456") == "" && FiveDigitCode("1234") == ""
  {
    assert !FiveDigitRunAt("123456", 0) && !FiveDigitRunAt("123456", 1);
  }

  /** The mark removal is one pass: a mark formed by a removal stays. */
  lemma RemoveIssueMarksOnePass()
    ensures RemoveIssueMarks("交交付付") == "交付"
  {
  }

  lemma RemoveValidityMarksExample()
    ensures RemoveValidityMarks("令和7年まで有効") == "令和7年"
  {
    var s := "令和7年まで有効";
    assert ValidityMarkAt(s, 4) && ValidityMarkLength(s, 4) == 4;
    assert forall j: nat :: j < 4 ==> !ValidityMarkAt(s, j);
    RemoveValidityMarksAtLeftmost(s, 4);
    assert s[8..] == [];
    assert s[..4] == "令和7年";
  }

  /** An era name on the last line is cut together with the rest of that line. */
  lemma CutEraExample()
    ensures CutEra("山田令和") == "山田"
  {
    var s := "山田令和";
    assert EraTailAt(s, 2) && !EraAt(s, 0) && !EraAt(s, 1);
  }

  /** Input slot 1 (the copy of slot 0) plays no part in the result. */
  lemma FormatIgnoresSlot1(rules: TextRules, lines: seq<string>, x: string)
    requires DatesInBounds(rules) && 1 < |lines|
    ensures FormatFromLines(rules, lines[1 := x]) == FormatFromLines(rules, lines)
  {
    assert forall i: nat :: i != 1 ==> LineAt(lines[1 := x], i) == LineAt(lines, i);
  }

  /** A missing line reads as "": the result only sees the first six lines, padded with "". */
  lemma FormatPadsWithEmpty(rules: TextRules, lines: seq<string>)
    requires DatesInBounds(rules)
    ensures FormatFromLines(rules, lines) ==
      FormatFromLines(rules, seq(FIELD_COUNT, i requires 0 <= i => LineAt(lines, i)))
  {
    var padded := seq(FIELD_COUNT, i requires 0 <= i => LineAt(lines, i));
    assert forall i: nat :: i < FIELD_COUNT ==> LineAt(padded, i) == LineAt(lines, i);
  }
}
