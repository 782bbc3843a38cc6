/**
 * The four text extractors of the quiz program: the title (first line,
 * stripped) and the three `re.findall` passes for questions, answer options
 * and the correct-answer key.
 *
 * Each `re.findall` is modelled as a left-to-right scanner over positions of
 * the whole text: at position `p` the pattern is tried; on a match the item
 * is kept and scanning resumes at the end of the match, otherwise at `p + 1`.
 * None of the three patterns can match a newline, and the two patterns that
 * end in `[^\n]+` consume the rest of the line, which is what makes them
 * yield at most one item per line.
 */
module Extract {
  import opened Wrappers
  import opened Chars

  // ---------------------------------------------------------------------------
  // Title: text.splitlines()[0].strip()
  // ---------------------------------------------------------------------------

  /** The first position at or after `p` that holds a `splitlines` line boundary, or the end. */
  function LineBoundaryFrom(s: string, p: nat): (e: nat)
    requires p <= |s|
    ensures p <= e <= |s|
    ensures e == |s| || IsLineBoundary(s[e])
    ensures forall k :: p <= k < e ==> !IsLineBoundary(s[k])
    decreases |s| - p
  {
    if p == |s| || IsLineBoundary(s[p]) then p else LineBoundaryFrom(s, p + 1)
  }

  /** `text.splitlines()[0]` for a non-empty text: the text up to its first line boundary. */
  function FirstLine(text: string): (line: string)
    requires text != []
    ensures |line| <= |text| && line == text[..|line|]
    ensures |line| == |text| || IsLineBoundary(text[|line|])
    ensures forall k :: 0 <= k < |line| ==> !IsLineBoundary(line[k])
  {
    text[..LineBoundaryFrom(text, 0)]
  }

  /** Every character of `s` from index `lo` up to `hi` is whitespace. */
  predicate SpacesIn(s: string, lo: nat, hi: nat)
    requires lo <= hi <= |s|
  {
    forall k :: lo <= k < hi ==> IsSpace(s[k])
  }

  /** The first index at or after `p` that does not hold whitespace, or the end. */
  function StripStart(s: string, p: nat): (i: nat)
    requires p <= |s|
    ensures p <= i <= |s| && SpacesIn(s, p, i)
    ensures i < |s| ==> !IsSpace(s[i])
    decreases |s| - p
  {
    if p < |s| && IsSpace(s[p]) then StripStart(s, p + 1) else p
  }

  /** The index just after the last character below `e` that is not whitespace, or `lo`. */
  function StripEnd(s: string, lo: nat, e: nat): (j: nat)
    requires lo <= e <= |s|
    ensures lo <= j <= e && SpacesIn(s, j, e)
    ensures j > lo ==> !IsSpace(s[j - 1])
    decreases e
  {
    if e > lo && IsSpace(s[e - 1]) then StripEnd(s, lo, e - 1) else e
  }

  /**
   * `r` is what `str.strip` makes of `s`: `s` is whitespace, then `r`, then
   * whitespace, and `r` neither starts nor ends with whitespace.
   */
  ghost predicate IsStripOf(s: string, r: string) {
    && (r == [] || (!IsSpace(r[0]) && !IsSpace(r[|r| - 1])))
    && exists i: nat :: StripsAt(s, r, i)
  }

  /** `s` is whitespace, then `r` from index `i` on, then whitespace. */
  predicate StripsAt(s: string, r: string, i: nat) {
    i + |r| <= |s| && s[i..i + |r|] == r && SpacesIn(s, 0, i) && SpacesIn(s, i + |r|, |s|)
  }

  /** Every character of a slice occurs in the sequence. */
  lemma SliceMembers(s: string, i: nat, e: nat)
    requires i <= e <= |s|
    ensures forall c :: c in s[i..e] ==> c in s
  {
    forall c | c in s[i..e] ensures c in s {
      var k :| 0 <= k < e - i && s[i..e][k] == c;
      assert s[i + k] == c;
    }
  }

  /** Python's `str.strip()` with no argument. */
  function Strip(s: string): (r: string)
    ensures IsStripOf(s, r)
    ensures forall c :: c in r ==> c in s
  {
    var i := StripStart(s, 0);
    var j := StripEnd(s, i, |s|);
    var r := s[i..j];
    assert r != [] ==> r[0] == s[i] && r[|r| - 1] == s[j - 1];
    assert StripsAt(s, r, i);
    SliceMembers(s, i, j);
    r
  }

  /** In a decomposition at index `i`, the characters of `r` are those of `s` from `i` on. */
  lemma StripAt(s: string, r: string, i: nat)
    requires StripsAt(s, r, i)
    ensures forall k :: 0 <= k < |r| ==> s[i + k] == r[k]
  {
    forall k | 0 <= k < |r| ensures s[i + k] == r[k] {
      assert s[i..i + |r|][k] == s[i + k];
    }
  }

  /** `str.strip` has exactly one result: `IsStripOf` determines it. */
  lemma StripUnique(s: string, r1: string, r2: string)
    requires IsStripOf(s, r1) && IsStripOf(s, r2)
    ensures r1 == r2
  {
    var i1: nat :| StripsAt(s, r1, i1);
    var i2: nat :| StripsAt(s, r2, i2);
    StripAt(s, r1, i1);
    StripAt(s, r2, i2);
    if r1 != [] {
      assert s[i1] == r1[0] && s[i1 + (|r1| - 1)] == r1[|r1| - 1];
    }
    if r2 != [] {
      assert s[i2] == r2[0] && s[i2 + (|r2| - 1)] == r2[|r2| - 1];
    }
    if r1 != [] && r2 != [] {
      assert i1 == i2 && |r1| == |r2|;
      forall k | 0 <= k < |r1| ensures r1[k] == r2[k] {
        assert r1[k] == s[i1 + k];
      }
    }
  }

  /** `parse_title`: None stands for the IndexError of `splitlines()[0]` on an empty text. */
  function ParseTitle(text: string): (r: Option<string>)
    ensures r.None? <==> text == []
    ensures r.Some? ==> IsStripOf(FirstLine(text), r.value)
    ensures r.Some? ==> forall k :: 0 <= k < |r.value| ==> !IsLineBoundary(r.value[k])
  {
    if text == [] then None
    else
      var line := FirstLine(text);
      var title := Strip(line);
      assert forall k :: 0 <= k < |title| ==> title[k] in line;
      Some(title)
  }

  lemma ParseTitleExample()
    ensures ParseTitle(" Quiz \nMore") == Some("Quiz")
  {
    FirstLineExample();
    StripExample();
  }

  /** The first line of `" Quiz \nMore"` ends before its newline. */
  lemma FirstLineExample()
    ensures FirstLine(" Quiz \nMore") == " Quiz "
  {
    var text := " Quiz \nMore";
    assert LineBoundaryFrom(text, 6) == 6;
    assert LineBoundaryFrom(text, 3) == 6;
    assert LineBoundaryFrom(text, 0) == 6;
  }

  /** `" Quiz ".strip()` is `"Quiz"`. */
  lemma StripExample()
    ensures Strip(" Quiz ") == "Quiz"
  {
    var s := " Quiz ";
    assert StripStart(s, 1) == 1;
    assert StripStart(s, 0) == 1;
    assert StripEnd(s, 1, 5) == 5;
    assert StripEnd(s, 1, 6) == 5;
  }

  // ---------------------------------------------------------------------------
  // Lines and digit runs
  // ---------------------------------------------------------------------------

  /** The position of the first newline at or after `p`, or the end of `s`. */
  function LineEnd(s: string, p: nat): (e: nat)
    requires p <= |s|
    ensures p <= e <= |s|
    ensures e == |s| || s[e] == '\n'
    ensures forall k :: p <= k < e ==> s[k] != '\n'
    decreases |s| - p
  {
    if p == |s| || s[p] == '\n' then p else LineEnd(s, p + 1)
  }

  /** Two positions separated by no newline are on the same line. */
  lemma SameLine(s: string, p: nat, q: nat)
    requires p <= q <= |s|
    requires forall k :: p <= k < q ==> s[k] != '\n'
    ensures LineEnd(s, p) == LineEnd(s, q)
  {
  }

  /** The end of the maximal run of ASCII digits that starts at `p` (greedy `\d+`). */
  function DigitRunEnd(s: string, p: nat): (e: nat)
    requires p <= |s|
    ensures p <= e <= |s|
    ensures e == |s| || !IsAsciiDigit(s[e])
    ensures forall k :: p <= k < e ==> IsAsciiDigit(s[k])
    decreases |s| - p
  {
    if p == |s| || !IsAsciiDigit(s[p]) then p else DigitRunEnd(s, p + 1)
  }

  /** A run of digits that ends at a non-digit (or at the end) is the maximal run. */
  lemma {:induction false} DigitRunEndAt(s: string, p: nat, e: nat)
    requires p <= e <= |s|
    requires forall k :: p <= k < e ==> IsAsciiDigit(s[k])
    requires e == |s| || !IsAsciiDigit(s[e])
    ensures DigitRunEnd(s, p) == e
    decreases e - p
  {
    if p < e {
      DigitRunEndAt(s, p + 1, e);
    }
  }

  // ---------------------------------------------------------------------------
  // Questions `\d+\. ([^\n]+)` and options `([L]\) [^\n]+)`
  // ---------------------------------------------------------------------------

  /** The two patterns whose match runs to the end of the line. */
  datatype LinePattern =
    | NumberedQuestion  // `\d+\. ([^\n]+)`: keeps the text after `<digits>. `
    | LetteredOption    // `([L]\) [^\n]+)`: keeps the whole `<letter>) <text>`

  /**
   * The item that `pat` yields when matched exactly at position `p`, if it
   * matches there. A match always ends at the end of the line of `p`.
   */
  function RestOfLineAt(pat: LinePattern, s: string, p: nat): (r: Option<string>)
    requires p < |s|
    ensures r.Some? ==> s[p] != '\n'
  {
    match pat
    case NumberedQuestion =>
      if IsAsciiDigit(s[p]) then
        var k := DigitRunEnd(s, p);
        if k + 2 < |s| && s[k] == '.' && s[k + 1] == ' ' && s[k + 2] != '\n' then
          Some(s[k + 2..LineEnd(s, k + 2)])
        else None
      else None
    case LetteredOption =>
      if p + 3 < |s| && IsQuizLetter(s[p]) && s[p + 1] == ')' && s[p + 2] == ' ' && s[p + 3] != '\n' then
        Some(s[p..LineEnd(s, p)])
      else None
  }

  /**
   * A match is a non-empty, newline-free tail of its line. An option is the
   * whole rest of the line from a letter and `) `; a question follows
   * `<digits>. ` on its line.
   */
  lemma RestOfLineShape(pat: LinePattern, s: string, p: nat)
    requires p < |s|
    ensures var r := RestOfLineAt(pat, s, p);
      r.Some? ==>
        var e := LineEnd(s, p);
        0 < |r.value| <= e - p && r.value == s[e - |r.value|..e]
        && forall j :: 0 <= j < |r.value| ==> r.value[j] != '\n'
    ensures var r := RestOfLineAt(pat, s, p);
      r.Some? && pat == LetteredOption ==>
        r.value == s[p..LineEnd(s, p)] && |r.value| >= 4
        && IsQuizLetter(r.value[0]) && r.value[1] == ')' && r.value[2] == ' '
    ensures var r := RestOfLineAt(pat, s, p);
      r.Some? && pat == NumberedQuestion ==>
        var c := LineEnd(s, p) - |r.value|;
        p + 3 <= c && s[c - 2] == '.' && s[c - 1] == ' '
        && forall k :: p <= k < c - 2 ==> IsAsciiDigit(s[k])
  {
    if RestOfLineAt(pat, s, p).Some? {
      if pat == NumberedQuestion {
        QuestionShape(s, p);
      } else {
        OptionShape(s, p);
      }
    }
  }

  lemma QuestionShape(s: string, p: nat)
    requires p < |s| && RestOfLineAt(NumberedQuestion, s, p).Some?
    ensures var v, e := RestOfLineAt(NumberedQuestion, s, p).value, LineEnd(s, p);
      && 0 < |v| <= e - p - 3 && v == s[e - |v|..e]
      && (forall j :: 0 <= j < |v| ==> v[j] != '\n')
      && s[e - |v| - 2] == '.' && s[e - |v| - 1] == ' '
      && forall k :: p <= k < e - |v| - 2 ==> IsAsciiDigit(s[k])
  {
    var v, e := RestOfLineAt(NumberedQuestion, s, p).value, LineEnd(s, p);
    var k := DigitRunEnd(s, p);
    SameLine(s, p, k + 2);
    assert v == s[k + 2..e];
    forall j | 0 <= j < |v| ensures v[j] != '\n' {
      assert v[j] == s[k + 2 + j];
    }
  }

  lemma OptionShape(s: string, p: nat)
    requires p < |s| && RestOfLineAt(LetteredOption, s, p).Some?
    ensures var v, e := RestOfLineAt(LetteredOption, s, p).value, LineEnd(s, p);
      && v == s[p..e] && 4 <= |v| && (forall j :: 0 <= j < |v| ==> v[j] != '\n')
      && IsQuizLetter(v[0]) && v[1] == ')' && v[2] == ' '
  {
    var v, e := RestOfLineAt(LetteredOption, s, p).value, LineEnd(s, p);
    assert v == s[p..e];
    forall j | 0 <= j < |v| ensures v[j] != '\n' {
      assert v[j] == s[p + j];
    }
  }

  /** `re.findall(pat, s[p:])` for the two rest-of-line patterns. */
  function FindAll(pat: LinePattern, s: string, p: nat): (r: seq<string>)
    requires p <= |s|
    ensures forall i :: 0 <= i < |r| ==> r[i] != [] && forall j :: 0 <= j < |r[i]| ==> r[i][j] != '\n'
    ensures pat == LetteredOption ==>
      forall i :: 0 <= i < |r| ==> |r[i]| >= 4 && IsQuizLetter(r[i][0]) && r[i][1] == ')' && r[i][2] == ' '
    decreases |s| - p
  {
    if p == |s| then []
    else
      RestOfLineShape(pat, s, p);
      match RestOfLineAt(pat, s, p)
      case Some(item) => [item] + FindAll(pat, s, LineEnd(s, p))
      case None => FindAll(pat, s, p + 1)
  }

  /** `parse_questions`: the text after `<digits>. ` on every numbered line, in order. */
  function ParseQuestions(text: string): (r: seq<string>)
    ensures forall i :: 0 <= i < |r| ==> r[i] != [] && forall j :: 0 <= j < |r[i]| ==> r[i][j] != '\n'
  {
    FindAll(NumberedQuestion, text, 0)
  }

  /** `parse_answers`: every `<letter>) <text>` line fragment, in order, the letter included. */
  function ParseAnswers(text: string): (r: seq<string>)
    ensures forall i :: 0 <= i < |r| ==>
      |r[i]| >= 4 && IsQuizLetter(r[i][0]) && r[i][1] == ')' && r[i][2] == ' '
      && forall j :: 0 <= j < |r[i]| ==> r[i][j] != '\n'
  {
    FindAll(LetteredOption, text, 0)
  }

  // A line-by-line reference for the two rest-of-line patterns.

  /** The leftmost match of `pat` on the line of `p`, looking from `p` onwards. */
  function FirstInLine(pat: LinePattern, s: string, p: nat): (r: Option<string>)
    requires p <= |s|
    decreases |s| - p
  {
    if p == |s| || s[p] == '\n' then None
    else
      var m := RestOfLineAt(pat, s, p);
      if m.Some? then m else FirstInLine(pat, s, p + 1)
  }

  function OptionToSeq<T>(o: Option<T>): seq<T> {
    if o.Some? then [o.value] else []
  }

  /** Line by line from `p`: each line contributes its leftmost match, if it has one. */
  function ByLines(pat: LinePattern, s: string, p: nat): (r: seq<string>)
    requires p <= |s|
    decreases |s| - p, 1
  {
    OptionToSeq(FirstInLine(pat, s, p)) + LinesAfter(pat, s, LineEnd(s, p))
  }

  /** `ByLines` after the line that ends at `e`: nothing if `e` is the end of the text. */
  function LinesAfter(pat: LinePattern, s: string, e: nat): seq<string>
    requires e <= |s|
    decreases |s| - e, 0
  {
    if e < |s| then ByLines(pat, s, e + 1) else []
  }

  lemma ByLinesAtNewline(pat: LinePattern, s: string, p: nat)
    requires p < |s| && s[p] == '\n'
    ensures ByLines(pat, s, p) == ByLines(pat, s, p + 1)
  {
    assert LineEnd(s, p) == p;
    assert FirstInLine(pat, s, p) == None;
    assert ByLines(pat, s, p) == [] + LinesAfter(pat, s, p);
  }

  lemma ByLinesAtMatch(pat: LinePattern, s: string, p: nat)
    requires p < |s| && RestOfLineAt(pat, s, p).Some?
    ensures ByLines(pat, s, p) == [RestOfLineAt(pat, s, p).value] + ByLines(pat, s, LineEnd(s, p))
  {
    var e := LineEnd(s, p);
    var v := RestOfLineAt(pat, s, p).value;
    var rest := LinesAfter(pat, s, e);
    assert FirstInLine(pat, s, p) == Some(v);
    assert ByLines(pat, s, p) == [v] + rest;
    if e < |s| {
      ByLinesAtNewline(pat, s, e);
    } else {
      assert FirstInLine(pat, s, e) == None;
      assert ByLines(pat, s, e) == [] + [];
    }
    assert ByLines(pat, s, e) == rest;
  }

  lemma ByLinesNoMatch(pat: LinePattern, s: string, p: nat)
    requires p < |s| && s[p] != '\n' && RestOfLineAt(pat, s, p).None?
    ensures ByLines(pat, s, p) == ByLines(pat, s, p + 1)
  {
    var e := LineEnd(s, p);
    SameLine(s, p, p + 1);
    assert FirstInLine(pat, s, p) == FirstInLine(pat, s, p + 1);
    assert ByLines(pat, s, p) == OptionToSeq(FirstInLine(pat, s, p)) + LinesAfter(pat, s, e);
    assert ByLines(pat, s, p + 1) == OptionToSeq(FirstInLine(pat, s, p)) + LinesAfter(pat, s, e);
  }

  /**
   * The scanner finds, in document order, exactly the leftmost match of each
   * line: a match never spans a newline and consumes the rest of its line.
   */
  lemma {:induction false} FindAllByLines(pat: LinePattern, s: string, p: nat)
    requires p <= |s|
    ensures FindAll(pat, s, p) == ByLines(pat, s, p)
    decreases |s| - p
  {
    if p == |s| {
    } else if s[p] == '\n' {
      FindAllByLines(pat, s, p + 1);
      ByLinesAtNewline(pat, s, p);
    } else if RestOfLineAt(pat, s, p).Some? {
      FindAllByLines(pat, s, LineEnd(s, p));
      ByLinesAtMatch(pat, s, p);
    } else {
      FindAllByLines(pat, s, p + 1);
      ByLinesNoMatch(pat, s, p);
    }
  }

  /** The number of newlines in `s[p..]`; `s` has that many lines plus one. */
  function Newlines(s: string, p: nat): nat
    requires p <= |s|
    decreases |s| - p
  {
    if p == |s| then 0 else (if s[p] == '\n' then 1 else 0) + Newlines(s, p + 1)
  }

  lemma {:induction false} NewlinesToLineEnd(s: string, p: nat)
    requires p <= |s|
    ensures Newlines(s, p) == Newlines(s, LineEnd(s, p))
    decreases |s| - p
  {
    if p < |s| && s[p] != '\n' {
      NewlinesToLineEnd(s, p + 1);
    }
  }

  lemma {:induction false} ByLinesBound(pat: LinePattern, s: string, p: nat)
    requires p <= |s|
    ensures |ByLines(pat, s, p)| <= Newlines(s, p) + 1
    decreases |s| - p
  {
    var e := LineEnd(s, p);
    NewlinesToLineEnd(s, p);
    if e < |s| {
      ByLinesBound(pat, s, e + 1);
    }
  }

  /** Questions and options: at most one item per line of the text. */
  lemma AtMostOnePerLine(pat: LinePattern, s: string)
    ensures |FindAll(pat, s, 0)| <= Newlines(s, 0) + 1
  {
    FindAllByLines(pat, s, 0);
    ByLinesBound(pat, s, 0);
  }

  /** A numbered line yields the text after `<digits>. `; the next line starts the next search. */
  lemma ParseQuestionsExample()
    ensures ParseQuestions("1. Why?\nx") == ["Why?"]
  {
    var s := "1. Why?\nx";
    assert s[0] == '1' && s[1] == '.' && s[2] == ' ' && s[3] == 'W';
    DigitRunEndAt(s, 0, 1);
    assert LineEnd(s, 7) == 7;
    assert LineEnd(s, 3) == 7;
    assert s[3..7] == "Why?";
    assert RestOfLineAt(NumberedQuestion, s, 0) == Some("Why?");
    SameLine(s, 0, 3);
    assert FindAll(NumberedQuestion, s, 0) == ["Why?"] + FindAll(NumberedQuestion, s, 7);
    assert FindAll(NumberedQuestion, s, 8) == [];
  }

  // Text written as question lines or option lines, and what the scanner finds in it.

  /**
   * One written line: `<lead><sep> <text>` and a newline, where the lead is a
   * number and the separator `.` for a question, and the lead is one letter
   * and the separator `)` for an option.
   */
  datatype ItemLine = ItemLine(lead: string, text: string)

  function Separator(pat: LinePattern): char {
    if pat == NumberedQuestion then '.' else ')'
  }

  predicate WellFormedItemLine(pat: LinePattern, l: ItemLine) {
    && |l.lead| > 0 && |l.text| > 0
    && (forall k :: 0 <= k < |l.text| ==> l.text[k] != '\n')
    && (pat == NumberedQuestion ==> forall k :: 0 <= k < |l.lead| ==> IsAsciiDigit(l.lead[k]))
    && (pat == LetteredOption ==> |l.lead| == 1 && IsQuizLetter(l.lead[0]))
  }

  function RenderItemLine(pat: LinePattern, l: ItemLine): string {
    l.lead + [Separator(pat), ' '] + l.text + ['\n']
  }

  function RenderItems(pat: LinePattern, ls: seq<ItemLine>): string {
    if ls == [] then [] else RenderItemLine(pat, ls[0]) + RenderItems(pat, ls[1..])
  }

  /** What `re.findall` should return for one line: the question text, or the whole option. */
  function Item(pat: LinePattern, l: ItemLine): string {
    if pat == NumberedQuestion then l.text else l.lead + [')', ' '] + l.text
  }

  function Items(pat: LinePattern, ls: seq<ItemLine>): seq<string> {
    if ls == [] then [] else [Item(pat, ls[0])] + Items(pat, ls[1..])
  }

  /**
   * The item of line `l` is written, character by character, at position `p`
   * of the text, and its line ends right after it: at a newline or at the end
   * of the text.
   */
  predicate ItemAt(pat: LinePattern, s: string, p: nat, l: ItemLine) {
    var m, t := |l.lead|, |l.text|;
    && p + m + t + 2 <= |s|
    && (forall k :: 0 <= k < m ==> s[p + k] == l.lead[k])
    && s[p + m] == Separator(pat) && s[p + m + 1] == ' '
    && (forall k :: 0 <= k < t ==> s[p + m + 2 + k] == l.text[k])
    && (p + m + 2 + t == |s| || s[p + m + 2 + t] == '\n')
  }

  /** Line `l` and its closing newline are written at position `p` of the text. */
  predicate ItemLineAt(pat: LinePattern, s: string, p: nat, l: ItemLine) {
    ItemAt(pat, s, p, l) && p + |l.lead| + |l.text| + 3 <= |s|
  }

  /** A written item at `p` holds no newline, so its line ends right after it. */
  lemma ItemLineEnd(pat: LinePattern, s: string, p: nat, l: ItemLine)
    requires WellFormedItemLine(pat, l) && ItemAt(pat, s, p, l)
    ensures var e := p + |l.lead| + 2 + |l.text|;
      LineEnd(s, p) == e && LineEnd(s, p + |l.lead| + 2) == e
  {
    var m, t := |l.lead|, |l.text|;
    var c := p + m + 2;
    var e := c + t;
    forall j | p <= j < e ensures s[j] != '\n' {
      if j < p + m {
        assert s[p + (j - p)] == l.lead[j - p];
      } else if j >= c {
        assert s[c + (j - c)] == l.text[j - c];
      }
    }
    SameLine(s, p, e);
    SameLine(s, c, e);
    assert LineEnd(s, e) == e;
  }

  /**
   * A written question line matches at its start and captures its text,
   * whether a newline or the end of the text follows it.
   */
  lemma QuestionLineMatch(s: string, p: nat, l: ItemLine)
    requires WellFormedItemLine(NumberedQuestion, l) && ItemAt(NumberedQuestion, s, p, l)
    ensures RestOfLineAt(NumberedQuestion, s, p) == Some(l.text)
  {
    var m, t := |l.lead|, |l.text|;
    var c := p + m + 2;
    ItemLineEnd(NumberedQuestion, s, p, l);
    forall j | p <= j < p + m ensures IsAsciiDigit(s[j]) {
      assert s[p + (j - p)] == l.lead[j - p];
    }
    DigitRunEndAt(s, p, p + m);
    assert s[c] == l.text[0];
    forall k | 0 <= k < t ensures s[c..c + t][k] == l.text[k] {
      assert s[c..c + t][k] == s[c + k];
    }
    assert IsAsciiDigit(s[p]) && s[c..c + t] == l.text;
  }

  /**
   * A written option line matches at its start and yields the whole line,
   * whether a newline or the end of the text follows it.
   */
  lemma OptionLineMatch(s: string, p: nat, l: ItemLine)
    requires WellFormedItemLine(LetteredOption, l) && ItemAt(LetteredOption, s, p, l)
    ensures RestOfLineAt(LetteredOption, s, p) == Some(Item(LetteredOption, l))
  {
    var t := |l.text|;
    var e := p + 3 + t;
    ItemLineEnd(LetteredOption, s, p, l);
    assert s[p] == l.lead[0] && s[p + 3] == l.text[0];
    var item := Item(LetteredOption, l);
    assert |item| == 3 + t;
    forall k | 0 <= k < 3 + t ensures s[p..e][k] == item[k] {
      assert s[p..e][k] == s[p + k];
      if k >= 3 {
        assert item[k] == l.text[k - 3];
        assert s[p + 1 + 2 + (k - 3)] == l.text[k - 3];
      }
    }
    assert s[p..e] == item;
  }

  /** A written line at position `p` yields its item, and the scan resumes after the line. */
  lemma ScanItemLine(pat: LinePattern, s: string, p: nat, l: ItemLine)
    requires WellFormedItemLine(pat, l) && ItemLineAt(pat, s, p, l)
    ensures FindAll(pat, s, p) == [Item(pat, l)] + FindAll(pat, s, p + |l.lead| + |l.text| + 3)
  {
    if pat == NumberedQuestion {
      ScanQuestionLine(s, p, l);
    } else {
      ScanOptionLine(s, p, l);
    }
  }

  lemma ScanQuestionLine(s: string, p: nat, l: ItemLine)
    requires WellFormedItemLine(NumberedQuestion, l) && ItemLineAt(NumberedQuestion, s, p, l)
    ensures FindAll(NumberedQuestion, s, p) == [l.text] + FindAll(NumberedQuestion, s, p + |l.lead| + |l.text| + 3)
  {
    var e := p + |l.lead| + 2 + |l.text|;
    ItemLineEnd(NumberedQuestion, s, p, l);
    QuestionLineMatch(s, p, l);
    FindAllAtMatch(NumberedQuestion, s, p);
    FindAllAtNewline(NumberedQuestion, s, e);
  }

  lemma ScanOptionLine(s: string, p: nat, l: ItemLine)
    requires WellFormedItemLine(LetteredOption, l) && ItemLineAt(LetteredOption, s, p, l)
    ensures FindAll(LetteredOption, s, p) == [Item(LetteredOption, l)] + FindAll(LetteredOption, s, p + |l.lead| + |l.text| + 3)
  {
    var e := p + |l.lead| + 2 + |l.text|;
    ItemLineEnd(LetteredOption, s, p, l);
    OptionLineMatch(s, p, l);
    FindAllAtMatch(LetteredOption, s, p);
    FindAllAtNewline(LetteredOption, s, e);
  }

  /** A match at `p` is found, and the scan resumes at the end of its line. */
  lemma FindAllAtMatch(pat: LinePattern, s: string, p: nat)
    requires p < |s| && RestOfLineAt(pat, s, p).Some?
    ensures FindAll(pat, s, p) == [RestOfLineAt(pat, s, p).value] + FindAll(pat, s, LineEnd(s, p))
  {
  }

  /** A newline never starts a match. */
  lemma FindAllAtNewline(pat: LinePattern, s: string, e: nat)
    requires e < |s| && s[e] == '\n'
    ensures FindAll(pat, s, e) == FindAll(pat, s, e + 1)
  {
    assert RestOfLineAt(pat, s, e).None?;
  }

  /** The text holds the lines `ls` one after the other from position `p`, up to position `q`. */
  predicate ItemLinesFrom(pat: LinePattern, s: string, p: nat, ls: seq<ItemLine>, q: nat)
    decreases |ls|
  {
    if ls == [] then p == q
    else ItemLineAt(pat, s, p, ls[0]) && ItemLinesFrom(pat, s, p + |ls[0].lead| + |ls[0].text| + 3, ls[1..], q)
  }

  /** The characters of one written line. */
  lemma RenderedItemLine(pat: LinePattern, l: ItemLine)
    ensures var line, m, t := RenderItemLine(pat, l), |l.lead|, |l.text|;
      && |line| == m + t + 3
      && (forall k :: 0 <= k < m ==> line[k] == l.lead[k])
      && line[m] == Separator(pat) && line[m + 1] == ' '
      && (forall k :: 0 <= k < t ==> line[m + 2 + k] == l.text[k])
      && line[m + 2 + t] == '\n'
  {
    var head := l.lead + [Separator(pat), ' '];
    var body := head + l.text;
    assert RenderItemLine(pat, l) == body + ['\n'];
    forall k | 0 <= k < |l.text| ensures body[|head| + k] == l.text[k] {
    }
  }

  /** Text that continues with one written line and then `after` at `p` holds that line there. */
  lemma RenderedItemLineAt(pat: LinePattern, s: string, p: nat, l: ItemLine, after: string)
    requires p <= |s| && s[p..] == RenderItemLine(pat, l) + after
    ensures ItemLineAt(pat, s, p, l) && p + |l.lead| + |l.text| + 3 <= |s|
    ensures s[p + |l.lead| + |l.text| + 3..] == after
  {
    var line := RenderItemLine(pat, l);
    var m, t := |l.lead|, |l.text|;
    SplitAt(s, p, line, after);
    RenderedItemLine(pat, l);
    forall k | 0 <= k < m ensures s[p + k] == l.lead[k] {
      assert s[p + k] == line[k];
    }
    forall k | 0 <= k < t ensures s[p + m + 2 + k] == l.text[k] {
      assert s[p + (m + 2 + k)] == line[m + 2 + k];
    }
  }

  /** Text that continues with written lines and `rest` holds the first line, then the others and `rest`. */
  lemma RenderedFirstItemLine(pat: LinePattern, s: string, p: nat, ls: seq<ItemLine>, rest: string)
    requires ls != [] && p <= |s| && s[p..] == RenderItems(pat, ls) + rest
    ensures ItemLineAt(pat, s, p, ls[0])
    ensures p + |ls[0].lead| + |ls[0].text| + 3 <= |s|
    ensures s[p + |ls[0].lead| + |ls[0].text| + 3..] == RenderItems(pat, ls[1..]) + rest
  {
    var tail := RenderItems(pat, ls[1..]);
    assert s[p..] == RenderItemLine(pat, ls[0]) + (tail + rest);
    RenderedItemLineAt(pat, s, p, ls[0], tail + rest);
  }

  /** Text that continues with `RenderItems(pat, ls)` and then `rest` at `p` holds those lines there. */
  lemma {:induction false} RenderedItemLinesFrom(pat: LinePattern, s: string, p: nat, ls: seq<ItemLine>, rest: string)
    requires p <= |s| && s[p..] == RenderItems(pat, ls) + rest
    ensures |rest| <= |s| && ItemLinesFrom(pat, s, p, ls, |s| - |rest|)
    decreases |ls|
  {
    if ls == [] {
      assert |s| - p == |rest|;
    } else {
      var p' := p + |ls[0].lead| + |ls[0].text| + 3;
      RenderedFirstItemLine(pat, s, p, ls, rest);
      RenderedItemLinesFrom(pat, s, p', ls[1..], rest);
    }
  }

  /**
   * A scan that starts where written lines begin finds their items, in order,
   * and then goes on with what follows the lines.
   */
  lemma {:induction false} RenderedItemsAt(pat: LinePattern, s: string, p: nat, ls: seq<ItemLine>, q: nat)
    requires forall i :: 0 <= i < |ls| ==> WellFormedItemLine(pat, ls[i])
    requires p <= q <= |s| && ItemLinesFrom(pat, s, p, ls, q)
    ensures FindAll(pat, s, p) == Items(pat, ls) + FindAll(pat, s, q)
    decreases |ls|
  {
    if ls == [] {
      assert [] + FindAll(pat, s, q) == FindAll(pat, s, q);
    } else {
      var p' := p + |ls[0].lead| + |ls[0].text| + 3;
      FirstWrittenLine(pat, s, p, ls, q);
      RenderedItemsAt(pat, s, p', ls[1..], q);
      PrependItem(FindAll(pat, s, p), Item(pat, ls[0]), FindAll(pat, s, p'), Items(pat, ls[1..]), FindAll(pat, s, q), Items(pat, ls));
    }
  }

  /** The first of several written lines yields its item, and the other lines follow it. */
  lemma FirstWrittenLine(pat: LinePattern, s: string, p: nat, ls: seq<ItemLine>, q: nat)
    requires forall i :: 0 <= i < |ls| ==> WellFormedItemLine(pat, ls[i])
    requires ls != [] && p <= q <= |s| && ItemLinesFrom(pat, s, p, ls, q)
    ensures var p' := p + |ls[0].lead| + |ls[0].text| + 3;
      && p' <= q
      && ItemLinesFrom(pat, s, p', ls[1..], q)
      && (forall i :: 0 <= i < |ls[1..]| ==> WellFormedItemLine(pat, ls[1..][i]))
      && FindAll(pat, s, p) == [Item(pat, ls[0])] + FindAll(pat, s, p')
      && Items(pat, ls) == [Item(pat, ls[0])] + Items(pat, ls[1..])
  {
    var p' := p + |ls[0].lead| + |ls[0].text| + 3;
    assert WellFormedItemLine(pat, ls[0]);
    ItemLinesEnd(pat, s, p', ls[1..], q);
    ScanItemLine(pat, s, p, ls[0]);
  }

  /** Written lines never run backwards. */
  lemma {:induction false} ItemLinesEnd(pat: LinePattern, s: string, p: nat, ls: seq<ItemLine>, q: nat)
    requires ItemLinesFrom(pat, s, p, ls, q)
    ensures p <= q
    decreases |ls|
  {
    if ls != [] {
      ItemLinesEnd(pat, s, p + |ls[0].lead| + |ls[0].text| + 3, ls[1..], q);
    }
  }

  /** A scan of written lines followed by `rest` finds their items, then goes on in `rest`. */
  lemma RenderedScan(pat: LinePattern, ls: seq<ItemLine>, rest: string)
    requires forall i :: 0 <= i < |ls| ==> WellFormedItemLine(pat, ls[i])
    ensures FindAll(pat, RenderItems(pat, ls) + rest, 0)
      == Items(pat, ls) + FindAll(pat, RenderItems(pat, ls) + rest, |RenderItems(pat, ls)|)
  {
    var s := RenderItems(pat, ls) + rest;
    var q := |RenderItems(pat, ls)|;
    assert s[0..] == s && q == |s| - |rest|;
    RenderedItemLinesFrom(pat, s, 0, ls, rest);
    RenderedItemsAt(pat, s, 0, ls, q);
  }

  /** Text ending with a newline-terminated line scans to the items of its lines and nothing else. */
  lemma RenderedScanAll(pat: LinePattern, ls: seq<ItemLine>)
    requires forall i :: 0 <= i < |ls| ==> WellFormedItemLine(pat, ls[i])
    ensures FindAll(pat, RenderItems(pat, ls), 0) == Items(pat, ls)
  {
    var s := RenderItems(pat, ls);
    assert s + [] == s;
    RenderedScan(pat, ls, []);
    assert FindAll(pat, s, |s|) == [];
    assert Items(pat, ls) + [] == Items(pat, ls);
  }

  /**
   * Every written line yields its item: the lines `<digits>. <q>` give back
   * exactly the questions `q`, and the lines `<L>) <o>` exactly the options
   * `<L>) <o>`, in order.
   */
  lemma ParseRenderedItems(pat: LinePattern, ls: seq<ItemLine>)
    requires forall i :: 0 <= i < |ls| ==> WellFormedItemLine(pat, ls[i])
    ensures pat == NumberedQuestion ==> ParseQuestions(RenderItems(pat, ls)) == Items(pat, ls)
    ensures pat == LetteredOption ==> ParseAnswers(RenderItems(pat, ls)) == Items(pat, ls)
  {
    RenderedScanAll(pat, ls);
  }

  /** One found item in front of the items of the other lines and the scan after them. */
  lemma PrependItem<T>(found: seq<T>, x: T, later: seq<T>, items: seq<T>, after: seq<T>, all: seq<T>)
    requires found == [x] + later
    requires later == items + after
    requires all == [x] + items
    ensures found == all + after
  {
  }

  /** Line `l` without its closing newline, as the last line of a text. */
  function RenderLastItemLine(pat: LinePattern, l: ItemLine): string {
    l.lead + [Separator(pat), ' '] + l.text
  }

  /** An item on the last line of the text, with no newline after it, is the last item found. */
  lemma ScanLastItem(pat: LinePattern, s: string, p: nat, l: ItemLine)
    requires WellFormedItemLine(pat, l) && ItemAt(pat, s, p, l) && p + |l.lead| + 2 + |l.text| == |s|
    ensures FindAll(pat, s, p) == [Item(pat, l)]
  {
    ItemLineEnd(pat, s, p, l);
    if pat == NumberedQuestion {
      QuestionLineMatch(s, p, l);
    } else {
      OptionLineMatch(s, p, l);
    }
    FindAllAtMatch(pat, s, p);
  }

  /** The last line `last`, written without a newline after it, sits at the end of the text. */
  lemma RenderedLastItemLine(pat: LinePattern, s: string, q: nat, l: ItemLine)
    requires q <= |s| && s[q..] == RenderLastItemLine(pat, l)
    ensures ItemAt(pat, s, q, l) && q + |l.lead| + 2 + |l.text| == |s|
  {
    var m, t := |l.lead|, |l.text|;
    var head := l.lead + [Separator(pat), ' '];
    assert s[q..] == head + l.text;
    SplitAt(s, q, head, l.text);
    forall k | 0 <= k < m ensures s[q + k] == l.lead[k] {
      assert s[q + k] == head[k];
    }
    forall k | 0 <= k < t ensures s[q + m + 2 + k] == l.text[k] {
      assert s[q + m + 2..][k] == l.text[k];
    }
    assert s[q + m] == head[m] && s[q + m + 1] == head[m + 1];
  }

  /** Written lines and then a last line without a newline scan to all their items. */
  lemma RenderedScanUnterminated(pat: LinePattern, ls: seq<ItemLine>, last: ItemLine)
    requires forall i :: 0 <= i < |ls| ==> WellFormedItemLine(pat, ls[i])
    requires WellFormedItemLine(pat, last)
    ensures FindAll(pat, RenderItems(pat, ls) + RenderLastItemLine(pat, last), 0) == Items(pat, ls) + [Item(pat, last)]
  {
    var rest := RenderLastItemLine(pat, last);
    var s := RenderItems(pat, ls) + rest;
    var q := |RenderItems(pat, ls)|;
    RenderedScan(pat, ls, rest);
    assert s[q..] == rest;
    RenderedLastItemLine(pat, s, q, last);
    ScanLastItem(pat, s, q, last);
  }

  /**
   * The same round trip when the text does not end with a newline: the
   * item of the last line is found too, after those of the lines before it.
   */
  lemma ParseRenderedItemsUnterminated(pat: LinePattern, ls: seq<ItemLine>, last: ItemLine)
    requires forall i :: 0 <= i < |ls| ==> WellFormedItemLine(pat, ls[i])
    requires WellFormedItemLine(pat, last)
    ensures pat == NumberedQuestion ==>
      ParseQuestions(RenderItems(pat, ls) + RenderLastItemLine(pat, last)) == Items(pat, ls) + [Item(pat, last)]
    ensures pat == LetteredOption ==>
      ParseAnswers(RenderItems(pat, ls) + RenderLastItemLine(pat, last)) == Items(pat, ls) + [Item(pat, last)]
  {
    RenderedScanUnterminated(pat, ls, last);
  }

  /** A question on the last line of the text, with no newline after it, is found. */
  lemma ParseQuestionsLastLineExample()
    ensures ParseQuestions("1. Q") == ["Q"]
  {
    var l := ItemLine("1", "Q");
    assert RenderLastItemLine(NumberedQuestion, l) == "1. Q";
    assert RenderItems(NumberedQuestion, []) + "1. Q" == "1. Q";
    ParseRenderedItemsUnterminated(NumberedQuestion, [], l);
  }

  // ---------------------------------------------------------------------------
  // Correct-answer key `\d+\) ([L])`
  // ---------------------------------------------------------------------------

  /** A key match: the captured letter and the position just after it. */
  datatype KeyMatch = KeyMatch(letter: char, end: nat)

  /** The match of `\d+\) ([L])` exactly at position `p`, if any. */
  function KeyAt(s: string, p: nat): (r: Option<KeyMatch>)
    requires p < |s|
    ensures r.Some? ==>
      var e := r.value.end;
      p + 4 <= e <= |s| && s[e - 1] == r.value.letter && IsQuizLetter(r.value.letter)
      && s[e - 3] == ')' && s[e - 2] == ' '
      && forall k :: p <= k < e - 3 ==> IsAsciiDigit(s[k])
  {
    if IsAsciiDigit(s[p]) then
      var k := DigitRunEnd(s, p);
      if k + 2 < |s| && s[k] == ')' && s[k + 1] == ' ' && IsQuizLetter(s[k + 2]) then
        Some(KeyMatch(s[k + 2], k + 3))
      else None
    else None
  }

  /** `re.findall(r'\d+\) ([L])', s[p:])`: the captured letters, in order. */
  function FindKeys(s: string, p: nat): (r: seq<char>)
    requires p <= |s|
    ensures |r| <= |s| - p
    decreases |s| - p
  {
    if p == |s| then []
    else match KeyAt(s, p)
      case Some(m) => [m.letter] + FindKeys(s, m.end)
      case None => FindKeys(s, p + 1)
  }

  /** Every key found is a quiz letter, and each match uses at least four characters. */
  lemma {:induction false} FindKeysLetters(s: string, p: nat)
    requires p <= |s|
    ensures forall i :: 0 <= i < |FindKeys(s, p)| ==> IsQuizLetter(FindKeys(s, p)[i])
    ensures 4 * |FindKeys(s, p)| <= |s| - p
    decreases |s| - p
  {
    if p < |s| {
      match KeyAt(s, p)
      case Some(m) => FindKeysLetters(s, m.end);
      case None => FindKeysLetters(s, p + 1);
    }
  }

  /** `parse_correct_answers`: the key letters, in document order. */
  function ParseCorrectAnswers(text: string): (r: seq<char>)
    ensures forall i :: 0 <= i < |r| ==> IsQuizLetter(r[i])
    ensures 4 * |r| <= |text|
  {
    FindKeysLetters(text, 0);
    FindKeys(text, 0)
  }

  /** One line `<number>) <letter>` of an answer key. */
  datatype KeyLine = KeyLine(number: string, letter: char)

  predicate WellFormedKeyLine(l: KeyLine) {
    |l.number| > 0 && (forall k :: 0 <= k < |l.number| ==> IsAsciiDigit(l.number[k])) && IsQuizLetter(l.letter)
  }

  function RenderKeyLine(l: KeyLine): string {
    l.number + [')', ' ', l.letter, '\n']
  }

  /** The answer-key text made of the given lines, each ended by a newline. */
  function RenderKeys(ls: seq<KeyLine>): string {
    if ls == [] then [] else RenderKeyLine(ls[0]) + RenderKeys(ls[1..])
  }

  /** The key letters of the lines, in order. */
  function Letters(ls: seq<KeyLine>): seq<char> {
    if ls == [] then [] else [ls[0].letter] + Letters(ls[1..])
  }

  /**
   * The key `<number>) <letter>` of line `l` is written, character by
   * character, at position `p` of the text; anything may follow it.
   */
  predicate KeyWrittenAt(s: string, p: nat, l: KeyLine) {
    var n := |l.number|;
    && p + n + 3 <= |s|
    && (forall k :: 0 <= k < n ==> s[p + k] == l.number[k])
    && s[p + n] == ')' && s[p + n + 1] == ' ' && s[p + n + 2] == l.letter
  }

  /** Key line `l` and its closing newline are written at position `p` of the text. */
  predicate KeyLineAt(s: string, p: nat, l: KeyLine) {
    KeyWrittenAt(s, p, l) && p + |l.number| + 4 <= |s| && s[p + |l.number| + 3] == '\n'
  }

  /**
   * A written key matches where its number starts and captures its letter,
   * whatever follows: the pattern does not look past the letter.
   */
  lemma KeyMatchAt(s: string, p: nat, l: KeyLine)
    requires WellFormedKeyLine(l) && KeyWrittenAt(s, p, l)
    ensures KeyAt(s, p) == Some(KeyMatch(l.letter, p + |l.number| + 3))
  {
    var n := |l.number|;
    forall j | p <= j < p + n ensures IsAsciiDigit(s[j]) {
      assert s[p + (j - p)] == l.number[j - p];
    }
    DigitRunEndAt(s, p, p + n);
    assert IsAsciiDigit(s[p]);
  }

  /** A written key yields its letter, and the scan resumes right after the letter. */
  lemma ScanKeyAt(s: string, p: nat, l: KeyLine)
    requires WellFormedKeyLine(l) && KeyWrittenAt(s, p, l)
    ensures FindKeys(s, p) == [l.letter] + FindKeys(s, p + |l.number| + 3)
  {
    KeyMatchAt(s, p, l);
  }

  /** A key line at position `p` yields its letter, and the scan resumes after the line. */
  lemma ScanKeyLine(s: string, p: nat, l: KeyLine)
    requires WellFormedKeyLine(l) && KeyLineAt(s, p, l)
    ensures FindKeys(s, p) == [l.letter] + FindKeys(s, p + |l.number| + 4)
  {
    var n := |l.number|;
    ScanKeyAt(s, p, l);
    assert KeyAt(s, p + n + 3).None?;
    assert FindKeys(s, p + n + 3) == FindKeys(s, p + n + 4);
  }

  /** The text holds the key lines `ls` one after the other from position `p` to its end. */
  predicate KeyLinesFrom(s: string, p: nat, ls: seq<KeyLine>)
    decreases |ls|
  {
    if ls == [] then p == |s|
    else KeyLineAt(s, p, ls[0]) && KeyLinesFrom(s, p + |ls[0].number| + 4, ls[1..])
  }

  /** Text that continues with `a + b` at `p` holds `a` there and continues with `b` after it. */
  lemma SplitAt(s: string, p: nat, a: string, b: string)
    requires p <= |s| && s[p..] == a + b
    ensures p + |a| <= |s|
    ensures forall k :: 0 <= k < |a| ==> s[p + k] == a[k]
    ensures s[p + |a|..] == b
  {
    forall k | 0 <= k < |a| ensures s[p + k] == a[k] {
      assert s[p..][k] == (a + b)[k];
    }
    forall k | 0 <= k < |b| ensures s[p + |a|..][k] == b[k] {
      assert s[p..][|a| + k] == (a + b)[|a| + k];
    }
  }

  /** Text that continues with one key line and then `after` at `p` holds that key line there. */
  lemma RenderedKeyLineAt(s: string, p: nat, l: KeyLine, after: string)
    requires p <= |s| && s[p..] == RenderKeyLine(l) + after
    ensures KeyLineAt(s, p, l) && p + |l.number| + 4 <= |s|
    ensures s[p + |l.number| + 4..] == after
  {
    var line, n := RenderKeyLine(l), |l.number|;
    assert |line| == n + 4;
    SplitAt(s, p, line, after);
    forall k | 0 <= k < n ensures s[p + k] == l.number[k] {
      assert line[k] == l.number[k];
    }
    assert line[n] == ')' && line[n + 1] == ' ' && line[n + 2] == l.letter && line[n + 3] == '\n';
  }

  /** Text that ends with `RenderKeys(ls)` from position `p` holds those key lines there. */
  lemma {:induction false} RenderedLinesFrom(s: string, p: nat, ls: seq<KeyLine>)
    requires p <= |s| && s[p..] == RenderKeys(ls)
    ensures KeyLinesFrom(s, p, ls)
    decreases |ls|
  {
    if ls == [] {
      assert |s[p..]| == 0;
    } else {
      var n := |ls[0].number|;
      RenderedKeyLineAt(s, p, ls[0], RenderKeys(ls[1..]));
      RenderedLinesFrom(s, p + n + 4, ls[1..]);
    }
  }

  /** A scan that starts where key lines begin finds their letters, in order. */
  lemma {:induction false} RenderedKeysAt(s: string, p: nat, ls: seq<KeyLine>)
    requires forall i :: 0 <= i < |ls| ==> WellFormedKeyLine(ls[i])
    requires p <= |s| && KeyLinesFrom(s, p, ls)
    ensures FindKeys(s, p) == Letters(ls)
    decreases |ls|
  {
    if ls != [] {
      ScanKeyLine(s, p, ls[0]);
      RenderedKeysAt(s, p + |ls[0].number| + 4, ls[1..]);
    }
  }

  /** An answer key written as lines `<digits>) <x>` parses back to exactly its letters, in order. */
  lemma ParseRenderedKeys(ls: seq<KeyLine>)
    requires forall i :: 0 <= i < |ls| ==> WellFormedKeyLine(ls[i])
    ensures ParseCorrectAnswers(RenderKeys(ls)) == Letters(ls)
  {
    var s := RenderKeys(ls);
    assert s[0..] == s;
    RenderedLinesFrom(s, 0, ls);
    RenderedKeysAt(s, 0, ls);
  }

  lemma ParseCorrectAnswersExample()
    ensures ParseCorrectAnswers("1) b\n2) a\n") == ['b', 'a']
  {
    var ls := [KeyLine("1", 'b'), KeyLine("2", 'a')];
    assert RenderKeys(ls[1..][1..]) == [];
    assert RenderKeys(ls) == "1) b\n2) a\n";
    ParseRenderedKeys(ls);
  }

  /** Two keys on one line, separated by a space, are both found, in order. */
  lemma TwoKeysOneLine()
    ensures ParseCorrectAnswers("1) a 2) b") == ['a', 'b']
  {
    var s := "1) a 2) b";
    assert |s| == 9 && s[4] == ' ';
    ScanKeyAt(s, 0, KeyLine("1", 'a'));
    assert FindKeys(s, 4) == FindKeys(s, 5);
    ScanKeyAt(s, 5, KeyLine("2", 'b'));
    assert FindKeys(s, 9) == [];
  }
}
