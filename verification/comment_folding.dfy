/**
 * FoldingUtilities, the part that turns comments into folds: every
 * multi-line comment gets a fold labelled with the start of its text, and
 * every run of two or more line comments on consecutive lines gets one fold
 * labelled with the first comment or, for documentation comments, with the
 * start of the <summary> element. Labels are shortened by SubstrEllipsize.
 *
 * char.IsWhiteSpace and char.IsPunctuation are given as a CharClasses value.
 */
module CommentFolding {
  import opened Wrappers
  import opened TypeSystem

  datatype CharClasses = CharClasses(isWhiteSpace: char -> bool, isPunctuation: char -> bool)

  /** The longest label body SubstrEllipsize keeps when it truncates. */
  const TruncLen := 60

  // ---------------------------------------------------------------------
  // String primitives

  /** String.LastIndexOf(c, from): the last index at or before from holding c, or -1. */
  function LastIndexOfChar(s: string, c: char, from: int): (r: int)
    requires -1 <= from < |s|
    ensures -1 <= r <= from
    ensures r >= 0 ==> s[r] == c
    ensures forall k :: r < k <= from ==> s[k] != c
    decreases from + 1
  {
    if from < 0 then -1
    else if s[from] == c then from
    else LastIndexOfChar(s, c, from - 1)
  }

  /** pat occurs in s at position k. */
  predicate OccursAt(s: string, pat: string, k: int)
  {
    0 <= k && k + |pat| <= |s| && s[k..k + |pat|] == pat
  }

  /** String.IndexOf(pat) from position k on, compared character by character. */
  function IndexOfFrom(s: string, pat: string, k: nat): (r: int)
    requires k <= |s|
    ensures r == -1 || (k <= r && OccursAt(s, pat, r))
    ensures forall m :: k <= m && (r == -1 || m < r) ==> !OccursAt(s, pat, m)
    decreases |s| - k
  {
    if k + |pat| > |s| then -1
    else if s[k..k + |pat|] == pat then k
    else if k == |s| then -1
    else IndexOfFrom(s, pat, k + 1)
  }

  function IndexOf(s: string, pat: string): (r: int)
    ensures r == -1 || OccursAt(s, pat, r)
    ensures forall m :: 0 <= m && (r == -1 || m < r) ==> !OccursAt(s, pat, m)
  {
    IndexOfFrom(s, pat, 0)
  }

  /** The character classes the label scans skip over or keep. */
  datatype Scan =
    | LeadBlank    // white space or '*', before a multi-line comment's text
    | InLabelLine  // anything but '\r', '\n' and '*', in a multi-line comment's text
    | DocLead      // white space or '/', before a summary's text
    | NotLineBreak // anything but '\r' and '\n', in a summary's text

  predicate Holds(cc: CharClasses, scan: Scan, c: char)
  {
    match scan
    case LeadBlank => cc.isWhiteSpace(c) || c == '*'
    case InLabelLine => c != '\r' && c != '\n' && c != '*'
    case DocLead => cc.isWhiteSpace(c) || c == '/'
    case NotLineBreak => c != '\r' && c != '\n'
  }

  /**
   * The first index at or after from, and before limit, whose character is
   * not in the class scan; limit if there is none (from itself if from >= limit).
   */
  function ScanWhile(cc: CharClasses, scan: Scan, s: string, from: nat, limit: nat): (r: nat)
    requires limit <= |s|
    ensures from <= r && (r == from || r <= limit) && (from <= limit ==> r <= limit)
    ensures forall k :: from <= k < r ==> Holds(cc, scan, s[k])
    ensures r < limit ==> !Holds(cc, scan, s[r])
    decreases limit - from
  {
    if from >= limit || !Holds(cc, scan, s[from]) then from else ScanWhile(cc, scan, s, from + 1, limit)
  }

  /** The index just after the spaces that end s[..m] (m itself when m <= 0). */
  function TrimSpacesBefore(s: string, m: int): (r: int)
    requires m <= |s|
    ensures r <= m && (m >= 0 ==> r >= 0) && (m <= 0 ==> r == m)
    ensures forall k :: r <= k < m ==> s[k] == ' '
    ensures r > 0 ==> s[r - 1] != ' '
    decreases m
  {
    if m > 0 && s[m - 1] == ' ' then TrimSpacesBefore(s, m - 1) else m
  }

  // ---------------------------------------------------------------------
  // SubstrEllipsize

  /** body followed by the ellipsis: ".." after a period, " ..." after other punctuation, else "...". */
  function Ellipsis(cc: CharClasses, body: string): (r: string)
    requires |body| > 0
    ensures |body| + 2 <= |r| && r[..|body|] == body && r[|r| - 3..] == "..."
  {
    var last := body[|body| - 1];
    if last == '.' then body + ".."
    else if cc.isPunctuation(last) then body + " ..."
    else body + "..."
  }

  /** r is the ellipsized label of the n characters of str from start. */
  predicate EllipsizedFrom(cc: CharClasses, r: string, str: string, start: int, n: int)
  {
    0 <= start && 0 < n && start + n <= |str| && r == Ellipsis(cc, str[start..start + n])
  }

  /**
   * How many characters of str from start the label keeps: length itself up
   * to TruncLen; beyond that TruncLen, or the distance from start to the last
   * space at or before index TruncLen of str when that distance exceeds
   * TruncLen - 20.
   */
  function KeptLength(str: string, start: int, length: int): (n: nat)
    requires 0 <= start && 0 < length && start + length <= |str|
    ensures 0 < n <= length && n <= TruncLen + start && start + n <= |str|
    ensures length <= TruncLen ==> n == length
    ensures length > TruncLen ==> TruncLen - 20 < n <= TruncLen && (n == TruncLen || str[start + n] == ' ')
  {
    if length > TruncLen then
      var wordBoundaryLen := LastIndexOfChar(str, ' ', TruncLen) - start;
      if wordBoundaryLen > TruncLen - 20 then wordBoundaryLen else TruncLen
    else length
  }

  /**
   * SubstrEllipsize as written: when start is 0 and length is at most
   * TruncLen it keeps the whole of str, whatever length says.
   */
  function SubstrEllipsizeAsWritten(cc: CharClasses, str: string, start: int, length: int): (r: string)
    requires |str| == 0 || length == 0 || (start == 0 && length <= TruncLen) ||
             (0 <= start && 0 <= length && start + length <= |str|)
    ensures |r| >= 3 && r[|r| - 3..] == "..."
    ensures |str| == 0 || length == 0 ==> r == " ..."
    ensures |str| > 0 && length != 0 && start == 0 && length <= TruncLen ==> r == Ellipsis(cc, str)
    ensures |str| > 0 && length != 0 && !(start == 0 && length <= TruncLen) ==>
      exists n :: EllipsizedFrom(cc, r, str, start, n) && n <= TruncLen
  {
    if |str| == 0 || length == 0 then " ..."
    else if start == 0 && length <= TruncLen then Ellipsis(cc, str)
    else
      var n := KeptLength(str, start, length);
      var r := Ellipsis(cc, str[start..start + n]);
      assert EllipsizedFrom(cc, r, str, start, n);
      r
  }

  /**
   * SubstrEllipsize as evidently intended: the label body is always taken from
   * str[start..start + length], cut down to at most TruncLen characters.
   */
  function SubstrEllipsize(cc: CharClasses, str: string, start: int, length: int): (r: string)
    requires 0 <= start && 0 <= length && start + length <= |str|
    ensures |r| >= 3 && r[|r| - 3..] == "..."
    ensures |str| == 0 || length == 0 ==> r == " ..."
  {
    if |str| == 0 || length == 0 then
      assert " ..."[1..] == "...";
      " ..."
    else
      var n := KeptLength(str, start, length);
      Ellipsis(cc, str[start..start + n])
  }

  /**
   * The label body is the first n characters of str[start..start + length]:
   * all of them up to TruncLen, otherwise more than TruncLen - 20 and at most
   * TruncLen of them, stopping at TruncLen or before a space.
   */
  lemma SubstrEllipsizeKeeps(cc: CharClasses, str: string, start: int, length: int)
    requires 0 <= start && 0 < length && start + length <= |str|
    ensures exists n ::
      && EllipsizedFrom(cc, SubstrEllipsize(cc, str, start, length), str, start, n)
      && n <= length && n <= TruncLen
      && (length <= TruncLen ==> n == length)
      && (length > TruncLen ==> TruncLen - 20 < n && (n == TruncLen || str[start + n] == ' '))
  {
    var n := KeptLength(str, start, length);
    assert EllipsizedFrom(cc, SubstrEllipsize(cc, str, start, length), str, start, n);
  }

  /** A non-empty label body starts with the first character it was taken from. */
  lemma SubstrEllipsizeStart(cc: CharClasses, str: string, start: int, length: int)
    requires 0 <= start && 0 < length && start + length <= |str|
    ensures SubstrEllipsize(cc, str, start, length)[0] == str[start]
  {
    var n := KeptLength(str, start, length);
    assert str[start..start + n][0] == str[start];
  }

  /** Both versions agree whenever the label body starts at 0 and covers the whole string. */
  lemma SubstrEllipsizeAgreeOnWhole(cc: CharClasses, str: string)
    ensures SubstrEllipsizeAsWritten(cc, str, 0, |str|) == SubstrEllipsize(cc, str, 0, |str|)
  {
    if |str| > TruncLen {
    } else if |str| > 0 {
      assert str[0..|str|] == str;
    }
  }

  /**
   * As written, a body that starts at 0 and stops at a line break keeps the
   * rest of the string: "ab\ncd" with length 2 gives a label holding the line
   * break, where the intended label holds only "ab".
   */
  lemma SubstrEllipsizeKeepsTail(cc: CharClasses)
    ensures '\n' in SubstrEllipsizeAsWritten(cc, "ab\ncd", 0, 2)
    ensures '\n' !in SubstrEllipsize(cc, "ab\ncd", 0, 2)
    ensures SubstrEllipsize(cc, "ab\ncd", 0, 2)[..2] == "ab"
  {
    var w := SubstrEllipsizeAsWritten(cc, "ab\ncd", 0, 2);
    assert w[..5] == "ab\ncd";
    assert w[2] == '\n';
    var r := SubstrEllipsize(cc, "ab\ncd", 0, 2);
    assert "ab\ncd"[0..2] == "ab";
    assert r == Ellipsis(cc, "ab");
  }

  // ---------------------------------------------------------------------
  // Labels

  /**
   * The label of a multi-line comment: its first line of text after leading
   * blanks and stars. It never holds a line break.
   */
  function MultiLineLabel(cc: CharClasses, text: string): (r: string)
    ensures r == "/* */" || (|r| >= 9 && r[..3] == "/* " && r[|r| - 6..] == "... */")
    ensures OneLine(r)
  {
    var s := ScanWhile(cc, LeadBlank, text, 0, |text|);
    var e := ScanWhile(cc, InLabelLine, text, s, |text|);
    BlockLabelOneLine(cc, text, s, e);
    BlockLabel(cc, text, s, e)
  }

  /** text holds no line break. */
  predicate OneLine(text: string)
  {
    '\n' !in text && '\r' !in text
  }

  /** The characters the ellipsis adds to a body are periods and a space. */
  lemma EllipsisChars(cc: CharClasses, body: string)
    requires |body| > 0
    ensures DrawnFrom(Ellipsis(cc, body), body)
  {
  }

  /** Every character of text is one of source, or a period or space of the ellipsis. */
  predicate DrawnFrom(text: string, source: string)
  {
    forall c :: c in text ==> c in source || c == '.' || c == ' '
  }

  /** Every character of a label body comes from the characters it was taken from, or the ellipsis. */
  lemma SubstrEllipsizeChars(cc: CharClasses, str: string, start: int, length: int)
    requires 0 <= start && 0 < length && start + length <= |str|
    ensures DrawnFrom(SubstrEllipsize(cc, str, start, length), str[start..start + length])
  {
    var n := KeptLength(str, start, length);
    var kept := str[start..start + n];
    assert kept == str[start..start + length][..n];
    EllipsisChars(cc, kept);
  }

  /** A block label over characters that are none of '\r', '\n' and '*' holds no line break. */
  lemma BlockLabelOneLine(cc: CharClasses, text: string, s: nat, e: nat)
    requires s <= e <= |text|
    requires forall k :: s <= k < e ==> Holds(cc, InLabelLine, text[k])
    ensures OneLine(BlockLabel(cc, text, s, e))
  {
    if e > s {
      var body := SubstrEllipsize(cc, text, s, e - s);
      assert '\n' !in body && '\r' !in body by {
        var line := text[s..e];
        forall k | 0 <= k < |line|
          ensures line[k] != '\n' && line[k] != '\r'
        {
          assert Holds(cc, InLabelLine, text[s + k]);
        }
        SubstrEllipsizeChars(cc, text, s, e - s);
      }
      assert BlockLabel(cc, text, s, e) == "/* " + body + " */";
    }
  }

  /**
   * The label of a multi-line comment as written: through
   * SubstrEllipsizeAsWritten, a first line that starts at offset 0 and is at
   * most TruncLen long brings the rest of the text with it.
   */
  function MultiLineLabelAsWritten(cc: CharClasses, text: string): (r: string)
    ensures r == "/* */" || (|r| >= 9 && r[..3] == "/* " && r[|r| - 6..] == "... */")
  {
    var s := ScanWhile(cc, LeadBlank, text, 0, |text|);
    BlockLabelAsWritten(cc, text, s, ScanWhile(cc, InLabelLine, text, s, |text|))
  }

  /** A label body between "/* " and " */". */
  function Framed(body: string): (r: string)
    requires |body| >= 3 && body[|body| - 3..] == "..."
    ensures |r| >= 9 && r[..3] == "/* " && r[|r| - 6..] == "... */"
  {
    var r := "/* " + body + " */";
    assert r[|r| - 6..] == body[|body| - 3..] + " */";
    r
  }

  /** BlockLabel over SubstrEllipsizeAsWritten. */
  function BlockLabelAsWritten(cc: CharClasses, text: string, s: nat, e: nat): (r: string)
    requires e > s ==> e <= |text|
    ensures r == "/* */" || (|r| >= 9 && r[..3] == "/* " && r[|r| - 6..] == "... */")
  {
    if e > s then
      var body := SubstrEllipsizeAsWritten(cc, text, s, e - s);
      Framed(body)
    else "/* */"
  }

  /**
   * A multi-line comment "ab\ncd": as written its label is the whole text,
   * line break included; the fold made for it carries the first line only.
   */
  lemma MultiLineLabelKeepsTail(cc: CharClasses, c: Comment)
    requires c.commentType == MultiLine && c.text == "ab\ncd"
    requires !cc.isWhiteSpace('a') && !cc.isPunctuation('b') && !cc.isPunctuation('d')
    ensures MultiLineLabelAsWritten(cc, c.text) == "/* ab\ncd... */"
    ensures CommentFoldsFrom(cc, [c], 0) == [FoldingRegion(Some("/* ab... */"), c.region, FoldType.Comment)]
  {
    SampleLabels(cc);
    assert CommentFoldsFrom(cc, [c], 1) == [];
  }

  /** Where the scans stop in "ab\ncd": the text starts at 0 and its first line ends at 2. */
  lemma SampleScans(cc: CharClasses)
    requires !cc.isWhiteSpace('a')
    ensures ScanWhile(cc, LeadBlank, "ab\ncd", 0, 5) == 0
    ensures ScanWhile(cc, InLabelLine, "ab\ncd", 0, 5) == 2
  {
    assert ScanWhile(cc, InLabelLine, "ab\ncd", 2, 5) == 2;
  }

  /** The labels of "ab\ncd" as written and as intended. */
  lemma SampleLabels(cc: CharClasses)
    requires !cc.isWhiteSpace('a') && !cc.isPunctuation('b') && !cc.isPunctuation('d')
    ensures MultiLineLabelAsWritten(cc, "ab\ncd") == "/* ab\ncd... */"
    ensures MultiLineLabel(cc, "ab\ncd") == "/* ab... */"
  {
    SampleScans(cc);
    assert SubstrEllipsizeAsWritten(cc, "ab\ncd", 0, 2) == "ab\ncd...";
    SampleBody(cc);
  }

  lemma SampleBody(cc: CharClasses)
    requires !cc.isPunctuation('b')
    ensures SubstrEllipsize(cc, "ab\ncd", 0, 2) == "ab..."
  {
    assert "ab\ncd"[0..2] == "ab";
  }

  /** "/* " and the label of text[s..e] and " */", or "/* */" when that is empty. */
  function BlockLabel(cc: CharClasses, text: string, s: nat, e: nat): (r: string)
    requires e > s ==> e <= |text|
    ensures r == "/* */" || (|r| >= 9 && r[..3] == "/* " && r[|r| - 6..] == "... */")
  {
    if e > s then
      Framed(SubstrEllipsize(cc, text, s, e - s))
    else "/* */"
  }

  /** The first character of text that is not a leading blank or star is at k. */
  predicate FirstTextAt(cc: CharClasses, text: string, k: int)
  {
    0 <= k < |text| && !Holds(cc, LeadBlank, text[k]) && forall m :: 0 <= m < k ==> Holds(cc, LeadBlank, text[m])
  }

  /** The first character after the leading blanks and stars is where the lead scan stops. */
  lemma {:induction false} FirstTextAtScan(cc: CharClasses, text: string)
    ensures forall k :: FirstTextAt(cc, text, k) <==>
      k == ScanWhile(cc, LeadBlank, text, 0, |text|) && k < |text|
  {
    var s := ScanWhile(cc, LeadBlank, text, 0, |text|);
    forall k | FirstTextAt(cc, text, k)
      ensures k == s
    {
      if k < s {
        assert false;
      } else if s < k {
        assert false;
      }
    }
    if s < |text| {
      assert FirstTextAt(cc, text, s);
    }
  }

  /**
   * The label is "/* */" exactly when the comment holds nothing but blanks and
   * stars, or the first other character is a line break.
   */
  lemma MultiLineLabelEmpty(cc: CharClasses, text: string)
    ensures MultiLineLabel(cc, text) == "/* */" <==>
      forall k :: FirstTextAt(cc, text, k) ==> !Holds(cc, NotLineBreak, text[k])
  {
    FirstTextAtScan(cc, text);
  }

  /** Otherwise the label's text starts with that first character. */
  lemma MultiLineLabelStart(cc: CharClasses, text: string, k: int)
    requires FirstTextAt(cc, text, k) && Holds(cc, NotLineBreak, text[k])
    ensures MultiLineLabel(cc, text)[3] == text[k]
  {
    assert k == ScanWhile(cc, LeadBlank, text, 0, |text|) by {
      FirstTextAtScan(cc, text);
    }
    var e := ScanWhile(cc, InLabelLine, text, k, |text|);
    assert e > k;
    BlockLabelStart(cc, text, k, e);
  }

  /** A non-empty block label's text starts with the character at s. */
  lemma BlockLabelStart(cc: CharClasses, text: string, s: nat, e: nat)
    requires s < e <= |text|
    ensures BlockLabel(cc, text, s, e)[3] == text[s]
  {
    var body := SubstrEllipsize(cc, text, s, e - s);
    SubstrEllipsizeStart(cc, text, s, e - s);
    assert ("/* " + body + " */")[3] == body[0];
  }

  const SummaryOpen: string := "<summary>"
  const SummaryClose: string := "</summary>"

  /**
   * Where the text of a summary stops: before the spaces ahead of the first
   * "</summary>", or at the end of text when there is none.
   */
  function SummaryLimit(text: string): (r: nat)
    ensures r <= |text|
    ensures IndexOf(text, SummaryClose) < 0 ==> r == |text|
    ensures IndexOf(text, SummaryClose) >= 0 ==> r <= IndexOf(text, SummaryClose)
  {
    var close := TrimSpacesBefore(text, IndexOf(text, SummaryClose));
    if close < 0 then |text| else close
  }

  /**
   * The label of a summary whose text starts at from and stops at limit: the
   * first line after leading blanks and slashes, or "/// ..." when it is empty.
   */
  function SummaryLabel(cc: CharClasses, text: string, from: nat, limit: nat): (r: string)
    requires limit <= |text|
    ensures |r| >= 7 && r[..4] == "/// " && r[|r| - 3..] == "..."
  {
    var s := ScanWhile(cc, DocLead, text, from, limit);
    LineLabel(cc, text, s, ScanWhile(cc, NotLineBreak, text, s, limit))
  }

  /** "/// " and the label of text[s..e], or "/// ..." when that is empty. */
  function LineLabel(cc: CharClasses, text: string, s: nat, e: nat): (r: string)
    requires e > s ==> e <= |text|
    ensures |r| >= 7 && r[..4] == "/// " && r[|r| - 3..] == "..."
  {
    if e > s then
      var body := SubstrEllipsize(cc, text, s, e - s);
      assert body[|body| - 3..] == "...";
      "/// " + body
    else "/// ..."
  }

  /** The label of a run of documentation comments: the first line of its <summary> element. */
  function DocLabel(cc: CharClasses, text: string): (r: string)
    ensures |r| >= 7 && r[..4] == "/// " && r[|r| - 3..] == "..."
    ensures IndexOf(text, SummaryOpen) < 0 ==> r == "/// ..."
  {
    var idx := IndexOf(text, SummaryOpen);
    if idx < 0 then "/// ..."
    else SummaryLabel(cc, text, idx + |SummaryOpen|, SummaryLimit(text))
  }

  // ---------------------------------------------------------------------
  // Runs of line comments

  /** cs[j] continues the run started at cs[i] when the previous comment of the run is on line prev. */
  predicate Continues(cs: seq<Comment>, i: nat, j: nat, prev: int)
    requires i < |cs|
  {
    j < |cs| && cs[j].commentStartsLine && cs[j].commentType == cs[i].commentType &&
    prev + 1 == cs[j].region.begin.line
  }

  /** The end (exclusive) of the run started at cs[i], scanning on from j. */
  function RunEnd(cs: seq<Comment>, i: nat, j: nat, prev: int): (r: nat)
    requires i < |cs| && j <= |cs|
    ensures j <= r <= |cs|
    ensures r == j <==> !Continues(cs, i, j, prev)
    decreases |cs| - j
  {
    if Continues(cs, i, j, prev) then RunEnd(cs, i, j + 1, cs[j].region.begin.line) else j
  }

  /** The comments from cs[i] on, each starting a line, of cs[i]'s type, on consecutive lines. */
  function RunFrom(cs: seq<Comment>, i: nat): (j: nat)
    requires i < |cs|
    ensures i <= j <= |cs|
  {
    RunEnd(cs, i, i, cs[i].region.begin.line - 1)
  }

  /** Every comment of a run starts a line, has the type of the first and sits on the line after the previous one. */
  lemma {:induction false} RunShape(cs: seq<Comment>, i: nat, j: nat, prev: int)
    requires i < |cs| && j <= |cs|
    ensures forall k :: j <= k < RunEnd(cs, i, j, prev) ==>
      cs[k].commentStartsLine && cs[k].commentType == cs[i].commentType &&
      cs[k].region.begin.line == (if k == j then prev else cs[k - 1].region.begin.line) + 1
    decreases |cs| - j
  {
    if Continues(cs, i, j, prev) {
      RunShape(cs, i, j + 1, cs[j].region.begin.line);
    }
  }

  /** The texts of cs, concatenated. */
  function Texts(cs: seq<Comment>): string
  {
    if cs == [] then "" else Texts(cs[..|cs| - 1]) + cs[|cs| - 1].text
  }

  lemma TextsSnoc(cs: seq<Comment>, i: nat, j: nat)
    requires i <= j < |cs|
    ensures Texts(cs[i..j + 1]) == Texts(cs[i..j]) + cs[j].text
  {
    assert cs[i..j + 1][..j - i] == cs[i..j];
  }

  /**
   * The label of the run cs[i..j]: for documentation comments the first line
   * of the summary in their joined text; otherwise "// " and the label of the
   * first comment's text alone.
   */
  function RunLabel(cc: CharClasses, cs: seq<Comment>, i: nat, j: nat): (r: string)
    requires i <= j <= |cs| && i < |cs|
    ensures cs[i].isDocumentation ==> |r| >= 7 && r[..4] == "/// " && r[|r| - 3..] == "..."
    ensures !cs[i].isDocumentation ==> |r| >= 6 && r[..3] == "// " && r[|r| - 3..] == "..."
    ensures !cs[i].isDocumentation ==> DrawnFrom(r[3..], cs[i].text)
  {
    if cs[i].isDocumentation then DocLabel(cc, Texts(cs[i..j]))
    else
      var t := cs[i].text;
      var body := SubstrEllipsize(cc, t, 0, |t|);
      if |t| > 0 then
        SubstrEllipsizeChars(cc, t, 0, |t|);
        assert t[0..|t|] == t;
        assert ("// " + body)[3..] == body;
        "// " + body
      else
        assert ("// " + body)[3..] == body;
        "// " + body
  }

  /** Comments RunEnd gathers from j on sit on the lines following prev, one each. */
  lemma {:induction false} RunLines(cs: seq<Comment>, i: nat, j: nat, prev: int)
    requires i < |cs| && j <= |cs|
    ensures forall k :: j <= k < RunEnd(cs, i, j, prev) ==> cs[k].region.begin.line == prev + 1 + (k - j)
    decreases |cs| - j
  {
    if Continues(cs, i, j, prev) {
      RunLines(cs, i, j + 1, cs[j].region.begin.line);
    }
  }

  /**
   * The fold of the run started by cs[i]: from the start of its first comment
   * to the end of its last, which sits as many lines below the first as the
   * run has comments after it.
   */
  function RunFold(cc: CharClasses, cs: seq<Comment>, i: nat): (r: FoldingRegion)
    requires i < |cs| && RunFrom(cs, i) > i
    ensures var j := RunFrom(cs, i);
      && r.foldType == FoldType.Comment && r.name == Some(RunLabel(cc, cs, i, j))
      && r.region == Region(cs[i].region.begin, cs[j - 1].region.end)
      && cs[j - 1].region.begin.line == cs[i].region.begin.line + (j - 1 - i)
  {
    var j := RunFrom(cs, i);
    RunLines(cs, i, i, cs[i].region.begin.line - 1);
    FoldingRegion(Some(RunLabel(cc, cs, i, j)), Region(cs[i].region.begin, cs[j - 1].region.end), FoldType.Comment)
  }

  /** The fold of a multi-line comment: the whole comment, labelled with its first line. */
  function MultiLineFold(cc: CharClasses, c: Comment): (r: FoldingRegion)
    ensures r.foldType == FoldType.Comment && r.region == c.region
    ensures r.name.Some? && OneLine(r.name.value)
  {
    FoldingRegion(Some(MultiLineLabel(cc, c.text)), c.region, FoldType.Comment)
  }

  /** ToFolds over comments, from cs[i] on. */
  function CommentFoldsFrom(cc: CharClasses, cs: seq<Comment>, i: nat): (folds: seq<FoldingRegion>)
    requires i <= |cs|
    ensures forall f :: f in folds ==> f.foldType == FoldType.Comment
    decreases |cs| - i
  {
    if i == |cs| then []
    else if cs[i].commentType == MultiLine then [MultiLineFold(cc, cs[i])] + CommentFoldsFrom(cc, cs, i + 1)
    else if !cs[i].commentStartsLine then CommentFoldsFrom(cc, cs, i + 1)
    else
      var j := RunFrom(cs, i);
      if j - i > 1 then [RunFold(cc, cs, i)] + CommentFoldsFrom(cc, cs, j)
      else CommentFoldsFrom(cc, cs, i + 1)
  }

  /** The fold made for the comment cs[k]: a multi-line fold, or the fold of the run it starts. */
  predicate FoldOfComment(cc: CharClasses, cs: seq<Comment>, k: nat, f: FoldingRegion)
    requires k < |cs|
  {
    if cs[k].commentType == MultiLine then f == MultiLineFold(cc, cs[k])
    else cs[k].commentStartsLine && RunFrom(cs, k) - k > 1 && f == RunFold(cc, cs, k)
  }

  /**
   * The comments, from cs[i] on, that ToFolds makes a fold for: every
   * multi-line comment, and the first comment of every run of two or more
   * line comments.
   */
  function Origins(cs: seq<Comment>, i: nat): (r: seq<nat>)
    requires i <= |cs|
    ensures forall n :: 0 <= n < |r| ==> i <= r[n] < |cs|
    ensures forall n, m :: 0 <= n < m < |r| ==> r[n] < r[m]
    decreases |cs| - i
  {
    if i == |cs| then []
    else if cs[i].commentType == MultiLine then [i] + Origins(cs, i + 1)
    else if !cs[i].commentStartsLine then Origins(cs, i + 1)
    else if RunFrom(cs, i) - i > 1 then [i] + Origins(cs, RunFrom(cs, i))
    else Origins(cs, i + 1)
  }

  /** Every multi-line comment has a fold; the indices increase, so it has exactly one. */
  lemma {:induction false} MultiLineOrigins(cs: seq<Comment>, i: nat)
    requires i <= |cs|
    ensures forall k :: i <= k < |cs| && cs[k].commentType == MultiLine ==> k in Origins(cs, i)
    decreases |cs| - i
  {
    if i < |cs| {
      if cs[i].commentType == MultiLine || !cs[i].commentStartsLine || RunFrom(cs, i) - i <= 1 {
        MultiLineOrigins(cs, i + 1);
      } else {
        MultiLineOrigins(cs, RunFrom(cs, i));
        RunShape(cs, i, i, cs[i].region.begin.line - 1);
      }
    }
  }

  /** The n-th fold is the fold of the n-th origin, so each fold comes from its own comment, in order. */
  lemma {:induction false} CommentFoldOrigins(cc: CharClasses, cs: seq<Comment>, i: nat)
    requires i <= |cs|
    ensures |Origins(cs, i)| == |CommentFoldsFrom(cc, cs, i)|
    ensures forall n :: 0 <= n < |Origins(cs, i)| ==>
      FoldOfComment(cc, cs, Origins(cs, i)[n], CommentFoldsFrom(cc, cs, i)[n])
    decreases |cs| - i
  {
    if i < |cs| {
      if cs[i].commentType == MultiLine {
        CommentFoldOrigins(cc, cs, i + 1);
        OriginsCons(cc, cs, i, i + 1, MultiLineFold(cc, cs[i]));
      } else if !cs[i].commentStartsLine || RunFrom(cs, i) - i <= 1 {
        CommentFoldOrigins(cc, cs, i + 1);
      } else {
        CommentFoldOrigins(cc, cs, RunFrom(cs, i));
        OriginsCons(cc, cs, i, RunFrom(cs, i), RunFold(cc, cs, i));
      }
    }
  }

  lemma OriginsCons(cc: CharClasses, cs: seq<Comment>, i: nat, next: nat, f: FoldingRegion)
    requires i < next <= |cs|
    requires Origins(cs, i) == [i] + Origins(cs, next)
    requires CommentFoldsFrom(cc, cs, i) == [f] + CommentFoldsFrom(cc, cs, next)
    requires FoldOfComment(cc, cs, i, f)
    requires |Origins(cs, next)| == |CommentFoldsFrom(cc, cs, next)|
    requires forall n :: 0 <= n < |Origins(cs, next)| ==>
      FoldOfComment(cc, cs, Origins(cs, next)[n], CommentFoldsFrom(cc, cs, next)[n])
    ensures forall n :: 0 <= n < |Origins(cs, i)| ==>
      FoldOfComment(cc, cs, Origins(cs, i)[n], CommentFoldsFrom(cc, cs, i)[n])
  {
    forall n | 0 < n < |Origins(cs, i)|
      ensures FoldOfComment(cc, cs, Origins(cs, i)[n], CommentFoldsFrom(cc, cs, i)[n])
    {
      assert Origins(cs, i)[n] == Origins(cs, next)[n - 1];
      assert CommentFoldsFrom(cc, cs, i)[n] == CommentFoldsFrom(cc, cs, next)[n - 1];
    }
  }

  /** A lone line comment yields no fold. */
  lemma LoneLineComment(cc: CharClasses, c: Comment)
    requires c.commentType != MultiLine
    ensures CommentFoldsFrom(cc, [c], 0) == []
  {
  }

  /**
   * Two line comments of the same kind, each starting a line, on consecutive
   * lines yield one fold from the start of the first to the end of the second.
   */
  lemma TwoLineComments(cc: CharClasses, a: Comment, b: Comment)
    requires a.commentType != MultiLine && a.commentType == b.commentType
    requires a.commentStartsLine && b.commentStartsLine
    requires b.region.begin.line == a.region.begin.line + 1
    ensures |CommentFoldsFrom(cc, [a, b], 0)| == 1
    ensures CommentFoldsFrom(cc, [a, b], 0)[0].region == Region(a.region.begin, b.region.end)
    ensures !a.isDocumentation ==>
      CommentFoldsFrom(cc, [a, b], 0)[0].name == Some("// " + SubstrEllipsize(cc, a.text, 0, |a.text|))
  {
    var cs := [a, b];
    assert RunEnd(cs, 0, 2, b.region.begin.line) == 2;
    assert RunFrom(cs, 0) == 2;
  }

  // ---------------------------------------------------------------------
  // The scanner

  method MultiLineText(cc: CharClasses, text: string) returns (txt: string)
    ensures txt == MultiLineLabel(cc, text)
  {
    var startOffset := 0;
    while startOffset < |text|
      invariant startOffset <= |text|
      invariant ScanWhile(cc, LeadBlank, text, startOffset, |text|) ==
                ScanWhile(cc, LeadBlank, text, 0, |text|)
    {
      var ch := text[startOffset];
      if !cc.isWhiteSpace(ch) && ch != '*' {
        break;
      }
      startOffset := startOffset + 1;
    }
    assert startOffset == ScanWhile(cc, LeadBlank, text, 0, |text|);
    var endOffset := startOffset;
    while endOffset < |text|
      invariant startOffset <= endOffset <= |text|
      invariant ScanWhile(cc, InLabelLine, text, endOffset, |text|) == ScanWhile(cc, InLabelLine, text, startOffset, |text|)
    {
      var ch := text[endOffset];
      if ch == '\r' || ch == '\n' || ch == '*' {
        break;
      }
      endOffset := endOffset + 1;
    }
    assert endOffset == ScanWhile(cc, InLabelLine, text, startOffset, |text|);
    txt := BlockText(cc, text, startOffset, endOffset);
  }

  /** The label MultiLineText builds once it has found the text's first line. */
  method BlockText(cc: CharClasses, text: string, startOffset: nat, endOffset: nat) returns (txt: string)
    requires endOffset > startOffset ==> endOffset <= |text|
    ensures txt == BlockLabel(cc, text, startOffset, endOffset)
  {
    if endOffset > startOffset {
      txt := "/* " + SubstrEllipsize(cc, text, startOffset, endOffset - startOffset) + " */";
    } else {
      txt := "/* */";
    }
  }

  method SummaryText(cc: CharClasses, cmtText: string) returns (txt: string)
    ensures txt == DocLabel(cc, cmtText)
  {
    txt := "/// ...";
    var idx := IndexOf(cmtText, SummaryOpen);
    if idx >= 0 {
      var maxOffset := IndexOf(cmtText, SummaryClose);
      ghost var close := maxOffset;
      while maxOffset > 0 && cmtText[maxOffset - 1] == ' '
        invariant maxOffset <= close <= |cmtText|
        invariant TrimSpacesBefore(cmtText, maxOffset) == TrimSpacesBefore(cmtText, close)
      {
        maxOffset := maxOffset - 1;
      }
      if maxOffset < 0 {
        maxOffset := |cmtText|;
      }
      txt := SummaryLineText(cc, cmtText, idx + |SummaryOpen|, maxOffset);
    }
  }

  /** The scans of SummaryText between the end of "<summary>" and maxOffset. */
  method SummaryLineText(cc: CharClasses, cmtText: string, from: nat, maxOffset: nat) returns (txt: string)
    requires maxOffset <= |cmtText|
    ensures txt == SummaryLabel(cc, cmtText, from, maxOffset)
  {
    txt := "/// ...";
    var startOffset := from;
    while startOffset < maxOffset
      invariant from <= startOffset
      invariant ScanWhile(cc, DocLead, cmtText, startOffset, maxOffset) ==
                ScanWhile(cc, DocLead, cmtText, from, maxOffset)
    {
      var ch := cmtText[startOffset];
      if !cc.isWhiteSpace(ch) && ch != '/' {
        break;
      }
      startOffset := startOffset + 1;
    }
    assert startOffset == ScanWhile(cc, DocLead, cmtText, from, maxOffset);
    var endOffset := startOffset;
    while endOffset < maxOffset
      invariant startOffset <= endOffset
      invariant ScanWhile(cc, NotLineBreak, cmtText, endOffset, maxOffset) ==
                ScanWhile(cc, NotLineBreak, cmtText, startOffset, maxOffset)
    {
      var ch := cmtText[endOffset];
      if ch == '\r' || ch == '\n' {
        break;
      }
      endOffset := endOffset + 1;
    }
    assert endOffset == ScanWhile(cc, NotLineBreak, cmtText, startOffset, maxOffset);
    txt := LineText(cc, cmtText, startOffset, endOffset);
  }

  /** The label SummaryLineText builds once it has found the summary's first line. */
  method LineText(cc: CharClasses, cmtText: string, startOffset: nat, endOffset: nat) returns (txt: string)
    requires endOffset > startOffset ==> endOffset <= |cmtText|
    ensures txt == LineLabel(cc, cmtText, startOffset, endOffset)
  {
    txt := "/// ...";
    if endOffset > startOffset {
      txt := "/// " + SubstrEllipsize(cc, cmtText, startOffset, endOffset - startOffset);
    }
  }

  /** The scan of ToFolds along the run of line comments that comments[i] starts. */
  method ScanRun(comments: seq<Comment>, i: nat) returns (j: nat, commentText: string, end: Location)
    requires i < |comments|
    ensures j == RunFrom(comments, i)
    ensures commentText == Texts(comments[i..j])
    ensures end == if j == i then comments[i].region.end else comments[j - 1].region.end
  {
    var comment := comments[i];
    j := i;
    var curLine := comment.region.begin.line - 1;
    end := comment.region.end;
    commentText := "";
    while j < |comments|
      invariant i <= j <= |comments|
      invariant RunEnd(comments, i, j, curLine) == RunFrom(comments, i)
      invariant commentText == Texts(comments[i..j])
      invariant end == if j == i then comment.region.end else comments[j - 1].region.end
    {
      var curComment := comments[j];
      if !curComment.commentStartsLine || curComment.commentType != comment.commentType ||
         curLine + 1 != curComment.region.begin.line {
        break;
      }
      TextsSnoc(comments, i, j);
      commentText := commentText + curComment.text;
      end := curComment.region.end;
      curLine := curComment.region.begin.line;
      j := j + 1;
    }
  }

  /** The fold ToFolds makes for a run of two or more line comments, from what ScanRun found. */
  method RunFoldText(cc: CharClasses, comments: seq<Comment>, i: nat, j: nat, commentText: string, end: Location)
    returns (fold: FoldingRegion)
    requires i < |comments| && j == RunFrom(comments, i) && j - i > 1
    requires commentText == Texts(comments[i..j]) && end == comments[j - 1].region.end
    ensures fold == RunFold(cc, comments, i)
  {
    var comment := comments[i];
    var txt: string;
    if comment.isDocumentation {
      txt := SummaryText(cc, commentText);
    } else {
      txt := "// " + SubstrEllipsize(cc, comment.text, 0, |comment.text|);
    }
    assert txt == RunLabel(cc, comments, i, j);
    fold := FoldingRegion(Some(txt), Region(comment.region.begin, end), FoldType.Comment);
    assert RunFold(cc, comments, i) ==
      FoldingRegion(Some(RunLabel(cc, comments, i, j)), Region(comments[i].region.begin, comments[j - 1].region.end), FoldType.Comment);
  }

  /**
   * One turn of ToFolds's loop at comments[i]: the fold it adds, if any, and
   * the index the loop goes on from.
   */
  method FoldAt(cc: CharClasses, comments: seq<Comment>, i: nat) returns (fold: Option<FoldingRegion>, next: nat)
    requires i < |comments|
    ensures i < next <= |comments|
    ensures CommentFoldsFrom(cc, comments, i) ==
      (if fold.Some? then [fold.value] else []) + CommentFoldsFrom(cc, comments, next)
  {
    var comment := comments[i];
    if comment.commentType == MultiLine {
      var txt := MultiLineText(cc, comment.text);
      return Some(FoldingRegion(Some(txt), comment.region, FoldType.Comment)), i + 1;
    }
    if !comment.commentStartsLine {
      return None, i + 1;
    }
    var j, commentText, end := ScanRun(comments, i);
    if j - i > 1 {
      var f := RunFoldText(cc, comments, i, j, commentText, end);
      return Some(f), j;
    }
    return None, i + 1;
  }

  /** ToFolds over a list of comments. */
  method CommentFolds(cc: CharClasses, comments: seq<Comment>) returns (folds: seq<FoldingRegion>)
    ensures folds == CommentFoldsFrom(cc, comments, 0)
  {
    folds := [];
    var i := 0;
    while i < |comments|
      invariant i <= |comments|
      invariant folds + CommentFoldsFrom(cc, comments, i) == CommentFoldsFrom(cc, comments, 0)
    {
      var fold, next := FoldAt(cc, comments, i);
      if fold.Some? {
        assert folds + ([fold.value] + CommentFoldsFrom(cc, comments, next)) ==
          (folds + [fold.value]) + CommentFoldsFrom(cc, comments, next);
        folds := folds + [fold.value];
      }
      i := next;
    }
  }
}
