/** The Markdown subset of components/MarkdownRenderer.tsx: the content is
    cut into lines at '\n', each trimmed line becomes one block (spacer,
    header of level 3, 2 or 1, list item, or paragraph), and list items and
    paragraphs are split into plain and bold runs by the non-greedy pattern
    `\*\*.*?\*\*` used as a capturing `split` separator. The React elements
    and their styling are outside the model. */
module Markdown {
  import opened Types
  import Text

  const Stars := "**"

  /** A piece of inline text. */
  datatype Inline = Plain(text: string) | Bold(text: string)

  datatype Block = Spacer | H3(text: string) | H2(text: string) | H1(text: string)
                 | Item(parts: seq<Inline>) | Para(parts: seq<Inline>)

  // ---------------------------------------------------------------- bold runs

  /** The characters `.` does not match in a regular expression. */
  predicate IsLineTerminator(c: char) {
    c == '\n' || c == '\r' || c == '\U{2028}' || c == '\U{2029}'
  }

  /** "**" starts at position k. */
  predicate StarsAt(s: string, k: int) {
    0 <= k && k + 2 <= |s| && s[k..k + 2] == Stars
  }

  /** No line terminator lies in s[a..b]. */
  predicate NoTerminatorBetween(s: string, a: int, b: int)
    requires 0 <= a && b <= |s|
  {
    forall m :: a <= m < b ==> !IsLineTerminator(s[m])
  }

  /** The end of the non-greedy `.*?\*\*` tail starting at `j`: the first
      "**" at or after `j` reached without crossing a line terminator. */
  function CloseAt(s: string, j: nat): (r: Option<nat>)
    requires j <= |s|
    ensures r.Some? ==> j + 2 <= r.value <= |s| && s[r.value - 2..r.value] == Stars
    ensures r.Some? ==> forall k :: j <= k < r.value - 2 ==> !IsLineTerminator(s[k])
    ensures r.Some? ==> forall k :: j <= k < r.value - 2 ==> !StarsAt(s, k)
    ensures r.None? ==> forall k :: j <= k <= |s| && NoTerminatorBetween(s, j, k) ==> !StarsAt(s, k)
    decreases |s| - j
  {
    if j + 2 <= |s| && s[j..j + 2] == Stars then Some(j + 2)
    else if j == |s| || IsLineTerminator(s[j]) then None
    else CloseAt(s, j + 1)
  }

  /** The end of a match of the bold pattern starting at `i`, if one starts there. */
  function MatchAt(s: string, i: nat): (r: Option<nat>)
    requires i <= |s|
    ensures r.Some? ==> i + 4 <= r.value <= |s|
  {
    if i + 2 <= |s| && s[i..i + 2] == Stars then CloseAt(s, i + 2) else None
  }

  /** `split` with a capturing separator, scanning from `i`; the current
      unmatched stretch began at `start`. Unmatched stretches and matches
      alternate, beginning and ending with an unmatched stretch. */
  function SplitFrom(s: string, start: nat, i: nat): (parts: seq<string>)
    requires start <= i <= |s|
    ensures |parts| % 2 == 1
    decreases |s| - i
  {
    if i == |s| then [s[start..]]
    else match MatchAt(s, i)
      case Some(e) => [s[start..i], s[i..e]] + SplitFrom(s, e, e)
      case None => SplitFrom(s, start, i + 1)
  }

  function SplitBold(s: string): seq<string> {
    SplitFrom(s, 0, 0)
  }

  function Concat(parts: seq<string>): string
    decreases |parts|
  {
    if |parts| == 0 then "" else parts[0] + Concat(parts[1..])
  }

  lemma ConcatAppend(a: seq<string>, b: seq<string>)
    ensures Concat(a + b) == Concat(a) + Concat(b)
    decreases |a|
  {
    if |a| > 0 {
      assert (a + b)[1..] == a[1..] + b;
      ConcatAppend(a[1..], b);
    } else {
      assert a + b == b;
    }
  }

  /** A match: "**", then characters other than line terminators, then "**". */
  ghost predicate IsMatch(p: string) {
    && |p| >= 4 && p[..2] == Stars && p[|p| - 2..] == Stars
    && forall k :: 2 <= k < |p| - 2 ==> !IsLineTerminator(p[k])
  }

  /** The split loses no characters. */
  lemma {:induction false} SplitFromConcat(s: string, start: nat, i: nat)
    requires start <= i <= |s|
    ensures Concat(SplitFrom(s, start, i)) == s[start..]
    decreases |s| - i
  {
    if i == |s| {
      assert Concat([s[start..]]) == s[start..] + Concat([]);
    } else {
      match MatchAt(s, i)
      case Some(e) =>
        SplitFromConcat(s, e, e);
        ConcatAppend([s[start..i], s[i..e]], SplitFrom(s, e, e));
        assert Concat([s[start..i], s[i..e]]) == s[start..i] + (s[i..e] + Concat([]));
        assert s[start..] == s[start..i] + s[i..e] + s[e..];
      case None =>
        SplitFromConcat(s, start, i + 1);
    }
  }

  /** Every odd-numbered part of the split is a match. */
  lemma {:induction false} SplitFromMatches(s: string, start: nat, i: nat)
    requires start <= i <= |s|
    ensures forall k :: 0 <= k < |SplitFrom(s, start, i)| && k % 2 == 1 ==> IsMatch(SplitFrom(s, start, i)[k])
    decreases |s| - i
  {
    if i < |s| {
      match MatchAt(s, i)
      case Some(e) =>
        SplitFromMatches(s, e, e);
        MatchIsMatch(s, i, e);
        var rest := SplitFrom(s, e, e);
        var parts := SplitFrom(s, start, i);
        assert parts == [s[start..i], s[i..e]] + rest;
        assert forall k :: 2 <= k < |parts| ==> parts[k] == rest[k - 2];
      case None =>
        SplitFromMatches(s, start, i + 1);
    }
  }

  lemma MatchIsMatch(s: string, i: nat, e: nat)
    requires i <= |s| && MatchAt(s, i) == Some(e)
    ensures IsMatch(s[i..e])
  {
    var m := s[i..e];
    assert m[..2] == s[i..i + 2];
    assert m[|m| - 2..] == s[e - 2..e];
    assert forall k :: 2 <= k < |m| - 2 ==> m[k] == s[i + k];
  }


  /** A stretch without "**" is not split. */
  lemma {:induction false} SplitFromNoStars(s: string, start: nat, i: nat)
    requires start <= i <= |s|
    requires forall k :: i <= k < |s| ==> !StarsAt(s, k)
    ensures SplitFrom(s, start, i) == [s[start..]]
    decreases |s| - i
  {
    if i < |s| {
      assert !StarsAt(s, i);
      SplitFromNoStars(s, start, i + 1);
    }
  }

  /** Where part k starts, counted from the start of the first part. */
  function PartStart(parts: seq<string>, k: nat): nat
    requires k <= |parts|
  {
    |Concat(parts[..k])|
  }

  /** No match of the bold pattern starts in s[a..b]. */
  predicate NoMatchIn(s: string, a: int, b: int)
    requires 0 <= a && b <= |s|
  {
    forall p :: a <= p < b ==> MatchAt(s, p).None?
  }

  /** Part k of a split that began at `start` lies inside s; an unmatched
      stretch contains no position where a match starts, and a match is
      exactly the one that starts at its position. */
  ghost predicate PartAt(s: string, start: nat, parts: seq<string>, k: nat)
    requires k < |parts|
  {
    && start + PartStart(parts, k) + |parts[k]| <= |s|
    && (k % 2 == 0 ==> NoMatchIn(s, start + PartStart(parts, k), start + PartStart(parts, k) + |parts[k]|))
    && (k % 2 == 1 ==> MatchAt(s, start + PartStart(parts, k)) == Some(start + PartStart(parts, k) + |parts[k]|))
  }

  ghost predicate PartsAt(s: string, start: nat, parts: seq<string>) {
    forall k :: 0 <= k < |parts| ==> PartAt(s, start, parts, k)
  }

  /** The split finds every match: no position of an unmatched stretch
      starts one, and each odd-numbered part is the match starting at its
      own position. Positions are counted from `start`. */
  lemma {:induction false} SplitFromPositions(s: string, start: nat, i: nat)
    requires start <= i <= |s|
    requires NoMatchIn(s, start, i)
    ensures PartsAt(s, start, SplitFrom(s, start, i))
    decreases |s| - i
  {
    var parts := SplitFrom(s, start, i);
    if i == |s| {
      assert parts == [s[start..]];
      assert parts[..0] == [];
      assert PartAt(s, start, parts, 0);
    } else {
      match MatchAt(s, i)
      case Some(e) =>
        var rest := SplitFrom(s, e, e);
        SplitFromPositions(s, e, e);
        assert parts == [s[start..i], s[i..e]] + rest;
        forall k | 0 <= k < |parts|
          ensures PartAt(s, start, parts, k)
        {
          if k < 2 {
            LeadingPartsAt(s, start, i, e, rest, parts, k);
          } else {
            assert PartAt(s, e, rest, k - 2);
            LaterPartAt(s, start, i, e, rest, parts, k);
          }
        }
      case None =>
        assert parts == SplitFrom(s, start, i + 1);
        SplitFromPositions(s, start, i + 1);
    }
  }

  /** The unmatched stretch and the match in front of the rest of a split. */
  lemma LeadingPartsAt(s: string, start: nat, i: nat, e: nat, rest: seq<string>, parts: seq<string>, k: nat)
    requires start <= i <= |s| && NoMatchIn(s, start, i) && MatchAt(s, i) == Some(e)
    requires parts == [s[start..i], s[i..e]] + rest && k < 2
    ensures PartAt(s, start, parts, k)
  {
    if k == 0 {
      assert parts[..0] == [];
      assert PartStart(parts, 0) == 0;
    } else {
      assert parts[..1] == [s[start..i]];
      assert Concat([s[start..i]]) == s[start..i] + Concat([]);
      assert PartStart(parts, 1) == i - start;
    }
  }

  /** A part of the rest keeps its place behind the two leading parts. */
  lemma LaterPartAt(s: string, start: nat, i: nat, e: nat, rest: seq<string>, parts: seq<string>, k: nat)
    requires start <= i <= e <= |s|
    requires parts == [s[start..i], s[i..e]] + rest && 2 <= k < |parts|
    requires PartAt(s, e, rest, k - 2)
    ensures PartAt(s, start, parts, k)
  {
    PartStartAfterTwo(s[start..i], s[i..e], rest, k);
    assert parts[k] == rest[k - 2];
    assert start + PartStart(parts, k) == e + PartStart(rest, k - 2);
  }

  /** Behind two leading parts, a part starts after both of them. */
  lemma PartStartAfterTwo(a: string, b: string, rest: seq<string>, k: nat)
    requires 2 <= k <= |rest| + 2
    ensures PartStart([a, b] + rest, k) == |a| + |b| + PartStart(rest, k - 2)
  {
    var parts := [a, b] + rest;
    assert parts[..k] == [a, b] + rest[..k - 2];
    ConcatAppend([a, b], rest[..k - 2]);
    assert Concat([a, b]) == a + (b + Concat([]));
  }

  /** `part.slice(2, -2)`: empty when fewer than four characters. */
  function Inner(part: string): (r: string)
    ensures |part| >= 4 ==> r == part[2..|part| - 2]
    ensures |part| < 4 ==> r == ""
  {
    if |part| >= 4 then part[2..|part| - 2] else ""
  }

  /** A part is bold when it starts and ends with "**". */
  function Style(part: string): (r: Inline)
    ensures r.Bold? <==> Text.StartsWith(part, Stars) && Text.EndsWith(part, Stars)
    ensures r.Bold? ==> r.text == Inner(part)
    ensures r.Plain? ==> r.text == part
  {
    if Text.StartsWith(part, Stars) && Text.EndsWith(part, Stars) then Bold(Inner(part)) else Plain(part)
  }

  /** `parseInlineStyles`. */
  function ParseInline(text: string): (r: seq<Inline>)
  {
    var parts := SplitBold(text);
    seq(|parts|, k requires 0 <= k < |parts| => Style(parts[k]))
  }

  /** Inline parsing keeps every character of the text: the parts concatenate
      back to it, each match is shown bold with its two stars on either side
      removed, and a text without "**" is one plain run. It also misses no
      match: no position of a plain part starts one, and each bold part is
      the match that starts where it stands. */
  lemma ParseInlineSpec(text: string)
    ensures Concat(SplitBold(text)) == text
    ensures |ParseInline(text)| == |SplitBold(text)|
    ensures forall k :: 0 <= k < |SplitBold(text)| && k % 2 == 1 ==>
      var p := SplitBold(text)[k];
      IsMatch(p) && ParseInline(text)[k] == Bold(p[2..|p| - 2]) && p == Stars + p[2..|p| - 2] + Stars
    ensures (forall k :: 0 <= k < |text| ==> !StarsAt(text, k)) ==> ParseInline(text) == [Plain(text)]
    ensures PartsAt(text, 0, SplitBold(text))
  {
    SplitFromPositions(text, 0, 0);
    SplitFromConcat(text, 0, 0);
    SplitFromMatches(text, 0, 0);
    var parts := SplitBold(text);
    forall k | 0 <= k < |parts| && k % 2 == 1
      ensures var p := parts[k]; ParseInline(text)[k] == Bold(p[2..|p| - 2]) && p == Stars + p[2..|p| - 2] + Stars
    {
      var p := parts[k];
      assert IsMatch(p);
      assert p == p[..2] + p[2..|p| - 2] + p[|p| - 2..];
    }
    if forall k :: 0 <= k < |text| ==> !StarsAt(text, k) {
      SplitFromNoStars(text, 0, 0);
      if |text| >= 2 {
        assert !StarsAt(text, 0);
        assert text[..2] != Stars;
      }
    }
  }

  // ---------------------------------------------------------------- lines

  /** One trimmed line: blank lines are spacers; "### ", "## " and "# " make
      headers whose text is the line without that prefix; "- " and "* "
      make list items without their first two characters; anything else is a
      paragraph. Only items and paragraphs get inline parsing. */
  function Classify(raw: string): Block {
    var line := Text.Trim(raw);
    if line == "" then Spacer
    else if Text.StartsWith(line, "### ") then H3(Text.ReplaceFirst(line, "### ", ""))
    else if Text.StartsWith(line, "## ") then H2(Text.ReplaceFirst(line, "## ", ""))
    else if Text.StartsWith(line, "# ") then H1(Text.ReplaceFirst(line, "# ", ""))
    else if Text.StartsWith(line, "- ") || Text.StartsWith(line, "* ") then Item(ParseInline(line[2..]))
    else Para(ParseInline(line))
  }

  /** What each block kind means in terms of the trimmed line. */
  lemma ClassifySpec(raw: string)
    ensures var line := Text.Trim(raw);
      && (Classify(raw) == Spacer <==> line == "")
      && (Text.StartsWith(line, "### ") ==> Classify(raw) == H3(line[4..]))
      && (Text.StartsWith(line, "## ") ==> Classify(raw) == H2(line[3..]))
      && (Text.StartsWith(line, "# ") ==> Classify(raw) == H1(line[2..]))
      && (Text.StartsWith(line, "- ") || Text.StartsWith(line, "* ") ==> Classify(raw) == Item(ParseInline(line[2..])))
      && (line != "" && !Text.StartsWith(line, "### ") && !Text.StartsWith(line, "## ")
          && !Text.StartsWith(line, "# ") && !Text.StartsWith(line, "- ") && !Text.StartsWith(line, "* ")
          ==> Classify(raw) == Para(ParseInline(line)))
  {
    var line := Text.Trim(raw);
    if Text.StartsWith(line, "### ") {
      assert line[1] == '#' && line[2] == '#';
      Text.ReplaceFirstOfPrefix(line, "### ");
    } else if Text.StartsWith(line, "## ") {
      assert line[1] == '#';
      Text.ReplaceFirstOfPrefix(line, "## ");
    } else if Text.StartsWith(line, "# ") {
      Text.ReplaceFirstOfPrefix(line, "# ");
    }
  }

  /** A '#' not followed by a space does not make a header. */
  lemma HashWithoutSpace(rest: string)
    requires |rest| > 0 && rest[0] != ' ' && rest[0] != '#' && !Text.IsSpace(rest[|rest| - 1])
    ensures Classify("#" + rest) == Para(ParseInline("#" + rest))
  {
    var line := "#" + rest;
    Text.TrimUnchanged(line);
    assert line[1] == rest[0];
  }

  /** `renderLines`: one block per '\n'-separated line. */
  function RenderLines(content: string): (r: seq<Block>)
  {
    var lines := Text.Split(content, '\n');
    seq(|lines|, i requires 0 <= i < |lines| => Classify(lines[i]))
  }

  /** The rendering has exactly one block per line, one more than the number
      of newlines, and block i is the classification of line i. */
  lemma RenderLinesSpec(content: string)
    ensures |RenderLines(content)| == Text.CountChar(content, '\n') + 1
    ensures forall i :: 0 <= i < |RenderLines(content)| ==>
      RenderLines(content)[i] == Classify(Text.Split(content, '\n')[i])
  {
    Text.SplitCount(content, '\n');
  }
}
