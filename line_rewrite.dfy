/**
 * The per-line Markdown-to-tag rewrite of the XML tab. Each line of escaped
 * content is tried against, in this order: the heading pattern
 * `^(#{1,6})\s+(.+)$`, a leading code fence, a trailing code fence, the list
 * pattern `^\s*[-*+]\s`, and otherwise becomes a paragraph (or stays empty).
 */
module LineRewrite {
  import opened JsText
  import opened Pages

  /** Length of the run of `#` at the start of `line`. */
  function HashRun(line: string): (n: nat)
    ensures n <= |line|
    ensures forall i :: 0 <= i < n ==> line[i] == '#'
    ensures n == |line| || line[n] != '#'
  {
    if line != [] && line[0] == '#' then 1 + HashRun(line[1..]) else 0
  }

  /** Length of the run of whitespace in `line` that starts at `from`. */
  function WhitespaceRun(line: string, from: nat): (w: nat)
    requires from <= |line|
    ensures from + w <= |line|
    ensures forall i :: from <= i < from + w ==> IsWhitespace(line[i])
    ensures from + w == |line| || !IsWhitespace(line[from + w])
    decreases |line| - from
  {
    if from < |line| && IsWhitespace(line[from]) then 1 + WhitespaceRun(line, from + 1) else 0
  }

  /** A run of `k` hashes followed by something else has length exactly `k`. */
  lemma {:induction false} HashRunExact(line: string, k: nat)
    requires k <= |line|
    requires forall i :: 0 <= i < k ==> line[i] == '#'
    requires k == |line| || line[k] != '#'
    ensures HashRun(line) == k
  {
    if k > 0 {
      HashRunExact(line[1..], k - 1);
    }
  }

  /** A run of `k` hashes at the start is part of the leading run. */
  lemma {:induction false} HashRunAtLeast(line: string, k: nat)
    requires k <= |line|
    requires forall i :: 0 <= i < k ==> line[i] == '#'
    ensures HashRun(line) >= k
  {
    if k > 0 {
      HashRunAtLeast(line[1..], k - 1);
    }
  }

  /** `k` whitespace characters from `from` on are part of the run there. */
  lemma {:induction false} WhitespaceRunAtLeast(line: string, from: nat, k: nat)
    requires from + k <= |line|
    requires forall i :: from <= i < from + k ==> IsWhitespace(line[i])
    ensures WhitespaceRun(line, from) >= k
    decreases k
  {
    if k > 0 {
      WhitespaceRunAtLeast(line, from + 1, k - 1);
    }
  }

  /** Whitespace from `from` up to a character that is not whitespace is exactly the run there. */
  lemma {:induction false} WhitespaceRunExact(line: string, from: nat, k: nat)
    requires from + k < |line|
    requires forall i :: from <= i < from + k ==> IsWhitespace(line[i])
    requires !IsWhitespace(line[from + k])
    ensures WhitespaceRun(line, from) == k
    decreases k
  {
    if k > 0 {
      WhitespaceRunExact(line, from + 1, k - 1);
    }
  }

  predicate NoLineTerminator(s: string) {
    forall i :: 0 <= i < |s| ==> !IsLineTerminator(s[i])
  }

  /**
   * One way the heading pattern matches `line`: `level` hashes for `#{1,6}`,
   * the next `ws` characters for `\s+`, and the rest, non-empty and free of
   * line terminators, for `(.+)$`.
   */
  predicate HeadingSplit(line: string, level: nat, ws: nat) {
    && 1 <= level <= 6
    && 1 <= ws
    && level + ws < |line|
    && (forall i :: 0 <= i < level ==> line[i] == '#')
    && (forall i :: level <= i < level + ws ==> IsWhitespace(line[i]))
    && NoLineTerminator(line[level + ws..])
  }

  datatype Heading = Heading(level: nat, text: string)

  /**
   * The match the regular expression engine returns: both quantifiers are
   * greedy, so of all the ways to match it takes the one with the most
   * whitespace in `\s+`, leaving the shortest text for `(.+)`.
   */
  function MatchHeading(line: string): Option<Heading> {
    var n := HashRun(line);
    if n < 1 || 6 < n then None
    else
      var w := WhitespaceRun(line, n);
      if w == 0 then None
      else if n + w < |line| then
        if NoLineTerminator(line[n + w..]) then Some(Heading(n, line[n + w..])) else None
      else if 2 <= w && !IsLineTerminator(line[|line| - 1]) then Some(Heading(n, line[|line| - 1..]))
      else None
  }

  /** A reported heading is a match of the pattern, whose level is the number of leading `#`. */
  lemma MatchHeadingSound(line: string)
    requires MatchHeading(line).Some?
    ensures var h := MatchHeading(line).value;
      && h.level == HashRun(line)
      && |h.text| >= 1
      && h.text == line[|line| - |h.text|..]
      && HeadingSplit(line, h.level, |line| - h.level - |h.text|)
  {
    var n := HashRun(line);
    var w := WhitespaceRun(line, n);
    var h := MatchHeading(line).value;
    if n + w < |line| {
      assert h == Heading(n, line[n + w..]);
    } else {
      assert h == Heading(n, line[|line| - 1..]);
      assert line[|line| - 1..] == [line[|line| - 1]];
      assert NoLineTerminator(h.text);
    }
  }

  /**
   * Every match of the pattern is found: the heading is reported with the
   * same level, and its text is no longer than the one this match leaves.
   */
  lemma MatchHeadingComplete(line: string, level: nat, ws: nat)
    requires HeadingSplit(line, level, ws)
    ensures MatchHeading(line).Some?
    ensures MatchHeading(line).value.level == level
    ensures |MatchHeading(line).value.text| <= |line| - level - ws
  {
    assert !IsWhitespace('#');
    HashRunExact(line, level);
    var n := HashRun(line);
    var w := WhitespaceRun(line, n);
    WhitespaceRunAtLeast(line, n, ws);
    var tail := line[level + ws..];
    if n + w < |line| {
      assert line[n + w..] == tail[w - ws..];
    } else {
      assert line[|line| - 1] == tail[|tail| - 1];
    }
  }

  /** Seven or more leading `#` never make a heading. */
  lemma SevenHashesNoHeading(line: string)
    requires |line| >= 7 && forall i :: 0 <= i < 7 ==> line[i] == '#'
    ensures MatchHeading(line).None?
  {
    HashRunAtLeast(line, 7);
  }

  /**
   * The list pattern matched at marker position `k`: whitespace before it,
   * one of `-`, `*`, `+` at `k`, and whitespace right after.
   */
  predicate ListSplit(line: string, k: nat) {
    && k + 1 < |line|
    && (forall i :: 0 <= i < k ==> IsWhitespace(line[i]))
    && (line[k] == '-' || line[k] == '*' || line[k] == '+')
    && IsWhitespace(line[k + 1])
  }

  /** `line.match(/^\s*[-*+]\s/)`, tested at the only place the marker can be. */
  predicate IsListItem(line: string) {
    ListSplit(line, WhitespaceRun(line, 0))
  }

  /** The list pattern can match at one position only: right after the leading whitespace. */
  lemma ListSplitUnique(line: string, k: nat)
    requires ListSplit(line, k)
    ensures k == WhitespaceRun(line, 0)
    ensures IsListItem(line)
  {
    assert !IsWhitespace(line[k]);
    WhitespaceRunExact(line, 0, k);
  }

  /** `line.replace(/^\s*[-*+]\s/, '')` on a line that matched: everything after the marker's whitespace. */
  function ListItemText(line: string): string
    requires IsListItem(line)
  {
    line[WhitespaceRun(line, 0) + 2..]
  }

  function HeadingTag(h: Heading): string {
    "<h" + Decimal(h.level) + ">" + h.text + "</h" + Decimal(h.level) + ">"
  }

  /** The rewrite of one line, its rules tried in the order the results display tries them. */
  function RewriteLine(line: string): string {
    match MatchHeading(line)
    case Some(h) => HeadingTag(h)
    case None =>
      if StartsWith(line, "```") then "<code>"
      else if EndsWith(line, "```") then "</code>"
      else if IsListItem(line) then "<li>" + ListItemText(line) + "</li>"
      else if line != "" then "<p>" + line + "</p>"
      else ""
  }

  /** A line that opens with a fence always becomes `<code>`, never `</code>`, even a bare fence. */
  lemma FenceOpens(line: string)
    requires StartsWith(line, "```")
    ensures RewriteLine(line) == "<code>"
  {
    assert line[0] == '`';
    assert HashRun(line) == 0;
  }

  /** `</code>` comes only from a line that ends with a fence, does not open with one and is no heading. */
  lemma FenceClosesOnly(line: string)
    ensures RewriteLine(line) == "</code>" <==>
      MatchHeading(line).None? && !StartsWith(line, "```") && EndsWith(line, "```")
  {
    if MatchHeading(line).Some? {
      HeadingNeverCloses(MatchHeading(line).value);
    } else if !StartsWith(line, "```") && !EndsWith(line, "```") {
      ProseNeverCloses(line);
    }
  }

  lemma HeadingNeverCloses(h: Heading)
    ensures HeadingTag(h) != "</code>"
  {
    assert HeadingTag(h)[1] == 'h';
  }

  /** A list item or a paragraph line is never rewritten to `</code>`. */
  lemma ProseNeverCloses(line: string)
    requires MatchHeading(line).None? && !StartsWith(line, "```") && !EndsWith(line, "```")
    ensures RewriteLine(line) != "</code>"
  {
    if IsListItem(line) {
      assert RewriteLine(line)[1] == 'l';
    } else if line != "" {
      assert RewriteLine(line)[1] == 'p';
    }
  }

  /** Only the empty line becomes the empty string. */
  lemma RewriteEmptyIff(line: string)
    ensures RewriteLine(line) == "" <==> line == ""
  {
    if MatchHeading(line).Some? {
      assert |RewriteLine(line)| > 0;
    }
  }

  /** A heading becomes `<hN>text</hN>` with N its number of leading `#`, between 1 and 6. */
  lemma HeadingRewrite(line: string)
    requires MatchHeading(line).Some?
    ensures var h := MatchHeading(line).value;
      && 1 <= h.level <= 6
      && RewriteLine(line) == "<h" + [Digit(h.level)] + ">" + h.text + "</h" + [Digit(h.level)] + ">"
  {
    var h := MatchHeading(line).value;
    MatchHeadingSound(line);
  }

  lemma SuffixLineFree(s: string, k: nat)
    requires '\n' !in s && k <= |s|
    ensures '\n' !in s[k..]
  {
    forall i | 0 <= i < |s| - k ensures s[k..][i] != '\n' {
      assert s[k..][i] == s[k + i];
    }
  }

  lemma HeadingTagLineFree(h: Heading)
    requires '\n' !in h.text
    ensures '\n' !in HeadingTag(h)
  {
    var d := Decimal(h.level);
    assert '\n' !in d by {
      forall i | 0 <= i < |d| ensures d[i] != '\n' {
        assert '0' <= d[i] <= '9';
      }
    }
  }

  /** No rule introduces a line break, so a line without one stays without one. */
  lemma RewriteKeepsLineFree(line: string)
    requires '\n' !in line
    ensures '\n' !in RewriteLine(line)
  {
    var r := RewriteLine(line);
    match MatchHeading(line)
    case Some(h) =>
      MatchHeadingSound(line);
      SuffixLineFree(line, |line| - |h.text|);
      HeadingTagLineFree(h);
    case None =>
      if StartsWith(line, "```") {
        assert r == "<code>";
      } else if EndsWith(line, "```") {
        assert r == "</code>";
      } else if IsListItem(line) {
        SuffixLineFree(line, WhitespaceRun(line, 0) + 2);
        assert r == "<li>" + ListItemText(line) + "</li>";
      } else if line != "" {
        assert r == "<p>" + line + "</p>";
      }
  }
}
