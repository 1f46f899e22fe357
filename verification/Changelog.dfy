/** Lines, headings and sections of a changelog, all by offsets into the original text. */
module Changelog {
  import opened Comments

  // ------------------------------------------------------------------------ lines

  /** Iterating `io.StringIO(text)`: lines keep their line feed. */
  function LinesOf(text: string): (lines: seq<string>)
    decreases |text|
  {
    if text == "" then []
    else
      var n := LineLength(text);
      [text[..n]] + LinesOf(text[n..])
  }

  function LineLength(text: string): (n: nat)
    requires text != ""
    ensures 0 < n <= |text|
    ensures forall i :: 0 <= i < n - 1 ==> text[i] != '\n'
    ensures n < |text| ==> text[n - 1] == '\n'
  {
    if text[0] == '\n' || |text| == 1 then 1 else 1 + LineLength(text[1..])
  }

  function Concat(lines: seq<string>): string {
    if lines == [] then "" else lines[0] + Concat(lines[1..])
  }

  lemma {:induction false} LinesJoin(text: string)
    ensures Concat(LinesOf(text)) == text
    decreases |text|
  {
    if text != "" {
      var n := LineLength(text);
      LinesJoin(text[n..]);
      assert text == text[..n] + text[n..];
      assert LinesOf(text)[1..] == LinesOf(text[n..]);
    }
  }

  /** Every line ends at its only line feed; only the last one may lack it. */
  lemma {:induction false} LinesEndAtFeeds(text: string)
    ensures forall k, i :: 0 <= k < |LinesOf(text)| && 0 <= i < |LinesOf(text)[k]| - 1 ==> LinesOf(text)[k][i] != '\n'
    ensures forall k :: 0 <= k < |LinesOf(text)| ==> LinesOf(text)[k] != ""
    ensures forall k :: 0 <= k < |LinesOf(text)| - 1 ==> LinesOf(text)[k][|LinesOf(text)[k]| - 1] == '\n'
    decreases |text|
  {
    hide LineLength;
    if text != "" {
      var n := LineLength(text);
      LinesEndAtFeeds(text[n..]);
      assert LinesOf(text)[1..] == LinesOf(text[n..]);
      assert forall k :: 1 <= k < |LinesOf(text)| ==> LinesOf(text)[k] == LinesOf(text[n..])[k - 1];
    }
  }

  // ----------------------------------------------------------------------- fences

  datatype Fence = NoFence | Fence(marker: char, length: nat, info: string)

  /** How many characters `c` stand in front. */
  function Leading(s: string, c: char): (n: nat)
    ensures n <= |s| && (forall i :: 0 <= i < n ==> s[i] == c) && (n < |s| ==> s[n] != c)
  {
    if s != "" && s[0] == c then 1 + Leading(s[1..], c) else 0
  }

  /** `_release_fence`. */
  function FenceOf(line: string): Fence {
    var indent := Leading(line, ' ');
    var content := line[indent..];
    if indent > 3 || content == "" || (content[0] != '`' && content[0] != '~') then NoFence
    else
      var length := Leading(content, content[0]);
      if length < 3 then NoFence else Fence(content[0], length, content[length..])
  }

  predicate IsBlank(c: char) {
    c == ' ' || c == '\t' || c == '\r' || c == '\n'
  }

  /** `_release_fence_closes`. */
  predicate FenceCloses(candidate: Fence, fence: Fence)
    requires fence.Fence?
  {
    && candidate.Fence? && candidate.marker == fence.marker && candidate.length >= fence.length
    && forall i :: 0 <= i < |candidate.info| ==> IsBlank(candidate.info[i])
  }

  datatype Line = Line(visible: string, heading: bool, guidance: bool)

  /** What the loop of `_release_lines` carries from line to line. */
  datatype Mode = Mode(fence: Fence, comment: bool)

  const OUTSIDE := Mode(NoFence, false)

  predicate OpensFence(mode: Mode, line: string) {
    var candidate := FenceOf(line);
    mode.fence.NoFence? && !mode.comment && candidate.Fence? && (candidate.marker == '~' || '`' !in candidate.info)
  }

  /** `line.startswith(("    ", "\t"))`. */
  predicate IsIndented(line: string) {
    "    " <= line || "\t" <= line
  }

  function ReadLine(mode: Mode, line: string): (Line, Mode) {
    if mode.fence.Fence? then
      var closes := FenceCloses(FenceOf(line), mode.fence);
      (Line(line, false, !closes), if closes then mode.(fence := NoFence) else mode)
    else if OpensFence(mode, line) then (Line(line, false, false), mode.(fence := FenceOf(line)))
    else if !mode.comment && IsIndented(line) then (Line(line, false, true), mode)
    else
      var scanned := Scan(line, 0, mode.comment);
      (Line(Masked(line, scanned.tokens), true, true), mode.(comment := scanned.comment))
  }

  function ReadLines(mode: Mode, lines: seq<string>): seq<Line>
    decreases |lines|
  {
    if lines == [] then []
    else
      var (line, next) := ReadLine(mode, lines[0]);
      [line] + ReadLines(next, lines[1..])
  }

  function ModeAfter(mode: Mode, lines: seq<string>): Mode
    decreases |lines|
  {
    if lines == [] then mode else ModeAfter(ReadLine(mode, lines[0]).1, lines[1..])
  }

  /** `_release_lines`. */
  function ReleaseLines(text: string): seq<Line> {
    ReadLines(OUTSIDE, LinesOf(text))
  }

  /** `line` is `indent` spaces, `length` times `marker`, and `info`, which does not go on with `marker`. */
  ghost predicate IsFence(line: string, indent: nat, marker: char, length: nat, info: string) {
    && indent <= 3 && length >= 3 && (marker == '`' || marker == '~')
    && line == seq(indent, _ => ' ') + seq(length, _ => marker) + info
    && (info == "" || info[0] != marker)
  }

  lemma LeadingIs(c: char, n: nat, rest: string)
    requires rest == "" || rest[0] != c
    ensures Leading(seq(n, _ => c) + rest, c) == n
  {
    hide Leading;
    var s := seq(n, _ => c) + rest;
    assert forall i :: 0 <= i < n ==> s[i] == c;
    assert n < |s| ==> s[n] != c;
  }

  lemma FenceHasForm(line: string)
    requires FenceOf(line).Fence?
    ensures var f := FenceOf(line); IsFence(line, Leading(line, ' '), f.marker, f.length, f.info)
  {
    hide Leading;
    var indent := Leading(line, ' ');
    var content := line[indent..];
    var f := FenceOf(line);
    assert content == seq(f.length, _ => f.marker) + f.info;
    assert line == seq(indent, _ => ' ') + content;
    assert seq(indent, _ => ' ') + seq(f.length, _ => f.marker) + f.info == line;
  }

  lemma FormIsFence(line: string, indent: nat, marker: char, length: nat, info: string)
    requires IsFence(line, indent, marker, length, info)
    ensures FenceOf(line) == Fence(marker, length, info)
  {
    hide Leading;
    var tail := seq(length, _ => marker) + info;
    assert line == seq(indent, _ => ' ') + tail && tail[0] == marker;
    LeadingIs(' ', indent, tail);
    assert line[indent..] == tail;
    LeadingIs(marker, length, info);
    assert tail[length..] == info;
  }

  /** A line is a fence exactly when it has that form. */
  lemma {:induction false} FenceIsForm(line: string, marker: char, length: nat, info: string)
    ensures FenceOf(line) == Fence(marker, length, info) <==> exists indent :: IsFence(line, indent, marker, length, info)
  {
    hide FenceOf, IsFence;
    if FenceOf(line) == Fence(marker, length, info) {
      FenceHasForm(line);
    }
    if indent: nat :| IsFence(line, indent, marker, length, info) {
      FormIsFence(line, indent, marker, length, info);
    }
  }

  /** A fence that may open a block: one of backticks has none behind it. */
  ghost predicate OpensWith(line: string, fence: Fence) {
    && fence.Fence? && (exists indent: nat :: IsFence(line, indent, fence.marker, fence.length, fence.info))
    && (fence.marker == '`' ==> '`' !in fence.info)
  }

  ghost predicate Opener(line: string) {
    exists fence :: OpensWith(line, fence)
  }

  /** A fence of `length` or more markers with nothing but blanks behind them. */
  ghost predicate Closer(line: string, marker: char, length: nat) {
    exists indent: nat, n: nat, info: string ::
      IsFence(line, indent, marker, n, info) && n >= length && forall c :: c in info ==> c in {' ', '\t', '\r', '\n'}
  }

  lemma {:induction false} OpeningIsForm(mode: Mode, line: string)
    ensures OpensFence(mode, line) <==> mode.fence.NoFence? && !mode.comment && Opener(line)
    ensures OpensFence(mode, line) ==> OpensWith(line, FenceOf(line))
  {
    hide FenceOf, IsFence;
    if FenceOf(line).Fence? {
      var f := FenceOf(line);
      FenceIsForm(line, f.marker, f.length, f.info);
      MarkerIs(line);
      assert OpensFence(mode, line) ==> OpensWith(line, f);
    }
    if Opener(line) {
      var fence :| OpensWith(line, fence);
      FenceIsForm(line, fence.marker, fence.length, fence.info);
      MarkerIs(line);
    }
  }

  lemma MarkerIs(line: string)
    ensures FenceOf(line).Fence? ==> FenceOf(line).marker == '`' || FenceOf(line).marker == '~'
  {
  }

  lemma {:induction false} ClosingIsForm(line: string, fence: Fence)
    requires fence.Fence?
    ensures FenceCloses(FenceOf(line), fence) <==> Closer(line, fence.marker, fence.length)
  {
    hide FenceOf, IsFence;
    if FenceCloses(FenceOf(line), fence) {
      var f := FenceOf(line);
      FenceIsForm(line, f.marker, f.length, f.info);
      assert forall c :: c in f.info ==> c in {' ', '\t', '\r', '\n'};
    }
    if Closer(line, fence.marker, fence.length) {
      var indent: nat, n: nat, info: string :| IsFence(line, indent, fence.marker, n, info) && n >= fence.length
        && forall c :: c in info ==> c in {' ', '\t', '\r', '\n'};
      FenceIsForm(line, fence.marker, n, info);
      assert forall i :: 0 <= i < |info| ==> info[i] in info;
    }
  }

  /** Four spaces or a tab in front. */
  predicate Indented(line: string) {
    (|line| >= 4 && line[..4] == [' ', ' ', ' ', ' ']) || (|line| >= 1 && line[0] == '\t')
  }

  /** How a line is shown and what it leaves open.  Its comments are blanked exactly when it can hold a heading, which
  is outside fences and indented code; a fence's own lines give no guidance. */
  ghost predicate Shows(mode: Mode, raw: string, line: Line, next: Mode) {
    var opens := mode.fence.NoFence? && !mode.comment && Opener(raw);
    var closes := mode.fence.Fence? && Closer(raw, mode.fence.marker, mode.fence.length);
    && |line.visible| == |raw|
    && line.visible == (if line.heading then Masked(raw, Scan(raw, 0, mode.comment).tokens) else raw)
    && (line.heading <==> mode.fence.NoFence? && !opens && (mode.comment || !Indented(raw)))
    && (line.guidance <==> !opens && !closes)
    && next.comment == (if line.heading then Scan(raw, 0, mode.comment).comment else mode.comment)
    && (if opens then OpensWith(raw, next.fence) else if closes then next.fence == NoFence else next.fence == mode.fence)
  }

  lemma LineShows(mode: Mode, raw: string)
    ensures Shows(mode, raw, ReadLine(mode, raw).0, ReadLine(mode, raw).1)
  {
    hide Scan, Masked, FenceOf, FenceCloses, OpensFence, Opener, Closer, OpensWith;
    OpensOutside(mode, raw);
    OpeningIsForm(mode, raw);
    if mode.fence.Fence? {
      ClosingIsForm(raw, mode.fence);
    }
    MaskedKeepsLength(raw, Scan(raw, 0, mode.comment).tokens);
    IndentedIs(raw);
  }

  lemma IndentedIs(line: string)
    ensures IsIndented(line) <==> Indented(line)
  {
    assert |"    "| == 4 && "    " == [' ', ' ', ' ', ' '];
  }

  lemma OpensOutside(mode: Mode, line: string)
    ensures OpensFence(mode, line) ==> mode.fence.NoFence?
  {
  }

  lemma {:induction false} LinesShow(mode: Mode, lines: seq<string>)
    ensures |ReadLines(mode, lines)| == |lines|
    ensures forall k :: 0 <= k < |lines| ==>
      Shows(ModeAfter(mode, lines[..k]), lines[k], ReadLines(mode, lines)[k], ModeAfter(mode, lines[..k + 1]))
    decreases |lines|
  {
    hide ReadLine, Shows;
    if lines != [] {
      var (line, next) := ReadLine(mode, lines[0]);
      LinesShow(next, lines[1..]);
      forall k | 0 <= k < |lines|
        ensures Shows(ModeAfter(mode, lines[..k]), lines[k], ReadLines(mode, lines)[k], ModeAfter(mode, lines[..k + 1]))
      {
        assert lines[..k + 1][1..] == lines[1..][..k];
        if k == 0 {
          LineShows(mode, lines[0]);
          assert lines[1..][..0] == [];
        } else {
          assert lines[..k][1..] == lines[1..][..k - 1];
          assert Shows(ModeAfter(next, lines[1..][..k - 1]), lines[1..][k - 1], ReadLines(next, lines[1..])[k - 1],
                       ModeAfter(next, lines[1..][..k]));
        }
      }
    }
  }

  /** The fence that is open before the `k`th line was opened by an earlier line and closed by none since. */
  ghost predicate OpenedAt(mode: Mode, lines: seq<string>, k: nat, j: nat, fence: Fence)
    requires k <= |lines|
  {
    && fence.Fence? && j < k && OpensWith(lines[j], fence)
    && ModeAfter(mode, lines[..j]) == OUTSIDE
    && forall i :: j < i < k ==> !Closer(lines[i], fence.marker, fence.length)
  }

  lemma {:induction false} ModeAfterOne(mode: Mode, lines: seq<string>, line: string)
    ensures ModeAfter(mode, lines + [line]) == ReadLine(ModeAfter(mode, lines), line).1
    decreases |lines|
  {
    hide ReadLine;
    if lines == [] {
      assert [] + [line] == [line] && [line][1..] == [];
    } else {
      ModeAfterOne(ReadLine(mode, lines[0]).1, lines[1..], line);
      assert (lines + [line])[1..] == lines[1..] + [line];
    }
  }

  lemma OneOpening(line: string, fence: Fence, other: Fence)
    requires OpensWith(line, fence) && OpensWith(line, other)
    ensures fence == other
  {
    hide FenceOf, IsFence;
    FenceIsForm(line, fence.marker, fence.length, fence.info);
    FenceIsForm(line, other.marker, other.length, other.info);
  }

  /** Fenced blocks: a fence is open before a line exactly when an earlier line opened it and none between
  closed it. */
  lemma {:induction false} FencesAreBlocks(mode: Mode, lines: seq<string>, k: nat, fence: Fence)
    requires k <= |lines| && mode.fence.NoFence? && fence.Fence?
    ensures ModeAfter(mode, lines[..k]).fence == fence <==> exists j :: OpenedAt(mode, lines, k, j, fence)
  {
    hide Scan, Masked, ModeAfter, ReadLine, ReadLines, Opener, Closer, OpensWith;
    if k == 0 {
      NoLinesRead(mode, lines);
    } else {
      var before, after, line := ModeAfter(mode, lines[..k - 1]), ModeAfter(mode, lines[..k]), lines[k - 1];
      assert lines[..k] == lines[..k - 1] + [line];
      ModeAfterOne(mode, lines[..k - 1], line);
      LineShows(before, line);
      FencesAreBlocks(mode, lines, k - 1, fence);
      if before.fence.Fence? {
        FencesAreBlocks(mode, lines, k - 1, before.fence);
      }
      if after.fence == fence {
        if before.fence.NoFence? {
          assert OpenedAt(mode, lines, k, k - 1, fence);
        } else {
          var j :| OpenedAt(mode, lines, k - 1, j, fence);
          assert OpenedAt(mode, lines, k, j, fence);
        }
      }
      if j: nat :| OpenedAt(mode, lines, k, j, fence) {
        if j < k - 1 {
          assert OpenedAt(mode, lines, k - 1, j, fence);
        } else {
          LastOpens(before, line, fence, after);
        }
      }
    }
  }

  lemma LastOpens(before: Mode, line: string, fence: Fence, after: Mode)
    requires before == OUTSIDE && OpensWith(line, fence)
    requires exists shown :: Shows(before, line, shown, after)
    ensures after.fence == fence
  {
    hide Scan, Masked, Closer, OpensWith;
    assert Opener(line);
    OneOpening(line, fence, after.fence);
  }

  lemma NoLinesRead(mode: Mode, lines: seq<string>)
    ensures ModeAfter(mode, lines[..0]) == mode
  {
  }

  lemma MaskedKeepsLength(line: string, tokens: seq<Token>)
    ensures |Masked(line, tokens)| == |line|
  {
  }

  function Visible(lines: seq<Line>): string {
    if lines == [] then "" else lines[0].visible + Visible(lines[1..])
  }

  /** Nothing but spaces replaces a character, and no line break is replaced. */
  ghost predicate BlankedFrom(visible: string, text: string) {
    && |visible| == |text|
    && forall i :: 0 <= i < |text| ==> visible[i] == text[i] || (visible[i] == ' ' && text[i] != '\r' && text[i] != '\n')
  }

  lemma {:induction false} VisibleBlanks(mode: Mode, lines: seq<string>)
    ensures BlankedFrom(Visible(ReadLines(mode, lines)), Concat(lines))
    decreases |lines|
  {
    hide Scan, FenceOf, FenceCloses, OpensFence;
    if lines != [] {
      var (line, next) := ReadLine(mode, lines[0]);
      VisibleBlanks(next, lines[1..]);
      assert BlankedFrom(line.visible, lines[0]);
      assert ReadLines(mode, lines)[1..] == ReadLines(next, lines[1..]);
    }
  }

  /** The visible text has the length of the original and its line breaks where they were. */
  lemma VisibleKeepsOffsets(text: string)
    ensures BlankedFrom(Visible(ReleaseLines(text)), text)
  {
    LinesJoin(text);
    VisibleBlanks(OUTSIDE, LinesOf(text));
  }

  // --------------------------------------------------------------------- headings

  datatype Heading = Heading(level: nat, title: string, start: nat, end: nat)

  predicate AllIn(s: string, chars: string) {
    forall i :: 0 <= i < |s| ==> s[i] in chars
  }

  function StripRight(s: string, drop: string): (r: string)
    ensures r <= s && (r == "" || r[|r| - 1] !in drop) && AllIn(s[|r|..], drop)
  {
    if s == "" || s[|s| - 1] !in drop then s
    else
      var r := StripRight(s[..|s| - 1], drop);
      assert s[|r|..] == s[..|s| - 1][|r|..] + [s[|s| - 1]];
      r
  }

  function StripLeft(s: string, drop: string): string {
    if s == "" || s[0] !in drop then s else StripLeft(s[1..], drop)
  }

  const BLANKS := " \t\r\n"

  /** `_release_heading_title`. */
  function TitleOf(content: string): string {
    var title := StripRight(StripLeft(content, BLANKS), BLANKS);
    var before := StripRight(title, "#");
    if before == "" || before[|before| - 1] == ' ' || before[|before| - 1] == '\t' then StripRight(before, " \t") else title
  }

  predicate Blank(c: char) {
    c in {' ', '\t', '\r', '\n'}
  }

  /** The content is blanks, the title from `i` to `j`, blanks, a closing sequence of hashes from `m` to `n`, and blanks
  again.  The closing sequence is all the hashes at the end; it counts as one only behind a space or a tab, which then
  belong to it, or alone. */
  ghost predicate TitleAt(content: string, i: int, j: int, m: int, n: int) {
    && 0 <= i <= j <= m <= n <= |content|
    && (forall k :: 0 <= k < i || n <= k < |content| ==> Blank(content[k]))
    && (i < n ==> !Blank(content[i]) && !Blank(content[n - 1]))
    && (forall k :: j <= k < m ==> content[k] == ' ' || content[k] == '\t')
    && (forall k :: m <= k < n ==> content[k] == '#')
    && (m < n ==> i == j || (j < m && content[j - 1] != ' ' && content[j - 1] != '\t'))
    && (m == n ==> j == m && !exists k :: ClosesAt(content, i, n, k))
  }

  /** Only hashes from `k` to `n`, set off by a blank or not at all behind anything. */
  ghost predicate ClosesAt(content: string, i: int, n: int, k: int)
    requires 0 <= i <= n <= |content|
  {
    i <= k < n && (forall l :: k <= l < n ==> content[l] == '#') && (k == i || content[k - 1] == ' ' || content[k - 1] == '\t')
  }

  ghost predicate IsTitle(content: string, title: string) {
    exists i, j, m, n :: TitleAt(content, i, j, m, n) && title == content[i..j]
  }

  lemma {:induction false} StripLeftIs(s: string, drop: string) returns (i: nat)
    ensures i <= |s| && StripLeft(s, drop) == s[i..]
    ensures (forall k :: 0 <= k < i ==> s[k] in drop) && (i < |s| ==> s[i] !in drop)
  {
    if s == "" || s[0] !in drop {
      i := 0;
    } else {
      i := StripLeftIs(s[1..], drop);
      i := i + 1;
      assert forall k :: 1 <= k < |s| ==> s[k] == s[1..][k - 1];
    }
  }

  lemma StripRightIs(s: string, drop: string) returns (n: nat)
    ensures n <= |s| && StripRight(s, drop) == s[..n]
    ensures (forall k :: n <= k < |s| ==> s[k] in drop) && (n > 0 ==> s[n - 1] !in drop)
  {
    hide StripRight;
    n := |StripRight(s, drop)|;
    assert forall k :: n <= k < |s| ==> s[n..][k - n] == s[k];
  }

  lemma StripBlanks(content: string) returns (i: nat, n: nat)
    ensures i <= n <= |content| && StripRight(StripLeft(content, BLANKS), BLANKS) == content[i..n]
    ensures forall k :: 0 <= k < i || n <= k < |content| ==> Blank(content[k])
    ensures i < n ==> !Blank(content[i]) && !Blank(content[n - 1])
  {
    hide StripLeft, StripRight;
    i := StripLeftIs(content, BLANKS);
    var tail := content[i..];
    var len := StripRightIs(tail, BLANKS);
    n := i + len;
    assert forall k :: i <= k < |content| ==> content[k] == tail[k - i];
    assert tail[..len] == content[i..n];
  }

  lemma StripHashes(s: string) returns (n: nat)
    ensures n <= |s| && StripRight(s, "#") == s[..n]
    ensures (forall k :: n <= k < |s| ==> s[k] == '#') && (n > 0 ==> s[n - 1] != '#')
  {
    hide StripRight;
    n := StripRightIs(s, "#");
  }

  lemma StripGap(s: string) returns (n: nat)
    ensures n <= |s| && StripRight(s, " \t") == s[..n]
    ensures (forall k :: n <= k < |s| ==> s[k] == ' ' || s[k] == '\t') && (n > 0 ==> s[n - 1] != ' ' && s[n - 1] != '\t')
  {
    hide StripRight;
    n := StripRightIs(s, " \t");
  }

  /** Whether a blank stands before the hashes at the end of the stripped content, or nothing. */
  predicate SetOff(before: string) {
    before == "" || before[|before| - 1] == ' ' || before[|before| - 1] == '\t'
  }

  lemma TitleUnfolds(content: string)
    ensures var stripped := StripRight(StripLeft(content, BLANKS), BLANKS); var before := StripRight(stripped, "#");
      TitleOf(content) == if SetOff(before) then StripRight(before, " \t") else stripped
  {
    hide StripLeft, StripRight;
  }

  lemma TitleBetween(content: string, i: int, j: int, m: int, n: int)
    requires TitleAt(content, i, j, m, n)
    ensures 0 <= i <= j <= |content| && IsTitle(content, content[i..j])
  {
    hide Blank, ClosesAt;
  }

  /** The content holds `hash` characters from `i`, then hashes up to `n`, then blanks. */
  ghost predicate HashesBehind(content: string, i: int, n: int, hash: int) {
    && 0 <= i <= n <= |content| && 0 <= hash <= n - i
    && (forall k :: 0 <= k < i || n <= k < |content| ==> Blank(content[k]))
    && (i < n ==> !Blank(content[i]) && !Blank(content[n - 1]))
    && (forall k :: i + hash <= k < n ==> content[k] == '#')
    && (hash > 0 ==> content[i + hash - 1] != '#')
  }

  lemma HashesStand(content: string) returns (i: nat, n: nat, hash: nat)
    ensures HashesBehind(content, i, n, hash) && StripRight(StripLeft(content, BLANKS), BLANKS) == content[i..n]
    ensures StripRight(content[i..n], "#") == content[i..i + hash]
  {
    hide StripLeft, StripRight, Blank;
    i, n := StripBlanks(content);
    var stripped := content[i..n];
    hash := StripHashes(stripped);
    assert forall k :: i <= k < n ==> content[k] == stripped[k - i];
    assert stripped[..hash] == content[i..i + hash];
  }

  /** Where the text from `i` to `m` ends without the spaces and tabs at its end. */
  lemma StripGapAt(content: string, i: int, m: int) returns (j: int)
    requires 0 <= i <= m <= |content|
    ensures i <= j <= m && StripRight(content[i..m], " \t") == content[i..j]
    ensures (forall k :: j <= k < m ==> content[k] == ' ' || content[k] == '\t')
    ensures j > i ==> content[j - 1] != ' ' && content[j - 1] != '\t'
  {
    hide StripRight;
    var part := content[i..m];
    var w := StripGap(part);
    j := i + w;
    assert part[..w] == content[i..j];
    assert forall k :: i <= k < m ==> content[k] == part[k - i];
  }

  lemma SetOffAt(content: string, i: int, m: int)
    requires 0 <= i <= m <= |content|
    ensures SetOff(content[i..m]) <==> i == m || content[m - 1] == ' ' || content[m - 1] == '\t'
  {
  }

  lemma TitleBeforeClosing(content: string, i: int, n: int, hash: int)
    requires HashesBehind(content, i, n, hash) && SetOff(content[i..i + hash])
    ensures IsTitle(content, StripRight(content[i..i + hash], " \t"))
  {
    hide StripRight, Blank, TitleAt, IsTitle, SetOff;
    SetOffAt(content, i, i + hash);
    var j := StripGapAt(content, i, i + hash);
    ClosedTitle(content, i, j, i + hash, n);
    TitleBetween(content, i, j, i + hash, n);
  }

  lemma TitleIsAll(content: string, i: int, n: int, hash: int)
    requires HashesBehind(content, i, n, hash) && !SetOff(content[i..i + hash])
    ensures IsTitle(content, content[i..n])
  {
    hide Blank, TitleAt, IsTitle, SetOff;
    SetOffAt(content, i, i + hash);
    OpenTitle(content, i, i + hash, n);
    TitleBetween(content, i, n, n, n);
  }

  lemma {:induction false} TitleExists(content: string)
    ensures IsTitle(content, TitleOf(content))
  {
    hide StripLeft, StripRight, TitleOf, IsTitle, SetOff, HashesBehind;
    TitleUnfolds(content);
    var i, n, hash := HashesStand(content);
    assert 0 <= i + hash <= n <= |content| by { HashesInside(content, i, n, hash); }
    if SetOff(content[i..i + hash]) {
      TitleBeforeClosing(content, i, n, hash);
    } else {
      TitleIsAll(content, i, n, hash);
    }
  }

  lemma HashesInside(content: string, i: int, n: int, hash: int)
    requires HashesBehind(content, i, n, hash)
    ensures 0 <= i <= i + hash <= n <= |content|
  {
  }

  lemma ClosedTitle(content: string, i: int, j: int, m: int, n: int)
    requires 0 <= i <= j <= m <= n <= |content|
    requires forall k :: 0 <= k < i || n <= k < |content| ==> Blank(content[k])
    requires i < n ==> !Blank(content[i]) && !Blank(content[n - 1])
    requires (forall k :: j <= k < m ==> content[k] == ' ' || content[k] == '\t')
    requires j > i ==> content[j - 1] != ' ' && content[j - 1] != '\t'
    requires forall k :: m <= k < n ==> content[k] == '#'
    requires m > i ==> content[m - 1] == ' ' || content[m - 1] == '\t'
    ensures TitleAt(content, i, j, m, n)
  {
  }

  lemma OpenTitle(content: string, i: int, m: int, n: int)
    requires 0 <= i < m <= n <= |content|
    requires forall k :: 0 <= k < i || n <= k < |content| ==> Blank(content[k])
    requires !Blank(content[i]) && !Blank(content[n - 1])
    requires forall k :: m <= k < n ==> content[k] == '#'
    requires content[m - 1] != '#' && content[m - 1] != ' ' && content[m - 1] != '\t'
    ensures TitleAt(content, i, n, n, n)
  {
    hide Blank;
    assert content[m - 1] != '#';
    forall k | i <= k < n && (forall l :: k <= l < n ==> content[l] == '#') ensures !ClosesAt(content, i, n, k) {
    }
  }

  /** A closing sequence behind a title rules out that there is none. */
  lemma TitleCloses(content: string, i: int, j: int, m: int, n: int)
    requires TitleAt(content, i, j, m, n) && m < n
    ensures ClosesAt(content, i, n, m)
  {
  }

  lemma SameTitleEnd(content: string, i: int, j: int, m: int, n: int, j': int, m': int)
    requires TitleAt(content, i, j, m, n) && TitleAt(content, i, j', m', n) && i < n
    ensures j >= j'
  {
    if m < n { TitleCloses(content, i, j, m, n); }
    if m' < n { TitleCloses(content, i, j', m', n); }
  }

  lemma {:induction false} OneTitle(content: string, i: int, j: int, m: int, n: int, i': int, j': int, m': int, n': int)
    requires TitleAt(content, i, j, m, n) && TitleAt(content, i', j', m', n')
    ensures content[i..j] == content[i'..j']
  {
    hide Blank;
    if i < n && i' < n' {
      SameTitleEnd(content, i, j, m, n, j', m');
      SameTitleEnd(content, i, j', m', n, j, m);
    }
  }

  /** The title is the only one. */
  lemma {:induction false} TitleIsExact(content: string, title: string)
    ensures IsTitle(content, title) <==> title == TitleOf(content)
  {
    hide TitleOf;
    TitleExists(content);
    if IsTitle(content, title) {
      var i, j, m, n :| TitleAt(content, i, j, m, n) && title == content[i..j];
      var i', j', m', n' :| TitleAt(content, i', j', m', n') && TitleOf(content) == content[i'..j'];
      OneTitle(content, i, j, m, n, i', j', m', n');
    }
  }

  function Indent(line: string): nat {
    Leading(line, ' ')
  }

  /** The level of the heading a line holds, 0 when it holds none. */
  function LevelOf(line: Line): (level: nat)
    ensures level <= 6
  {
    var heading := if Indent(line.visible) <= 3 then line.visible[Indent(line.visible)..] else line.visible;
    var level := Leading(heading, '#');
    if line.heading && 1 <= level <= 6 && (level == |heading| || IsBlank(heading[level])) then level else 0
  }

  function HeadingOf(line: Line, offset: nat): Heading
    requires LevelOf(line) > 0
  {
    var heading := line.visible[Indent(line.visible)..];
    Heading(LevelOf(line), TitleOf(heading[LevelOf(line)..]), offset, offset + |line.visible|)
  }

  function HeadingsFrom(lines: seq<Line>, offset: nat): seq<Heading> {
    if lines == [] then []
    else
      var rest := HeadingsFrom(lines[1..], offset + |lines[0].visible|);
      if LevelOf(lines[0]) > 0 then [HeadingOf(lines[0], offset)] + rest else rest
  }

  /** `_release_headings`. */
  function Headings(text: string): seq<Heading> {
    HeadingsFrom(ReleaseLines(text), 0)
  }

  /** Where the `k`th line starts. */
  function Offset(lines: seq<Line>, k: nat): nat
    requires k <= |lines|
  {
    if k == 0 then 0 else |lines[0].visible| + Offset(lines[1..], k - 1)
  }

  /** Every line with a level is a heading, from the start to the end of the line ... */
  lemma {:induction false} LineIsHeading(lines: seq<Line>, offset: nat, k: nat)
    requires k < |lines| && LevelOf(lines[k]) > 0
    ensures HeadingOf(lines[k], offset + Offset(lines, k)) in HeadingsFrom(lines, offset)
    decreases |lines|
  {
    hide LevelOf, HeadingOf;
    if k > 0 {
      LineIsHeading(lines[1..], offset + |lines[0].visible|, k - 1);
    }
  }

  /** ... and there are no other headings. */
  lemma {:induction false} HeadingIsLine(lines: seq<Line>, offset: nat, h: Heading) returns (k: nat)
    requires h in HeadingsFrom(lines, offset)
    ensures k < |lines| && LevelOf(lines[k]) > 0 && h == HeadingOf(lines[k], offset + Offset(lines, k))
    decreases |lines|
  {
    hide LevelOf, HeadingOf;
    if LevelOf(lines[0]) > 0 && h == HeadingOf(lines[0], offset) {
      k := 0;
    } else {
      k := HeadingIsLine(lines[1..], offset + |lines[0].visible|, h);
      k := k + 1;
    }
  }

  /** Headings come in the order of the text and do not overlap. */
  ghost predicate Ascending(headings: seq<Heading>, from: nat, to: nat) {
    if headings == [] then from <= to
    else from <= headings[0].start < headings[0].end && Ascending(headings[1..], headings[0].end, to)
  }

  lemma {:induction false} AscendingFrom(headings: seq<Heading>, from: nat, from': nat, to: nat)
    requires Ascending(headings, from, to) && from' <= from
    ensures Ascending(headings, from', to) && from <= to
  {
    if headings != [] { AscendingFrom(headings[1..], headings[0].end, headings[0].end, to); }
  }

  lemma {:induction false} AscendingMember(headings: seq<Heading>, from: nat, to: nat, h: Heading)
    requires Ascending(headings, from, to) && h in headings
    ensures from <= h.start < h.end <= to
  {
    AscendingFrom(headings[1..], headings[0].end, 0, to);
    if h != headings[0] { AscendingMember(headings[1..], headings[0].end, to, h); }
  }

  lemma {:induction false} HeadingsAscend(lines: seq<Line>, offset: nat)
    ensures Ascending(HeadingsFrom(lines, offset), offset, offset + |Visible(lines)|)
    decreases |lines|
  {
    hide LevelOf, TitleOf;
    if lines != [] {
      var next := offset + |lines[0].visible|;
      HeadingsAscend(lines[1..], next);
      AscendingFrom(HeadingsFrom(lines[1..], next), next, offset, next + |Visible(lines[1..])|);
      if LevelOf(lines[0]) > 0 { LevelNeedsText(lines[0]); }
    }
  }

  lemma LevelNeedsText(line: Line)
    requires LevelOf(line) > 0
    ensures line.visible != ""
  {
  }

  lemma {:induction false} VisibleAt(lines: seq<Line>, k: nat)
    requires k < |lines|
    ensures Offset(lines, k) + |lines[k].visible| <= |Visible(lines)|
    ensures Visible(lines)[Offset(lines, k)..Offset(lines, k) + |lines[k].visible|] == lines[k].visible
    decreases |lines|
  {
    if k > 0 {
      VisibleAt(lines[1..], k - 1);
      var n, m := |lines[0].visible|, Offset(lines[1..], k - 1);
      var tail := Visible(lines[1..]);
      assert Visible(lines)[n + m..n + m + |lines[k].visible|] == tail[m..m + |lines[k].visible|];
    }
  }

  /** `h` shows, after `indent` spaces, its hashes and then a blank or the end. */
  ghost predicate StandsAt(text: string, visible: string, h: Heading, indent: nat) {
    && h.start < h.end <= |text| == |visible|
    && h.start + indent + h.level <= h.end
    && (forall i :: h.start <= i < h.start + indent ==> visible[i] == ' ')
    && (forall i :: h.start + indent <= i < h.start + indent + h.level ==> visible[i] == '#' && text[i] == '#')
    && (h.start + indent + h.level < h.end ==> IsBlank(visible[h.start + indent + h.level]))
    && h.title == TitleOf(visible[h.start + indent + h.level..h.end])
  }

  /** A heading of one to six hashes stands there, behind at most three spaces; the hashes are those of the
  original text. */
  ghost predicate Stands(text: string, visible: string, h: Heading) {
    1 <= h.level <= 6 && exists indent :: 0 <= indent <= 3 && StandsAt(text, visible, h, indent)
  }

  lemma LevelIs(line: Line)
    requires LevelOf(line) > 0
    ensures var v, indent, level := line.visible, Indent(line.visible), LevelOf(line);
      && indent <= 3 && indent + level <= |v|
      && (forall i :: 0 <= i < indent ==> v[i] == ' ')
      && (forall i :: indent <= i < indent + level ==> v[i] == '#')
      && (indent + level < |v| ==> IsBlank(v[indent + level]))
  {
    hide Leading;
    var v, indent, level := line.visible, Indent(line.visible), LevelOf(line);
    assert indent > 0 ==> v[0] == ' ';
    assert Leading(v, '#') > 0 ==> v[0] == '#';
    assert forall i :: indent <= i < |v| ==> v[i] == v[indent..][i - indent];
  }

  lemma HeadingStands(text: string, visible: string, line: Line, offset: nat)
    requires BlankedFrom(visible, text) && LevelOf(line) > 0
    requires offset + |line.visible| <= |visible| && visible[offset..offset + |line.visible|] == line.visible
    ensures Stands(text, visible, HeadingOf(line, offset))
  {
    hide TitleOf, LevelOf, Indent;
    var v, indent, level := line.visible, Indent(line.visible), LevelOf(line);
    LevelIs(line);
    LevelNeedsText(line);
    assert forall i :: offset <= i < offset + |v| ==> visible[i] == v[i - offset];
    assert visible[offset + indent + level..offset + |v|] == v[indent..][level..];
    assert StandsAt(text, visible, HeadingOf(line, offset), indent);
  }

  /** Every heading stands in the text where its offsets say. */
  lemma HeadingsStand(text: string, h: Heading)
    requires h in Headings(text)
    ensures Stands(text, Visible(ReleaseLines(text)), h)
  {
    hide LevelOf, HeadingOf, Stands, HeadingsFrom, ReleaseLines, Visible, Offset;
    var lines := ReleaseLines(text);
    VisibleKeepsOffsets(text);
    var k := HeadingIsLine(lines, 0, h);
    VisibleAt(lines, k);
    HeadingStands(text, Visible(lines), lines[k], Offset(lines, k));
  }

  /** What is visible of a heading line: spaces, hashes, and nothing or a blank and more. */
  ghost predicate IsHeading(visible: string, indent: nat, level: nat, rest: string) {
    && indent <= 3 && 1 <= level <= 6
    && visible == seq(indent, _ => ' ') + seq(level, _ => '#') + rest
    && (rest == "" || Blank(rest[0]))
  }

  lemma {:induction false} HeadingHasForm(line: Line)
    requires LevelOf(line) > 0
    ensures Indent(line.visible) + LevelOf(line) <= |line.visible|
    ensures line.heading && IsHeading(line.visible, Indent(line.visible), LevelOf(line), line.visible[Indent(line.visible)..][LevelOf(line)..])
  {
    hide LevelOf, Leading;
    var v, indent, level := line.visible, Indent(line.visible), LevelOf(line);
    LevelIs(line);
    LevelNeedsHeading(line);
    var rest := v[indent..][level..];
    assert rest == v[indent + level..];
    assert v[..indent] == seq(indent, _ => ' ');
    assert v[indent..indent + level] == seq(level, _ => '#');
    assert v == v[..indent] + v[indent..indent + level] + rest;
  }

  lemma LevelNeedsHeading(line: Line)
    requires LevelOf(line) > 0
    ensures line.heading
  {
  }

  lemma {:induction false} FormIsHeading(line: Line, indent: nat, level: nat, rest: string)
    requires line.heading && IsHeading(line.visible, indent, level, rest)
    ensures indent + level <= |line.visible|
    ensures LevelOf(line) == level && Indent(line.visible) == indent && line.visible[indent..][level..] == rest
  {
    hide Leading;
    var v := line.visible;
    var tail := seq(level, _ => '#') + rest;
    assert v == seq(indent, _ => ' ') + tail && tail[0] == '#';
    LeadingIs(' ', indent, tail);
    assert v[indent..] == tail;
    assert rest == "" || rest[0] != '#';
    LeadingIs('#', level, rest);
    assert tail[level..] == rest;
    assert level < |tail| ==> tail[level] == rest[0];
  }

  /** The heading `h` is the `k`th line, which may hold one and shows that form. */
  ghost predicate HeadingAt(lines: seq<Line>, k: nat, indent: nat, rest: string, h: Heading) {
    && k < |lines| && lines[k].heading
    && IsHeading(lines[k].visible, indent, h.level, rest) && IsTitle(rest, h.title)
    && h.start == Offset(lines, k) && h.end == h.start + |lines[k].visible|
  }

  /** The headings are exactly the lines that may hold one and show one to six hashes, behind at most three spaces and
  before a blank or the end, each with its title and its place. */
  lemma {:induction false} HeadingsAreExact(text: string, h: Heading)
    ensures h in Headings(text) <==> exists k, indent, rest :: HeadingAt(ReleaseLines(text), k, indent, rest, h)
  {
    hide LevelOf, HeadingsFrom, ReleaseLines, Offset, TitleOf, IsTitle, IsHeading, Indent;
    var lines := ReleaseLines(text);
    if h in Headings(text) {
      var k := HeadingIsLine(lines, 0, h);
      HeadingHasForm(lines[k]);
      var indent, rest := Indent(lines[k].visible), lines[k].visible[Indent(lines[k].visible)..][LevelOf(lines[k])..];
      TitleIsExact(rest, h.title);
      assert HeadingAt(lines, k, indent, rest, h);
    }
    if k: nat, indent: nat, rest: string :| HeadingAt(lines, k, indent, rest, h) {
      assert h.level >= 1 by { LevelIsPositive(lines[k].visible, indent, h.level, rest); }
      FormIsHeading(lines[k], indent, h.level, rest);
      TitleIsExact(rest, h.title);
      LineIsHeading(lines, 0, k);
    }
  }

  lemma LevelIsPositive(visible: string, indent: nat, level: nat, rest: string)
    requires IsHeading(visible, indent, level, rest)
    ensures level >= 1
  {
  }

  // --------------------------------------------------------------------- sections

  datatype Section = Section(title: string, start: nat, end: nat)

  function UpTo(headings: seq<Heading>, level: nat): seq<Heading> {
    if headings == [] then []
    else (if headings[0].level <= level then [headings[0]] else []) + UpTo(headings[1..], level)
  }

  function SectionsOf(headings: seq<Heading>, level: nat, length: nat): seq<Section> {
    if headings == [] then []
    else
      var rest := SectionsOf(headings[1..], level, length);
      if headings[0].level != level then rest
      else [Section(headings[0].title, headings[0].end, if |headings| > 1 then headings[1].start else length)] + rest
  }

  /** `_release_sections`: titles, and the ranges their bodies are taken from. */
  function Sections(text: string, level: nat): seq<Section> {
    SectionsOf(UpTo(Headings(text), level), level, |text|)
  }

  lemma {:induction false} UpToMembers(headings: seq<Heading>, level: nat)
    ensures forall h :: h in UpTo(headings, level) <==> h in headings && h.level <= level
  {
    if headings != [] {
      UpToMembers(headings[1..], level);
      assert headings == [headings[0]] + headings[1..];
    }
  }

  lemma {:induction false} UpToAscends(headings: seq<Heading>, level: nat, from: nat, to: nat)
    requires Ascending(headings, from, to)
    ensures Ascending(UpTo(headings, level), from, to)
  {
    if headings != [] {
      var first, rest := headings[0], UpTo(headings[1..], level);
      UpToAscends(headings[1..], level, first.end, to);
      if first.level <= level {
        assert UpTo(headings, level)[1..] == rest;
      } else {
        AscendingFrom(rest, first.end, from, to);
        assert UpTo(headings, level) == rest;
      }
    }
  }

  /** A section reaches from the end of its heading to the next heading of its level or above, or to the end. */
  ghost predicate IsSection(headings: seq<Heading>, level: nat, length: nat, s: Section) {
    && (exists h :: h in headings && h.level == level && h.end == s.start && h.title == s.title)
    && s.start <= s.end <= length
    && (forall h :: h in headings && h.level <= level ==> h.end <= s.start || s.end <= h.start)
    && (s.end == length || exists h :: h in headings && h.level <= level && h.start == s.end)
  }

  function FirstSection(headings: seq<Heading>, length: nat): Section
    requires headings != []
  {
    Section(headings[0].title, headings[0].end, if |headings| > 1 then headings[1].start else length)
  }

  lemma FirstIsSection(headings: seq<Heading>, level: nat, from: nat, length: nat)
    requires headings != [] && Ascending(headings, from, length) && headings[0].level == level
    requires forall h :: h in headings ==> h.level <= level
    ensures IsSection(headings, level, length, FirstSection(headings, length))
  {
    var first, rest := headings[0], headings[1..];
    assert headings == [first] + rest;
    AscendingFrom(rest, first.end, 0, length);
    if rest != [] {
      assert rest[0] in headings;
      AscendingMember(rest, first.end, length, rest[0]);
    }
    forall h | h in rest ensures rest[0].start <= h.start {
      if h != rest[0] {
        AscendingMember(rest[1..], rest[0].end, length, h);
      }
    }
  }

  lemma SectionStays(first: Heading, rest: seq<Heading>, level: nat, length: nat, s: Section)
    requires IsSection(rest, level, length, s) && first.end < s.start
    ensures IsSection([first] + rest, level, length, s)
  {
    var headings := [first] + rest;
    var h :| h in rest && h.level == level && h.end == s.start && h.title == s.title;
    assert h in headings;
    if s.end != length {
      var g :| g in rest && g.level <= level && g.start == s.end;
      assert g in headings;
    }
  }

  lemma {:induction false} SectionsOfAre(headings: seq<Heading>, level: nat, from: nat, length: nat, s: Section)
    requires Ascending(headings, from, length) && (forall h :: h in headings ==> h.level <= level)
    requires s in SectionsOf(headings, level, length)
    ensures IsSection(headings, level, length, s) && from < s.start
    decreases |headings|
  {
    hide IsSection;
    var first, rest := headings[0], headings[1..];
    assert headings == [first] + rest;
    if s in SectionsOf(rest, level, length) {
      SectionsOfAre(rest, level, first.end, length, s);
      SectionStays(first, rest, level, length, s);
    } else {
      assert s == FirstSection(headings, length);
      FirstIsSection(headings, level, from, length);
    }
  }

  lemma {:induction false} HeadingHasSection(headings: seq<Heading>, level: nat, length: nat, h: Heading)
    requires h in headings && h.level == level
    ensures exists s :: s in SectionsOf(headings, level, length) && s.start == h.end && s.title == h.title
    decreases |headings|
  {
    if h == headings[0] {
      assert FirstSection(headings, length) in SectionsOf(headings, level, length);
    } else {
      HeadingHasSection(headings[1..], level, length, h);
      var s :| s in SectionsOf(headings[1..], level, length) && s.start == h.end && s.title == h.title;
      assert s in SectionsOf(headings, level, length);
    }
  }

  /** Sections follow one another, each behind the end of the one before. */
  ghost predicate Apart(sections: seq<Section>, from: nat) {
    sections == [] || (from < sections[0].start <= sections[0].end && Apart(sections[1..], sections[0].end))
  }

  lemma {:induction false} ApartFrom(sections: seq<Section>, from: nat, from': nat)
    requires Apart(sections, from) && from' <= from
    ensures Apart(sections, from')
  {
  }

  lemma {:induction false} ApartPairs(sections: seq<Section>, from: nat, i: nat, j: nat)
    requires Apart(sections, from) && j < |sections|
    ensures from < sections[j].start && (i < j ==> sections[i].end < sections[j].start)
    decreases |sections|
  {
    if j > 0 {
      ApartPairs(sections[1..], sections[0].end, if i > 0 then i - 1 else 0, j - 1);
    }
  }

  lemma {:induction false} SectionsApart(headings: seq<Heading>, level: nat, from: nat, length: nat)
    requires Ascending(headings, from, length)
    ensures Apart(SectionsOf(headings, level, length), from)
    decreases |headings|
  {
    if headings != [] {
      var first, rest := headings[0], headings[1..];
      var later := SectionsOf(rest, level, length);
      SectionsApart(rest, level, first.end, length);
      ApartFrom(later, first.end, from);
      if first.level == level {
        var s := FirstSection(headings, length);
        assert SectionsOf(headings, level, length) == [s] + later && ([s] + later)[1..] == later;
        AscendingFrom(rest, first.end, 0, length);
        if rest != [] {
          AscendingFrom(rest, first.end, first.end, length);
          SectionsApart(rest, level, rest[0].start, length);
        }
      }
    }
  }

  /** Sections of one level follow one another without overlap, contain no heading of that level or above, reach
  as far as that allows, and every heading of the level has one. */
  lemma {:induction false} SectionsAreExact(text: string, level: nat)
    ensures var sections := Sections(text, level);
      && (forall s :: s in sections ==> IsSection(Headings(text), level, |text|, s))
      && (forall h :: h in Headings(text) && h.level == level ==> exists s :: s in sections && s.start == h.end && s.title == h.title)
      && (forall i, j :: 0 <= i < j < |sections| ==> sections[i].end < sections[j].start)
  {
    hide HeadingsFrom, ReleaseLines, Visible, IsSection, SectionsOf, UpTo, Ascending;
    var headings := Headings(text);
    var upTo := UpTo(headings, level);
    var sections := Sections(text, level);
    VisibleKeepsOffsets(text);
    HeadingsAscend(ReleaseLines(text), 0);
    UpToAscends(headings, level, 0, |text|);
    UpToMembers(headings, level);
    SectionsApart(upTo, level, 0, |text|);
    forall s | s in sections ensures IsSection(headings, level, |text|, s) {
      SectionsOfAre(upTo, level, 0, |text|, s);
      SectionUpTo(headings, level, |text|, s);
    }
    forall h | h in headings && h.level == level ensures exists s :: s in sections && s.start == h.end && s.title == h.title {
      HeadingHasSection(upTo, level, |text|, h);
    }
    forall i, j | 0 <= i < j < |sections| ensures sections[i].end < sections[j].start {
      ApartPairs(sections, 0, i, j);
    }
  }

  lemma SectionUpTo(headings: seq<Heading>, level: nat, length: nat, s: Section)
    requires IsSection(UpTo(headings, level), level, length, s)
    ensures IsSection(headings, level, length, s)
  {
    hide UpTo;
    UpToMembers(headings, level);
  }

  /** `str.isspace` on one character. */
  predicate IsWhite(c: char) {
    || '\U{9}' <= c <= '\U{D}' || '\U{1C}' <= c <= ' ' || c == '\U{85}' || c == '\U{A0}' || c == '\U{1680}'
    || '\U{2000}' <= c <= '\U{200A}' || c == '\U{2028}' || c == '\U{2029}' || c == '\U{202F}' || c == '\U{205F}'
    || c == '\U{3000}'
  }

  function WhiteBefore(s: string): (n: nat)
    ensures n <= |s| && (forall i :: 0 <= i < n ==> IsWhite(s[i])) && (n < |s| ==> !IsWhite(s[n]))
  {
    if s == "" || !IsWhite(s[0]) then 0 else 1 + WhiteBefore(s[1..])
  }

  function WhiteBehind(s: string): (n: nat)
    ensures n <= |s| && (forall i :: |s| - n <= i < |s| ==> IsWhite(s[i])) && (n < |s| ==> !IsWhite(s[|s| - n - 1]))
  {
    if s == "" || !IsWhite(s[|s| - 1]) then 0
    else
      var m := WhiteBehind(s[..|s| - 1]);
      assert forall i :: 0 <= i < |s| - 1 ==> s[..|s| - 1][i] == s[i];
      1 + m
  }

  /** `s.strip()`. */
  function Strip(s: string): string {
    var rest := s[WhiteBefore(s)..];
    rest[..|rest| - WhiteBehind(rest)]
  }

  /** The white space of Unicode, with the four separators that Python adds. */
  predicate Spacing(c: char) {
    c as int in {9, 10, 11, 12, 13, 28, 29, 30, 31, 32, 0x85, 0xA0, 0x1680, 0x2000, 0x2001, 0x2002, 0x2003, 0x2004, 0x2005,
                 0x2006, 0x2007, 0x2008, 0x2009, 0x200A, 0x2028, 0x2029, 0x202F, 0x205F, 0x3000}
  }

  lemma WhiteIsSpacing(c: char)
    ensures IsWhite(c) <==> Spacing(c)
  {
  }

  /** `part` is `s` without the white space around it. */
  ghost predicate IsStripped(s: string, part: string) {
    && (exists i, j :: 0 <= i <= j <= |s| && part == s[i..j]
          && (forall k :: 0 <= k < i || j <= k < |s| ==> Spacing(s[k])))
    && (part != "" ==> !Spacing(part[0]) && !Spacing(part[|part| - 1]))
  }

  /** The text between `i` and `j`, with nothing but white space around it. */
  ghost predicate StripsTo(s: string, i: nat, j: nat) {
    && i <= j <= |s|
    && (forall k :: 0 <= k < i || j <= k < |s| ==> Spacing(s[k]))
    && (i < j ==> !Spacing(s[i]) && !Spacing(s[j - 1]))
  }

  lemma StripRange(s: string) returns (i: nat, j: nat)
    ensures StripsTo(s, i, j) && Strip(s) == s[i..j]
  {
    hide WhiteBefore, WhiteBehind, IsWhite, Spacing;
    forall c: char ensures IsWhite(c) <==> Spacing(c) {
      WhiteIsSpacing(c);
    }
    i := WhiteBefore(s);
    var rest := s[i..];
    j := |s| - WhiteBehind(rest);
    assert forall k :: i <= k < |s| ==> s[k] == rest[k - i];
    assert rest[..|rest| - WhiteBehind(rest)] == s[i..j];
  }

  lemma SameRange(s: string, i: nat, j: nat, a: nat, b: nat)
    requires StripsTo(s, i, j) && StripsTo(s, a, b)
    ensures s[i..j] == s[a..b]
  {
    hide Spacing;
    if i < j {
      assert a <= i && j <= b;
      assert i <= a && b <= j;
    } else {
      assert a < b ==> a < i || j <= a < |s|;
    }
  }

  /** Stripping is the one way to take the white space off both ends. */
  lemma {:induction false} StripIsExact(s: string, part: string)
    ensures IsStripped(s, part) <==> part == Strip(s)
  {
    hide Strip, Spacing;
    var a, b := StripRange(s);
    assert a < b ==> s[a..b][0] == s[a] && s[a..b][b - a - 1] == s[b - 1];
    if IsStripped(s, part) {
      var i, j :| 0 <= i <= j <= |s| && part == s[i..j] && (forall k :: 0 <= k < i || j <= k < |s| ==> Spacing(s[k]));
      assert i < j ==> part[0] == s[i] && part[|part| - 1] == s[j - 1];
      SameRange(s, i, j, a, b);
    }
  }

  /** A title, its body as it stands without surrounding white space, and the body as it is shown. */
  datatype Part = Part(title: string, body: string, visible: string)

  function PartOf(text: string, visible: string, s: Section): Part {
    if s.start <= s.end <= |text| == |visible| then Part(s.title, Strip(text[s.start..s.end]), visible[s.start..s.end])
    else Part(s.title, "", "")
  }

  function PartsOf(text: string, visible: string, sections: seq<Section>): (parts: seq<Part>)
    ensures |parts| == |sections| && forall i :: 0 <= i < |sections| ==> parts[i] == PartOf(text, visible, sections[i])
  {
    seq(|sections|, i requires 0 <= i < |sections| => PartOf(text, visible, sections[i]))
  }

  /** What `_release_sections` yields. */
  function Parts(text: string, level: nat): seq<Part> {
    PartsOf(text, Visible(ReleaseLines(text)), Sections(text, level))
  }

  /** Every section is yielded once, in order, with its title, the original text of its range without surrounding
  white space, and what the range shows: the same text with comments blanked. */
  lemma {:induction false} PartsAreSections(text: string, level: nat)
    ensures var parts, sections := Parts(text, level), Sections(text, level);
      && |parts| == |sections|
      && forall i :: 0 <= i < |sections| ==>
           && sections[i].start <= sections[i].end <= |text|
           && parts[i].title == sections[i].title
           && IsStripped(text[sections[i].start..sections[i].end], parts[i].body)
           && BlankedFrom(parts[i].visible, text[sections[i].start..sections[i].end])
  {
    hide ReleaseLines, Visible, Sections, IsSection, Strip, IsStripped, Headings;
    var visible, sections := Visible(ReleaseLines(text)), Sections(text, level);
    SectionsAreExact(text, level);
    VisibleKeepsOffsets(text);
    forall i | 0 <= i < |sections|
      ensures sections[i].start <= sections[i].end <= |text|
      ensures IsStripped(text[sections[i].start..sections[i].end], Strip(text[sections[i].start..sections[i].end]))
      ensures BlankedFrom(visible[sections[i].start..sections[i].end], text[sections[i].start..sections[i].end])
    {
      SectionInside(Headings(text), level, |text|, sections[i]);
      StripIsExact(text[sections[i].start..sections[i].end], Strip(text[sections[i].start..sections[i].end]));
    }
  }

  lemma SectionInside(headings: seq<Heading>, level: nat, length: nat, s: Section)
    requires IsSection(headings, level, length, s)
    ensures s.start <= s.end <= length
  {
  }

  // ------------------------------------------------------------------- the program

  lemma ReadOneMore(done: seq<Line>, mode: Mode, lines: seq<string>)
    requires lines != []
    ensures done + ReadLines(mode, lines) == done + [ReadLine(mode, lines[0]).0] + ReadLines(ReadLine(mode, lines[0]).1, lines[1..])
  {
    hide ReadLine;
  }

  /** `_release_lines`, collecting what it yields. */
  method ReadReleaseLines(text: string) returns (read: seq<Line>)
    ensures read == ReleaseLines(text)
  {
    hide ReadLines, Scan, Masked, FenceOf, FenceCloses;
    var lines := LinesOf(text);
    var fence, comment := NoFence, false;
    read := [];
    assert lines[0..] == lines && [] + ReadLines(OUTSIDE, lines) == ReadLines(OUTSIDE, lines);
    for i := 0 to |lines|
      invariant read + ReadLines(Mode(fence, comment), lines[i..]) == ReadLines(OUTSIDE, lines)
    {
      var line := lines[i];
      ReadOneMore(read, Mode(fence, comment), lines[i..]);
      assert lines[i..][1..] == lines[i + 1..];
      var candidate := FenceOf(line);
      if fence.Fence? {
        var closes := FenceCloses(candidate, fence);
        read := read + [Line(line, false, !closes)];
        if closes {
          fence := NoFence;
        }
      } else if !comment && candidate.Fence? && (candidate.marker == '~' || '`' !in candidate.info) {
        fence := candidate;
        read := read + [Line(line, false, false)];
      } else if !comment && IsIndented(line) {
        read := read + [Line(line, false, true)];
      } else {
        var visible, open := CommentLine(line, comment);
        comment := open;
        read := read + [Line(visible, true, true)];
      }
    }
    NoLines(Mode(fence, comment));
    assert read + [] == read;
  }

  lemma NoLines(mode: Mode)
    ensures ReadLines(mode, []) == []
  {
  }

  /** `_release_headings`. */
  method ReadHeadings(text: string) returns (headings: seq<Heading>)
    ensures headings == Headings(text)
  {
    hide LevelOf, HeadingOf, ReleaseLines;
    var lines := ReadReleaseLines(text);
    headings := [];
    var offset: nat := 0;
    assert lines[0..] == lines && [] + HeadingsFrom(lines, 0) == HeadingsFrom(lines, 0);
    for i := 0 to |lines|
      invariant headings + HeadingsFrom(lines[i..], offset) == HeadingsFrom(lines, 0)
    {
      assert lines[i..][1..] == lines[i + 1..];
      if LevelOf(lines[i]) > 0 {
        headings := headings + [HeadingOf(lines[i], offset)];
      }
      offset := offset + |lines[i].visible|;
    }
    assert headings + [] == headings;
  }

  /** `_release_sections`, collecting what it yields. */
  method ReadSections(text: string, level: nat) returns (parts: seq<Part>)
    ensures parts == Parts(text, level)
  {
    hide Headings, UpTo, Visible, ReleaseLines, Strip, PartOf;
    var lines := ReadReleaseLines(text);
    var visible := Visible(lines);
    var all := ReadHeadings(text);
    var headings := UpTo(all, level);
    ghost var whole := SectionsOf(headings, level, |text|);
    ghost var sections: seq<Section> := [];
    parts := [];
    assert headings[0..] == headings && [] + whole == whole;
    for i := 0 to |headings|
      invariant sections + SectionsOf(headings[i..], level, |text|) == whole
      invariant parts == PartsOf(text, visible, sections)
    {
      assert headings[i..][1..] == headings[i + 1..];
      if headings[i].level == level {
        var end := if i + 1 < |headings| then headings[i + 1].start else |text|;
        var section := Section(headings[i].title, headings[i].end, end);
        sections := sections + [section];
        parts := parts + [PartOf(text, visible, section)];
      }
    }
    assert sections + [] == sections;
  }
}
