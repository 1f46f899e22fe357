/** Masking the comments of one changelog line in place, without interpreting inline code. */
module Comments {
  import opened Wrappers
  import opened CodeSpans

  // --------------------------------------------------------------------- comments

  predicate At(line: string, i: int, s: string) {
    0 <= i && i + |s| <= |line| && line[i..i + |s|] == s
  }

  /** `line.find(s, i)`. */
  function Find(line: string, s: string, i: nat): (r: Option<int>)
    ensures r.Some? ==> i <= r.value && At(line, r.value, s) && forall j :: i <= j < r.value ==> !At(line, j, s)
    ensures r.None? ==> forall j :: i <= j ==> !At(line, j, s)
    decreases if i <= |line| then |line| - i else 0
  {
    if i + |s| > |line| then None
    else if At(line, i, s) then Some(i)
    else Find(line, s, i + 1)
  }

  datatype Kind = Comment | Escape | Code | Plain

  datatype Token = Token(kind: Kind, start: nat, end: nat)

  datatype Scanned = Scanned(tokens: seq<Token>, comment: bool)

  function Front(t: Token, rest: Scanned): Scanned {
    Scanned([t] + rest.tokens, rest.comment)
  }

  function Least(a: nat, b: nat): nat {
    if a <= b then a else b
  }

  lemma SpanEndBounds(line: string, i: int)
    ensures SpanEnd(line, i).Some? ==> i < SpanEnd(line, i).value <= |line|
  {
    hide SpanEnd, IsRun;
    if SpanEnd(line, i).Some? {
      var end := SpanEnd(line, i).value;
      SpanEndIsNext(line, i, end);
      var r: Run, next: Run :| r.start == i && next.end == end && IsNextEqual(line, r, next);
      StartsTicked(line, r);
      StartsTicked(line, next);
    }
  }

  /** The scan of `_release_comment_line` from one position on, as the pieces it steps over. */
  function Scan(line: string, pos: nat, comment: bool): Scanned
    decreases if pos < |line| then |line| - pos else 0, if comment then 0 else 1
  {
    if pos >= |line| then Scanned([], comment)
    else if comment then
      var close := Find(line, "-->", pos);
      if close.None? then Scanned([Token(Comment, pos, |line|)], true)
      else Front(Token(Comment, pos, close.value + 3), Scan(line, close.value + 3, false))
    else if line[pos] == '\\' then Front(Token(Escape, pos, Least(pos + 2, |line|)), Scan(line, pos + 2, false))
    else if SpanEnd(line, pos).Some? then
      SpanEndBounds(line, pos);
      Front(Token(Code, pos, SpanEnd(line, pos).value), Scan(line, SpanEnd(line, pos).value, false))
    else if At(line, pos, "<!--") then Scan(line, pos, true)
    else Front(Token(Plain, pos, pos + 1), Scan(line, pos + 1, false))
  }

  /** What each piece is: a comment runs from its opening, or from the start of a line that is already inside
  one, through the first `-->`; a code span is a pair of equal backtick runs. */
  ghost predicate TokenOk(line: string, first: bool, comment: bool, t: Token)
    requires t.start < |line|
  {
    match t.kind
    case Comment =>
      && (At(line, t.start, "<!--") || (first && comment))
      && (forall j :: t.start <= j < t.end - 3 ==> !At(line, j, "-->"))
      && ((t.start <= t.end - 3 && At(line, t.end - 3, "-->")) || Open(line, t))
    case Escape => line[t.start] == '\\' && t.end == Least(t.start + 2, |line|)
    case Code => SpanEnd(line, t.start) == Some(t.end)
    case Plain =>
      line[t.start] != '\\' && SpanEnd(line, t.start).None? && !At(line, t.start, "<!--") && t.end == t.start + 1
  }

  /** A comment that the line does not close. */
  ghost predicate Open(line: string, t: Token) {
    t.kind == Comment && t.end == |line| && forall j :: t.start <= j ==> !At(line, j, "-->")
  }

  /** The pieces cover the line from `pos` without gap or overlap, and each is what it claims to be. */
  ghost predicate Tiles(line: string, tokens: seq<Token>, pos: nat, first: bool, comment: bool) {
    if tokens == [] then pos >= |line|
    else
      var t := tokens[0];
      && t.start == pos < t.end <= |line|
      && TokenOk(line, first, comment, t)
      && (first && comment ==> t.kind == Comment)
      && Tiles(line, tokens[1..], t.end, false, false)
  }

  lemma TilesFront(line: string, t: Token, rest: seq<Token>, first: bool, comment: bool)
    requires t.start < t.end <= |line| && TokenOk(line, first, comment, t) && (first && comment ==> t.kind == Comment)
    requires Tiles(line, rest, t.end, false, false)
    ensures Tiles(line, [t] + rest, t.start, first, comment)
  {
    hide TokenOk;
    assert ([t] + rest)[1..] == rest;
  }

  lemma NoTiles(line: string, pos: nat, first: bool, comment: bool)
    requires pos >= |line|
    ensures Tiles(line, [], pos, first, comment)
  {
  }

  /** A comment that opens here needs none to be open. */
  lemma OpenedHere(line: string, tokens: seq<Token>, pos: nat, first: bool)
    requires At(line, pos, "<!--") && Tiles(line, tokens, pos, first, first)
    ensures Tiles(line, tokens, pos, first, false)
  {
    hide At, SpanEnd, Open;
  }

  /** The scan reads a line as exactly such pieces. */
  lemma {:induction false} ScanTiles(line: string, pos: nat, first: bool, comment: bool)
    requires comment ==> first || At(line, pos, "<!--")
    ensures Tiles(line, Scan(line, pos, comment).tokens, Least(pos, |line|), first, comment && first)
    decreases if pos < |line| then |line| - pos else 0, if comment then 0 else 1
  {
    hide SpanEnd, Find, Open, At, Tiles;
    if pos >= |line| {
      NoTiles(line, |line|, first, comment && first);
    } else if comment {
      CommentEnds(line, pos, first);
      var close := Find(line, "-->", pos);
      if close.Some? {
        ScanTiles(line, close.value + 3, false, false);
        TilesFront(line, Token(Comment, pos, close.value + 3), Scan(line, close.value + 3, false).tokens, first, first);
      } else {
        NoTiles(line, |line|, false, false);
        TilesFront(line, Token(Comment, pos, |line|), [], first, first);
        assert [Token(Comment, pos, |line|)] + [] == [Token(Comment, pos, |line|)];
      }
    } else if line[pos] == '\\' {
      ScanTiles(line, pos + 2, false, false);
      TilesFront(line, Token(Escape, pos, Least(pos + 2, |line|)), Scan(line, pos + 2, false).tokens, first, false);
    } else if SpanEnd(line, pos).Some? {
      var end := SpanEnd(line, pos).value;
      SpanEndBounds(line, pos);
      ScanTiles(line, end, false, false);
      TilesFront(line, Token(Code, pos, end), Scan(line, end, false).tokens, first, false);
    } else if At(line, pos, "<!--") {
      ScanTiles(line, pos, first, true);
      OpenedHere(line, Scan(line, pos, true).tokens, pos, first);
    } else {
      ScanTiles(line, pos + 1, false, false);
      TilesFront(line, Token(Plain, pos, pos + 1), Scan(line, pos + 1, false).tokens, first, false);
    }
  }

  lemma SpanStartsTicked(line: string, i: int)
    ensures SpanEnd(line, i).Some? ==> 0 <= i < |line| && line[i] == '`'
  {
    hide SpanEnd, IsRun;
    if SpanEnd(line, i).Some? {
      var end := SpanEnd(line, i).value;
      SpanEndIsNext(line, i, end);
      var r: Run, next: Run :| r.start == i && next.end == end && IsNextEqual(line, r, next);
      StartsTicked(line, r);
    }
  }

  lemma CommentStarts(line: string, i: int)
    ensures At(line, i, "<!--") ==> 0 <= i < |line| && line[i] == '<'
  {
    if At(line, i, "<!--") {
      assert line[i] == line[i..i + 4][0];
    }
  }

  lemma OneComment(line: string, t: Token, u: Token, first: bool, comment: bool)
    requires t.start == u.start < |line| && t.kind == u.kind == Comment && t.end <= |line| && u.end <= |line|
    requires TokenOk(line, first, comment, t) && TokenOk(line, first, comment, u)
    ensures t.end == u.end
  {
    hide At;
  }

  /** There is one way to cover a line by such pieces. */
  lemma {:induction false} TilesAreOne(line: string, ts: seq<Token>, us: seq<Token>, pos: nat, first: bool, comment: bool)
    requires Tiles(line, ts, pos, first, comment) && Tiles(line, us, pos, first, comment)
    ensures ts == us
    decreases |ts|
  {
    hide At, SpanEnd, Open;
    if ts != [] && us != [] {
      var t, u := ts[0], us[0];
      SpanStartsTicked(line, pos);
      CommentStarts(line, pos);
      assert t.kind == u.kind;
      if t.kind == Comment {
        OneComment(line, t, u, first, comment);
      }
      TilesAreOne(line, ts[1..], us[1..], t.end, false, false);
      assert ts == [t] + ts[1..] && us == [u] + us[1..];
    }
  }

  ghost predicate LeavesOpen(line: string, tokens: seq<Token>) {
    tokens != [] && Open(line, tokens[|tokens| - 1])
  }

  lemma LastOpen(line: string, t: Token, rest: seq<Token>)
    ensures rest != [] ==> LeavesOpen(line, [t] + rest) == LeavesOpen(line, rest)
    ensures rest == [] && t.kind != Comment ==> !LeavesOpen(line, [t] + rest)
  {
  }

  /** A comment stays open after a line exactly when its last piece is a comment the line does not close. */
  lemma {:induction false} ScanFlag(line: string, pos: nat, first: bool, comment: bool)
    requires pos < |line| || !comment
    requires comment ==> first || At(line, pos, "<!--")
    ensures Scan(line, pos, comment).comment <==> LeavesOpen(line, Scan(line, pos, comment).tokens)
    decreases if pos < |line| then |line| - pos else 0, if comment then 0 else 1
  {
    hide SpanEnd, Find, Open, At, Tiles, TokenOk;
    if pos < |line| {
      var s := Scan(line, pos, comment);
      if s.tokens != [] { LastOpen(line, s.tokens[0], s.tokens[1..]); }
      if comment {
        CommentEnds(line, pos, first);
        var close := Find(line, "-->", pos);
        if close.Some? {
          ScanFlag(line, close.value + 3, false, false);
        }
      } else if line[pos] == '\\' {
        ScanFlag(line, pos + 2, false, false);
      } else if SpanEnd(line, pos).Some? {
        SpanEndBounds(line, pos);
        ScanFlag(line, SpanEnd(line, pos).value, false, false);
      } else if At(line, pos, "<!--") {
        ScanFlag(line, pos, first, true);
      } else {
        ScanFlag(line, pos + 1, false, false);
      }
    }
  }

  lemma CommentEnds(line: string, pos: nat, first: bool)
    requires pos < |line| && (first || At(line, pos, "<!--"))
    ensures var close := Find(line, "-->", pos);
      var t := Token(Comment, pos, if close.None? then |line| else close.value + 3);
      && pos < t.end <= |line| && TokenOk(line, first, first, t)
      && (Open(line, t) <==> close.None?)
  {
    var close := Find(line, "-->", pos);
    if close.Some? {
      assert !Open(line, Token(Comment, pos, close.value + 3));
    }
  }

  // ---------------------------------------------------------------------- masking

  predicate IsBreak(c: char) {
    c == '\r' || c == '\n'
  }

  predicate InComment(tokens: seq<Token>, i: int) {
    exists k :: 0 <= k < |tokens| && tokens[k].kind == Comment && tokens[k].start <= i < tokens[k].end
  }

  /** What is visible at one place: comments become spaces, line breaks stay. */
  function Shown(line: string, tokens: seq<Token>, i: nat): char
    requires i < |line|
  {
    if InComment(tokens, i) && !IsBreak(line[i]) then ' ' else line[i]
  }

  function Masked(line: string, tokens: seq<Token>): (visible: string)
    ensures |visible| == |line| && forall i :: 0 <= i < |line| ==> visible[i] == Shown(line, tokens, i)
  {
    seq(|line|, i requires 0 <= i < |line| => Shown(line, tokens, i))
  }

  /** Exactly the characters of comment pieces are blanked, but never a carriage return or a line feed. */
  lemma {:induction false} MaskedIsExact(line: string, tokens: seq<Token>, i: nat)
    requires i < |line|
    ensures Masked(line, tokens)[i] ==
      if line[i] != '\r' && line[i] != '\n' && (exists t :: t in tokens && t.kind == Comment && t.start <= i < t.end) then ' '
      else line[i]
  {
    if t :| t in tokens && t.kind == Comment && t.start <= i < t.end {
      var k :| 0 <= k < |tokens| && tokens[k] == t;
      assert InComment(tokens, i);
    }
    if InComment(tokens, i) {
      var k :| 0 <= k < |tokens| && tokens[k].kind == Comment && tokens[k].start <= i < tokens[k].end;
      assert tokens[k] in tokens;
    }
  }

  lemma InCommentGrows(tokens: seq<Token>, t: Token, i: int)
    ensures InComment(tokens + [t], i) <==> InComment(tokens, i) || (t.kind == Comment && t.start <= i < t.end)
  {
    var more := tokens + [t];
    if InComment(tokens, i) {
      var k :| 0 <= k < |tokens| && tokens[k].kind == Comment && tokens[k].start <= i < tokens[k].end;
      assert more[k] == tokens[k];
    }
    assert more[|tokens|] == t;
  }

  lemma SamePlain(line: string, tokens: seq<Token>, t: Token)
    requires t.kind != Comment
    ensures Masked(line, tokens + [t]) == Masked(line, tokens)
  {
    hide InComment;
    forall i | 0 <= i < |line| ensures Shown(line, tokens + [t], i) == Shown(line, tokens, i) {
      InCommentGrows(tokens, t, i);
    }
  }

  lemma NothingMasked(line: string)
    ensures Masked(line, []) == line
  {
  }

  lemma MaskedTo(line: string, tokens: seq<Token>, start: nat, i: nat)
    requires start <= i < |line|
    ensures Masked(line, tokens + [Token(Comment, start, i + 1)])
      == Masked(line, tokens + [Token(Comment, start, i)])[i := if IsBreak(line[i]) then line[i] else ' ']
    ensures Masked(line, tokens + [Token(Comment, start, start)]) == Masked(line, tokens)
  {
    hide InComment;
    var none, some, more := tokens + [Token(Comment, start, start)], tokens + [Token(Comment, start, i)], tokens + [Token(Comment, start, i + 1)];
    forall j | 0 <= j < |line|
      ensures Shown(line, none, j) == Shown(line, tokens, j)
      ensures Shown(line, more, j) == if j == i then (if IsBreak(line[i]) then line[i] else ' ') else Shown(line, some, j)
    {
      InCommentGrows(tokens, Token(Comment, start, i + 1), j);
      InCommentGrows(tokens, Token(Comment, start, i), j);
      InCommentGrows(tokens, Token(Comment, start, start), j);
    }
  }

  /** The assignment to a slice of `visible`. */
  method Blank(visible: array<char>, line: string, start: nat, stop: nat, ghost tokens: seq<Token>)
    requires start < stop <= |line| == visible.Length && visible[..] == Masked(line, tokens)
    modifies visible
    ensures visible[..] == Masked(line, tokens + [Token(Comment, start, stop)])
  {
    hide Masked, InComment;
    MaskedTo(line, tokens, start, start);
    for i := start to stop
      invariant visible[..] == Masked(line, tokens + [Token(Comment, start, i)])
    {
      MaskedTo(line, tokens, start, i);
      visible[i] := if IsBreak(line[i]) then line[i] else ' ';
    }
  }

  /** `_release_comment_line`. */
  method CommentLine(line: string, comment: bool) returns (masked: string, open: bool)
    ensures masked == Masked(line, Scan(line, 0, comment).tokens) && open == Scan(line, 0, comment).comment
  {
    hide SpanEnd, Find, At, Scan, Masked, InComment;
    var visible := new char[|line|](i requires 0 <= i < |line| => line[i]);
    var codeEnds := CodeSpanEnds(line);
    var position: nat := 0;
    open := comment;
    ghost var past: seq<Token> := [];
    ghost var whole := Scan(line, 0, comment);
    NothingMasked(line);
    assert [] + whole.tokens == whole.tokens;
    while position < |line|
      invariant Rest(line, past, position, open) == whole
      invariant visible[..] == Masked(line, past)
      decreases if position < |line| then |line| - position else 0, if open then 0 else 1
    {
      RestMoves(line, past, position, open);
      SpanEndBounds(line, position);
      if open {
        var end := Find(line, "-->", position);
        var stop := if end.None? then |line| else end.value + 3;
        FoundInside(line, position);
        Blank(visible, line, position, stop, past);
        past := past + [Token(Comment, position, stop)];
        position, open := stop, end.None?;
      } else if line[position] == '\\' {
        SamePlain(line, past, Token(Escape, position, Least(position + 2, |line|)));
        past := past + [Token(Escape, position, Least(position + 2, |line|))];
        position := position + 2;
      } else if position in codeEnds {
        SamePlain(line, past, Token(Code, position, codeEnds[position]));
        past := past + [Token(Code, position, codeEnds[position])];
        position := codeEnds[position];
      } else if At(line, position, "<!--") {
        open := true;
      } else {
        SamePlain(line, past, Token(Plain, position, position + 1));
        past := past + [Token(Plain, position, position + 1)];
        position := position + 1;
      }
    }
    RestEnds(line, past, position, open);
    masked := visible[..];
  }

  /** The pieces already stepped over and those still to come. */
  function Rest(line: string, past: seq<Token>, position: nat, open: bool): Scanned {
    var rest := Scan(line, position, open);
    Scanned(past + rest.tokens, rest.comment)
  }

  function CommentStop(line: string, position: nat): nat {
    var close := Find(line, "-->", position);
    if close.None? then |line| else close.value + 3
  }

  lemma FoundInside(line: string, position: nat)
    ensures Find(line, "-->", position).Some? ==> position <= Find(line, "-->", position).value <= |line| - 3
  {
  }

  lemma RestMoves(line: string, past: seq<Token>, position: nat, open: bool)
    requires position < |line|
    ensures var stop := CommentStop(line, position);
      open ==> Rest(line, past, position, open) == Rest(line, past + [Token(Comment, position, stop)], stop, Find(line, "-->", position).None?)
    ensures !open && line[position] == '\\' ==>
      Rest(line, past, position, open) == Rest(line, past + [Token(Escape, position, Least(position + 2, |line|))], position + 2, false)
    ensures !open && line[position] != '\\' && SpanEnd(line, position).Some? ==>
      SpanEnd(line, position).value > position
      && Rest(line, past, position, open) == Rest(line, past + [Token(Code, position, SpanEnd(line, position).value)], SpanEnd(line, position).value, false)
    ensures !open && line[position] != '\\' && SpanEnd(line, position).None? ==>
      Rest(line, past, position, open)
        == if At(line, position, "<!--") then Rest(line, past, position, true)
           else Rest(line, past + [Token(Plain, position, position + 1)], position + 1, false)
  {
    hide SpanEnd, Find, At;
    SpanEndBounds(line, position);
    FoundInside(line, position);
    var s := Scan(line, position, open);
    if s.tokens != [] {
      assert past + s.tokens == past + [s.tokens[0]] + s.tokens[1..];
    }
  }

  lemma RestEnds(line: string, past: seq<Token>, position: nat, open: bool)
    requires position >= |line|
    ensures Rest(line, past, position, open) == Scanned(past, open)
  {
  }
}
