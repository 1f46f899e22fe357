/** JSON texts as trees that keep every character, and the parser that builds them.

`Parse` and `ShowDocument` are inverse: the parser accepts exactly the texts some well-formed
tree shows, and returns that tree. */
module JsonSyntax {
  import opened Text
  import opened Wrappers
  import opened JsonLexer

  /** What stands before the value of an entry: nothing in an array, a key and a colon in an object. */
  datatype Label = NoLabel | Key(token: string, before: string, after: string)

  datatype Node =
    | Leaf(token: string)
    | Empty(square: bool, gap: string)
    | Group(square: bool, gap: string, entries: Entries)

  datatype Entries =
    | Last(head: Label, node: Node, gap: string)
    | More(head: Label, node: Node, gap: string, next: string, rest: Entries)

  datatype Document = Document(lead: string, node: Node, trail: string)

  // --------------------------------------------------------------------- showing

  function Open(square: bool): char {
    if square then '[' else '{'
  }

  function Close(square: bool): char {
    if square then ']' else '}'
  }

  function ShowLabel(head: Label): string {
    match head
    case NoLabel => ""
    case Key(token, before, after) => token + before + [':'] + after
  }

  function Show(node: Node): string {
    match node
    case Leaf(token) => token
    case Empty(square, gap) => [Open(square)] + gap + [Close(square)]
    case Group(square, gap, entries) => [Open(square)] + gap + ShowEntries(entries, square)
  }

  function ShowEntries(entries: Entries, square: bool): string {
    match entries
    case Last(head, node, gap) => ShowLabel(head) + (Show(node) + (gap + [Close(square)]))
    case More(head, node, gap, next, rest) =>
      ShowLabel(head) + (Show(node) + (gap + ([','] + (next + ShowEntries(rest, square)))))
  }

  function ShowDocument(d: Document): string {
    d.lead + (Show(d.node) + d.trail)
  }

  // -------------------------------------------------------------- well-formedness

  predicate IsGap(s: string) {
    forall i :: 0 <= i < |s| ==> IsSpace(s[i])
  }

  predicate IsScalarToken(token: string) {
    ScanScalar(token).Some? && ScanScalar(token).value.1 == |token|
  }

  predicate IsKeyToken(token: string) {
    ScanString(token).Some? && ScanString(token).value.1 == |token|
  }

  /** The value of a scalar token. */
  function ValueOf(token: string): Json {
    if ScanScalar(token).Some? then ScanScalar(token).value.0 else Other(token)
  }

  /** The text of a key token. */
  function KeyText(token: string): string {
    if ScanString(token).Some? then ScanString(token).value.0 else ""
  }

  function KeyOf(head: Label): string {
    if head.Key? then KeyText(head.token) else ""
  }

  predicate LabelOk(head: Label, square: bool, seen: set<string>) {
    match head
    case NoLabel => square
    case Key(token, before, after) =>
      !square && IsKeyToken(token) && IsGap(before) && IsGap(after) && KeyOf(head) !in seen
  }

  /** The grammar; keys of one object are distinct. */
  predicate WellFormed(node: Node) {
    match node
    case Leaf(token) => IsScalarToken(token)
    case Empty(square, gap) => IsGap(gap)
    case Group(square, gap, entries) => IsGap(gap) && EntriesOk(entries, square, {})
  }

  predicate EntriesOk(entries: Entries, square: bool, seen: set<string>) {
    match entries
    case Last(head, node, gap) => LabelOk(head, square, seen) && WellFormed(node) && IsGap(gap)
    case More(head, node, gap, next, rest) =>
      && LabelOk(head, square, seen) && WellFormed(node) && IsGap(gap) && IsGap(next)
      && EntriesOk(rest, square, seen + {KeyOf(head)})
  }

  predicate DocumentOk(d: Document) {
    IsGap(d.lead) && WellFormed(d.node) && IsGap(d.trail)
  }

  // --------------------------------------------------------------------- parsing

  /** `whitespace`: the white space in front, and what follows it. */
  function SkipGap(s: string): (r: (string, string))
    ensures s == r.0 + r.1 && IsGap(r.0) && (r.1 == "" || !IsSpace(r.1[0]))
  {
    if s == "" || !IsSpace(s[0]) then ("", s)
    else
      var (gap, rest) := SkipGap(s[1..]);
      assert s == [s[0]] + s[1..];
      ([s[0]] + gap, rest)
  }

  /** `raw_decode` for a key: its token, and what follows. */
  function TakeString(s: string): (r: Option<(string, string)>)
    ensures r.Some? ==> s == r.value.0 + r.value.1 && IsKeyToken(r.value.0) && |r.value.1| < |s|
  {
    match ScanString(s)
    case None => None
    case Some((v, k)) =>
      ScanStringLocal(s, s[..k]);
      Some((s[..k], s[k..]))
  }

  /** `raw_decode` for a scalar: its token, and what follows. */
  function TakeScalar(s: string): (r: Option<(string, string)>)
    ensures r.Some? ==> s == r.value.0 + r.value.1 && IsScalarToken(r.value.0) && |r.value.1| < |s|
  {
    match ScanScalar(s)
    case None => None
    case Some((v, k)) =>
      assert s[..k][k..] == "";
      ScanScalarLocal(s, s[..k]);
      Some((s[..k], s[k..]))
  }

  /** A key, a colon and the white space around it. */
  function ParseLabel(square: bool, s: string, seen: set<string>): (r: Option<(Label, string)>)
    ensures r.Some? ==> |r.value.1| <= |s|
  {
    if square then Some((NoLabel, s))
    else match TakeString(s)
      case None => None
      case Some((token, s1)) =>
        var (before, s2) := SkipGap(s1);
        if KeyText(token) in seen || s2 == "" || s2[0] != ':' then None
        else
          var (after, s3) := SkipGap(s2[1..]);
          Some((Key(token, before, after), s3))
  }

  /** `parse`, from the first character of the value. */
  function ParseNode(s: string): (r: Option<(Node, string)>)
    ensures r.Some? ==> |r.value.1| < |s|
    decreases |s|, 0
  {
    if s == "" then None
    else if s[0] == '{' || s[0] == '[' then
      var square := s[0] == '[';
      var (gap, inner) := SkipGap(s[1..]);
      if inner != "" && inner[0] == Close(square) then Some((Empty(square, gap), inner[1..]))
      else match ParseEntries(square, inner, {})
        case None => None
        case Some((entries, rest)) => Some((Group(square, gap, entries), rest))
    else match TakeScalar(s)
      case None => None
      case Some((token, rest)) => Some((Leaf(token), rest))
  }

  /** The loops of `object` and `array`, from the first character of an entry. */
  function ParseEntries(square: bool, s: string, seen: set<string>): (r: Option<(Entries, string)>)
    ensures r.Some? ==> |r.value.1| < |s|
    decreases |s|, 1
  {
    match ParseLabel(square, s, seen)
    case None => None
    case Some((head, s1)) =>
      match ParseNode(s1)
      case None => None
      case Some((node, s2)) =>
        var (gap, s3) := SkipGap(s2);
        if s3 == "" then None
        else if s3[0] == Close(square) then Some((Last(head, node, gap), s3[1..]))
        else if s3[0] != ',' then None
        else
          var (next, s4) := SkipGap(s3[1..]);
          match ParseEntries(square, s4, seen + {KeyOf(head)})
          case None => None
          case Some((rest, end)) => Some((More(head, node, gap, next, rest), end))
  }

  /** `_json_document`. */
  function Parse(text: string): Option<Document> {
    var (lead, s) := SkipGap(text);
    match ParseNode(s)
    case None => None
    case Some((node, trail)) => if SkipGap(trail).1 == "" then Some(Document(lead, node, trail)) else None
  }

  // ------------------------------------------------------------------- soundness

  lemma LabelSound(square: bool, s: string, seen: set<string>, head: Label, rest: string)
    requires ParseLabel(square, s, seen) == Some((head, rest))
    ensures LabelOk(head, square, seen) && s == ShowLabel(head) + rest
  {
    hide TakeString, IsKeyToken, KeyText, SkipGap;
    if !square {
      var (token, s1) := TakeString(s).value;
      var (before, s2) := SkipGap(s1);
      var (after, s3) := SkipGap(s2[1..]);
      assert s2 == [':'] + s2[1..];
    }
  }

  lemma {:induction false} NodeSound(s: string, node: Node, rest: string)
    requires ParseNode(s) == Some((node, rest))
    ensures WellFormed(node) && s == Show(node) + rest
    decreases |s|, 0
  {
    hide TakeScalar, IsScalarToken, SkipGap, ParseEntries, EntriesOk, ShowEntries;
    if s[0] == '{' || s[0] == '[' {
      var square := s[0] == '[';
      var (gap, inner) := SkipGap(s[1..]);
      assert s == [Open(square)] + s[1..];
      if inner != "" && inner[0] == Close(square) {
        assert inner == [Close(square)] + inner[1..];
      } else {
        EntriesSound(square, inner, {}, node.entries, rest);
      }
    }
  }

  lemma {:induction false} EntriesSound(square: bool, s: string, seen: set<string>, entries: Entries, rest: string)
    requires ParseEntries(square, s, seen) == Some((entries, rest))
    ensures EntriesOk(entries, square, seen) && s == ShowEntries(entries, square) + rest
    decreases |s|, 1
  {
    hide ParseLabel, LabelOk, KeyOf, ShowLabel, SkipGap;
    var (head, s1) := ParseLabel(square, s, seen).value;
    LabelSound(square, s, seen, head, s1);
    var (node, s2) := ParseNode(s1).value;
    NodeSound(s1, node, s2);
    var (gap, s3) := SkipGap(s2);
    assert s3 == [s3[0]] + s3[1..];
    if s3[0] == Close(square) {
      LastShows(head, node, gap, square, rest);
    } else {
      var (next, s4) := SkipGap(s3[1..]);
      EntriesSound(square, s4, seen + {KeyOf(head)}, entries.rest, rest);
      MoreShows(head, node, gap, next, entries.rest, square, rest);
    }
  }

  lemma LastShows(head: Label, node: Node, gap: string, square: bool, rest: string)
    ensures ShowEntries(Last(head, node, gap), square) + rest == ShowLabel(head) + (Show(node) + (gap + ([Close(square)] + rest)))
  {
  }

  lemma MoreShows(head: Label, node: Node, gap: string, next: string, more: Entries, square: bool, rest: string)
    ensures ShowEntries(More(head, node, gap, next, more), square) + rest
      == ShowLabel(head) + (Show(node) + (gap + ([','] + (next + (ShowEntries(more, square) + rest)))))
  {
  }

  // ---------------------------------------------------------------- completeness

  lemma {:induction false} SkipGapOf(gap: string, rest: string)
    requires IsGap(gap) && (rest == "" || !IsSpace(rest[0]))
    ensures SkipGap(gap + rest) == (gap, rest)
  {
    if gap != "" {
      assert (gap + rest)[1..] == gap[1..] + rest;
      SkipGapOf(gap[1..], rest);
      assert gap == [gap[0]] + gap[1..];
    } else {
      assert gap + rest == rest;
    }
  }

  lemma TakeStringOf(token: string, rest: string)
    requires IsKeyToken(token)
    ensures TakeString(token + rest) == Some((token, rest))
  {
    var s := token + rest;
    assert s[..|token|] == token == token[..|token|] && s[|token|..] == rest;
    ScanStringLocal(token, s);
  }

  lemma TakeScalarOf(token: string, rest: string)
    requires IsScalarToken(token) && IsBoundary(rest)
    ensures TakeScalar(token + rest) == Some((token, rest))
  {
    var s := token + rest;
    assert s[..|token|] == token == token[..|token|] && s[|token|..] == rest;
    ScanScalarLocal(token, s);
  }

  lemma ScalarStarts(token: string)
    requires IsScalarToken(token)
    ensures token != "" && !IsSpace(token[0]) && token[0] != ']' && token[0] != '}' && token[0] != '{' && token[0] != '['
  {
    if token[0] != '"' && ScanConstant(token).None? {
      assert token[0] == '-' || IsDigit(token[0]);
    }
  }

  lemma KeyStarts(token: string)
    requires IsKeyToken(token)
    ensures token != "" && token[0] == '"'
  {
  }

  /** A value starts with a character that is neither white space nor a bracket that closes. */
  lemma NodeStarts(node: Node)
    requires WellFormed(node)
    ensures Show(node) != "" && !IsSpace(Show(node)[0]) && Show(node)[0] != ']' && Show(node)[0] != '}'
    ensures node.Leaf? <==> Show(node)[0] != '{' && Show(node)[0] != '['
  {
    hide IsScalarToken;
    match node
    case Leaf(token) => ScalarStarts(token);
    case _ =>
  }

  lemma LabelComplete(head: Label, square: bool, seen: set<string>, rest: string)
    requires LabelOk(head, square, seen) && rest != "" && !IsSpace(rest[0])
    ensures ParseLabel(square, ShowLabel(head) + rest, seen) == Some((head, rest))
  {
    hide TakeString, IsKeyToken, KeyText, SkipGap;
    if square {
      assert ShowLabel(head) + rest == rest;
    } else {
      var s2 := [':'] + (head.after + rest);
      assert ShowLabel(head) + rest == head.token + (head.before + s2);
      TakeStringOf(head.token, head.before + s2);
      SkipGapOf(head.before, s2);
      assert s2[1..] == head.after + rest;
      SkipGapOf(head.after, rest);
    }
  }

  lemma GapIsBoundary(gap: string, tail: string)
    requires IsGap(gap) && IsBoundary(tail)
    ensures IsBoundary(gap + tail)
  {
    if gap == "" { assert gap + tail == tail; }
  }

  lemma EntriesStart(entries: Entries, square: bool, seen: set<string>, rest: string)
    requires EntriesOk(entries, square, seen)
    ensures var s := ShowEntries(entries, square) + rest; s != "" && !IsSpace(s[0]) && s[0] != Close(square)
  {
    hide IsKeyToken, KeyText, IsScalarToken;
    NodeStarts(entries.node);
    if square {
      assert ShowEntries(entries, square)[0] == Show(entries.node)[0];
    } else {
      KeyStarts(entries.head.token);
      assert ShowEntries(entries, square)[0] == entries.head.token[0];
    }
  }

  lemma {:induction false} NodeComplete(node: Node, rest: string)
    requires WellFormed(node) && (node.Leaf? ==> IsBoundary(rest))
    ensures ParseNode(Show(node) + rest) == Some((node, rest))
    decreases node, 0
  {
    hide TakeScalar, IsScalarToken, SkipGap, ParseEntries, EntriesOk, ShowEntries, IsBoundary;
    var s := Show(node) + rest;
    NodeStarts(node);
    assert s[0] == Show(node)[0];
    match node {
      case Leaf(token) =>
        TakeScalarOf(token, rest);
      case Empty(square, gap) =>
        var inner := [Close(square)] + rest;
        assert s[1..] == gap + inner && inner[1..] == rest;
        SkipGapOf(gap, inner);
      case Group(square, gap, entries) =>
        var inner := ShowEntries(entries, square) + rest;
        EntriesStart(entries, square, {}, rest);
        assert s[1..] == gap + inner;
        SkipGapOf(gap, inner);
        EntriesComplete(entries, square, {}, rest);
    }
  }

  /** One entry, and the white space after its value. */
  lemma {:induction false} EntryComplete(head: Label, node: Node, gap: string, tail: string, square: bool, seen: set<string>)
    requires LabelOk(head, square, seen) && WellFormed(node) && IsGap(gap)
    requires tail != "" && (tail[0] == ',' || tail[0] == Close(square))
    ensures ParseLabel(square, ShowLabel(head) + (Show(node) + (gap + tail)), seen) == Some((head, Show(node) + (gap + tail)))
    ensures ParseNode(Show(node) + (gap + tail)) == Some((node, gap + tail))
    ensures SkipGap(gap + tail) == (gap, tail)
    decreases node, 1
  {
    hide LabelOk, ParseLabel, ShowLabel, SkipGap, ParseNode;
    NodeStarts(node);
    LabelComplete(head, square, seen, Show(node) + (gap + tail));
    GapIsBoundary(gap, tail);
    NodeComplete(node, gap + tail);
    SkipGapOf(gap, tail);
  }

  lemma {:induction false} EntriesComplete(entries: Entries, square: bool, seen: set<string>, rest: string)
    requires EntriesOk(entries, square, seen)
    ensures ParseEntries(square, ShowEntries(entries, square) + rest, seen) == Some((entries, rest))
    decreases entries, 2
  {
    hide LabelOk, ParseLabel, ShowLabel, SkipGap, ParseNode, WellFormed, KeyOf;
    var head, node, gap := entries.head, entries.node, entries.gap;
    match entries {
      case Last(_, _, _) =>
        var tail := [Close(square)] + rest;
        LastShows(head, node, gap, square, rest);
        EntryComplete(head, node, gap, tail, square, seen);
        assert tail[1..] == rest;
      case More(_, _, _, next, more) =>
        var s4 := ShowEntries(more, square) + rest;
        var tail := [','] + (next + s4);
        MoreShows(head, node, gap, next, more, square, rest);
        EntryComplete(head, node, gap, tail, square, seen);
        EntriesStart(more, square, seen + {KeyOf(head)}, rest);
        assert tail[1..] == next + s4;
        SkipGapOf(next, s4);
        EntriesComplete(more, square, seen + {KeyOf(head)}, rest);
    }
  }

  lemma OnlyGap(s: string)
    ensures SkipGap(s).1 == "" <==> IsGap(s)
  {
    if IsGap(s) {
      SkipGapOf(s, "");
      assert s + "" == s;
    }
  }

  /** The parser and the grammar agree: a text parses to a tree exactly when the tree is well-formed and shows it. */
  lemma ParseIsGrammar(text: string, d: Document)
    ensures Parse(text) == Some(d) <==> DocumentOk(d) && ShowDocument(d) == text
  {
    hide SkipGap, ParseNode, WellFormed, Show;
    OnlyGap(d.trail);
    if Parse(text) == Some(d) {
      NodeSound(SkipGap(text).1, d.node, d.trail);
    }
    if DocumentOk(d) && ShowDocument(d) == text {
      NodeStarts(d.node);
      SkipGapOf(d.lead, Show(d.node) + d.trail);
      if d.trail != "" { assert IsSpace(d.trail[0]); }
      NodeComplete(d.node, d.trail);
    }
  }
}
