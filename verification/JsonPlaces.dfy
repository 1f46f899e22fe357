/** A tree against its text and its value: how it is written, what it holds, and where each scalar's token stands. */
module JsonPlaces {
  import opened Text
  import opened Wrappers
  import opened JsonLexer
  import opened JsonSyntax
  import opened JsonValues

  /** What keys and indices lead to. */
  function At(v: Json, path: seq<Step>): Option<Json> {
    if path == [] then Some(v)
    else match path[0]
      case Name(key) => if v.Object? && key in v.fields then At(v.fields[key], path[1..]) else None
      case Item(index) => if v.Array? && index < |v.items| then At(v.items[index], path[1..]) else None
  }

  predicate ScalarAt(v: Json, path: seq<Step>) {
    At(v, path).Some? && IsScalar(At(v, path).value)
  }

  /** The same for the entries of an object or an array, the first of which has `index`. */
  function EntryAt(entries: Entries, square: bool, index: nat, path: seq<Step>): Option<Json> {
    if path == [] then None
    else match path[0]
      case Name(key) => if !square && key in FieldsOf(entries) then At(FieldsOf(entries)[key], path[1..]) else None
      case Item(i) =>
        if square && index <= i < index + |ItemsOf(entries)| then At(ItemsOf(entries)[i - index], path[1..]) else None
  }

  /** In the text that begins at `start` the span holds exactly a token of `v`. */
  ghost predicate Stands(text: string, start: nat, span: Span, v: Json) {
    && start <= span.start < span.end <= start + |text|
    && ScanScalar(text[span.start - start..span.end - start]) == Some((v, span.end - span.start))
  }

  lemma StandsInside(text: string, start: nat, span: Span, v: Json, before: string, after: string, from: nat)
    requires Stands(text, start, span, v) && start == from + |before|
    ensures Stands(before + (text + after), from, span, v)
  {
    hide ScanScalar;
    var whole := before + (text + after);
    assert whole[span.start - from..span.end - from] == text[span.start - start..span.end - start];
  }

  /** Where a path stands among recorded spans, if it is there. */
  ghost predicate Placed(spans: map<seq<Step>, Span>, p: seq<Step>, there: Option<Json>, text: string, start: nat) {
    && (p in spans <==> there.Some? && IsScalar(there.value))
    && (p in spans ==> Stands(text, start, spans[p], there.value))
  }

  lemma PathStep(path: seq<Step>, step: Step, p: seq<Step>)
    requires p != []
    ensures path + p == path + [p[0]] + p[1..]
    ensures path + [step] <= path + p ==> p[0] == step
  {
    if path + [step] <= path + p {
      assert (path + p)[|path|] == (path + [step])[|path|];
    }
  }

  lemma {:induction false} NodePlaces(node: Node, start: nat, path: seq<Step>, p: seq<Step>)
    requires WellFormed(node)
    ensures Placed(Spans(node, start, path), path + p, At(Value(node), p), Show(node), start)
    decreases node, 0
  {
    hide EntriesOk, FieldsOf, ItemsOf, ScanScalar, ShowEntries, EntrySpans;
    match node
    case Leaf(token) => LeafPlaces(token, start, path, p);
    case Empty(square, gap) =>
      assert p != [] ==> At(Value(node), p).None?;
    case Group(square, gap, entries) =>
      var at := start + 1 + |gap|;
      EntryPlaces(entries, square, at, path, 0, p, {});
      assert At(Value(node), p) == if p == [] then Some(Value(node)) else EntryAt(entries, square, 0, p);
      if path + p in Spans(node, start, path) {
        var before, after := [Open(square)] + gap, "";
        assert ShowEntries(entries, square) + after == ShowEntries(entries, square);
        StandsInside(ShowEntries(entries, square), at, Spans(node, start, path)[path + p], At(Value(node), p).value, before, after, start);
      }
  }

  lemma LeafPlaces(token: string, start: nat, path: seq<Step>, p: seq<Step>)
    requires IsScalarToken(token)
    ensures Placed(Spans(Leaf(token), start, path), path + p, At(ValueOf(token), p), token, start)
  {
    hide ScanScalar;
    TokenIsScalar(token);
    ScalarStarts(token);
    assert token[..|token|] == token;
    assert path + p == path ==> p == [] by { assert |path + p| == |path| + |p|; }
    assert p == [] ==> path + p == path;
    assert p != [] ==> At(ValueOf(token), p).None?;
  }

  /** A step that is no entry's leads nowhere. */
  lemma {:induction false} OtherStep(entries: Entries, square: bool, start: nat, path: seq<Step>, index: nat, p: seq<Step>, seen: set<string>)
    requires EntriesOk(entries, square, seen) && p != []
    requires if square then p[0].Item? && p[0].index < index else p[0].Name? && p[0].key in seen
    ensures path + p !in EntrySpans(entries, square, start, path, index)
    decreases entries
  {
    hide Show, ShowLabel, KeyOf, LabelOk, WellFormed, Spans;
    var at := start + |ShowLabel(entries.head)|;
    var step := StepOf(entries.head, square, index);
    if !square { LabelIsNew(entries.head, seen); }
    if path + p in Spans(entries.node, at, path + [step]) {
      SpansBelow(entries.node, at, path + [step], path + p);
      PathStep(path, step, p);
    }
    if entries.More? {
      OtherStep(entries.rest, square, at + |Show(entries.node)| + |entries.gap| + 1 + |entries.next|, path, index + 1, p,
                seen + {KeyOf(entries.head)});
    }
  }

  lemma {:induction false} EntryPlaces(entries: Entries, square: bool, start: nat, path: seq<Step>, index: nat, p: seq<Step>, seen: set<string>)
    requires EntriesOk(entries, square, seen)
    ensures Placed(EntrySpans(entries, square, start, path, index), path + p, EntryAt(entries, square, index, p), ShowEntries(entries, square), start)
    decreases entries, 1
  {
    hide KeyOf, LabelOk, ShowLabel, Show, WellFormed, Spans, ScanScalar, Value, At, IsScalar;
    if p == [] {
      NoPathItself(entries, square, start, path, index);
    } else {
      var at := start + |ShowLabel(entries.head)|;
      var step := StepOf(entries.head, square, index);
      var below := path + [step];
      if p[0] == step {
        PathStep(path, step, p);
        NodePlaces(entries.node, at, below, p[1..]);
        HereAt(entries, square, index, p, seen);
        if entries.More? {
          OtherStep(entries.rest, square, at + |Show(entries.node)| + |entries.gap| + 1 + |entries.next|, path, index + 1, p,
                    seen + {KeyOf(entries.head)});
        }
        PlacedHere(entries, square, start, path, index, p);
      } else {
        if path + p in Spans(entries.node, at, below) {
          SpansBelow(entries.node, at, below, path + p);
          PathStep(path, step, p);
        }
        ElsewhereAt(entries, square, index, p);
        if entries.More? {
          EntryPlaces(entries.rest, square, at + |Show(entries.node)| + |entries.gap| + 1 + |entries.next|, path, index + 1, p,
                      seen + {KeyOf(entries.head)});
          PlacedLater(entries, square, start, path, index, p);
        }
      }
    }
  }

  lemma NoPathItself(entries: Entries, square: bool, start: nat, path: seq<Step>, index: nat)
    ensures path + [] !in EntrySpans(entries, square, start, path, index)
  {
    hide EntrySpans;
    assert path + [] == path;
    if path in EntrySpans(entries, square, start, path, index) {
      EntrySpansBelow(entries, square, start, path, index, path);
    }
  }

  lemma HereAt(entries: Entries, square: bool, index: nat, p: seq<Step>, seen: set<string>)
    requires EntriesOk(entries, square, seen) && p != [] && p[0] == StepOf(entries.head, square, index)
    ensures EntryAt(entries, square, index, p) == At(Value(entries.node), p[1..])
  {
    hide KeyOf, LabelOk, WellFormed, Value, At;
    if !square && entries.More? {
      KeyHasNoField(entries.rest, seen + {KeyOf(entries.head)}, KeyOf(entries.head));
    }
  }

  lemma ElsewhereAt(entries: Entries, square: bool, index: nat, p: seq<Step>)
    requires p != [] && p[0] != StepOf(entries.head, square, index)
    ensures EntryAt(entries, square, index, p) == if entries.More? then EntryAt(entries.rest, square, index + 1, p) else None
  {
    hide KeyOf, Value, At;
  }

  lemma PlacedHere(entries: Entries, square: bool, start: nat, path: seq<Step>, index: nat, p: seq<Step>)
    requires var at := start + |ShowLabel(entries.head)|; var below := path + [StepOf(entries.head, square, index)];
      Placed(Spans(entries.node, at, below), path + p, EntryAt(entries, square, index, p), Show(entries.node), at)
    requires entries.More? ==>
      var next := start + |ShowLabel(entries.head)| + |Show(entries.node)| + |entries.gap| + 1 + |entries.next|;
      path + p !in EntrySpans(entries.rest, square, next, path, index + 1)
    ensures Placed(EntrySpans(entries, square, start, path, index), path + p, EntryAt(entries, square, index, p), ShowEntries(entries, square), start)
  {
    hide KeyOf, ShowLabel, Show, Spans, EntryAt, Stands, IsScalar;
    var at := start + |ShowLabel(entries.head)|;
    var here := Spans(entries.node, at, path + [StepOf(entries.head, square, index)]);
    if path + p in here {
      var after := if entries.Last? then entries.gap + [Close(square)]
                   else entries.gap + ([','] + (entries.next + ShowEntries(entries.rest, square)));
      StandsInside(Show(entries.node), at, here[path + p], EntryAt(entries, square, index, p).value, ShowLabel(entries.head), after, start);
    }
  }

  lemma PlacedLater(entries: Entries, square: bool, start: nat, path: seq<Step>, index: nat, p: seq<Step>)
    requires entries.More?
    requires var next := start + |ShowLabel(entries.head)| + |Show(entries.node)| + |entries.gap| + 1 + |entries.next|;
      Placed(EntrySpans(entries.rest, square, next, path, index + 1), path + p, EntryAt(entries, square, index, p), ShowEntries(entries.rest, square), next)
    requires path + p !in Spans(entries.node, start + |ShowLabel(entries.head)|, path + [StepOf(entries.head, square, index)])
    ensures Placed(EntrySpans(entries, square, start, path, index), path + p, EntryAt(entries, square, index, p), ShowEntries(entries, square), start)
  {
    hide KeyOf, ShowLabel, Show, Spans, EntryAt, Stands, IsScalar;
    var next := start + |ShowLabel(entries.head)| + |Show(entries.node)| + |entries.gap| + 1 + |entries.next|;
    var later := EntrySpans(entries.rest, square, next, path, index + 1);
    if path + p in later {
      var before := ShowLabel(entries.head) + (Show(entries.node) + (entries.gap + ([','] + entries.next)));
      var rest := ShowEntries(entries.rest, square);
      assert before + (rest + "") == ShowEntries(entries, square);
      StandsInside(rest, next, later[path + p], EntryAt(entries, square, index, p).value, before, "", start);
    }
  }

  /** The span table of a text has exactly the paths that lead to a scalar, through objects and arrays, and at each
  span stands a token of that scalar. */
  lemma {:induction false} SpansAreExact(d: Document, path: seq<Step>)
    requires DocumentOk(d)
    ensures path in Spans(d.node, |d.lead|, []) <==> ScalarAt(Value(d.node), path)
    ensures path in Spans(d.node, |d.lead|, []) ==>
      Stands(ShowDocument(d), 0, Spans(d.node, |d.lead|, [])[path], At(Value(d.node), path).value)
  {
    hide WellFormed, Spans, Show, At, Stands;
    NodePlaces(d.node, |d.lead|, [], path);
    assert [] + path == path;
    if path in Spans(d.node, |d.lead|, []) {
      StandsInside(Show(d.node), |d.lead|, Spans(d.node, |d.lead|, [])[path], At(Value(d.node), path).value, d.lead, d.trail, 0);
    }
  }

  /** After `n` equal steps `p` takes an earlier item of an array than `q`. */
  ghost predicate EarlierItem(p: seq<Step>, q: seq<Step>, n: nat) {
    && n < |p| && n < |q| && p[..n] == q[..n]
    && p[n].Item? && q[n].Item? && p[n].index < q[n].index
  }

  lemma EarlierBelow(p: seq<Step>, q: seq<Step>, n: nat)
    requires EarlierItem(p, q, n) && n > 0
    ensures p[0] == q[0] && EarlierItem(p[1..], q[1..], n - 1)
  {
    assert p[0] == p[..n][0] && q[0] == q[..n][0];
    assert p[1..][..n - 1] == p[..n][1..] && q[1..][..n - 1] == q[..n][1..];
  }

  lemma {:induction false} NodeOrder(node: Node, start: nat, path: seq<Step>, p: seq<Step>, q: seq<Step>, n: nat)
    requires WellFormed(node) && EarlierItem(p, q, n)
    requires path + p in Spans(node, start, path) && path + q in Spans(node, start, path)
    ensures Spans(node, start, path)[path + p].end <= Spans(node, start, path)[path + q].start
    decreases node, 0
  {
    hide EntriesOk, EntrySpans, EarlierItem, Show, IsScalarToken;
    match node
    case Leaf(token) =>
      assert |path + p| == |path| + |p|;
      NotEmptyPath(p, q, n);
    case Group(square, gap, entries) =>
      EntryOrder(entries, square, start + 1 + |gap|, path, 0, p, q, n, {});
    case _ =>
  }

  lemma NotEmptyPath(p: seq<Step>, q: seq<Step>, n: nat)
    requires EarlierItem(p, q, n)
    ensures p != [] && q != [] && p != q
  {
  }

  /** A recorded path that does not begin with the entry's own step is recorded by the entries behind it. */
  lemma PathLater(entries: Entries, square: bool, start: nat, path: seq<Step>, index: nat, p: seq<Step>)
    requires path + p in EntrySpans(entries, square, start, path, index) && p != [] && p[0] != StepOf(entries.head, square, index)
    ensures entries.More?
    ensures var next := start + |ShowLabel(entries.head)| + |Show(entries.node)| + |entries.gap| + 1 + |entries.next|;
      && path + p in EntrySpans(entries.rest, square, next, path, index + 1)
      && EntrySpans(entries, square, start, path, index)[path + p] == EntrySpans(entries.rest, square, next, path, index + 1)[path + p]
  {
    hide KeyOf, ShowLabel, Show, Spans;
    var step := StepOf(entries.head, square, index);
    if path + p in Spans(entries.node, start + |ShowLabel(entries.head)|, path + [step]) {
      SpansBelow(entries.node, start + |ShowLabel(entries.head)|, path + [step], path + p);
      PathStep(path, step, p);
    }
  }

  /** A recorded path that begins with it is recorded by the entry itself, and stands inside its value. */
  lemma PathHere(entries: Entries, square: bool, start: nat, path: seq<Step>, index: nat, p: seq<Step>, seen: set<string>)
    requires EntriesOk(entries, square, seen)
    requires path + p in EntrySpans(entries, square, start, path, index) && p != [] && p[0] == StepOf(entries.head, square, index)
    ensures var at := start + |ShowLabel(entries.head)|; var here := Spans(entries.node, at, path + [p[0]]);
      && path + [p[0]] + p[1..] == path + p
      && path + p in here && EntrySpans(entries, square, start, path, index)[path + p] == here[path + p]
      && at <= here[path + p].start <= here[path + p].end <= at + |Show(entries.node)|
  {
    hide KeyOf, LabelOk, ShowLabel, Show, Spans, WellFormed, ScanScalar, At;
    var at := start + |ShowLabel(entries.head)|;
    PathStep(path, p[0], p);
    NodePlaces(entries.node, at, path + [p[0]], p[1..]);
    if entries.More? {
      OtherStep(entries.rest, square, at + |Show(entries.node)| + |entries.gap| + 1 + |entries.next|, path, index + 1, p,
                seen + {KeyOf(entries.head)});
    }
  }

  lemma StartsBehind(entries: Entries, square: bool, start: nat, path: seq<Step>, index: nat, p: seq<Step>, seen: set<string>)
    requires EntriesOk(entries, square, seen) && path + p in EntrySpans(entries, square, start, path, index)
    ensures start <= EntrySpans(entries, square, start, path, index)[path + p].start
  {
    hide EntriesOk, EntrySpans, ShowEntries, EntryAt, ScanScalar;
    EntryPlaces(entries, square, start, path, index, p, seen);
  }

  lemma {:induction false} EntryOrder(entries: Entries, square: bool, start: nat, path: seq<Step>, index: nat,
                                      p: seq<Step>, q: seq<Step>, n: nat, seen: set<string>)
    requires EntriesOk(entries, square, seen) && EarlierItem(p, q, n)
    requires path + p in EntrySpans(entries, square, start, path, index) && path + q in EntrySpans(entries, square, start, path, index)
    ensures EntrySpans(entries, square, start, path, index)[path + p].end <= EntrySpans(entries, square, start, path, index)[path + q].start
    decreases entries, 1
  {
    hide KeyOf, LabelOk, ShowLabel, Show, Spans, WellFormed, EntrySpans, EarlierItem;
    NotEmptyPath(p, q, n);
    var at := start + |ShowLabel(entries.head)|;
    var step := StepOf(entries.head, square, index);
    if n > 0 { EarlierBelow(p, q, n); }
    if p[0] == step {
      PathHere(entries, square, start, path, index, p, seen);
      if q[0] == step {
        PathHere(entries, square, start, path, index, q, seen);
        assert n > 0 by { SameStep(p, q, n); }
        NodeOrder(entries.node, at, path + [step], p[1..], q[1..], n - 1);
      } else {
        PathLater(entries, square, start, path, index, q);
        StartsBehind(entries.rest, square, at + |Show(entries.node)| + |entries.gap| + 1 + |entries.next|, path, index + 1, q,
                     seen + {KeyOf(entries.head)});
      }
    } else {
      PathLater(entries, square, start, path, index, p);
      if q[0] == step {
        FirstItem(entries, square, start, path, index, p, q, n);
      } else {
        PathLater(entries, square, start, path, index, q);
        EntryOrder(entries.rest, square, at + |Show(entries.node)| + |entries.gap| + 1 + |entries.next|, path, index + 1, p, q, n,
                   seen + {KeyOf(entries.head)});
      }
    }
  }

  lemma SameStep(p: seq<Step>, q: seq<Step>, n: nat)
    requires EarlierItem(p, q, n)
    ensures p[0] == q[0] ==> n > 0
  {
  }

  /** No recorded path takes an earlier item than the first. */
  lemma FirstItem(entries: Entries, square: bool, start: nat, path: seq<Step>, index: nat, p: seq<Step>, q: seq<Step>, n: nat)
    requires EarlierItem(p, q, n) && path + p in EntrySpans(entries, square, start, path, index)
    requires q[0] == StepOf(entries.head, square, index)
    ensures p[0] == q[0]
  {
    hide KeyOf, EntrySpans;
    assert (path + p)[|path|] == p[0];
    if n > 0 {
      EarlierBelow(p, q, n);
    } else {
      EntrySpansBelow(entries, square, start, path, index, path + p);
    }
  }

  /** The items of an array stand in the order of their indices. */
  lemma {:induction false} ItemsStandInOrder(d: Document, p: seq<Step>, q: seq<Step>, n: nat)
    requires DocumentOk(d) && EarlierItem(p, q, n) && ScalarAt(Value(d.node), p) && ScalarAt(Value(d.node), q)
    ensures p in Spans(d.node, |d.lead|, []) && q in Spans(d.node, |d.lead|, [])
    ensures Spans(d.node, |d.lead|, [])[p].end <= Spans(d.node, |d.lead|, [])[q].start
  {
    hide WellFormed, Spans, Show, At, Stands, ScalarAt, EarlierItem, Value;
    SpansAreExact(d, p);
    SpansAreExact(d, q);
    assert [] + p == p && [] + q == q;
    NodeOrder(d.node, |d.lead|, [], p, q, n);
  }

  // ------------------------------------------------------------ how it is written

  /** The entries between the commas, each with the white space around it. */
  function Members(entries: Entries, lead: string): (members: seq<string>)
    ensures members != []
  {
    match entries
    case Last(head, node, gap) => [lead + ShowLabel(head) + Show(node) + gap]
    case More(head, node, gap, next, rest) => [lead + ShowLabel(head) + Show(node) + gap] + Members(rest, next)
  }

  lemma {:induction false} EntriesAreJoined(entries: Entries, square: bool, lead: string)
    ensures lead + ShowEntries(entries, square) == Join(',', Members(entries, lead)) + [if square then ']' else '}']
  {
    hide Show, ShowLabel;
    match entries
    case Last(head, node, gap) =>
      assert lead + ShowEntries(entries, square) == lead + ShowLabel(head) + Show(node) + gap + [Close(square)];
    case More(head, node, gap, next, rest) =>
      EntriesAreJoined(rest, square, next);
      var first := lead + ShowLabel(head) + Show(node) + gap;
      assert lead + ShowEntries(entries, square) == first + [','] + (next + ShowEntries(rest, square));
      assert Members(entries, lead)[1..] == Members(rest, next);
      assert Join(',', Members(entries, lead)) == first + [','] + Join(',', Members(rest, next));
  }

  /** White space of RFC 8259. */
  ghost predicate IsWhiteSpace(s: string) {
    forall c :: c in s ==> c in {' ', '\t', '\n', '\r'}
  }

  /** One entry's text: in an object a key, a colon and a value, in an array a value. */
  ghost predicate IsMember(text: string, square: bool, key: string, value: Node) {
    exists before, after, token, left, right ::
      && IsWhiteSpace(before) && IsWhiteSpace(after) && IsWhiteSpace(left) && IsWhiteSpace(right)
      && (square || ScanString(token) == Some((key, |token|)))
      && text == before + (if square then "" else token + left + ":" + right) + Show(value) + after
  }

  function Nodes(entries: Entries): (nodes: seq<Node>)
    ensures nodes != []
  {
    match entries
    case Last(_, node, _) => [node]
    case More(_, node, _, _, rest) => [node] + Nodes(rest)
  }

  function Keys(entries: Entries): (keys: seq<string>)
    ensures keys != []
  {
    match entries
    case Last(head, _, _) => [KeyOf(head)]
    case More(head, _, _, _, rest) => [KeyOf(head)] + Keys(rest)
  }

  lemma {:induction false} GapIsWhiteSpace(s: string)
    ensures IsGap(s) <==> IsWhiteSpace(s)
  {
    if IsWhiteSpace(s) {
      forall i | 0 <= i < |s| ensures IsSpace(s[i]) {
        assert s[i] in s;
      }
    }
  }

  lemma OneMember(head: Label, node: Node, gap: string, lead: string, square: bool, seen: set<string>)
    requires LabelOk(head, square, seen) && IsGap(gap) && IsGap(lead)
    ensures IsMember(lead + ShowLabel(head) + Show(node) + gap, square, KeyOf(head), node)
  {
    hide IsGap, IsWhiteSpace, ScanString, Show;
    GapIsWhiteSpace(gap);
    GapIsWhiteSpace(lead);
    var left, right, token := "", "", "";
    if !square {
      left, right, token := head.before, head.after, head.token;
      GapIsWhiteSpace(left);
      GapIsWhiteSpace(right);
      assert ScanString(token) == Some((KeyOf(head), |token|));
      assert ShowLabel(head) == token + left + ":" + right;
    } else {
      assert IsWhiteSpace("") by { GapIsWhiteSpace(""); assert IsGap("") by { NoGap(); } }
    }
    assert lead + ShowLabel(head) + Show(node) + gap == lead + (if square then "" else token + left + ":" + right) + Show(node) + gap;
  }

  lemma NoGap()
    ensures IsGap("")
  {
  }

  lemma {:induction false} MembersAre(entries: Entries, square: bool, lead: string, seen: set<string>)
    requires EntriesOk(entries, square, seen) && IsGap(lead)
    ensures |Members(entries, lead)| == |Nodes(entries)| == |Keys(entries)|
    ensures forall i :: 0 <= i < |Nodes(entries)| ==> IsMember(Members(entries, lead)[i], square, Keys(entries)[i], Nodes(entries)[i])
  {
    hide Show, ShowLabel, KeyOf, LabelOk, WellFormed, IsMember, IsGap;
    OneMember(entries.head, entries.node, entries.gap, lead, square, seen);
    if entries.More? {
      MembersAre(entries.rest, square, entries.next, seen + {KeyOf(entries.head)});
    }
  }

  /** An array is its values, and an object its members, between commas and brackets, or white space alone. */
  lemma {:induction false} GroupsAreJoined(node: Node)
    requires WellFormed(node)
    ensures node.Empty? ==>
      IsWhiteSpace(node.gap) && Show(node) == (if node.square then "[" else "{") + node.gap + (if node.square then "]" else "}")
    ensures node.Group? ==>
      var members := Members(node.entries, node.gap);
      && Show(node) == (if node.square then "[" else "{") + Join(',', members) + (if node.square then "]" else "}")
      && |members| == |Nodes(node.entries)| == |Keys(node.entries)|
      && forall i :: 0 <= i < |members| ==> IsMember(members[i], node.square, Keys(node.entries)[i], Nodes(node.entries)[i])
  {
    hide IsMember, EntriesOk, ShowEntries, Join, Members, IsGap;
    if node.Empty? {
      GapIsWhiteSpace(node.gap);
    }
    if node.Group? {
      MembersAre(node.entries, node.square, node.gap, {});
      EntriesAreJoined(node.entries, node.square, node.gap);
      var members := Members(node.entries, node.gap);
      assert Show(node) == [Open(node.square)] + (node.gap + ShowEntries(node.entries, node.square));
    }
  }

  // ------------------------------------------------------------------ what it holds

  lemma {:induction false} ItemsAreNodes(entries: Entries)
    ensures |ItemsOf(entries)| == |Nodes(entries)|
    ensures forall i :: 0 <= i < |Nodes(entries)| ==> ItemsOf(entries)[i] == Value(Nodes(entries)[i])
  {
    hide Value;
    if entries.More? { ItemsAreNodes(entries.rest); }
  }

  lemma {:induction false} KeysAreFields(entries: Entries)
    ensures |Keys(entries)| == |Nodes(entries)|
    ensures forall key :: key in FieldsOf(entries) <==> key in Keys(entries)
  {
    hide Value, KeyOf;
    if entries.More? { KeysAreFields(entries.rest); }
  }

  lemma {:induction false} KeysAreNew(entries: Entries, seen: set<string>)
    requires EntriesOk(entries, false, seen)
    ensures forall i :: 0 <= i < |Keys(entries)| ==> Keys(entries)[i] !in seen
    ensures forall i, j :: 0 <= i < j < |Keys(entries)| ==> Keys(entries)[i] != Keys(entries)[j]
  {
    hide KeyOf, LabelOk, WellFormed;
    LabelIsNew(entries.head, seen);
    if entries.More? {
      var rest := Keys(entries.rest);
      KeysAreNew(entries.rest, seen + {KeyOf(entries.head)});
      assert forall i :: 0 <= i < |rest| ==> Keys(entries)[i + 1] == rest[i];
    }
  }

  lemma {:induction false} FieldsAreNodes(entries: Entries, seen: set<string>)
    requires EntriesOk(entries, false, seen) && |Keys(entries)| == |Nodes(entries)|
    ensures forall i :: 0 <= i < |Nodes(entries)| ==>
      Keys(entries)[i] in FieldsOf(entries) && FieldsOf(entries)[Keys(entries)[i]] == Value(Nodes(entries)[i])
  {
    hide Value, KeyOf, LabelOk, WellFormed;
    if entries.More? {
      var keys, nodes := Keys(entries.rest), Nodes(entries.rest);
      KeysAreFields(entries.rest);
      FieldsAreNodes(entries.rest, seen + {KeyOf(entries.head)});
      KeyHasNoField(entries.rest, seen + {KeyOf(entries.head)}, KeyOf(entries.head));
      forall i | 0 <= i < |Nodes(entries)|
        ensures Keys(entries)[i] in FieldsOf(entries) && FieldsOf(entries)[Keys(entries)[i]] == Value(Nodes(entries)[i])
      {
        assert i > 0 ==> Keys(entries)[i] == keys[i - 1] && Nodes(entries)[i] == nodes[i - 1];
      }
    }
  }

  /** Square brackets hold the values of their entries in order; curly ones hold each key once, with its value. */
  lemma {:induction false} GroupsHoldTheirEntries(node: Node)
    requires WellFormed(node)
    ensures node.Empty? ==> Value(node) == if node.square then Array([]) else Object(map[])
    ensures node.Group? && node.square ==>
      && Value(node).Array? && |Value(node).items| == |Nodes(node.entries)|
      && forall i :: 0 <= i < |Nodes(node.entries)| ==> Value(node).items[i] == Value(Nodes(node.entries)[i])
    ensures node.Group? && !node.square ==>
      && Value(node).Object? && |Keys(node.entries)| == |Nodes(node.entries)|
      && (forall key :: key in Value(node).fields <==> key in Keys(node.entries))
      && (forall i :: 0 <= i < |Nodes(node.entries)| ==>
            Keys(node.entries)[i] in Value(node).fields && Value(node).fields[Keys(node.entries)[i]] == Value(Nodes(node.entries)[i]))
      && forall i, j :: 0 <= i < j < |Keys(node.entries)| ==> Keys(node.entries)[i] != Keys(node.entries)[j]
  {
    hide EntriesOk, FieldsOf, ItemsOf;
    if node.Group? {
      if node.square {
        ItemsAreNodes(node.entries);
      } else {
        KeysAreFields(node.entries);
        KeysAreNew(node.entries, {});
        FieldsAreNodes(node.entries, {});
      }
    }
  }
}
