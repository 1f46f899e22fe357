/** What a JSON tree means, where its scalars stand in the text, and replacing one of them. */
module JsonValues {
  import opened Wrappers
  import opened JsonLexer
  import opened JsonSyntax

  // ----------------------------------------------------------------------- values

  function Value(node: Node): Json {
    match node
    case Leaf(token) => ValueOf(token)
    case Empty(square, _) => if square then Array([]) else Object(map[])
    case Group(square, _, entries) => if square then Array(ItemsOf(entries)) else Object(FieldsOf(entries))
  }

  function ItemsOf(entries: Entries): seq<Json> {
    match entries
    case Last(_, node, _) => [Value(node)]
    case More(_, node, _, _, rest) => [Value(node)] + ItemsOf(rest)
  }

  function FieldsOf(entries: Entries): map<string, Json> {
    match entries
    case Last(head, node, _) => map[KeyOf(head) := Value(node)]
    case More(head, node, _, _, rest) => map[KeyOf(head) := Value(node)] + FieldsOf(rest)
  }

  /** `_get` along object keys; a key never selects inside an array. */
  function Get(v: Json, field: seq<string>): Option<Json> {
    if field == [] then Some(v)
    else if v.Object? && field[0] in v.fields then Get(v.fields[field[0]], field[1..])
    else None
  }

  function Put(v: Json, field: seq<string>, new': Json): Json {
    if field == [] then new'
    else if v.Object? && field[0] in v.fields then Object(v.fields[field[0] := Put(v.fields[field[0]], field[1..], new')])
    else v
  }

  predicate IsScalar(v: Json) {
    !v.Array? && !v.Object?
  }

  // ------------------------------------------------------------------------ spans

  datatype Step = Name(key: string) | Item(index: nat)

  datatype Span = Span(start: nat, end: nat)

  /** Every scalar of a tree shown at `start`, by its path. */
  function Spans(node: Node, start: nat, path: seq<Step>): map<seq<Step>, Span> {
    match node
    case Leaf(token) => map[path := Span(start, start + |token|)]
    case Empty(_, _) => map[]
    case Group(square, gap, entries) => EntrySpans(entries, square, start + 1 + |gap|, path, 0)
  }

  function StepOf(head: Label, square: bool, index: nat): Step {
    if square then Item(index) else Name(KeyOf(head))
  }

  function EntrySpans(entries: Entries, square: bool, start: nat, path: seq<Step>, index: nat): map<seq<Step>, Span> {
    var at := start + |ShowLabel(entries.head)|;
    var here := Spans(entries.node, at, path + [StepOf(entries.head, square, index)]);
    match entries
    case Last(_, _, _) => here
    case More(_, node, gap, next, rest) =>
      here + EntrySpans(rest, square, at + |Show(node)| + |gap| + 1 + |next|, path, index + 1)
  }

  function Names(field: seq<string>): seq<Step> {
    seq(|field|, i requires 0 <= i < |field| => Name(field[i]))
  }

  /** The span of one field, found by following the keys. */
  function Locate(node: Node, start: nat, field: seq<string>): Option<Span> {
    match node
    case Leaf(token) => if field == [] then Some(Span(start, start + |token|)) else None
    case Empty(_, _) => None
    case Group(square, gap, entries) =>
      if square || field == [] then None else LocateEntry(entries, start + 1 + |gap|, field)
  }

  function LocateEntry(entries: Entries, start: nat, field: seq<string>): Option<Span>
    requires field != []
  {
    var at := start + |ShowLabel(entries.head)|;
    if KeyOf(entries.head) == field[0] then Locate(entries.node, at, field[1..])
    else match entries
      case Last(_, _, _) => None
      case More(_, node, gap, next, rest) => LocateEntry(rest, at + |Show(node)| + |gap| + 1 + |next|, field)
  }

  lemma {:induction false} SpansBelow(node: Node, start: nat, path: seq<Step>, p: seq<Step>)
    requires p in Spans(node, start, path)
    ensures path <= p
    decreases node, 0
  {
    hide Show, ShowLabel, KeyOf;
    if node.Group? {
      EntrySpansBelow(node.entries, node.square, start + 1 + |node.gap|, path, 0, p);
    }
  }

  /** An entry's spans lie below its own step, and later array entries have later indices. */
  lemma {:induction false} EntrySpansBelow(entries: Entries, square: bool, start: nat, path: seq<Step>, index: nat, p: seq<Step>)
    requires p in EntrySpans(entries, square, start, path, index)
    ensures path < p && (if square then p[|path|].Item? && p[|path|].index >= index else p[|path|].Name?)
    decreases entries, 1
  {
    hide Show, ShowLabel, KeyOf;
    var at := start + |ShowLabel(entries.head)|;
    var below := path + [StepOf(entries.head, square, index)];
    if p in Spans(entries.node, at, below) {
      SpansBelow(entries.node, at, below, p);
      assert p[|path|] == below[|path|];
      assert p[..|path|] == below[..|path|] == path;
    } else {
      EntrySpansBelow(entries.rest, square, at + |Show(entries.node)| + |entries.gap| + 1 + |entries.next|, path, index + 1, p);
    }
  }

  lemma BelowStep(node: Node, start: nat, path: seq<Step>, step: Step, field: seq<string>)
    requires path + Names(field) in Spans(node, start, path + [step])
    ensures field != [] && step == Name(field[0])
  {
    hide Spans;
    SpansBelow(node, start, path + [step], path + Names(field));
    assert (path + [step])[|path|] == (path + Names(field))[|path|];
  }

  lemma NamesStep(field: seq<string>)
    requires field != []
    ensures Names(field) == [Name(field[0])] + Names(field[1..])
  {
  }

  /** Looking a field up in the recorded spans is following its keys. */
  lemma {:induction false} SpansLocate(node: Node, start: nat, path: seq<Step>, field: seq<string>)
    requires WellFormed(node)
    ensures Locate(node, start, field).Some? <==> path + Names(field) in Spans(node, start, path)
    ensures Locate(node, start, field).Some? ==> Locate(node, start, field).value == Spans(node, start, path)[path + Names(field)]
    decreases node, 0
  {
    hide Show, ShowLabel, KeyOf, IsScalarToken;
    match node
    case Leaf(token) =>
      assert field == [] ==> path + Names(field) == path;
    case Empty(_, _) =>
    case Group(square, gap, entries) =>
      var p := path + Names(field);
      var at := start + 1 + |gap|;
      if square || field == [] {
        if p in EntrySpans(entries, square, at, path, 0) {
          EntrySpansBelow(entries, square, at, path, 0, p);
        }
      } else {
        EntrySpansLocate(entries, at, path, 0, field, {});
      }
  }

  lemma {:induction false} EntrySpansLocate(entries: Entries, start: nat, path: seq<Step>, index: nat, field: seq<string>, seen: set<string>)
    requires EntriesOk(entries, false, seen) && field != []
    ensures LocateEntry(entries, start, field).Some? <==> path + Names(field) in EntrySpans(entries, false, start, path, index)
    ensures LocateEntry(entries, start, field).Some? ==>
      LocateEntry(entries, start, field).value == EntrySpans(entries, false, start, path, index)[path + Names(field)]
    decreases entries, 1
  {
    hide Show, ShowLabel, KeyOf, LabelOk, Locate, Spans, WellFormed;
    var p := path + Names(field);
    var at := start + |ShowLabel(entries.head)|;
    var below := path + [Name(KeyOf(entries.head))];
    NamesStep(field);
    if KeyOf(entries.head) == field[0] {
      assert p == below + Names(field[1..]);
      SpansLocate(entries.node, at, below, field[1..]);
      if entries.More? {
        var next := at + |Show(entries.node)| + |entries.gap| + 1 + |entries.next|;
        KeyGone(entries.rest, seen + {KeyOf(entries.head)}, next, path, index + 1, field);
      }
    } else {
      if p in Spans(entries.node, at, below) {
        BelowStep(entries.node, at, path, Name(KeyOf(entries.head)), field);
      }
      if entries.More? {
        var next := at + |Show(entries.node)| + |entries.gap| + 1 + |entries.next|;
        EntrySpansLocate(entries.rest, next, path, index + 1, field, seen + {KeyOf(entries.head)});
      }
    }
  }

  lemma LabelIsNew(head: Label, seen: set<string>)
    requires LabelOk(head, false, seen)
    ensures KeyOf(head) !in seen
  {
    hide IsKeyToken, KeyText;
  }

  /** A key met before has no spans further on. */
  lemma {:induction false} KeyGone(entries: Entries, seen: set<string>, start: nat, path: seq<Step>, index: nat, field: seq<string>)
    requires EntriesOk(entries, false, seen) && field != [] && field[0] in seen
    ensures path + Names(field) !in EntrySpans(entries, false, start, path, index)
    decreases entries
  {
    hide Show, ShowLabel, KeyOf, LabelOk, WellFormed, Spans;
    var p := path + Names(field);
    var at := start + |ShowLabel(entries.head)|;
    var below := path + [Name(KeyOf(entries.head))];
    LabelIsNew(entries.head, seen);
    if p in Spans(entries.node, at, below) {
      BelowStep(entries.node, at, path, Name(KeyOf(entries.head)), field);
    }
    if entries.More? {
      KeyGone(entries.rest, seen + {KeyOf(entries.head)}, at + |Show(entries.node)| + |entries.gap| + 1 + |entries.next|, path, index + 1, field);
    }
  }

  // ------------------------------------------------------------- replacing a scalar

  /** The tree with the token of one field replaced. */
  function Replace(node: Node, field: seq<string>, token: string): Node {
    match node
    case Leaf(_) => if field == [] then Leaf(token) else node
    case Empty(_, _) => node
    case Group(square, gap, entries) =>
      if square || field == [] then node else Group(square, gap, ReplaceEntry(entries, field, token))
  }

  function ReplaceEntry(entries: Entries, field: seq<string>, token: string): Entries
    requires field != []
  {
    if KeyOf(entries.head) == field[0] then
      match entries
      case Last(head, node, gap) => Last(head, Replace(node, field[1..], token), gap)
      case More(head, node, gap, next, rest) => More(head, Replace(node, field[1..], token), gap, next, rest)
    else
      match entries
      case Last(_, _, _) => entries
      case More(head, node, gap, next, rest) => More(head, node, gap, next, ReplaceEntry(rest, field, token))
  }

  predicate Within(span: Span, start: nat, length: nat) {
    start <= span.start < span.end <= start + length
  }

  /** `text[:start] + token + text[end:]`. */
  function Splice(text: string, span: Span, token: string): string
    requires span.start <= span.end <= |text|
  {
    text[..span.start] + token + text[span.end..]
  }

  function Shift(span: Span, offset: nat): Span
    requires offset <= span.start && offset <= span.end
  {
    Span(span.start - offset, span.end - offset)
  }

  lemma SpliceInside(before: string, middle: string, after: string, span: Span, token: string)
    requires |before| <= span.start <= span.end <= |before| + |middle|
    ensures Splice(before + (middle + after), span, token)
      == before + (Splice(middle, Shift(span, |before|), token) + after)
  {
    var text := before + (middle + after);
    var inner := Shift(span, |before|);
    assert text[..span.start] == before + middle[..inner.start];
    assert text[span.end..] == middle[inner.end..] + after;
  }

  /** A located field lies inside the shown text, and replacing its token in the tree splices the text there. */
  lemma {:induction false} ReplaceSplices(node: Node, start: nat, field: seq<string>, token: string)
    requires WellFormed(node) && Locate(node, start, field).Some?
    ensures Within(Locate(node, start, field).value, start, |Show(node)|)
    ensures Show(Replace(node, field, token)) == Splice(Show(node), Shift(Locate(node, start, field).value, start), token)
    decreases node, 0
  {
    hide KeyOf, IsScalarToken, ShowLabel, ShowEntries, EntriesOk, ReplaceEntry;
    match node
    case Leaf(t) =>
      ScalarStarts(t);
      assert Splice(t, Span(0, |t|), token) == token;
    case Group(square, gap, entries) =>
      ReplaceEntrySplices(entries, start + 1 + |gap|, field, token, {});
      var span := Locate(node, start, field).value;
      var before := [Open(square)] + gap;
      SpliceInside(before, ShowEntries(entries, square), "", Shift(span, start), token);
      assert before + (ShowEntries(entries, square) + "") == Show(node);
      assert Shift(Shift(span, start), |before|) == Shift(span, start + 1 + |gap|);
  }

  lemma {:induction false} ReplaceEntrySplices(entries: Entries, start: nat, field: seq<string>, token: string, seen: set<string>)
    requires EntriesOk(entries, false, seen) && field != [] && LocateEntry(entries, start, field).Some?
    ensures Within(LocateEntry(entries, start, field).value, start, |ShowEntries(entries, false)|)
    ensures ShowEntries(ReplaceEntry(entries, field, token), false)
      == Splice(ShowEntries(entries, false), Shift(LocateEntry(entries, start, field).value, start), token)
    decreases entries, 1
  {
    hide KeyOf, LabelOk, ShowLabel, Show, Locate, Replace, WellFormed;
    var head, node := entries.head, entries.node;
    var at := start + |ShowLabel(head)|;
    var span := LocateEntry(entries, start, field).value;
    var after := if entries.Last? then entries.gap + [Close(false)]
                 else entries.gap + ([','] + (entries.next + ShowEntries(entries.rest, false)));
    assert ShowEntries(entries, false) == ShowLabel(head) + (Show(node) + after);
    if KeyOf(head) == field[0] {
      ReplaceSplices(node, at, field[1..], token);
      SpliceInside(ShowLabel(head), Show(node), after, Shift(span, start), token);
      assert Shift(Shift(span, start), |ShowLabel(head)|) == Shift(span, at);
    } else {
      var next := at + |Show(node)| + |entries.gap| + 1 + |entries.next|;
      ReplaceEntrySplices(entries.rest, next, field, token, seen + {KeyOf(head)});
      var before := ShowLabel(head) + (Show(node) + (entries.gap + ([','] + entries.next)));
      var rest := ShowEntries(entries.rest, false);
      assert |before| == next - start;
      assert before + (rest + "") == ShowEntries(entries, false);
      SpliceInside(before, rest, "", Shift(span, start), token);
      assert Shift(Shift(span, start), |before|) == Shift(span, next);
      var rest' := ShowEntries(ReplaceEntry(entries.rest, field, token), false);
      assert before + (rest' + "") == ShowLabel(head) + (Show(node) + (entries.gap + ([','] + (entries.next + rest'))));
    }
  }

  lemma {:induction false} ReplaceWellFormed(node: Node, field: seq<string>, token: string)
    requires WellFormed(node) && IsScalarToken(token)
    ensures WellFormed(Replace(node, field, token))
    decreases node, 0
  {
    hide IsScalarToken;
    if node.Group? && !node.square && field != [] {
      ReplaceEntryWellFormed(node.entries, field, token, {});
    }
  }

  lemma {:induction false} ReplaceEntryWellFormed(entries: Entries, field: seq<string>, token: string, seen: set<string>)
    requires EntriesOk(entries, false, seen) && field != [] && IsScalarToken(token)
    ensures EntriesOk(ReplaceEntry(entries, field, token), false, seen)
    decreases entries, 1
  {
    hide IsScalarToken, KeyOf, LabelOk, WellFormed, Replace;
    if KeyOf(entries.head) == field[0] {
      ReplaceWellFormed(entries.node, field[1..], token);
    } else if entries.More? {
      ReplaceEntryWellFormed(entries.rest, field, token, seen + {KeyOf(entries.head)});
    }
  }

  /** A located field holds a scalar, and replacing its token replaces exactly that value. */
  lemma {:induction false} ReplacePuts(node: Node, start: nat, field: seq<string>, token: string)
    requires WellFormed(node) && Locate(node, start, field).Some? && IsScalarToken(token)
    ensures Get(Value(node), field).Some? && IsScalar(Get(Value(node), field).value)
    ensures Value(Replace(node, field, token)) == Put(Value(node), field, ValueOf(token))
    decreases node, 0
  {
    hide IsScalarToken, ValueOf, EntriesOk, ReplaceEntry, FieldsOf, LocateEntry;
    match node
    case Leaf(t) => TokenIsScalar(t);
    case Group(square, gap, entries) => ReplaceEntryPuts(entries, start + 1 + |gap|, field, token, {});
  }

  lemma TokenIsScalar(token: string)
    requires IsScalarToken(token)
    ensures IsScalar(ValueOf(token))
  {
  }

  lemma {:induction false} ReplaceEntryPuts(entries: Entries, start: nat, field: seq<string>, token: string, seen: set<string>)
    requires EntriesOk(entries, false, seen) && field != [] && LocateEntry(entries, start, field).Some? && IsScalarToken(token)
    ensures field[0] in FieldsOf(entries)
    ensures Get(FieldsOf(entries)[field[0]], field[1..]).Some? && IsScalar(Get(FieldsOf(entries)[field[0]], field[1..]).value)
    ensures FieldsOf(ReplaceEntry(entries, field, token))
      == FieldsOf(entries)[field[0] := Put(FieldsOf(entries)[field[0]], field[1..], ValueOf(token))]
    decreases entries, 1
  {
    hide IsScalarToken, ValueOf, KeyOf, LabelOk, WellFormed, Replace, Value, Locate, Get, Put, ShowLabel, Show, IsScalar;
    var at := start + |ShowLabel(entries.head)|;
    if KeyOf(entries.head) == field[0] {
      ReplacePuts(entries.node, at, field[1..], token);
      if entries.More? { KeyHasNoField(entries.rest, seen + {KeyOf(entries.head)}, field[0]); }
    } else {
      ReplaceEntryPuts(entries.rest, at + |Show(entries.node)| + |entries.gap| + 1 + |entries.next|, field, token, seen + {KeyOf(entries.head)});
    }
  }

  /** Whatever scalar the keys lead to has its place in the text. */
  lemma {:induction false} ScalarsAreLocated(node: Node, start: nat, field: seq<string>)
    requires WellFormed(node) && Get(Value(node), field).Some? && IsScalar(Get(Value(node), field).value)
    ensures Locate(node, start, field).Some?
    decreases node, 0
  {
    hide EntriesOk, FieldsOf, ItemsOf, LocateEntry, IsScalarToken, ShowLabel, Show;
    match node
    case Leaf(token) => TokenIsScalar(token);
    case Empty(_, _) =>
    case Group(square, gap, entries) => EntryScalarsAreLocated(entries, start + 1 + |gap|, field, {});
  }

  lemma {:induction false} EntryScalarsAreLocated(entries: Entries, start: nat, field: seq<string>, seen: set<string>)
    requires EntriesOk(entries, false, seen) && field != [] && field[0] in FieldsOf(entries)
    requires var v := Get(FieldsOf(entries)[field[0]], field[1..]); v.Some? && IsScalar(v.value)
    ensures LocateEntry(entries, start, field).Some?
    decreases entries, 1
  {
    hide KeyOf, LabelOk, WellFormed, Locate, Value, Get, ShowLabel, Show, IsScalar;
    var at := start + |ShowLabel(entries.head)|;
    if KeyOf(entries.head) == field[0] {
      if entries.More? { KeyHasNoField(entries.rest, seen + {KeyOf(entries.head)}, field[0]); }
      ScalarsAreLocated(entries.node, at, field[1..]);
    } else {
      EntryScalarsAreLocated(entries.rest, at + |Show(entries.node)| + |entries.gap| + 1 + |entries.next|, field, seen + {KeyOf(entries.head)});
    }
  }

  lemma {:induction false} KeyHasNoField(entries: Entries, seen: set<string>, key: string)
    requires EntriesOk(entries, false, seen) && key in seen
    ensures key !in FieldsOf(entries)
    decreases entries
  {
    hide KeyOf, LabelOk, WellFormed, Value;
    LabelIsNew(entries.head, seen);
    if entries.More? {
      KeyHasNoField(entries.rest, seen + {KeyOf(entries.head)}, key);
    }
  }

  /** Replacing one field leaves the span of a field that ends before it where it was. */
  lemma {:induction false} ReplaceKeepsEarlier(node: Node, start: nat, field: seq<string>, token: string, other: seq<string>)
    requires WellFormed(node)
    requires Locate(node, start, field).Some? && Locate(node, start, other).Some? && field != other
    ensures var f, o := Locate(node, start, field).value, Locate(node, start, other).value;
      if o.start < f.start then o.end <= f.start && Locate(Replace(node, field, token), start, other) == Some(o)
      else f.end <= o.start
    decreases node, 0
  {
    hide KeyOf, IsScalarToken, ShowLabel, Show, EntriesOk, ReplaceEntry, LocateEntry;
    if node.Group? {
      ReplaceEntryKeepsEarlier(node.entries, start + 1 + |node.gap|, field, token, other, {});
    }
  }

  lemma {:induction false} ReplaceEntryKeepsEarlier(entries: Entries, start: nat, field: seq<string>, token: string, other: seq<string>, seen: set<string>)
    requires EntriesOk(entries, false, seen) && field != [] && other != [] && field != other
    requires LocateEntry(entries, start, field).Some? && LocateEntry(entries, start, other).Some?
    ensures var f, o := LocateEntry(entries, start, field).value, LocateEntry(entries, start, other).value;
      if o.start < f.start then o.end <= f.start && LocateEntry(ReplaceEntry(entries, field, token), start, other) == Some(o)
      else f.end <= o.start
    decreases entries, 1
  {
    hide KeyOf, LabelOk, ShowLabel, Show, Locate, Replace, WellFormed;
    var key := KeyOf(entries.head);
    var at := start + |ShowLabel(entries.head)|;
    if key == field[0] && key == other[0] {
      assert field == [field[0]] + field[1..] && other == [other[0]] + other[1..];
      ReplaceKeepsEarlier(entries.node, at, field[1..], token, other[1..]);
    } else {
      var next := at + |Show(entries.node)| + (if entries.More? then |entries.gap| + 1 + |entries.next| else 0);
      if key == field[0] {
        ReplaceSplices(entries.node, at, field[1..], token);
        ReplaceEntrySplices(entries.rest, next, other, token, seen + {key});
      } else if key == other[0] {
        ReplaceSplices(entries.node, at, other[1..], token);
        ReplaceEntrySplices(entries.rest, next, field, token, seen + {key});
      } else {
        ReplaceEntryKeepsEarlier(entries.rest, next, field, token, other, seen + {key});
      }
    }
  }

  // --------------------------------------------------------------- values and fields

  lemma {:induction false} GetPut(v: Json, field: seq<string>, new': Json)
    requires Get(v, field).Some?
    ensures Get(Put(v, field, new'), field) == Some(new')
  {
    if field != [] { GetPut(v.fields[field[0]], field[1..], new'); }
  }

  /** Replacing one scalar leaves every other scalar field alone. */
  lemma {:induction false} GetPutOther(v: Json, field: seq<string>, new': Json, other: seq<string>)
    requires field != other && IsScalar(new')
    requires Get(v, field).Some? && IsScalar(Get(v, field).value)
    requires Get(v, other).Some? && IsScalar(Get(v, other).value)
    ensures Get(Put(v, field, new'), other) == Get(v, other)
  {
    if field != [] && other != [] && field[0] == other[0] {
      assert field == [field[0]] + field[1..] && other == [other[0]] + other[1..];
      GetPutOther(v.fields[field[0]], field[1..], new', other[1..]);
    }
  }

  lemma PutPutApart(m: map<string, Json>, j: string, k: string, x: Json, y: Json)
    requires j != k
    ensures m[j := x][k := y] == m[k := y][j := x]
  {
  }

  /** Two replacements one after the other, by their first keys. */
  lemma PutPut(v: Json, f: seq<string>, x: Json, g: seq<string>, y: Json)
    requires f != [] && g != [] && v.Object? && f[0] in v.fields && g[0] in v.fields
    ensures f[0] == g[0] ==>
      Put(Put(v, f, x), g, y) == Object(v.fields[f[0] := Put(Put(v.fields[f[0]], f[1..], x), g[1..], y)])
    ensures f[0] != g[0] ==>
      Put(Put(v, f, x), g, y) == Object(v.fields[f[0] := Put(v.fields[f[0]], f[1..], x)][g[0] := Put(v.fields[g[0]], g[1..], y)])
  {
    var m := v.fields;
    var m' := m[f[0] := Put(m[f[0]], f[1..], x)];
    assert Put(v, f, x) == Object(m');
    assert Put(Object(m'), g, y) == Object(m'[g[0] := Put(m'[g[0]], g[1..], y)]);
    assert f[0] == g[0] ==> m'[g[0] := Put(m'[g[0]], g[1..], y)] == m[f[0] := Put(m'[g[0]], g[1..], y)];
  }

  lemma {:induction false} PutPutCommute(v: Json, f: seq<string>, x: Json, g: seq<string>, y: Json)
    requires f != g
    requires Get(v, f).Some? && IsScalar(Get(v, f).value) && Get(v, g).Some? && IsScalar(Get(v, g).value)
    ensures Put(Put(v, f, x), g, y) == Put(Put(v, g, y), f, x)
  {
    if f != [] && g != [] {
      hide Put;
      var m := v.fields;
      PutPut(v, f, x, g, y);
      PutPut(v, g, y, f, x);
      if f[0] == g[0] {
        assert f == [f[0]] + f[1..] && g == [g[0]] + g[1..];
        PutPutCommute(m[f[0]], f[1..], x, g[1..], y);
      } else {
        PutPutApart(m, f[0], g[0], Put(m[f[0]], f[1..], x), Put(m[g[0]], g[1..], y));
      }
    }
  }
}
