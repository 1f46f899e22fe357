/** The recursive-descent parser over indices: it advances a position, builds the value and
records the span of every scalar as it goes. */
module JsonDocument {
  import opened Wrappers
  import opened JsonLexer
  import opened JsonSyntax
  import opened JsonValues

  /** What parsing a value answers: nothing, or the value and where it ends. */
  datatype Outcome = Rejected | Found(value: Json, end: nat)

  function Rest(text: string, index: nat): string
    requires index <= |text|
  {
    text[index..]
  }

  /** Where the white space at `index` ends. */
  function Skip(text: string, index: nat): (i: nat)
    requires index <= |text|
    ensures index <= i <= |text|
    ensures Rest(text, i) == SkipGap(Rest(text, index)).1
    ensures text[index..i] == SkipGap(Rest(text, index)).0
  {
    var (gap, rest) := SkipGap(Rest(text, index));
    var i := |text| - |rest|;
    assert text[i..] == Rest(text, index)[|gap|..] == rest;
    assert text[index..i] == Rest(text, index)[..|gap|];
    i
  }

  lemma SkipStep(text: string, index: nat)
    requires index <= |text|
    ensures Skip(text, index) == if index < |text| && IsSpace(text[index]) then Skip(text, index + 1) else index
  {
    if index < |text| {
      assert Rest(text, index)[0] == text[index] && Rest(text, index)[1..] == Rest(text, index + 1);
    }
  }

  lemma RestStep(text: string, index: nat)
    requires index < |text|
    ensures Rest(text, index) != "" && Rest(text, index)[0] == text[index]
    ensures Rest(text, index)[1..] == Rest(text, index + 1)
  {
  }

  lemma RestFurther(text: string, index: nat, k: nat)
    requires index + k <= |text|
    ensures Rest(text, index)[k..] == Rest(text, index + k) && |Rest(text, index)| == |text| - index
  {
  }

  // ------------------------------------------------------------ one entry at a time

  /** What `parse` answers for the value at `i`. */
  ghost predicate Parsed(text: string, i: nat, path: seq<Step>, before: map<seq<Step>, Span>, r: Outcome, spans: map<seq<Step>, Span>)
  {
    && i <= |text|
    && var p := ParseNode(Rest(text, i));
    && (r.Found? <==> p.Some?)
    && (r.Found? ==>
          && i < r.end <= |text|
          && p.value.1 == Rest(text, r.end)
          && r.value == Value(p.value.0)
          && spans == before + Spans(p.value.0, i, path))
  }

  /** A loop over entries, which started at `start` with `goal` to parse, has come to `i` with `todo` left. */
  ghost predicate Progress(square: bool, goal: Option<(Entries, string)>, before: map<seq<Step>, Span>, start: nat, path: seq<Step>,
                           todo: Option<(Entries, string)>, fields: map<string, Json>, items: seq<Json>,
                           spans: map<seq<Step>, Span>, i: nat, n: nat)
  {
    && (goal.Some? <==> todo.Some?)
    && (goal.Some? ==>
          && goal.value.1 == todo.value.1
          && (if square then ItemsOf(goal.value.0) == items + ItemsOf(todo.value.0)
              else FieldsOf(goal.value.0) == fields + FieldsOf(todo.value.0))
          && before + EntrySpans(goal.value.0, square, start, path, 0) == spans + EntrySpans(todo.value.0, square, i, path, n))
  }

  lemma ProgressStarts(square: bool, goal: Option<(Entries, string)>, spans: map<seq<Step>, Span>, i: nat, path: seq<Step>)
    ensures Progress(square, goal, spans, i, path, goal, map[], [], spans, i, 0)
  {
    if goal.Some? {
      assert map[] + FieldsOf(goal.value.0) == FieldsOf(goal.value.0);
      assert [] + ItemsOf(goal.value.0) == ItemsOf(goal.value.0);
    }
  }

  /** The entry at `s`: its label, its value and the white space after it. */
  ghost predicate Entry(square: bool, s: string, seen: set<string>, head: Label, node: Node, gap: string, tail: string) {
    && ParseLabel(square, s, seen) == Some((head, Show(node) + (gap + tail)))
    && ParseNode(Show(node) + (gap + tail)) == Some((node, gap + tail))
    && SkipGap(gap + tail) == (gap, tail)
  }

  lemma EntryFound(square: bool, s: string, seen: set<string>, head: Label, s1: string, node: Node, s2: string, gap: string, tail: string)
    requires ParseLabel(square, s, seen) == Some((head, s1)) && ParseNode(s1) == Some((node, s2)) && SkipGap(s2) == (gap, tail)
    ensures Entry(square, s, seen, head, node, gap, tail)
    ensures |s| == |ShowLabel(head)| + |Show(node)| + |gap| + |tail| && |s1| == |Show(node)| + |gap| + |tail|
  {
    hide ParseLabel, ParseNode, SkipGap, ShowLabel, Show;
    LabelSound(square, s, seen, head, s1);
    NodeSound(s1, node, s2);
  }

  lemma EntryDecides(square: bool, s: string, seen: set<string>, head: Label, node: Node, gap: string, tail: string)
    requires Entry(square, s, seen, head, node, gap, tail)
    ensures tail == "" || (tail[0] != Close(square) && tail[0] != ',') ==> ParseEntries(square, s, seen).None?
    ensures tail != "" && tail[0] == Close(square) ==> ParseEntries(square, s, seen) == Some((Last(head, node, gap), tail[1..]))
    ensures tail != "" && tail[0] == ',' ==>
      var (next, s') := SkipGap(tail[1..]);
      var more := ParseEntries(square, s', seen + {KeyOf(head)});
      ParseEntries(square, s, seen) ==
        if more.None? then None else Some((More(head, node, gap, next, more.value.0), more.value.1))
  {
    hide ParseLabel, ParseNode, SkipGap, Show, KeyOf;
  }

  lemma ProgressEnds(square: bool, goal: Option<(Entries, string)>, before: map<seq<Step>, Span>, start: nat, path: seq<Step>,
                     s: string, seen: set<string>, fields: map<string, Json>, items: seq<Json>, spans: map<seq<Step>, Span>, i: nat, n: nat,
                     head: Label, node: Node, gap: string, tail: string)
    requires Progress(square, goal, before, start, path, ParseEntries(square, s, seen), fields, items, spans, i, n)
    requires Entry(square, s, seen, head, node, gap, tail) && tail != "" && tail[0] == Close(square)
    ensures goal.Some? && goal.value.1 == tail[1..]
    ensures if square then ItemsOf(goal.value.0) == items + [Value(node)]
            else FieldsOf(goal.value.0) == fields[KeyOf(head) := Value(node)]
    ensures before + EntrySpans(goal.value.0, square, start, path, 0)
      == spans + Spans(node, i + |ShowLabel(head)|, path + [StepOf(head, square, n)])
  {
    hide ParseEntries, Entry, KeyOf, Value, Show, ShowLabel, StepOf;
    EntryDecides(square, s, seen, head, node, gap, tail);
    assert fields + map[KeyOf(head) := Value(node)] == fields[KeyOf(head) := Value(node)];
  }

  lemma SpansMove(spans: map<seq<Step>, Span>, square: bool, at: nat, path: seq<Step>, n: nat,
                  head: Label, node: Node, gap: string, next: string, rest: Entries, i: nat)
    requires at == i + |ShowLabel(head)|
    ensures spans + EntrySpans(More(head, node, gap, next, rest), square, i, path, n)
      == spans + Spans(node, at, path + [StepOf(head, square, n)])
         + EntrySpans(rest, square, at + |Show(node)| + |gap| + 1 + |next|, path, n + 1)
  {
    hide Spans, Show, ShowLabel, StepOf;
    var here := Spans(node, at, path + [StepOf(head, square, n)]);
    var there := EntrySpans(rest, square, at + |Show(node)| + |gap| + 1 + |next|, path, n + 1);
    assert spans + (here + there) == (spans + here) + there;
  }

  lemma ValuesMove(fields: map<string, Json>, items: seq<Json>, head: Label, node: Node, gap: string, next: string, rest: Entries)
    ensures fields + FieldsOf(More(head, node, gap, next, rest)) == fields[KeyOf(head) := Value(node)] + FieldsOf(rest)
    ensures items + ItemsOf(More(head, node, gap, next, rest)) == items + [Value(node)] + ItemsOf(rest)
  {
    hide KeyOf, Value;
  }

  lemma ProgressContinues(square: bool, goal: Option<(Entries, string)>, before: map<seq<Step>, Span>, start: nat, path: seq<Step>,
                          s: string, seen: set<string>, fields: map<string, Json>, items: seq<Json>, spans: map<seq<Step>, Span>, i: nat, n: nat,
                          head: Label, node: Node, gap: string, tail: string, next: string, s': string)
    requires Progress(square, goal, before, start, path, ParseEntries(square, s, seen), fields, items, spans, i, n)
    requires Entry(square, s, seen, head, node, gap, tail) && tail != "" && tail[0] == ',' && SkipGap(tail[1..]) == (next, s')
    ensures Progress(square, goal, before, start, path, ParseEntries(square, s', seen + {KeyOf(head)}),
                     fields[KeyOf(head) := Value(node)], items + [Value(node)],
                     spans + Spans(node, i + |ShowLabel(head)|, path + [StepOf(head, square, n)]),
                     i + |ShowLabel(head)| + |Show(node)| + |gap| + 1 + |next|, n + 1)
  {
    hide ParseEntries, Entry, KeyOf, Value, Show, ShowLabel, StepOf, SkipGap, Spans, EntrySpans, FieldsOf, ItemsOf;
    EntryDecides(square, s, seen, head, node, gap, tail);
    var more := ParseEntries(square, s', seen + {KeyOf(head)});
    if more.Some? {
      SpansMove(spans, square, i + |ShowLabel(head)|, path, n, head, node, gap, next, more.value.0, i);
      ValuesMove(fields, items, head, node, gap, next, more.value.0);
    }
  }

  lemma SkipIs(text: string, index: nat)
    requires index <= |text|
    ensures SkipGap(Rest(text, index)) == (text[index..Skip(text, index)], Rest(text, Skip(text, index)))
  {
    hide SkipGap;
  }

  lemma SkippedStays(text: string, index: nat)
    requires index <= |text|
    ensures Skip(text, Skip(text, index)) == Skip(text, index)
  {
    var i := Skip(text, index);
    SkipIs(text, index);
    if i < |text| {
      RestStep(text, i);
      SkipStep(text, i);
    } else {
      SkipStep(text, i);
    }
  }

  lemma LeafParsed(text: string, i: nat, path: seq<Step>, before: map<seq<Step>, Span>)
    requires i < |text| && text[i] != '{' && text[i] != '['
    ensures var scalar := ScanScalar(Rest(text, i));
      if scalar.None? then Parsed(text, i, path, before, Rejected, before)
      else
        && i + scalar.value.1 <= |text|
        && Parsed(text, i, path, before, Found(scalar.value.0, i + scalar.value.1), before[path := Span(i, i + scalar.value.1)])
  {
    hide ScanScalar;
    var s := Rest(text, i);
    RestStep(text, i);
    var scalar := ScanScalar(s);
    if scalar.Some? {
      var (v, k) := scalar.value;
      assert s[..k][k..] == "";
      ScanScalarLocal(s, s[..k]);
      RestFurther(text, i, k);
      assert before[path := Span(i, i + k)] == before + map[path := Span(i, i + k)];
    }
  }

  /** A bracket: nothing inside, or entries from the first character after the white space. */
  lemma GroupParses(text: string, index: nat, square: bool)
    requires index < |text| && text[index] == Open(square)
    ensures var i := Skip(text, index + 1);
      ParseNode(Rest(text, index)) ==
        if i < |text| && text[i] == Close(square) then Some((Empty(square, text[index + 1..i]), Rest(text, i + 1)))
        else match ParseEntries(square, Rest(text, i), {})
          case None => None
          case Some((entries, rest)) => Some((Group(square, text[index + 1..i], entries), rest))
  {
    hide ParseEntries, SkipGap;
    RestStep(text, index);
    var i := Skip(text, index + 1);
    if i < |text| { RestStep(text, i); }
  }

  /** The key `name` stands at `i`, and its colon at `colon`. */
  ghost predicate LabelAt(text: string, i: nat, seen: set<string>, name: string, colon: nat) {
    && i <= |text| && colon < |text|
    && var head := ParseLabel(false, Rest(text, i), seen);
    && head.Some? && head.value.1 == Rest(text, Skip(text, colon + 1))
    && head.value.0.Key? && KeyOf(head.value.0) == name
  }

  /** A key at `i`: where its colon is, or why there is no entry. */
  lemma LabelParses(text: string, i: nat, seen: set<string>)
    requires i <= |text|
    ensures var key := ScanString(Rest(text, i));
      if key.None? || key.value.0 in seen then NoEntry(text, false, i, seen)
      else
        && i + key.value.1 <= |text|
        && var colon := Skip(text, i + key.value.1);
        if colon == |text| || text[colon] != ':' then NoEntry(text, false, i, seen)
        else LabelAt(text, i, seen, key.value.0, colon)
  {
    hide ScanString, SkipGap, ParseNode;
    var s := Rest(text, i);
    var key := ScanString(s);
    if key.Some? {
      var (v, k) := key.value;
      ScanStringLocal(s, s[..k]);
      RestFurther(text, i, k);
      var colon := Skip(text, i + k);
      if colon < |text| { RestStep(text, colon); }
    }
  }

  lemma NoLabelNoEntries(square: bool, s: string, seen: set<string>)
    requires ParseLabel(square, s, seen).None?
      || ParseNode(ParseLabel(square, s, seen).value.1).None?
    ensures ParseEntries(square, s, seen).None?
  {
    hide ParseLabel, ParseNode;
  }

  ghost predicate Fails(text: string, i: nat) {
    i <= |text| && ParseNode(Rest(text, i)).None?
  }

  /** `c` stands after the white space at `end`. */
  ghost predicate Follows(text: string, end: nat, c: char) {
    end <= |text| && Skip(text, end) < |text| && text[Skip(text, end)] == c
  }

  /** The bracket at `index` opens a group that is not empty. */
  ghost predicate Opens(text: string, square: bool, index: nat) {
    index < |text| && text[index] == Open(square) && !Follows(text, index + 1, Close(square))
  }

  /** What is to be parsed from `i` on. */
  ghost function EntriesFrom(text: string, square: bool, i: nat, seen: set<string>): Option<(Entries, string)> {
    if i <= |text| then ParseEntries(square, Rest(text, i), seen) else None
  }

  ghost function FirstEntry(text: string, index: nat): nat {
    if index < |text| then Skip(text, index + 1) else 0
  }

  /** The loop over the entries of the bracket at `index` has come to `i`. */
  ghost predicate Loop(text: string, square: bool, index: nat, path: seq<Step>, before: map<seq<Step>, Span>,
                     i: nat, seen: set<string>, fields: map<string, Json>, items: seq<Json>, spans: map<seq<Step>, Span>, n: nat)
  {
    && Opens(text, square, index) && i <= |text|
    && Progress(square, EntriesFrom(text, square, FirstEntry(text, index), {}), before, FirstEntry(text, index), path,
                EntriesFrom(text, square, i, seen), fields, items, spans, i, n)
  }

  lemma LoopStarts(text: string, square: bool, index: nat, path: seq<Step>, spans: map<seq<Step>, Span>)
    requires index < |text| && text[index] == Open(square)
    ensures Follows(text, index + 1, Close(square)) ==>
      Parsed(text, index, path, spans, Found(if square then Array([]) else Object(map[]), FirstEntry(text, index) + 1), spans)
    ensures !Follows(text, index + 1, Close(square)) ==>
      Loop(text, square, index, path, spans, FirstEntry(text, index), {}, map[], [], spans, 0)
  {
    hide ParseNode, SkipGap, ParseEntries, Progress, Skip;
    GroupParses(text, index, square);
    assert spans + map[] == spans;
    ProgressStarts(square, EntriesFrom(text, square, FirstEntry(text, index), {}), spans, FirstEntry(text, index), path);
  }

  lemma LoopFails(text: string, square: bool, index: nat, path: seq<Step>, before: map<seq<Step>, Span>,
                  i: nat, seen: set<string>, fields: map<string, Json>, items: seq<Json>, spans: map<seq<Step>, Span>, n: nat)
    requires Loop(text, square, index, path, before, i, seen, fields, items, spans, n)
    requires EntriesFrom(text, square, i, seen).None?
    ensures Fails(text, index)
  {
    hide ParseNode, SkipGap, ParseEntries, EntrySpans, FieldsOf, ItemsOf, Skip;
    GroupParses(text, index, square);
  }

  ghost predicate NoEntry(text: string, square: bool, i: nat, seen: set<string>) {
    && i <= |text|
    && var head := ParseLabel(square, Rest(text, i), seen);
    head.None? || ParseNode(head.value.1).None?
  }

  /** When the next entry has no label or no value, the whole group fails. */
  lemma LoopStops(text: string, square: bool, index: nat, path: seq<Step>, before: map<seq<Step>, Span>,
                  i: nat, seen: set<string>, fields: map<string, Json>, items: seq<Json>, spans: map<seq<Step>, Span>, n: nat)
    requires Loop(text, square, index, path, before, i, seen, fields, items, spans, n)
    ensures NoEntry(text, square, i, seen) ==> Fails(text, index)
  {
    hide ParseNode, ParseEntries, ParseLabel, SkipGap, Progress, Skip;
    if NoEntry(text, square, i, seen) {
      NoLabelNoEntries(square, Rest(text, i), seen);
      LoopFails(text, square, index, path, before, i, seen, fields, items, spans, n);
    }
  }

  /** The entry at `i` has its value from `at` to `end`. */
  ghost predicate Turn(text: string, square: bool, i: nat, seen: set<string>, head: Label, at: nat, node: Node, end: nat) {
    && i <= |text| && at <= |text| && end <= |text|
    && ParseLabel(square, Rest(text, i), seen) == Some((head, Rest(text, at)))
    && ParseNode(Rest(text, at)) == Some((node, Rest(text, end)))
  }

  ghost predicate Measured(text: string, square: bool, i: nat, seen: set<string>, head: Label, at: nat, node: Node, end: nat, gap: nat) {
    && i <= at <= end <= gap <= |text|
    && Entry(square, Rest(text, i), seen, head, node, text[end..gap], Rest(text, gap))
    && i + |ShowLabel(head)| == at && at + |Show(node)| == end
  }

  lemma TurnMeasured(text: string, square: bool, i: nat, seen: set<string>, head: Label, at: nat, node: Node, end: nat)
    requires Turn(text, square, i, seen, head, at, node, end)
    ensures end <= |text| && Measured(text, square, i, seen, head, at, node, end, Skip(text, end))
  {
    hide ParseNode, ParseLabel, SkipGap, ShowLabel, Show, Entry, Skip;
    var gap := Skip(text, end);
    SkipIs(text, end);
    EntryFound(square, Rest(text, i), seen, head, Rest(text, at), node, Rest(text, end), text[end..gap], Rest(text, gap));
    RestFurther(text, i, 0); RestFurther(text, at, 0); RestFurther(text, gap, 0);
  }

  lemma LoopEnds(text: string, square: bool, index: nat, path: seq<Step>, before: map<seq<Step>, Span>,
                 i: nat, seen: set<string>, fields: map<string, Json>, items: seq<Json>, spans: map<seq<Step>, Span>, n: nat,
                 head: Label, at: nat, node: Node, end: nat,
                 fields': map<string, Json>, items': seq<Json>, spans': map<seq<Step>, Span>, stop: nat)
    requires end <= |text| && Loop(text, square, index, path, before, i, seen, fields, items, spans, n)
    requires Turn(text, square, i, seen, head, at, node, end) && index < i && Follows(text, end, Close(square))
    requires fields' == fields[KeyOf(head) := Value(node)] && items' == items + [Value(node)] && stop == Skip(text, end) + 1
    requires spans' == spans + Spans(node, at, path + [StepOf(head, square, n)])
    ensures square ==> Parsed(text, index, path, before, Found(Array(items'), stop), spans')
    ensures !square ==> Parsed(text, index, path, before, Found(Object(fields'), stop), spans')
  {
    hide Turn, ParseNode, ParseEntries, ParseLabel, SkipGap, Value, Spans, EntrySpans, FieldsOf, ItemsOf, ShowLabel,
      Show, Entry, KeyOf, Progress, StepOf, Skip, Opens;
    TurnMeasured(text, square, i, seen, head, at, node, end);
    var gap, start := Skip(text, end), FirstEntry(text, index);
    var goal := EntriesFrom(text, square, start, {});
    RestStep(text, gap);
    ProgressEnds(square, goal, before, start, path, Rest(text, i), seen, fields, items, spans, i, n, head, node, text[end..gap], Rest(text, gap));
    GroupValue(text, index, path, before, square, gap + 1);
  }

  lemma GroupValue(text: string, index: nat, path: seq<Step>, before: map<seq<Step>, Span>, square: bool, end: nat)
    requires Opens(text, square, index) && index < end <= |text|
    requires var goal := EntriesFrom(text, square, FirstEntry(text, index), {}); goal.Some? && goal.value.1 == Rest(text, end)
    ensures var goal := EntriesFrom(text, square, FirstEntry(text, index), {}).value.0;
      Parsed(text, index, path, before, Found(if square then Array(ItemsOf(goal)) else Object(FieldsOf(goal)), end),
             before + EntrySpans(goal, square, FirstEntry(text, index), path, 0))
  {
    hide ParseNode, ParseEntries, SkipGap, EntrySpans, ItemsOf, FieldsOf, Skip;
    GroupParses(text, index, square);
  }

  lemma LoopContinues(text: string, square: bool, index: nat, path: seq<Step>, before: map<seq<Step>, Span>,
                      i: nat, seen: set<string>, fields: map<string, Json>, items: seq<Json>, spans: map<seq<Step>, Span>, n: nat,
                      head: Label, at: nat, node: Node, end: nat)
    requires end <= |text| && Loop(text, square, index, path, before, i, seen, fields, items, spans, n)
    requires Turn(text, square, i, seen, head, at, node, end) && Follows(text, end, ',')
    ensures i < Skip(text, Skip(text, end) + 1)
    ensures Loop(text, square, index, path, before, Skip(text, Skip(text, end) + 1), seen + {KeyOf(head)},
                 fields[KeyOf(head) := Value(node)], items + [Value(node)],
                 spans + Spans(node, at, path + [StepOf(head, square, n)]), n + 1)
  {
    hide Turn, ParseNode, ParseEntries, ParseLabel, SkipGap, Value, Spans, EntrySpans, FieldsOf, ItemsOf, ShowLabel,
      Show, Entry, KeyOf, Progress, StepOf, Skip, Opens, Rest;
    TurnMeasured(text, square, i, seen, head, at, node, end);
    var gap, start := Skip(text, end), FirstEntry(text, index);
    var next := Skip(text, gap + 1);
    var goal := EntriesFrom(text, square, start, {});
    RestStep(text, gap);
    SkipIs(text, gap + 1);
    ProgressContinues(square, goal, before, start, path, Rest(text, i), seen, fields, items, spans, i, n, head, node, text[end..gap], Rest(text, gap),
                      text[gap + 1..next], Rest(text, next));
  }

  lemma LoopBreaks(text: string, square: bool, index: nat, path: seq<Step>, before: map<seq<Step>, Span>,
                   i: nat, seen: set<string>, fields: map<string, Json>, items: seq<Json>, spans: map<seq<Step>, Span>, n: nat,
                   head: Label, at: nat, node: Node, end: nat)
    requires end <= |text| && Loop(text, square, index, path, before, i, seen, fields, items, spans, n)
    requires Turn(text, square, i, seen, head, at, node, end) && !Follows(text, end, Close(square)) && !Follows(text, end, ',')
    ensures Fails(text, index)
  {
    hide Turn, ParseNode, ParseEntries, ParseLabel, SkipGap, Value, Spans, ShowLabel, Show, Entry, KeyOf, Progress, Skip;
    TurnMeasured(text, square, i, seen, head, at, node, end);
    var gap := Skip(text, end);
    EntryDecides(square, Rest(text, i), seen, head, node, text[end..gap], Rest(text, gap));
    if gap < |text| { RestStep(text, gap); }
    LoopFails(text, square, index, path, before, i, seen, fields, items, spans, n);
  }

  // -------------------------------------------------------------------- the reader

  /** `_JsonDocument`. */
  class Reader {
    const text: string
    var spans: map<seq<Step>, Span>

    constructor (text: string)
      ensures this.text == text && spans == map[]
    {
      this.text := text;
      spans := map[];
    }

    /** `whitespace`. */
    method Whitespace(index: nat) returns (i: nat)
      requires index <= |text|
      ensures i == Skip(text, index)
    {
      i := index;
      SkipStep(text, i);
      while i < |text| && IsSpace(text[i])
        invariant index <= i <= |text| && Skip(text, index) == Skip(text, i)
      {
        SkipStep(text, i);
        i := i + 1;
      }
      SkipStep(text, i);
    }

    /** `parse`: the value after the white space at `index`, and where it ends. */
    method Parse(index: nat, path: seq<Step>) returns (r: Outcome)
      requires index <= |text|
      modifies this
      ensures Parsed(text, Skip(text, index), path, old(spans), r, spans)
      decreases |text| - index, 1
    {
      hide ParseNode, ParseEntries, Skip, ScanScalar, Parsed, Value, Spans;
      var i := Whitespace(index);
      if i == |text| {
        NothingParses(text, path, spans);
        return Rejected;
      }
      if text[i] == '{' {
        r := ParseObject(i, path);
      } else if text[i] == '[' {
        r := ParseArray(i, path);
      } else {
        LeafParsed(text, i, path, spans);
        var scalar := ScanScalar(Rest(text, i));
        if scalar.None? {
          return Rejected;
        }
        spans := spans[path := Span(i, i + scalar.value.1)];
        return Found(scalar.value.0, i + scalar.value.1);
      }
    }

    /** The key at `i`, if it is a new one, and the colon after it. */
    method KeyAndColon(i: nat, seen: set<string>) returns (found: bool, name: string, colon: nat)
      requires i <= |text|
      ensures if found then i <= colon < |text| && LabelAt(text, i, seen, name, colon) else NoEntry(text, false, i, seen)
    {
      hide ScanString, Skip, LabelAt, NoEntry, Rest;
      found, name, colon := false, "", 0;
      LabelParses(text, i, seen);
      var key := ScanString(Rest(text, i));
      if key.None? || key.value.0 in seen {
        return;
      }
      var k := key.value.1;
      name := key.value.0;
      colon := Whitespace(i + k);
      found := colon < |text| && text[colon] == ':';
    }

    /** The first half of the loop of `object`: a key, its colon and its value. */
    method Member(i: nat, seen: set<string>, path: seq<Step>, ghost n: nat)
      returns (found: bool, name: string, value: Json, end: nat, ghost head: Label, ghost at: nat, ghost node: Node)
      requires i <= |text|
      modifies this
      ensures !found ==> NoEntry(text, false, i, seen)
      ensures found ==>
        && i < end <= |text|
        && Turn(text, false, i, seen, head, at, node, end)
        && KeyOf(head) == name && name !in seen && Value(node) == value
        && spans == old(spans) + Spans(node, at, path + [StepOf(head, false, n)])
      decreases |text| - i, 2
    {
      hide Value, Spans, KeyOf, Skip, StepOf, Parsed, Turn, NoEntry, LabelAt;
      value, end, head, at, node := Int(0), 0, NoLabel, 0, Leaf("");
      ghost var before := spans;
      var colon;
      found, name, colon := KeyAndColon(i, seen);
      if !found {
        return;
      }
      LabelFresh(text, i, seen, name, colon);
      var outcome := Parse(colon + 1, path + [Name(name)]);
      at := Skip(text, colon + 1);
      head, node := TurnFound(text, i, seen, name, colon, path, before, outcome, spans, n);
      found := outcome.Found?;
      if found {
        TurnAdvances(text, false, i, seen, head, at, node, outcome.end);
        value, end := outcome.value, outcome.end;
      }
    }

    /** `object`. */
    method ParseObject(index: nat, path: seq<Step>) returns (r: Outcome)
      requires index < |text| && text[index] == '{'
      modifies this
      ensures Parsed(text, index, path, old(spans), r, spans)
      decreases |text| - index, 0
    {
      hide Value, Spans, KeyOf, Loop, Skip, StepOf, Parsed, Turn, NoEntry, Fails, Rest, SkipGap, IsSpace, Show, ShowLabel;
      var result: map<string, Json> := map[];
      var i := Whitespace(index + 1);
      LoopStarts(text, false, index, path, spans);
      if i < |text| && text[i] == '}' {
        return Found(Object(result), i + 1);
      }
      ghost var before, items, n: nat, seen: set<string> := spans, [], 0, {};
      while true
        invariant index < i <= |text|
        invariant seen == result.Keys
        invariant Loop(text, false, index, path, before, i, seen, result, items, spans, n)
        decreases |text| - i
      {
        ghost var fields, done := result, spans;
        LoopStops(text, false, index, path, before, i, seen, fields, items, done, n);
        var found, name, value, end, head, at, node := Member(i, result.Keys, path, n);
        if !found {
          FailsParses(text, index, path, before, spans);
          return Rejected;
        }
        KeysGrow(result, name, value);
        result := result[name := value];
        var gap := Whitespace(end);
        if gap < |text| && text[gap] == '}' {
          LoopEnds(text, false, index, path, before, i, seen, fields, items, done, n, head, at, node, end,
                   result, items + [value], spans, gap + 1);
          return Found(Object(result), gap + 1);
        }
        if gap == |text| || text[gap] != ',' {
          LoopBreaks(text, false, index, path, before, i, seen, fields, items, done, n, head, at, node, end);
          FailsParses(text, index, path, before, spans);
          return Rejected;
        }
        LoopContinues(text, false, index, path, before, i, seen, fields, items, done, n, head, at, node, end);
        i := Whitespace(gap + 1);
        n, items, seen := n + 1, items + [value], seen + {name};
      }
    }

    /** `array`. */
    method ParseArray(index: nat, path: seq<Step>) returns (r: Outcome)
      requires index < |text| && text[index] == '['
      modifies this
      ensures Parsed(text, index, path, old(spans), r, spans)
      decreases |text| - index, 0
    {
      hide Value, Spans, KeyOf, Loop, Skip, Parsed, Rest, Turn, NoEntry, Fails, SkipGap, IsSpace, Show, ShowLabel;
      var result: seq<Json> := [];
      var i := Whitespace(index + 1);
      LoopStarts(text, true, index, path, spans);
      if i < |text| && text[i] == ']' {
        return Found(Array(result), i + 1);
      }
      ghost var before, fields, seen: set<string> := spans, map[], {};
      SkippedStays(text, index + 1);
      while true
        invariant index < i <= |text| && Skip(text, i) == i
        invariant Loop(text, true, index, path, before, i, seen, fields, result, spans, |result|)
        decreases |text| - i
      {
        ghost var done, items := spans, result;
        LoopStops(text, true, index, path, before, i, seen, fields, items, done, |items|);
        var value := Parse(i, path + [Item(|result|)]);
        FailsParses(text, index, path, before, spans);
        ghost var node := ItemFound(text, i, seen, path + [Item(|result|)], done, value, spans);
        if value.Rejected? {
          return Rejected;
        }
        result := result + [value.value];
        var gap := Whitespace(value.end);
        if gap < |text| && text[gap] == ']' {
          LoopEnds(text, true, index, path, before, i, seen, fields, items, done, |items|, NoLabel, i, node, value.end,
                   fields[KeyOf(NoLabel) := value.value], result, spans, gap + 1);
          return Found(Array(result), gap + 1);
        }
        if gap == |text| || text[gap] != ',' {
          LoopBreaks(text, true, index, path, before, i, seen, fields, items, done, |items|, NoLabel, i, node, value.end);
          return Rejected;
        }
        LoopContinues(text, true, index, path, before, i, seen, fields, items, done, |items|, NoLabel, i, node, value.end);
        SkippedStays(text, gap + 1);
        i := Whitespace(gap + 1);
        fields, seen := fields[KeyOf(NoLabel) := value.value], seen + {KeyOf(NoLabel)};
      }
    }
  }

  lemma FailsParses(text: string, i: nat, path: seq<Step>, before: map<seq<Step>, Span>, spans: map<seq<Step>, Span>)
    ensures Fails(text, i) ==> Parsed(text, i, path, before, Rejected, spans)
  {
    hide ParseNode, Spans, Value;
  }

  /** The entry whose key was read and whose value `parse` answered. */
  lemma TurnFound(text: string, i: nat, seen: set<string>, name: string, colon: nat, path: seq<Step>, before: map<seq<Step>, Span>,
                  value: Outcome, spans: map<seq<Step>, Span>, n: nat) returns (head: Label, node: Node)
    requires LabelAt(text, i, seen, name, colon) && colon < |text|
    requires Parsed(text, Skip(text, colon + 1), path + [Name(name)], before, value, spans)
    ensures value.Rejected? ==> NoEntry(text, false, i, seen)
    ensures value.Found? ==>
      && value.end <= |text|
      && Turn(text, false, i, seen, head, Skip(text, colon + 1), node, value.end)
      && KeyOf(head) == name && StepOf(head, false, n) == Name(name)
      && Value(node) == value.value
      && spans == before + Spans(node, Skip(text, colon + 1), path + [Name(name)])
  {
    hide ParseNode, Spans, Value, ParseLabel, KeyOf, Skip, Rest;
    head := ParseLabel(false, Rest(text, i), seen).value.0;
    node := if value.Found? then ParseNode(Rest(text, Skip(text, colon + 1))).value.0 else Leaf("");
  }

  lemma KeysGrow(m: map<string, Json>, key: string, v: Json)
    ensures m[key := v].Keys == m.Keys + {key}
  {
  }

  lemma LabelFresh(text: string, i: nat, seen: set<string>, name: string, colon: nat)
    requires LabelAt(text, i, seen, name, colon)
    ensures name !in seen
  {
    hide TakeString, SkipGap, KeyText, Skip;
  }

  lemma TurnAdvances(text: string, square: bool, i: nat, seen: set<string>, head: Label, at: nat, node: Node, end: nat)
    requires Turn(text, square, i, seen, head, at, node, end)
    ensures i < end
  {
    hide ParseNode, ParseLabel;
    RestFurther(text, i, 0); RestFurther(text, at, 0); RestFurther(text, end, 0);
  }

  lemma ItemFound(text: string, i: nat, seen: set<string>, path: seq<Step>, before: map<seq<Step>, Span>,
                  value: Outcome, spans: map<seq<Step>, Span>) returns (node: Node)
    requires Parsed(text, i, path, before, value, spans)
    ensures value.Rejected? ==> NoEntry(text, true, i, seen)
    ensures value.Found? ==>
      && value.end <= |text|
      && Turn(text, true, i, seen, NoLabel, i, node, value.end)
      && Value(node) == value.value && spans == before + Spans(node, i, path)
  {
    hide ParseNode, Spans, Value, Rest;
    node := if value.Found? then ParseNode(Rest(text, i)).value.0 else Leaf("");
  }

  lemma NothingParses(text: string, path: seq<Step>, spans: map<seq<Step>, Span>)
    ensures Parsed(text, |text|, path, spans, Rejected, spans)
  {
  }

  /** What a parsed document means, and the span of each of its scalars. */
  function DocumentValue(d: Document): Json {
    Value(d.node)
  }

  function DocumentSpans(d: Document): map<seq<Step>, Span> {
    Spans(d.node, |d.lead|, [])
  }

  datatype Decoded = Malformed | Decoded(value: Json, spans: map<seq<Step>, Span>)

  /** The answer of `_json_document`, by the grammar. */
  function Decode(text: string): Decoded {
    match Parse(text)
    case None => Malformed
    case Some(d) => Decoded(DocumentValue(d), DocumentSpans(d))
  }

  lemma WholeText(text: string)
    ensures Rest(text, 0) == text
    ensures Skip(text, 0) == |SkipGap(text).0|
    ensures SkipGap(text) == (text[..Skip(text, 0)], Rest(text, Skip(text, 0)))
  {
    hide SkipGap;
    SkipIs(text, 0);
  }

  lemma DecodeByPositions(text: string, r: Outcome, spans: map<seq<Step>, Span>)
    requires Parsed(text, Skip(text, 0), [], map[], r, spans)
    ensures r.Rejected? ==> Decode(text) == Malformed
    ensures r.Found? ==> r.end <= |text|
    ensures r.Found? ==> Decode(text) == if Skip(text, r.end) == |text| then Decoded(r.value, spans) else Malformed
  {
    hide ParseNode, SkipGap, Value, Spans, Skip;
    WholeText(text);
    if r.Found? {
      SkipIs(text, r.end);
      var node := ParseNode(Rest(text, Skip(text, 0))).value.0;
      assert map[] + Spans(node, Skip(text, 0), []) == Spans(node, Skip(text, 0), []);
    }
  }

  /** `_json_document`. */
  method JsonDocument(text: string) returns (r: Decoded)
    ensures r == Decode(text)
  {
    hide Decode, Parsed, Skip;
    var reader := new Reader(text);
    var outcome := reader.Parse(0, []);
    DecodeByPositions(text, outcome, reader.spans);
    if outcome.Rejected? {
      return Malformed;
    }
    var i := reader.Whitespace(outcome.end);
    if i != |text| {
      return Malformed;
    }
    return Decoded(outcome.value, reader.spans);
  }
}
