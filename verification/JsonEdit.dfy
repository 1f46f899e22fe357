/** The minimal JSON editor: it replaces the tokens of selected scalars and nothing else. */
module JsonEdit {
  import opened Wrappers
  import Plans
  import opened JsonLexer
  import opened JsonSyntax
  import opened JsonValues
  import opened JsonDocument

  // ------------------------------------------------------------------ the program

  const NAME: seq<string> := ["name"]
  const ROOT_NAME: seq<string> := ["packages", "", "name"]
  const VERSION: seq<string> := ["version"]
  const ROOT_VERSION: seq<string> := ["packages", "", "version"]

  /** `data.get("name") == package`. */
  predicate Owns(data: Json, package: string) {
    data.Object? && Get(data, NAME) == Some(Str(package))
  }

  /** The lock's own root package belongs to `package`; without a name of its own it takes the lock's. */
  predicate OwnsRoot(data: Json, package: string) {
    var own := Get(data, ["packages", ""]);
    && own.Some? && own.value.Object?
    && (if Get(data, ROOT_NAME).Some? then Get(data, ROOT_NAME) == Some(Str(package)) else Owns(data, package))
  }

  predicate ListsPackages(data: Json) {
    data.Object? && "packages" in data.fields
  }

  predicate Owned(data: Json, format: Plans.Format) {
    match format
    case JsonField(_, package) => package.Some? ==> Owns(data, package.value)
    case NpmLock(name) => Owns(data, name) && (ListsPackages(data) ==> OwnsRoot(data, name))
  }

  function Selects(data: Json, format: Plans.Format): seq<seq<string>> {
    match format
    case JsonField(field, _) => [field]
    case NpmLock(_) => if ListsPackages(data) then [VERSION, ROOT_VERSION] else [VERSION]
  }

  /** The fields a declaration selects, or a refusal. */
  function Fields(data: Json, format: Plans.Format): Option<seq<seq<string>>> {
    if Owned(data, format) then Some(Selects(data, format)) else None
  }

  /** `_scalar`. */
  function Coerce(value: Plans.Value, was: Json): Option<Json> {
    match was
    case Int(_) => if value.Whole? then Some(Int(value.n)) else None
    case Str(_) => Some(Str(Plans.ValueText(value)))
    case _ => None
  }

  datatype Choice = Choice(field: seq<string>, span: Span, was: Json, new': Json)

  function Choose(decoded: Decoded, field: seq<string>, value: Plans.Value): Option<Choice>
    requires decoded.Decoded?
  {
    var was := Get(decoded.value, field);
    if was.None? || Names(field) !in decoded.spans then None
    else match Coerce(value, was.value)
      case None => None
      case Some(new') => Some(Choice(field, decoded.spans[Names(field)], was.value, new'))
  }

  function ChooseAll(decoded: Decoded, fields: seq<seq<string>>, value: Plans.Value): Option<seq<Choice>>
    requires decoded.Decoded?
  {
    if fields == [] then Some([])
    else
      var first, rest := Choose(decoded, fields[0], value), ChooseAll(decoded, fields[1..], value);
      if first.None? || rest.None? then None else Some([first.value] + rest.value)
  }

  function Changed(choices: seq<Choice>): seq<Choice> {
    if choices == [] then []
    else if choices[0].was != choices[0].new' then [choices[0]] + Changed(choices[1..])
    else Changed(choices[1..])
  }

  function Insert(c: Choice, sorted: seq<Choice>): seq<Choice> {
    if sorted == [] || sorted[0].span.start <= c.span.start then [c] + sorted
    else [sorted[0]] + Insert(c, sorted[1..])
  }

  /** `sorted(edits, reverse=True)`. */
  function SortDown(choices: seq<Choice>): seq<Choice> {
    if choices == [] then [] else Insert(choices[0], SortDown(choices[1..]))
  }

  function Upto(s: string, n: nat): string {
    if n <= |s| then s[..n] else s
  }

  function From(s: string, n: nat): string {
    if n <= |s| then s[n..] else ""
  }

  /** `text[:start] + replacement + text[end:]`, with Python's slices. */
  function Cut(text: string, c: Choice): string
    requires c.new'.Str? || c.new'.Int?
  {
    Upto(text, c.span.start) + Dumps(c.new') + From(text, c.span.end)
  }

  predicate AllPrintable(choices: seq<Choice>) {
    forall i :: 0 <= i < |choices| ==> choices[i].new'.Str? || choices[i].new'.Int?
  }

  function CutAll(text: string, choices: seq<Choice>): string
    requires AllPrintable(choices)
    decreases |choices|
  {
    if choices == [] then text else CutAll(Cut(text, choices[0]), choices[1..])
  }

  function Olds(choices: seq<Choice>): seq<Json> {
    if choices == [] then [] else [choices[0].was] + Olds(choices[1..])
  }

  lemma {:induction false} ChosenArePrintable(decoded: Decoded, fields: seq<seq<string>>, value: Plans.Value)
    requires decoded.Decoded? && ChooseAll(decoded, fields, value).Some?
    ensures AllPrintable(ChooseAll(decoded, fields, value).value)
  {
    if fields != [] { ChosenArePrintable(decoded, fields[1..], value); }
  }

  lemma {:induction false} ChangedArePrintable(choices: seq<Choice>)
    requires AllPrintable(choices)
    ensures AllPrintable(Changed(choices)) && AllPrintable(SortDown(choices))
  {
    if choices != [] {
      ChangedArePrintable(choices[1..]);
      InsertedArePrintable(choices[0], SortDown(choices[1..]));
    }
  }

  lemma {:induction false} InsertedArePrintable(c: Choice, sorted: seq<Choice>)
    requires (c.new'.Str? || c.new'.Int?) && AllPrintable(sorted)
    ensures AllPrintable(Insert(c, sorted))
  {
    if sorted != [] { InsertedArePrintable(c, sorted[1..]); }
  }

  datatype Edited = Refused | Edited(text: string, previous: seq<Json>)

  /** The choices `_json_edit` collects, or its refusal. */
  function Selected(text: string, format: Plans.Format, value: Plans.Value): Option<seq<Choice>> {
    var decoded := Decode(text);
    if decoded.Malformed? then None
    else
      match Fields(decoded.value, format)
      case None => None
      case Some(fields) => ChooseAll(decoded, fields, value)
  }

  lemma SelectedArePrintable(text: string, format: Plans.Format, value: Plans.Value)
    requires Selected(text, format, value).Some?
    ensures AllPrintable(SortDown(Changed(Selected(text, format, value).value)))
  {
    var decoded := Decode(text);
    ChosenArePrintable(decoded, Fields(decoded.value, format).value, value);
    ChangedArePrintable(Selected(text, format, value).value);
    ChangedArePrintable(Changed(Selected(text, format, value).value));
  }

  /** `_json_edit`. */
  function Edit(text: string, format: Plans.Format, value: Plans.Value): Edited {
    match Selected(text, format, value)
    case None => Refused
    case Some(choices) =>
      SelectedArePrintable(text, format, value);
      Edited(CutAll(text, SortDown(Changed(choices))), Olds(choices))
  }

  // ---------------------------------------------------------- what an edit achieves

  function ReplaceOne(d: Document, c: Choice): Document
    requires c.new'.Str? || c.new'.Int?
  {
    d.(node := Replace(d.node, c.field, Dumps(c.new')))
  }

  function ReplaceAll(d: Document, choices: seq<Choice>): Document
    requires AllPrintable(choices)
    decreases |choices|
  {
    if choices == [] then d else ReplaceAll(ReplaceOne(d, choices[0]), choices[1..])
  }

  /** The value with all the chosen fields replaced, one after the other. */
  function PutAll(v: Json, choices: seq<Choice>): Json
    decreases |choices|
  {
    if choices == [] then v else PutAll(Put(v, choices[0].field, choices[0].new'), choices[1..])
  }

  ghost predicate Located(d: Document, c: Choice) {
    && Locate(d.node, |d.lead|, c.field) == Some(c.span)
    && (c.new'.Str? || c.new'.Int?)
  }

  /** Choices that name distinct fields of `d`, later in the text first. */
  ghost predicate Descending(d: Document, choices: seq<Choice>) {
    && AllPrintable(choices)
    && (forall i :: 0 <= i < |choices| ==> Located(d, choices[i]))
    && (forall i, j :: 0 <= i < j < |choices| ==>
          choices[i].field != choices[j].field && choices[j].span.start < choices[i].span.start)
  }

  lemma ReplaceOneCuts(d: Document, c: Choice)
    requires DocumentOk(d) && Located(d, c)
    ensures c.span.start < c.span.end <= |ShowDocument(d)|
    ensures ShowDocument(ReplaceOne(d, c)) == Cut(ShowDocument(d), c)
    ensures DocumentOk(ReplaceOne(d, c))
    ensures Get(DocumentValue(d), c.field).Some? && IsScalar(Get(DocumentValue(d), c.field).value)
    ensures DocumentValue(ReplaceOne(d, c)) == Put(DocumentValue(d), c.field, c.new')
  {
    hide Locate, Replace, Show, WellFormed, Value, Dumps, ScanScalar, Get, Put, IsGap;
    var token := Dumps(c.new');
    DumpsRoundTrip(c.new');
    assert IsScalarToken(token) && ValueOf(token) == c.new';
    ReplaceSplices(d.node, |d.lead|, c.field, token);
    SpliceInside(d.lead, Show(d.node), d.trail, c.span, token);
    ReplaceWellFormed(d.node, c.field, token);
    ReplacePuts(d.node, |d.lead|, c.field, token);
  }

  lemma ReplaceOneKeeps(d: Document, c: Choice, other: Choice)
    requires DocumentOk(d) && Located(d, c) && Located(d, other)
    requires c.field != other.field && other.span.start < c.span.start
    ensures other.span.end <= c.span.start && Located(ReplaceOne(d, c), other)
  {
    hide Locate, Replace, WellFormed, Dumps, IsGap;
    ReplaceKeepsEarlier(d.node, |d.lead|, c.field, Dumps(c.new'), other.field);
  }

  lemma DescendingTail(d: Document, choices: seq<Choice>)
    requires DocumentOk(d) && Descending(d, choices) && choices != []
    ensures Descending(ReplaceOne(d, choices[0]), choices[1..])
  {
    hide Located, DocumentOk, ReplaceOne;
    var d', rest := ReplaceOne(d, choices[0]), choices[1..];
    forall i | 0 <= i < |rest| ensures Located(d', rest[i]) {
      ReplaceOneKeeps(d, choices[0], choices[i + 1]);
    }
  }

  /** Cutting right to left shows the tree with all the chosen tokens replaced. */
  lemma {:induction false} CutAllReplaces(d: Document, choices: seq<Choice>)
    requires DocumentOk(d) && Descending(d, choices)
    ensures CutAll(ShowDocument(d), choices) == ShowDocument(ReplaceAll(d, choices))
    ensures DocumentOk(ReplaceAll(d, choices))
    ensures DocumentValue(ReplaceAll(d, choices)) == PutAll(DocumentValue(d), choices)
    decreases |choices|
  {
    hide DocumentOk, ReplaceOne, ShowDocument, DocumentValue, Located, Put, Cut;
    if choices != [] {
      assert Located(d, choices[0]);
      ReplaceOneCuts(d, choices[0]);
      DescendingTail(d, choices);
      CutAllReplaces(ReplaceOne(d, choices[0]), choices[1..]);
    }
  }

  /** All replacements at once, each on the original text: what stands up to `upto` after them. */
  function AtOnce(text: string, upto: nat, choices: seq<Choice>): string
    requires AllPrintable(choices)
    decreases |choices|
  {
    if choices == [] then Upto(text, upto)
    else
      var c := choices[0];
      AtOnce(text, c.span.start, choices[1..]) + Dumps(c.new') + From(Upto(text, upto), c.span.end)
  }

  lemma CutInside(text: string, upto: nat, after: string, c: Choice)
    requires c.new'.Str? || c.new'.Int?
    requires c.span.start <= c.span.end <= upto <= |text|
    ensures Cut(text[..upto] + after, c) == text[..c.span.start] + (Dumps(c.new') + (text[c.span.end..upto] + after))
  {
    hide Dumps;
    assert (text[..upto] + after)[..c.span.start] == text[..c.span.start];
    assert (text[..upto] + after)[c.span.end..] == text[c.span.end..upto] + after;
  }

  lemma AtOnceUnfolds(text: string, upto: nat, after: string, choices: seq<Choice>)
    requires AllPrintable(choices) && choices != [] && choices[0].span.end <= upto <= |text|
    ensures var c := choices[0];
      AtOnce(text, upto, choices) + after
        == AtOnce(text, c.span.start, choices[1..]) + (Dumps(c.new') + (text[c.span.end..upto] + after))
  {
    hide Dumps;
    var c := choices[0];
    assert text[..upto][c.span.end..] == text[c.span.end..upto];
  }

  lemma {:induction false} CutAllIsAtOnce(d: Document, choices: seq<Choice>, upto: nat, after: string)
    requires DocumentOk(d) && Descending(d, choices)
    requires upto <= |ShowDocument(d)| && (choices != [] ==> choices[0].span.end <= upto)
    ensures CutAll(ShowDocument(d)[..upto] + after, choices) == AtOnce(ShowDocument(d), upto, choices) + after
    decreases |choices|
  {
    hide DocumentOk, ShowDocument, Dumps, Located, Cut;
    var text := ShowDocument(d);
    if choices != [] {
      hide AtOnce;
      var c, rest := choices[0], choices[1..];
      assert Located(d, c);
      ReplaceOneCuts(d, c);
      CutInside(text, upto, after, c);
      if |choices| > 1 {
        assert Located(d, choices[1]);
        ReplaceOneKeeps(d, c, choices[1]);
      }
      assert Descending(d, rest);
      CutAllIsAtOnce(d, rest, c.span.start, Dumps(c.new') + (text[c.span.end..upto] + after));
      AtOnceUnfolds(text, upto, after, choices);
    }
  }

  // ------------------------------------------------------------ order and skipping

  /** The chosen fields are distinct scalars of `v` with the recorded values. */
  ghost predicate Holds(v: Json, choices: seq<Choice>) {
    && (forall i :: 0 <= i < |choices| ==>
          && Get(v, choices[i].field) == Some(choices[i].was)
          && IsScalar(choices[i].was) && IsScalar(choices[i].new'))
    && (forall i, j :: 0 <= i < j < |choices| ==> choices[i].field != choices[j].field)
  }

  lemma HoldsAfterPut(v: Json, c: Choice, choices: seq<Choice>)
    requires Holds(v, [c] + choices)
    ensures Holds(Put(v, c.field, c.new'), choices)
  {
    hide Put;
    var all := [c] + choices;
    assert all[0] == c;
    forall i | 0 <= i < |choices|
      ensures Get(Put(v, c.field, c.new'), choices[i].field) == Some(choices[i].was)
      ensures IsScalar(choices[i].was) && IsScalar(choices[i].new')
    {
      assert all[i + 1] == choices[i];
      GetPutOther(v, c.field, c.new', choices[i].field);
    }
    forall i, j | 0 <= i < j < |choices| ensures choices[i].field != choices[j].field {
      assert all[i + 1] == choices[i] && all[j + 1] == choices[j];
    }
  }

  lemma {:induction false} PutInsert(v: Json, c: Choice, sorted: seq<Choice>)
    requires Holds(v, [c] + sorted)
    ensures PutAll(v, Insert(c, sorted)) == PutAll(v, [c] + sorted)
    decreases |sorted|
  {
    hide Put, IsScalar;
    if sorted != [] && !(sorted[0].span.start <= c.span.start) {
      var s0, rest := sorted[0], sorted[1..];
      var all := [c] + sorted;
      assert all[0] == c && all[1] == s0;
      assert sorted == [s0] + rest;
      Swapped(v, c, s0, rest);
      HoldsAfterPut(v, s0, [c] + rest);
      var v' := Put(v, s0.field, s0.new');
      PutInsert(v', c, rest);
      PutPutCommute(v, s0.field, s0.new', c.field, c.new');
      assert ([c] + rest)[1..] == rest && Insert(c, sorted)[1..] == Insert(c, rest);
      assert all[1..] == sorted;
    }
  }

  lemma Swapped(v: Json, c: Choice, s: Choice, rest: seq<Choice>)
    requires Holds(v, [c] + ([s] + rest))
    ensures Holds(v, [s] + ([c] + rest))
  {
    hide Get, IsScalar;
    var all, swapped := [c] + ([s] + rest), [s] + ([c] + rest);
    assert forall i :: 0 <= i < |all| ==> swapped[i] == all[if i == 0 then 1 else if i == 1 then 0 else i];
  }

  lemma {:induction false} InsertMembers(c: Choice, sorted: seq<Choice>)
    ensures |Insert(c, sorted)| == |sorted| + 1
    ensures forall x :: x in Insert(c, sorted) <==> x == c || x in sorted
    decreases |sorted|
  {
    if sorted != [] && !(sorted[0].span.start <= c.span.start) {
      InsertMembers(c, sorted[1..]);
      assert sorted == [sorted[0]] + sorted[1..];
    }
  }

  lemma {:induction false} SortMembers(choices: seq<Choice>)
    ensures |SortDown(choices)| == |choices|
    ensures forall x :: x in SortDown(choices) <==> x in choices
  {
    if choices != [] {
      SortMembers(choices[1..]);
      InsertMembers(choices[0], SortDown(choices[1..]));
      assert choices == [choices[0]] + choices[1..];
    }
  }

  lemma {:induction false} SortDistinct(choices: seq<Choice>)
    requires forall i, j :: 0 <= i < j < |choices| ==> choices[i].field != choices[j].field
    ensures forall i, j :: 0 <= i < j < |SortDown(choices)| ==> SortDown(choices)[i].field != SortDown(choices)[j].field
  {
    if choices != [] {
      SortDistinct(choices[1..]);
      SortMembers(choices[1..]);
      InsertDistinct(choices[0], SortDown(choices[1..]));
    }
  }

  lemma {:induction false} InsertDistinct(c: Choice, sorted: seq<Choice>)
    requires forall i, j :: 0 <= i < j < |sorted| ==> sorted[i].field != sorted[j].field
    requires forall x :: x in sorted ==> x.field != c.field
    ensures forall i, j :: 0 <= i < j < |Insert(c, sorted)| ==> Insert(c, sorted)[i].field != Insert(c, sorted)[j].field
    decreases |sorted|
  {
    if sorted != [] && !(sorted[0].span.start <= c.span.start) {
      var rest := sorted[1..];
      InsertDistinct(c, rest);
      InsertMembers(c, rest);
      var t := Insert(c, sorted);
      assert t[1..] == Insert(c, rest);
      forall i, j | 0 <= i < j < |t| ensures t[i].field != t[j].field {
        assert t[j] == Insert(c, rest)[j - 1] && t[j] in Insert(c, rest);
        if i > 0 { assert t[i] == Insert(c, rest)[i - 1]; }
      }
    }
  }

  /** Sorting does not change what the replacements amount to. */
  lemma {:induction false} PutSorted(v: Json, choices: seq<Choice>)
    requires Holds(v, choices)
    ensures PutAll(v, SortDown(choices)) == PutAll(v, choices)
    decreases |choices|
  {
    hide Put, Get, IsScalar;
    if choices != [] {
      var c, rest := choices[0], choices[1..];
      assert choices == [c] + rest;
      var sorted := SortDown(rest);
      SortMembers(rest);
      SortDistinct(choices);
      SortDistinct(rest);
      assert Holds(v, [c] + sorted) by {
        forall i | 0 <= i < |[c] + sorted|
          ensures Get(v, ([c] + sorted)[i].field) == Some(([c] + sorted)[i].was)
          ensures IsScalar(([c] + sorted)[i].was) && IsScalar(([c] + sorted)[i].new')
          ensures i > 0 ==> ([c] + sorted)[i].field != c.field
        {
          if i > 0 { assert ([c] + sorted)[i] in rest; }
        }
      }
      PutInsert(v, c, sorted);
      HoldsAfterPut(v, c, rest);
      PutSorted(Put(v, c.field, c.new'), rest);
      assert ([c] + sorted)[1..] == sorted;
    }
  }

  lemma {:induction false} PutSame(v: Json, field: seq<string>)
    requires Get(v, field).Some?
    ensures Put(v, field, Get(v, field).value) == v
  {
    if field != [] {
      PutSame(v.fields[field[0]], field[1..]);
      assert v.fields[field[0] := v.fields[field[0]]] == v.fields;
    }
  }

  lemma {:induction false} ChangedMembers(choices: seq<Choice>)
    ensures forall x :: x in Changed(choices) ==> x in choices
    ensures (forall i, j :: 0 <= i < j < |choices| ==> choices[i].field != choices[j].field) ==>
      forall i, j :: 0 <= i < j < |Changed(choices)| ==> Changed(choices)[i].field != Changed(choices)[j].field
  {
    if choices != [] {
      ChangedMembers(choices[1..]);
      assert choices == [choices[0]] + choices[1..];
      if choices[0].was != choices[0].new' {
        assert Changed(choices)[1..] == Changed(choices[1..]);
        if forall i, j :: 0 <= i < j < |choices| ==> choices[i].field != choices[j].field {
          forall i, j | 0 <= i < j < |Changed(choices)| ensures Changed(choices)[i].field != Changed(choices)[j].field {
            assert Changed(choices)[j] == Changed(choices[1..])[j - 1];
            if i == 0 { assert Changed(choices)[j] in choices[1..]; }
          }
        }
      }
    }
  }

  /** Skipping the fields that already read right does not matter either. */
  lemma {:induction false} PutChanged(v: Json, choices: seq<Choice>)
    requires Holds(v, choices)
    ensures PutAll(v, Changed(choices)) == PutAll(v, choices)
    decreases |choices|
  {
    hide Put, IsScalar;
    if choices != [] {
      var c, rest := choices[0], choices[1..];
      assert choices == [c] + rest;
      HoldsAfterPut(v, c, rest);
      if c.was == c.new' {
        PutSame(v, c.field);
        PutChanged(v, rest);
      } else {
        PutChanged(Put(v, c.field, c.new'), rest);
        assert Changed(choices)[1..] == Changed(rest);
      }
    }
  }

  lemma HoldsSubset(v: Json, choices: seq<Choice>, some: seq<Choice>)
    requires Holds(v, choices) && (forall x :: x in some ==> x in choices)
    requires forall i, j :: 0 <= i < j < |some| ==> some[i].field != some[j].field
    ensures Holds(v, some)
  {
    hide Get, IsScalar;
    forall i | 0 <= i < |some|
      ensures Get(v, some[i].field) == Some(some[i].was) && IsScalar(some[i].was) && IsScalar(some[i].new')
    {
      assert some[i] in choices;
    }
  }

  /** Every chosen field reads its new value in the end, and other scalars read what they did. */
  lemma {:induction false} PutAllReads(v: Json, choices: seq<Choice>, other: seq<string>)
    requires Holds(v, choices)
    ensures forall i :: 0 <= i < |choices| ==> Get(PutAll(v, choices), choices[i].field) == Some(choices[i].new')
    ensures Get(v, other).Some? && IsScalar(Get(v, other).value) && (forall i :: 0 <= i < |choices| ==> choices[i].field != other) ==>
      Get(PutAll(v, choices), other) == Get(v, other)
    decreases |choices|
  {
    hide Put, Get, IsScalar;
    if choices != [] {
      var c, rest := choices[0], choices[1..];
      assert choices == [c] + rest;
      HoldsAfterPut(v, c, rest);
      var v' := Put(v, c.field, c.new');
      PutAllReads(v', rest, c.field);
      GetPut(v, c.field, c.new');
      PutAllReads(v', rest, other);
      if Get(v, other).Some? && IsScalar(Get(v, other).value) && (forall i :: 0 <= i < |choices| ==> choices[i].field != other) {
        GetPutOther(v, c.field, c.new', other);
      }
      forall i | 0 <= i < |choices| ensures Get(PutAll(v, choices), choices[i].field) == Some(choices[i].new') {
        if i > 0 { assert choices[i] == rest[i - 1]; }
      }
    }
  }

  // ------------------------------------------------------------------ the theorem

  lemma {:induction false} FieldsAreChosen(decoded: Decoded, fields: seq<seq<string>>, value: Plans.Value)
    requires decoded.Decoded? && ChooseAll(decoded, fields, value).Some?
    ensures var choices := ChooseAll(decoded, fields, value).value;
      && |choices| == |fields|
      && forall i :: 0 <= i < |fields| ==> Choose(decoded, fields[i], value) == Some(choices[i])
  {
    hide Choose;
    if fields != [] { FieldsAreChosen(decoded, fields[1..], value); }
  }

  lemma {:induction false} AllAreChosen(decoded: Decoded, fields: seq<seq<string>>, value: Plans.Value)
    requires decoded.Decoded? && forall i :: 0 <= i < |fields| ==> Choose(decoded, fields[i], value).Some?
    ensures ChooseAll(decoded, fields, value).Some?
  {
    hide Choose;
    if fields != [] { AllAreChosen(decoded, fields[1..], value); }
  }

  lemma FieldsDiffer(data: Json, format: Plans.Format)
    requires Fields(data, format).Some?
    ensures var fields := Fields(data, format).value;
      forall i, j :: 0 <= i < j < |fields| ==> fields[i] != fields[j]
  {
    assert |VERSION| != |ROOT_VERSION|;
  }

  /** One field can be chosen exactly when it reads as a scalar that can take the value. */
  lemma ChosenAreLocated(d: Document, field: seq<string>, value: Plans.Value)
    requires DocumentOk(d)
    ensures var was := Get(DocumentValue(d), field);
      Choose(Decoded(DocumentValue(d), DocumentSpans(d)), field, value).Some? <==> was.Some? && Coerce(value, was.value).Some?
    ensures var choice := Choose(Decoded(DocumentValue(d), DocumentSpans(d)), field, value);
      choice.Some? ==> Located(d, choice.value) && choice.value.field == field && Taken(DocumentValue(d), choice.value, value)
  {
    hide Locate, WellFormed, Value, Get, Spans;
    SpansLocate(d.node, |d.lead|, [], field);
    assert [] + Names(field) == Names(field);
    var was := Get(Value(d.node), field);
    if was.Some? && IsScalar(was.value) {
      ScalarsAreLocated(d.node, |d.lead|, field);
    }
  }

  /** A choice records what its field read and what the value makes of it. */
  ghost predicate Taken(data: Json, c: Choice, value: Plans.Value) {
    Get(data, c.field) == Some(c.was) && Coerce(value, c.was) == Some(c.new')
  }

  ghost predicate Falling(sorted: seq<Choice>) {
    forall i, j :: 0 <= i < j < |sorted| ==> sorted[j].span.start <= sorted[i].span.start
  }

  lemma {:induction false} InsertOrders(c: Choice, sorted: seq<Choice>)
    requires Falling(sorted)
    ensures Falling(Insert(c, sorted))
    decreases |sorted|
  {
    if sorted != [] && !(sorted[0].span.start <= c.span.start) {
      var rest := Insert(c, sorted[1..]);
      InsertOrders(c, sorted[1..]);
      InsertMembers(c, sorted[1..]);
      forall j | 0 <= j < |rest| ensures rest[j].span.start <= sorted[0].span.start {
        assert rest[j] in rest;
      }
    }
  }

  lemma {:induction false} SortOrders(choices: seq<Choice>)
    ensures Falling(SortDown(choices))
  {
    if choices != [] {
      SortOrders(choices[1..]);
      InsertOrders(choices[0], SortDown(choices[1..]));
    }
  }

  /** Distinct scalars stand apart, so sorting by position is strict. */
  lemma SortedDescend(d: Document, choices: seq<Choice>)
    requires DocumentOk(d) && (forall x :: x in choices ==> Located(d, x))
    requires forall i, j :: 0 <= i < j < |choices| ==> choices[i].field != choices[j].field
    ensures Descending(d, SortDown(choices))
  {
    hide DocumentOk, SortDown;
    var t := SortDown(choices);
    SortMembers(choices);
    SortDistinct(choices);
    SortOrders(choices);
    forall i | 0 <= i < |t| ensures Located(d, t[i]) {
      assert t[i] in choices;
    }
    forall i, j | 0 <= i < j < |t| ensures t[j].span.start < t[i].span.start {
      StartsDiffer(d, t[i], t[j]);
    }
  }

  lemma StartsDiffer(d: Document, c: Choice, other: Choice)
    requires DocumentOk(d) && Located(d, c) && Located(d, other) && c.field != other.field
    ensures c.span.start != other.span.start
  {
    hide Locate, WellFormed, Dumps, Show, Replace;
    ReplaceKeepsEarlier(d.node, |d.lead|, c.field, Dumps(c.new'), other.field);
    ReplaceSplices(d.node, |d.lead|, c.field, Dumps(c.new'));
  }

  lemma {:induction false} OldsAre(choices: seq<Choice>)
    ensures |Olds(choices)| == |choices| && forall i :: 0 <= i < |choices| ==> Olds(choices)[i] == choices[i].was
  {
    if choices != [] { OldsAre(choices[1..]); }
  }

  /** What `_json_edit` selects in a document, in terms of its tree. */
  lemma SelectedAre(text: string, format: Plans.Format, value: Plans.Value, d: Document, choices: seq<Choice>)
    requires Parse(text) == Some(d) && Selected(text, format, value) == Some(choices)
    ensures DocumentOk(d) && ShowDocument(d) == text
    ensures Fields(DocumentValue(d), format).Some? && |choices| == |Fields(DocumentValue(d), format).value|
    ensures forall i :: 0 <= i < |choices| ==> choices[i].field == Fields(DocumentValue(d), format).value[i]
    ensures forall x :: x in choices ==> Located(d, x) && Taken(DocumentValue(d), x, value)
    ensures Holds(DocumentValue(d), choices)
  {
    hide DocumentOk, ShowDocument, DocumentValue, DocumentSpans, Located, Fields, Choose, Parse;
    ParseIsGrammar(text, d);
    var decoded := Decoded(DocumentValue(d), DocumentSpans(d));
    var fields := Fields(decoded.value, format).value;
    FieldsAreChosen(decoded, fields, value);
    FieldsDiffer(decoded.value, format);
    forall i | 0 <= i < |choices|
      ensures Located(d, choices[i]) && Taken(DocumentValue(d), choices[i], value) && choices[i].field == fields[i]
    {
      ChosenAreLocated(d, fields[i], value);
    }
  }

  /** `previous` reads the fields before the edit. */
  ghost predicate Previous(data: Json, fields: seq<seq<string>>, previous: seq<Json>) {
    && |previous| == |fields|
    && forall i :: 0 <= i < |fields| ==> Get(data, fields[i]) == Some(previous[i])
  }

  /** The selected fields of `data` take the value and read what it makes of `previous`; other scalars read as before. */
  ghost predicate Updated(data: Json, data': Json, fields: seq<seq<string>>, previous: seq<Json>, value: Plans.Value) {
    && |previous| == |fields|
    && (forall i :: 0 <= i < |fields| ==>
          Coerce(value, previous[i]).Some? && Get(data', fields[i]) == Coerce(value, previous[i]))
    && forall other :: other !in fields && Get(data, other).Some? && IsScalar(Get(data, other).value) ==>
      Get(data', other) == Get(data, other)
  }

  lemma CutAllWhole(d: Document, choices: seq<Choice>)
    requires DocumentOk(d) && Descending(d, choices)
    ensures CutAll(ShowDocument(d), choices) == AtOnce(ShowDocument(d), |ShowDocument(d)|, choices)
  {
    hide DocumentOk, ShowDocument, Located, AtOnce, CutAll;
    var text := ShowDocument(d);
    if choices != [] {
      assert Located(d, choices[0]);
      ReplaceOneCuts(d, choices[0]);
    }
    CutAllIsAtOnce(d, choices, |text|, "");
    assert text[..|text|] + "" == text;
    assert AtOnce(text, |text|, choices) + "" == AtOnce(text, |text|, choices);
  }

  /** The spliced text shows the tree in which every choice is carried out. */
  lemma EditParses(text: string, d: Document, choices: seq<Choice>)
    requires DocumentOk(d) && ShowDocument(d) == text && Holds(DocumentValue(d), choices)
    requires forall x :: x in choices ==> Located(d, x)
    ensures AllPrintable(SortDown(Changed(choices)))
    ensures CutAll(text, SortDown(Changed(choices))) == AtOnce(text, |text|, SortDown(Changed(choices)))
    ensures Decode(CutAll(text, SortDown(Changed(choices)))).Decoded?
    ensures Decode(CutAll(text, SortDown(Changed(choices)))).value == PutAll(DocumentValue(d), choices)
  {
    hide Parse, DocumentOk, ShowDocument, DocumentValue, DocumentSpans, Located, Get, Put, IsScalar, CutAll, AtOnce,
      SortDown, Changed, PutAll, ReplaceAll;
    var data, some := DocumentValue(d), Changed(choices);
    var sorted := SortDown(some);
    ChangedMembers(choices);
    SortedDescend(d, some);
    CutAllReplaces(d, sorted);
    CutAllWhole(d, sorted);
    HoldsSubset(data, choices, some);
    PutSorted(data, some);
    PutChanged(data, choices);
    var d' := ReplaceAll(d, sorted);
    ParseIsGrammar(ShowDocument(d'), d');
  }

  lemma PutAllUpdates(data: Json, fields: seq<seq<string>>, choices: seq<Choice>, value: Plans.Value)
    requires Holds(data, choices) && |choices| == |fields|
    requires forall i :: 0 <= i < |choices| ==> choices[i].field == fields[i]
    requires forall x :: x in choices ==> Taken(data, x, value)
    ensures Previous(data, fields, Olds(choices)) && Updated(data, PutAll(data, choices), fields, Olds(choices), value)
  {
    hide Get, Put, IsScalar, Coerce, PutAll, Olds;
    OldsAre(choices);
    PutAllReads(data, choices, []);
    forall i | 0 <= i < |fields|
      ensures Get(data, fields[i]) == Some(choices[i].was) && Coerce(value, choices[i].was) == Some(choices[i].new')
    {
      assert choices[i] in choices;
    }
    forall other | other !in fields && Get(data, other).Some? && IsScalar(Get(data, other).value)
      ensures Get(PutAll(data, choices), other) == Get(data, other)
    {
      PutAllReads(data, choices, other);
    }
  }

  /** The edited text parses again, to the same value with exactly the selected fields replaced. */
  lemma {:induction false} EditIsExact(text: string, format: Plans.Format, value: Plans.Value)
    requires Edit(text, format, value).Edited?
    ensures var e, choices := Edit(text, format, value), Selected(text, format, value).value;
      && AllPrintable(SortDown(Changed(choices)))
      && e.text == AtOnce(text, |text|, SortDown(Changed(choices)))
      && Decode(text).Decoded? && Decode(e.text).Decoded?
      && Decode(e.text).value == PutAll(Decode(text).value, choices)
      && Fields(Decode(text).value, format).Some?
      && Previous(Decode(text).value, Fields(Decode(text).value, format).value, e.previous)
      && Updated(Decode(text).value, Decode(e.text).value, Fields(Decode(text).value, format).value, e.previous, value)
  {
    hide Parse, DocumentOk, ShowDocument, DocumentValue, DocumentSpans, Located, Fields, Holds, Taken, Updated, Previous,
      Olds, AllPrintable, ChooseAll, CutAll, AtOnce, SortDown, Changed, PutAll;
    var d, choices := Parse(text).value, Selected(text, format, value).value;
    var data := DocumentValue(d);
    SelectedAre(text, format, value, d, choices);
    EditParses(text, d, choices);
    PutAllUpdates(data, Fields(data, format).value, choices, value);
  }

  /** The value can be put into every selected field. */
  ghost predicate Takes(data: Json, fields: seq<seq<string>>, value: Plans.Value) {
    forall i :: 0 <= i < |fields| ==> Get(data, fields[i]).Some? && Coerce(value, Get(data, fields[i]).value).Some?
  }

  /** Every selected field already reads what the value makes of it. */
  ghost predicate Reads(data: Json, fields: seq<seq<string>>, value: Plans.Value) {
    forall i :: 0 <= i < |fields| ==>
      Get(data, fields[i]).Some? && Coerce(value, Get(data, fields[i]).value) == Some(Get(data, fields[i]).value)
  }

  /** An edit is refused only for a malformed text, a foreign owner, or a field that cannot take the value. */
  lemma EditIsRefused(text: string, format: Plans.Format, value: Plans.Value)
    ensures Edit(text, format, value).Edited? <==>
      (&& Decode(text).Decoded? && Fields(Decode(text).value, format).Some?
       && Takes(Decode(text).value, Fields(Decode(text).value, format).value, value))
  {
    hide Parse, DocumentOk, DocumentValue, DocumentSpans, ShowDocument, Choose, Located, Fields, Get, Coerce, CutAll, Olds;
    if Parse(text).Some? {
      var d := Parse(text).value;
      ParseIsGrammar(text, d);
      var decoded := Decode(text);
      if Fields(decoded.value, format).Some? {
        var fields := Fields(decoded.value, format).value;
        forall i | 0 <= i < |fields|
          ensures Choose(decoded, fields[i], value).Some? <==>
            Get(decoded.value, fields[i]).Some? && Coerce(value, Get(decoded.value, fields[i]).value).Some?
        {
          ChosenAreLocated(d, fields[i], value);
        }
        if Takes(decoded.value, fields, value) {
          AllAreChosen(decoded, fields, value);
        }
        if ChooseAll(decoded, fields, value).Some? {
          FieldsAreChosen(decoded, fields, value);
        }
      }
    }
  }

  lemma {:induction false} NothingChanged(choices: seq<Choice>)
    ensures Changed(choices) == [] <==> forall i :: 0 <= i < |choices| ==> choices[i].was == choices[i].new'
  {
    if choices != [] {
      NothingChanged(choices[1..]);
      assert choices == [choices[0]] + choices[1..];
    }
  }

  /** An edit leaves the text alone exactly when its fields already read right. */
  lemma {:induction false} EditSettles(text: string, format: Plans.Format, value: Plans.Value)
    requires Edit(text, format, value).Edited?
    ensures Edit(text, format, value).text == text <==>
      Reads(Decode(text).value, Fields(Decode(text).value, format).value, value)
  {
    hide Decode, Located, Fields, Get, IsScalar, Coerce, Olds, ChooseAll;
    EditIsExact(text, format, value);
    var data := Decode(text).value;
    var fields := Fields(data, format).value;
    var choices := Selected(text, format, value).value;
    FieldsAreChosen(Decode(text), fields, value);
    OldsAre(choices);
    NothingChanged(choices);
    if Reads(data, fields, value) {
      forall i | 0 <= i < |choices| ensures choices[i].was == choices[i].new' {
        assert Choose(Decode(text), fields[i], value) == Some(choices[i]);
      }
    }
  }

  /** An edited manifest with a declared package belongs to it. */
  lemma {:induction false} EditedManifestIsOwned(text: string, field: seq<string>, package: Option<string>, value: Plans.Value)
    requires Edit(text, Plans.JsonField(field, package), value).Edited?
    ensures var e := Edit(text, Plans.JsonField(field, package), value);
      && Decode(text).Decoded? && Decode(e.text).Decoded?
      && (package.Some? ==> Get(Decode(text).value, ["name"]) == Some(Str(package.value)))
      && |e.previous| == 1 && Get(Decode(text).value, field) == Some(e.previous[0])
      && Get(Decode(e.text).value, field) == Coerce(value, e.previous[0])
  {
    hide Decode, Get, Coerce, PutAll, AtOnce, Selected, IsScalar;
    EditIsExact(text, Plans.JsonField(field, package), value);
  }

  /** An edited lock belongs to its package, and so does the root package it lists; its version, and the root
  package's, then read the value. */
  lemma {:induction false} EditedLockIsOwned(text: string, name: string, value: Plans.Value)
    requires Edit(text, Plans.NpmLock(name), value).Edited?
    ensures Decode(text).Decoded? && Decode(Edit(text, Plans.NpmLock(name), value).text).Decoded?
    ensures var data, data' := Decode(text).value, Decode(Edit(text, Plans.NpmLock(name), value).text).value;
      && Get(data, ["name"]) == Some(Str(name))
      && Get(data, ["version"]).Some? && Get(data', ["version"]) == Coerce(value, Get(data, ["version"]).value)
      && (ListsPackages(data) ==>
            && Get(data, ["packages", ""]).Some?
            && (Get(data, ["packages", "", "name"]).None? || Get(data, ["packages", "", "name"]) == Some(Str(name)))
            && Get(data, ["packages", "", "version"]).Some?
            && Get(data', ["packages", "", "version"]) == Coerce(value, Get(data, ["packages", "", "version"]).value))
  {
    hide Decode, Get, Coerce, PutAll, AtOnce, Selected, IsScalar;
    EditIsExact(text, Plans.NpmLock(name), value);
    var fields := Selects(Decode(text).value, Plans.NpmLock(name));
    assert fields[0] == VERSION;
    if ListsPackages(Decode(text).value) { assert fields[1] == ROOT_VERSION; }
  }

  // -------------------------------------------------------------- what stays in shape

  predicate SameKind(v: Json, w: Json) {
    v.Str? == w.Str? && v.Int? == w.Int? && v.Object? == w.Object?
  }

  /** The same fields, each of the same kind. */
  ghost predicate SameShape(data: Json, data': Json) {
    forall p ::
      && (Get(data, p).Some? <==> Get(data', p).Some?)
      && (Get(data, p).Some? ==> SameKind(Get(data, p).value, Get(data', p).value))
  }

  lemma {:induction false} PutKeepsShape(v: Json, field: seq<string>, new': Json, p: seq<string>)
    requires Get(v, field).Some? && IsScalar(Get(v, field).value) && IsScalar(new') && SameKind(Get(v, field).value, new')
    ensures Get(v, p).Some? <==> Get(Put(v, field, new'), p).Some?
    ensures Get(v, p).Some? ==> SameKind(Get(v, p).value, Get(Put(v, field, new'), p).value)
  {
    if field != [] && p != [] && field[0] == p[0] {
      PutKeepsShape(v.fields[field[0]], field[1..], new', p[1..]);
    }
  }

  lemma {:induction false} PutAllKeepsShape(data: Json, choices: seq<Choice>)
    requires Holds(data, choices) && forall x :: x in choices ==> SameKind(x.was, x.new')
    ensures SameShape(data, PutAll(data, choices))
    decreases |choices|
  {
    hide Get, Put, IsScalar, SameKind;
    if choices == [] {
      forall p ensures Get(data, p).Some? ==> SameKind(Get(data, p).value, Get(data, p).value) { KindOfItself(data, p); }
    } else {
      var c, rest := choices[0], choices[1..];
      assert choices == [c] + rest;
      assert c in choices;
      HoldsAfterPut(data, c, rest);
      PutAllKeepsShape(Put(data, c.field, c.new'), rest);
      forall p
        ensures Get(data, p).Some? <==> Get(PutAll(data, choices), p).Some?
        ensures Get(data, p).Some? ==> SameKind(Get(data, p).value, Get(PutAll(data, choices), p).value)
      {
        PutKeepsShape(data, c.field, c.new', p);
        if Get(data, p).Some? {
          SameKindChains(Get(data, p).value, Get(Put(data, c.field, c.new'), p).value, Get(PutAll(data, choices), p).value);
        }
      }
    }
  }

  lemma KindOfItself(data: Json, p: seq<string>)
    ensures Get(data, p).Some? ==> SameKind(Get(data, p).value, Get(data, p).value)
  {
  }

  lemma SameKindChains(u: Json, v: Json, w: Json)
    requires SameKind(u, v) && SameKind(v, w)
    ensures SameKind(u, w)
  {
  }

  /** An edit neither adds nor removes a field, nor changes what kind of value one holds. */
  lemma {:induction false} EditKeepsShape(text: string, format: Plans.Format, value: Plans.Value)
    requires Edit(text, format, value).Edited?
    ensures Decode(text).Decoded? && Decode(Edit(text, format, value).text).Decoded?
    ensures SameShape(Decode(text).value, Decode(Edit(text, format, value).text).value)
  {
    hide Parse, DocumentOk, ShowDocument, DocumentValue, DocumentSpans, Located, Fields, Get, PutAll, CutAll, SortDown, Changed, Olds,
      Holds, AllPrintable, Updated, Previous, AtOnce;
    EditIsExact(text, format, value);
    var d, choices := Parse(text).value, Selected(text, format, value).value;
    SelectedAre(text, format, value, d, choices);
    PutAllKeepsShape(DocumentValue(d), choices);
  }

  // ------------------------------------------------------------------- the editor

  function Prepend(chosen: seq<Choice>, rest: Option<seq<Choice>>): Option<seq<Choice>> {
    if rest.None? then None else Some(chosen + rest.value)
  }

  lemma PrependMoves(chosen: seq<Choice>, c: Choice, rest: seq<Choice>)
    ensures Prepend(chosen, Some([c] + rest)) == Prepend(chosen + [c], Some(rest))
  {
    assert chosen + ([c] + rest) == chosen + [c] + rest;
  }

  lemma {:induction false} ChosenOneMore(choices: seq<Choice>, c: Choice)
    ensures Changed(choices + [c]) == Changed(choices) + Changed([c])
    ensures Olds(choices + [c]) == Olds(choices) + [c.was]
  {
    if choices == [] {
      assert [] + [c] == [c];
    } else {
      ChosenOneMore(choices[1..], c);
      assert (choices + [c])[1..] == choices[1..] + [c];
    }
  }

  /** `_json_edit` with its loops. */
  method JsonEdit(text: string, format: Plans.Format, value: Plans.Value) returns (r: Edited)
    ensures r == Edit(text, format, value)
  {
    hide Decode, Fields, Choose, CutAll, Cut, SortDown;
    var decoded := JsonDocument.JsonDocument(text);
    if decoded.Malformed? {
      return Refused;
    }
    var fields := Fields(decoded.value, format);
    if fields.None? {
      return Refused;
    }
    var edits: seq<Choice>, previous: seq<Json> := [], [];
    ghost var chosen: seq<Choice> := [];
    assert fields.value[0..] == fields.value;
    assert Prepend([], ChooseAll(decoded, fields.value, value)) == ChooseAll(decoded, fields.value, value) by {
      if ChooseAll(decoded, fields.value, value).Some? {
        assert [] + ChooseAll(decoded, fields.value, value).value == ChooseAll(decoded, fields.value, value).value;
      }
    }
    for i := 0 to |fields.value|
      invariant edits == Changed(chosen) && previous == Olds(chosen) && AllPrintable(chosen)
      invariant ChooseAll(decoded, fields.value, value) == Prepend(chosen, ChooseAll(decoded, fields.value[i..], value))
    {
      var choice := Choose(decoded, fields.value[i], value);
      assert fields.value[i..][1..] == fields.value[i + 1..];
      if choice.None? {
        return Refused;
      }
      ChosenOneMore(chosen, choice.value);
      if ChooseAll(decoded, fields.value[i + 1..], value).Some? {
        PrependMoves(chosen, choice.value, ChooseAll(decoded, fields.value[i + 1..], value).value);
      }
      ChoiceIsPrintable(decoded, fields.value[i], value);
      if choice.value.was != choice.value.new' {
        edits := edits + [choice.value];
      }
      previous := previous + [choice.value.was];
      chosen := chosen + [choice.value];
    }
    assert chosen + [] == chosen;
    ChangedArePrintable(chosen);
    ChangedArePrintable(edits);
    var sorted := SortDown(edits);
    var text' := CutInTurn(text, sorted);
    return Edited(text', previous);
  }

  lemma ChoiceIsPrintable(decoded: Decoded, field: seq<string>, value: Plans.Value)
    requires decoded.Decoded? && Choose(decoded, field, value).Some?
    ensures AllPrintable([Choose(decoded, field, value).value])
  {
  }

  /** The splicing loop of `_json_edit`. */
  method CutInTurn(text: string, sorted: seq<Choice>) returns (text': string)
    requires AllPrintable(sorted)
    ensures text' == CutAll(text, sorted)
  {
    hide Cut;
    text' := text;
    for i := 0 to |sorted|
      invariant CutAll(text', sorted[i..]) == CutAll(text, sorted)
    {
      assert sorted[i..][1..] == sorted[i + 1..];
      text' := Cut(text', sorted[i]);
    }
  }
}
