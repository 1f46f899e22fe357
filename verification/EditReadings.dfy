/** What edits and synchronised files read, told by the texts and numbers themselves. */
module EditReadings {
  import opened Text
  import opened Wrappers
  import opened Plans
  import opened Projections
  import opened JsonLexer
  import opened JsonSyntax
  import opened JsonValues
  import opened JsonPlaces
  import opened JsonDocument
  import opened JsonEdit
  import opened SyncVersions

  // --------------------------------------------------------------------- one field

  /** The field reads the value: a string its text or its digits, an integer the number itself. */
  ghost predicate Shows(field: Json, value: Value) {
    match field
    case Str(s) => if value.Words? then s == value.s else s == SignedDecimal(value.n)
    case Int(n) => value == Whole(n)
    case _ => false
  }

  /** The field can be made to read the value. */
  ghost predicate CanShow(field: Json, value: Value) {
    field.Str? || (field.Int? && value.Whole?)
  }

  lemma {:induction false} CoerceIsExact(value: Value, was: Json)
    ensures Coerce(value, was).Some? <==> CanShow(was, value)
    ensures Coerce(value, was).Some? ==> Shows(Coerce(value, was).value, value) && SameKind(was, Coerce(value, was).value)
    ensures Coerce(value, was) == Some(was) <==> Shows(was, value)
  {
  }

  /** One field before and after: it could take the value, and now reads it as the kind of value it was. */
  ghost predicate Rewritten(data: Json, data': Json, field: seq<string>, value: Value, previous: Json) {
    && Get(data, field) == Some(previous) && CanShow(previous, value)
    && Get(data', field).Some? && Shows(Get(data', field).value, value) && SameKind(previous, Get(data', field).value)
  }

  /** Every other scalar reads as before. */
  ghost predicate OthersStay(data: Json, data': Json, fields: set<seq<string>>) {
    forall other :: other !in fields && Get(data, other).Some? && IsScalar(Get(data, other).value) ==> Get(data', other) == Get(data, other)
  }

  // ----------------------------------------------------------------------- manifests

  /** The text is JSON that names the declared package, if there is one, and its field can take the value. */
  ghost predicate ManifestTakes(text: string, field: seq<string>, package: Option<string>, value: Value) {
    && Decode(text).Decoded?
    && (package.Some? ==> Get(Decode(text).value, ["name"]) == Some(Str(package.value)))
    && Get(Decode(text).value, field).Some? && CanShow(Get(Decode(text).value, field).value, value)
  }

  /** A manifest is edited exactly when it names its package and its field can take the value; the field then reads it,
  every other scalar reads as before, and the text is the same exactly when the field read it already. */
  lemma {:induction false} ManifestEdits(text: string, field: seq<string>, package: Option<string>, value: Value)
    ensures Edit(text, JsonField(field, package), value).Edited? <==> ManifestTakes(text, field, package, value)
    ensures var e := Edit(text, JsonField(field, package), value);
      e.Edited? ==>
        && Decode(text).Decoded? && Decode(e.text).Decoded? && |e.previous| == 1
        && Rewritten(Decode(text).value, Decode(e.text).value, field, value, e.previous[0])
        && OthersStay(Decode(text).value, Decode(e.text).value, {field})
        && (e.text == text <==> Shows(e.previous[0], value))
  {
    hide Decode, Get, Coerce, PutAll, AtOnce, Selected, IsScalar, Edit, CanShow, Shows, Owned;
    var format := JsonField(field, package);
    EditIsRefused(text, format, value);
    if Decode(text).Decoded? {
      var data := Decode(text).value;
      OwnedManifest(data, field, package);
      assert Selects(data, format) == [field];
      TakesOne(data, field, value);
      if Edit(text, format, value).Edited? {
        EditIsExact(text, format, value);
        EditSettles(text, format, value);
        var e := Edit(text, format, value);
        CoerceIsExact(value, e.previous[0]);
        assert [field][0] == field && field in [field];
      }
    }
  }

  lemma TakesOne(data: Json, field: seq<string>, value: Value)
    ensures Takes(data, [field], value) <==> Get(data, field).Some? && CanShow(Get(data, field).value, value)
    ensures Reads(data, [field], value) <==> Get(data, field).Some? && Shows(Get(data, field).value, value)
  {
    hide Get, Coerce, CanShow, Shows;
    assert [field][0] == field;
    if Get(data, field).Some? {
      CoerceIsExact(value, Get(data, field).value);
    }
  }

  lemma OwnedManifest(data: Json, field: seq<string>, package: Option<string>)
    ensures Owned(data, JsonField(field, package)) <==> (package.Some? ==> Get(data, ["name"]) == Some(Str(package.value)))
  {
    OnlyObjects(data, "name");
  }

  /** Only an object has fields. */
  lemma OnlyObjects(data: Json, key: string)
    ensures Get(data, [key]).Some? ==> data.Object?
  {
  }

  lemma {:induction false} AtNames(v: Json, field: seq<string>)
    ensures At(v, Names(field)) == Get(v, field)
  {
    if field != [] {
      NamesStep(field);
      if v.Object? && field[0] in v.fields { AtNames(v.fields[field[0]], field[1..]); }
    }
  }

  /** One token of the text is replaced, which is the old value's, by the new value's. */
  ghost predicate Spliced(text: string, text': string, start: nat, end: nat, old': Json, new': Json) {
    && start < end <= |text| && ScanScalar(text[start..end]) == Some((old', end - start))
    && (new'.Str? || new'.Int?) && text' == text[..start] + Dumps(new') + text[end..]
  }

  lemma {:induction false} FieldToken(text: string, d: Document, field: seq<string>, v: Json)
    requires Parse(text) == Some(d) && Get(DocumentValue(d), field) == Some(v) && IsScalar(v)
    ensures Names(field) in DocumentSpans(d)
    ensures var span := DocumentSpans(d)[Names(field)];
      span.start < span.end <= |text| && ScanScalar(text[span.start..span.end]) == Some((v, span.end - span.start))
  {
    hide Spans, At, WellFormed, ScanScalar, Show, JsonValues.Value, Get;
    ParseIsGrammar(text, d);
    SpansAreExact(d, Names(field));
    AtNames(DocumentValue(d), field);
  }

  /** What one choice does to a text. */
  lemma OneChoice(text: string, c: Choice)
    requires c.new'.Str? || c.new'.Int?
    requires c.span.start < c.span.end <= |text|
    ensures AllPrintable(SortDown(Changed([c])))
    ensures AtOnce(text, |text|, SortDown(Changed([c]))) ==
      if c.was == c.new' then text else text[..c.span.start] + Dumps(c.new') + text[c.span.end..]
  {
    hide Dumps;
    assert text[..|text|] == text && [c][1..] == [];
    if c.was == c.new' {
      assert Changed([c]) == [];
    } else {
      assert Changed([c]) == [c] && SortDown([c]) == [c];
    }
  }

  /** What a manifest's edit chooses: its field, at the place of its token. */
  lemma ManifestChoice(text: string, field: seq<string>, package: Option<string>, value: Value) returns (c: Choice)
    requires Edit(text, JsonField(field, package), value).Edited?
    ensures Decode(text).Decoded? && Selected(text, JsonField(field, package), value) == Some([c])
    ensures c.field == field && Get(Decode(text).value, field) == Some(c.was) && IsScalar(c.was)
    ensures Coerce(value, c.was) == Some(c.new')
    ensures c.span.start < c.span.end <= |text|
    ensures ScanScalar(text[c.span.start..c.span.end]) == Some((c.was, c.span.end - c.span.start))
  {
    hide Parse, DocumentOk, ShowDocument, DocumentValue, DocumentSpans, Located, Get, Coerce, IsScalar, ScanScalar, Owned, ChooseAll;
    var format := JsonField(field, package);
    var d, choices := Parse(text).value, Selected(text, format, value).value;
    SelectedAre(text, format, value, d, choices);
    c := choices[0];
    assert c in choices && choices == [c];
    var decoded := Decode(text);
    FieldsAreChosen(decoded, [field], value);
    assert [field][0] == field;
    assert Choose(decoded, field, value) == Some(c);
    FieldToken(text, d, field, c.was);
  }

  /** A changed manifest differs by one token, that of the declared field. */
  lemma {:induction false} ManifestSplices(text: string, field: seq<string>, package: Option<string>, value: Value)
    requires var e := Edit(text, JsonField(field, package), value); e.Edited? && e.text != text
    ensures var e := Edit(text, JsonField(field, package), value);
      && Decode(e.text).Decoded? && |e.previous| == 1 && Get(Decode(e.text).value, field).Some?
      && exists start, end :: Spliced(text, e.text, start, end, e.previous[0], Get(Decode(e.text).value, field).value)
  {
    hide Decode, Get, Coerce, Put, IsScalar, Dumps, ScanScalar, Shows, CanShow, Edit, Selected, Owned, AtOnce, SortDown, Changed;
    var format := JsonField(field, package);
    EditIsExact(text, format, value);
    var e := Edit(text, format, value);
    var c := ManifestChoice(text, field, package, value);
    CoerceIsExact(value, c.was);
    assert c.new'.Str? || c.new'.Int? by { CoercePrints(value, c.was); }
    OneChoice(text, c);
    assert [c][1..] == [] && Fields(Decode(text).value, format) == Some([field]) && [field][0] == field;
    assert PutAll(Decode(text).value, [c]) == Put(Decode(text).value, field, c.new');
    GetPut(Decode(text).value, field, c.new');
    assert Spliced(text, e.text, c.span.start, c.span.end, c.was, c.new');
  }

  lemma CoercePrints(value: Value, was: Json)
    requires Coerce(value, was).Some?
    ensures Coerce(value, was).value.Str? || Coerce(value, was).value.Int?
  {
  }

  // ------------------------------------------------------------------------- locks

  /** The text is a lock of the package, and so is the root package it lists, if it lists packages; both versions can
  take the value. */
  ghost predicate LockTakes(text: string, name: string, value: Value) {
    && Decode(text).Decoded?
    && var data := Decode(text).value;
    && Get(data, ["name"]) == Some(Str(name))
    && Get(data, ["version"]).Some? && CanShow(Get(data, ["version"]).value, value)
    && (Get(data, ["packages"]).Some? ==>
          && Get(data, ["packages", ""]).Some? && Get(data, ["packages", ""]).value.Object?
          && (Get(data, ["packages", "", "name"]).None? || Get(data, ["packages", "", "name"]) == Some(Str(name)))
          && Get(data, ["packages", "", "version"]).Some? && CanShow(Get(data, ["packages", "", "version"]).value, value))
  }

  lemma Lists(data: Json)
    ensures ListsPackages(data) <==> Get(data, ["packages"]).Some?
  {
    GetOne(data, "packages");
  }

  lemma OwnedLock(data: Json, name: string)
    ensures Owned(data, NpmLock(name)) <==>
      && Get(data, ["name"]) == Some(Str(name))
      && (Get(data, ["packages"]).Some? ==>
            && Get(data, ["packages", ""]).Some? && Get(data, ["packages", ""]).value.Object?
            && (Get(data, ["packages", "", "name"]).None? || Get(data, ["packages", "", "name"]) == Some(Str(name))))
  {
    OnlyObjects(data, "name");
    Lists(data);
    hide Get, ListsPackages;
  }

  lemma TakesTwo(data: Json, first: seq<string>, second: seq<string>, value: Value)
    ensures Takes(data, [first, second], value) <==> Takes(data, [first], value) && Takes(data, [second], value)
    ensures Reads(data, [first, second], value) <==> Reads(data, [first], value) && Reads(data, [second], value)
  {
    hide Get, Coerce;
    assert [first][0] == [first, second][0] == first && [second][0] == [first, second][1] == second;
  }

  /** A lock is edited exactly under that condition; its version, and its root package's if it lists packages, then
  read the value, and every other scalar reads as before. */
  lemma {:induction false} LockEdits(text: string, name: string, value: Value)
    ensures Edit(text, NpmLock(name), value).Edited? <==> LockTakes(text, name, value)
    ensures var e := Edit(text, NpmLock(name), value);
      e.Edited? ==>
        && Decode(text).Decoded? && Decode(e.text).Decoded?
        && var data, data' := Decode(text).value, Decode(e.text).value;
        if Get(data, ["packages"]).Some? then
          && |e.previous| == 2
          && Rewritten(data, data', ["version"], value, e.previous[0])
          && Rewritten(data, data', ["packages", "", "version"], value, e.previous[1])
          && OthersStay(data, data', {["version"], ["packages", "", "version"]})
          && (e.text == text <==> Shows(e.previous[0], value) && Shows(e.previous[1], value))
        else
          && |e.previous| == 1 && Rewritten(data, data', ["version"], value, e.previous[0])
          && OthersStay(data, data', {["version"]})
          && (e.text == text <==> Shows(e.previous[0], value))
  {
    hide Decode, Get, Coerce, PutAll, AtOnce, Selected, IsScalar, Edit, CanShow, Shows, Owned, ListsPackages;
    var format := NpmLock(name);
    EditIsRefused(text, format, value);
    if Decode(text).Decoded? {
      var data := Decode(text).value;
      OwnedLock(data, name);
      Lists(data);
      TakesTwo(data, VERSION, ROOT_VERSION, value);
      TakesOne(data, VERSION, value);
      TakesOne(data, ROOT_VERSION, value);
      if Edit(text, format, value).Edited? {
        EditIsExact(text, format, value);
        EditSettles(text, format, value);
        var e := Edit(text, format, value);
        var fields := Selects(data, format);
        assert fields[0] == VERSION && VERSION in fields;
        CoerceIsExact(value, e.previous[0]);
        if ListsPackages(data) {
          assert fields[1] == ROOT_VERSION && ROOT_VERSION in fields;
          CoerceIsExact(value, e.previous[1]);
        }
      }
    }
  }

  // ------------------------------------------------------------------- synchronised files

  /** The declared file belongs to its package and reads the plan's projection wherever the declaration selects. */
  ghost predicate FileShows(files: map<string, string>, plan: Plan, d: Declaration) {
    && d.path in files && Decode(files[d.path]).Decoded? && ProjectedValue(plan, d).Some?
    && var data, value := Decode(files[d.path]).value, ProjectedValue(plan, d).value;
    match d.format
    case JsonField(field, package) =>
      && (package.Some? ==> Get(data, ["name"]) == Some(Str(package.value)))
      && Get(data, field).Some? && Shows(Get(data, field).value, value)
    case NpmLock(name) =>
      && Get(data, ["name"]) == Some(Str(name)) && Get(data, ["version"]).Some? && Shows(Get(data, ["version"]).value, value)
      && (Get(data, ["packages"]).Some? ==>
            && Get(data, ["packages", ""]).Some? && Get(data, ["packages", ""]).value.Object?
            && (Get(data, ["packages", "", "name"]).None? || Get(data, ["packages", "", "name"]) == Some(Str(name)))
            && Get(data, ["packages", "", "version"]).Some? && Shows(Get(data, ["packages", "", "version"]).value, value))
  }

  lemma {:induction false} ReadsPlanIsShown(files: map<string, string>, plan: Plan, d: Declaration)
    ensures ReadsPlan(files, plan, d) <==> FileShows(files, plan, d)
  {
    hide Decode, Get, Shows, Owned, ListsPackages, Reads, ProjectedValue;
    if d.path in files && Decode(files[d.path]).Decoded? && ProjectedValue(plan, d).Some? {
      var data, value := Decode(files[d.path]).value, ProjectedValue(plan, d).value;
      match d.format
      case JsonField(field, package) =>
        OwnedManifest(data, field, package);
        TakesOne(data, field, value);
      case NpmLock(name) =>
        OwnedLock(data, name);
        Lists(data);
        TakesTwo(data, VERSION, ROOT_VERSION, value);
        TakesOne(data, VERSION, value);
        TakesOne(data, ROOT_VERSION, value);
    }
  }

  /** After an accepted run every declared file belongs to its package and shows the plan. */
  lemma {:induction false} AcceptedFilesShowThePlan(files: map<string, string>, policy: Policy, plan: Plan, check: bool, d: Declaration)
    requires Sync(files, policy, plan, check).Synced? && d in policy.files
    ensures FileShows(Sync(files, policy, plan, check).files, plan, d)
  {
    hide Sync, ReadsPlan, FileShows;
    AcceptedFilesReadThePlan(files, policy, plan, check);
    ReadsPlanIsShown(Sync(files, policy, plan, check).files, plan, d);
  }

  /** A string that shows a package projection: the base exactly for a release published under it, and for every other
  one a text that names it in its ecosystem. */
  lemma {:induction false} ManifestsNameTheRelease(files: map<string, string>, policy: Policy, plan: Plan, check: bool, d: Declaration,
                                                   text: string)
    requires Sync(files, policy, plan, check).Synced? && d in policy.files
    requires d.format.JsonField? && d.kind == Package && d.prefix == ""
    requires var files' := Sync(files, policy, plan, check).files;
      d.path in files' && Decode(files'[d.path]).Decoded? && Get(Decode(files'[d.path]).value, d.format.field) == Some(Str(text))
    ensures text == plan.base <==> plan.channel == Stable || (plan.channel == RC && policy.promotion == PromoteBytes)
    ensures text != plan.base && d.ecosystem == Semver ==> plan.tag == "v" + text
    ensures text != plan.base && d.ecosystem == Pep440 ==>
      match plan.sequence
      case Count(n) => n > 0 && text == plan.base + (if plan.channel == Beta then "b" else "rc") + Decimal(n)
      case Stamp(s) => IsDevText(text, plan.base, s)
      case NoSequence => false
  {
    hide WorkAll, AllSettled, Decode, Get, FileShows, ProjectedValue, ValidPlan, Evidence, Drifts, IsDevText, ProjectsAll, ValidPolicy;
    AcceptedFilesShowThePlan(files, policy, plan, check, d);
    ShownText(Sync(files, policy, plan, check).files, plan, d, text);
    PackageIsExact(plan, d);
    ChannelOfSequence(plan);
  }

  lemma ShownText(files: map<string, string>, plan: Plan, d: Declaration, text: string)
    requires FileShows(files, plan, d) && d.format.JsonField?
    requires Get(Decode(files[d.path]).value, d.format.field) == Some(Str(text))
    ensures ProjectedValue(plan, d).Some? && (ProjectedValue(plan, d).value.Words? ==> ProjectedValue(plan, d).value.s == text)
  {
    hide Decode, Get, ProjectedValue;
  }
}
