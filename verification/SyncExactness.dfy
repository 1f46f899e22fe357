/** When `sync_versions` accepts: exactly when every declaration can be carried out in its turn, and still could
be at the end, and no two conflict. */
module SyncExactness {
  import opened Text
  import opened Wrappers
  import opened Plans
  import opened JsonLexer
  import opened JsonValues
  import opened JsonDocument
  import opened JsonEdit
  import opened SyncVersions

  // ---------------------------------------------------------- names that own a file

  /** The declaration writes `field` of the file at `path`. */
  predicate Writes(d: Declaration, path: string, field: seq<string>) {
    d.path == path && d.format.JsonField? && d.format.field == field
  }

  /** What a name field of `data`, the file at `path`, reads after some declarations. */
  function NameAfter(data: Json, plan: Plan, declarations: seq<Declaration>, path: string, field: seq<string>): Option<Json>
    decreases |declarations|
  {
    if declarations == [] || Get(data, field).None? then Get(data, field)
    else
      var d, past := declarations[|declarations| - 1], declarations[..|declarations| - 1];
      var value := ProjectedValue(plan, d);
      if Writes(d, path, field) && value.Some? && Coerce(value.value, Get(data, field).value).Some?
      then Coerce(value.value, Get(data, field).value)
      else NameAfter(data, plan, past, path, field)
  }

  /** Ownership as `Owned` decides it, with the names given. */
  predicate OwnedBy(data: Json, format: Format, name: Option<Json>, rootName: Option<Json>) {
    match format
    case JsonField(_, package) => package.Some? ==> data.Object? && name == Some(Str(package.value))
    case NpmLock(package) =>
      && data.Object? && name == Some(Str(package))
      && (ListsPackages(data) ==>
            var own := Get(data, ["packages", ""]);
            own.Some? && own.value.Object? && (rootName.Some? ==> rootName == Some(Str(package))))
  }

  /** `d` can be carried out on the original file once the declarations before it have written the names: the
  file parses, belongs to the declared package, and every selected field can take the value. */
  ghost predicate CanEdit(files: map<string, string>, plan: Plan, past: seq<Declaration>, d: Declaration) {
    && d.path in files && Decode(files[d.path]).Decoded? && ProjectedValue(plan, d).Some?
    && var data := Decode(files[d.path]).value;
    && OwnedBy(data, d.format, NameAfter(data, plan, past, d.path, NAME), NameAfter(data, plan, past, d.path, ROOT_NAME))
    && Takes(data, Selects(data, d.format), ProjectedValue(plan, d).value)
  }

  // --------------------------------------------------------------- following the names

  ghost predicate IsScalarAt(data: Json, field: seq<string>) {
    Get(data, field).Some? && IsScalar(Get(data, field).value)
  }

  /** `data'` came from `data` by edits, and its name field reads `expected`. */
  ghost predicate Follows(data: Json, data': Json, field: seq<string>, expected: Option<Json>) {
    IsScalarAt(data, field) ==> Get(data', field) == expected && IsScalarAt(data', field)
  }

  /** The files after the declarations in `past`: the same fields, and the names those declarations wrote. */
  ghost predicate Tracks(files: map<string, string>, now: map<string, string>, plan: Plan, past: seq<Declaration>) {
    && AllAlike(files, now)
    && forall p :: p in files && Decode(files[p]).Decoded? ==> NamesFollow(files[p], now[p], plan, past, p)
  }

  ghost predicate NamesFollow(text: string, text': string, plan: Plan, past: seq<Declaration>, path: string) {
    && Decode(text).Decoded? && Decode(text').Decoded?
    && var data, data' := Decode(text).value, Decode(text').value;
    && Follows(data, data', NAME, NameAfter(data, plan, past, path, NAME))
    && Follows(data, data', ROOT_NAME, NameAfter(data, plan, past, path, ROOT_NAME))
  }

  lemma TracksAtFirst(files: map<string, string>, plan: Plan)
    ensures Tracks(files, files, plan, [])
  {
    hide Decode, Get;
    AllAlikeItself(files);
  }

  /** A value that fits a field fits any value of the same kind, with the same result. */
  lemma CoerceByKind(v: Plans.Value, x: Json, y: Json)
    requires SameKind(x, y)
    ensures Coerce(v, x) == Coerce(v, y)
    ensures Coerce(v, x).Some? ==> IsScalar(Coerce(v, x).value)
  {
  }

  lemma OnlyItsNames(data: Json, d: Declaration, field: seq<string>)
    requires field == NAME || field == ROOT_NAME
    ensures field in Selects(data, d.format) <==> Writes(d, d.path, field)
  {
    assert |NAME| == |VERSION| == 1 && |ROOT_NAME| == |ROOT_VERSION| == 3;
    assert NAME[0] != VERSION[0] && ROOT_NAME[2] != ROOT_VERSION[2];
  }

  lemma NameAfterOne(data: Json, plan: Plan, past: seq<Declaration>, d: Declaration, path: string, field: seq<string>)
    ensures NameAfter(data, plan, past + [d], path, field) ==
      if Get(data, field).Some? && Writes(d, path, field) && ProjectedValue(plan, d).Some?
         && Coerce(ProjectedValue(plan, d).value, Get(data, field).value).Some?
      then Coerce(ProjectedValue(plan, d).value, Get(data, field).value)
      else NameAfter(data, plan, past, path, field)
  {
    hide Get, Coerce, ProjectedValue, Writes;
    assert (past + [d])[..|past + [d]| - 1] == past;
  }

  /** One edit of the file keeps its names followed. */
  lemma NameStep(data: Json, now: Json, next: Json, plan: Plan, past: seq<Declaration>, d: Declaration, previous: seq<Json>, field: seq<string>)
    requires field == NAME || field == ROOT_NAME
    requires SameShape(data, now) && ProjectedValue(plan, d).Some?
    requires Follows(data, now, field, NameAfter(data, plan, past, d.path, field))
    requires Previous(now, Selects(now, d.format), previous)
    requires Updated(now, next, Selects(now, d.format), previous, ProjectedValue(plan, d).value)
    ensures Follows(data, next, field, NameAfter(data, plan, past + [d], d.path, field))
  {
    hide Get, Coerce, ProjectedValue, NameAfter, IsScalar, Selects, Writes, SameKind;
    NameAfterOne(data, plan, past, d, d.path, field);
    OnlyItsNames(now, d, field);
    if IsScalarAt(data, field) {
      var value := ProjectedValue(plan, d).value;
      CoerceByKind(value, Get(data, field).value, Get(now, field).value);
      if field in Selects(now, d.format) {
        var i :| 0 <= i < |Selects(now, d.format)| && Selects(now, d.format)[i] == field;
        assert Get(now, field) == Some(previous[i]);
      }
    }
  }

  lemma EditTracks(files: map<string, string>, now: map<string, string>, plan: Plan, past: seq<Declaration>, d: Declaration)
    requires Tracks(files, now, plan, past) && EditOne(now, plan, d).Edited?
    ensures Tracks(files, now[d.path := EditOne(now, plan, d).text], plan, past + [d])
  {
    hide Edit, Decode, Owned, PutAll, AtOnce, Selected, ProjectedValue, NameAfter, Follows, Alike, Updated, Previous, Selects;
    var next := now[d.path := EditOne(now, plan, d).text];
    EditIsAlike(now, plan, d);
    AllAlikeChains(files, now, next);
    forall p | p in files && Decode(files[p]).Decoded? ensures NamesFollow(files[p], next[p], plan, past + [d], p) {
      assert NamesFollow(files[p], now[p], plan, past, p);
      var data := Decode(files[p]).value;
      if p == d.path {
        EditIsExact(now[p], d.format, ProjectedValue(plan, d).value);
        ShapeOf(files, now, p);
        var e := EditOne(now, plan, d);
        NameStep(data, Decode(now[p]).value, Decode(next[p]).value, plan, past, d, e.previous, NAME);
        NameStep(data, Decode(now[p]).value, Decode(next[p]).value, plan, past, d, e.previous, ROOT_NAME);
      } else {
        OtherFile(data, plan, past, d, p, NAME);
        OtherFile(data, plan, past, d, p, ROOT_NAME);
      }
    }
  }

  lemma OtherFile(data: Json, plan: Plan, past: seq<Declaration>, d: Declaration, path: string, field: seq<string>)
    requires d.path != path
    ensures NameAfter(data, plan, past + [d], path, field) == NameAfter(data, plan, past, path, field)
  {
    NameAfterOne(data, plan, past, d, path, field);
  }

  lemma ShapeOf(files: map<string, string>, now: map<string, string>, path: string)
    requires AllAlike(files, now) && path in files && Decode(files[path]).Decoded?
    ensures Decode(now[path]).Decoded? && SameShape(Decode(files[path]).value, Decode(now[path]).value)
  {
    hide Decode, Get;
    if files[path] == now[path] { ShapeOfItself(Decode(files[path]).value); }
  }

  lemma ShapeOfItself(data: Json)
    ensures SameShape(data, data)
  {
    hide Get;
    forall p ensures Get(data, p).Some? ==> SameKind(Get(data, p).value, Get(data, p).value) { KindOfItself(data, p); }
  }

  lemma TakesByShape(data: Json, data': Json, fields: seq<seq<string>>, value: Plans.Value)
    requires SameShape(data, data')
    ensures Takes(data, fields, value) <==> Takes(data', fields, value)
  {
    hide Get;
  }

  lemma {:induction false} NamePresent(data: Json, plan: Plan, past: seq<Declaration>, path: string, field: seq<string>)
    ensures NameAfter(data, plan, past, path, field).Some? <==> Get(data, field).Some?
    ensures Get(data, field).Some? && !IsScalar(Get(data, field).value) ==> NameAfter(data, plan, past, path, field) == Get(data, field)
    decreases |past|
  {
    hide Get, ProjectedValue, Writes;
    if past != [] { NamePresent(data, plan, past[..|past| - 1], path, field); }
  }

  /** A name reads a text exactly when its followed reading does. */
  lemma NameReads(data: Json, now: Json, plan: Plan, past: seq<Declaration>, path: string, field: seq<string>, text: string)
    requires SameShape(data, now) && Follows(data, now, field, NameAfter(data, plan, past, path, field))
    ensures Get(now, field) == Some(Str(text)) <==> NameAfter(data, plan, past, path, field) == Some(Str(text))
    ensures Get(now, field).Some? <==> NameAfter(data, plan, past, path, field).Some?
  {
    hide Get, NameAfter;
    NamePresent(data, plan, past, path, field);
    assert Get(data, field).Some? <==> Get(now, field).Some?;
  }

  lemma OwnedByNames(data: Json, now: Json, plan: Plan, past: seq<Declaration>, path: string, format: Format)
    requires SameShape(data, now)
    requires Follows(data, now, NAME, NameAfter(data, plan, past, path, NAME))
    requires Follows(data, now, ROOT_NAME, NameAfter(data, plan, past, path, ROOT_NAME))
    ensures Owned(now, format) <==>
      OwnedBy(data, format, NameAfter(data, plan, past, path, NAME), NameAfter(data, plan, past, path, ROOT_NAME))
  {
    ListsByShape(data, now);
    RootKind(data, now);
    hide Get, NameAfter, Follows, ListsPackages;
    ghost var root: seq<string> := ["packages", ""];
    assert Get(data, root).Some? <==> Get(now, root).Some?;
    var package := match format case JsonField(_, package) => (if package.Some? then package.value else "") case NpmLock(name) => name;
    NameReads(data, now, plan, past, path, NAME, package);
    NameReads(data, now, plan, past, path, ROOT_NAME, package);
  }

  /** Whether a declaration can be carried out now is decided by the original file and the names written since. */
  lemma EditableTracked(files: map<string, string>, now: map<string, string>, plan: Plan, past: seq<Declaration>, d: Declaration)
    requires Tracks(files, now, plan, past)
    ensures EditOne(now, plan, d).Edited? <==> CanEdit(files, plan, past, d)
  {
    hide Edit, Decode, Owned, OwnedBy, Selects, Takes, SameShape, ProjectedValue, NameAfter, Follows;
    if d.path in files && ProjectedValue(plan, d).Some? {
      var text, text', value := files[d.path], now[d.path], ProjectedValue(plan, d).value;
      EditIsRefused(text', d.format, value);
      if Decode(text).Decoded? {
        assert NamesFollow(text, text', plan, past, d.path);
        ShapeOf(files, now, d.path);
        var data, data' := Decode(text).value, Decode(text').value;
        OwnedByNames(data, data', plan, past, d.path, d.format);
        SameSelection(text, text', d.format);
        TakesByShape(data, data', Selects(data, d.format), value);
      } else {
        assert Alike(text, text');
      }
    }
  }

  // ------------------------------------------------------------- reading the values

  lemma SignedDecimalIsInjective(m: int, n: int)
    requires SignedDecimal(m) == SignedDecimal(n)
    ensures m == n
  {
    NumberOfDecimal(if m < 0 then -m else m);
    NumberOfDecimal(if n < 0 then -n else n);
    if m < 0 && n < 0 {
      assert Decimal(-m) == SignedDecimal(m)[1..] == Decimal(-n);
    }
  }

  /** Once a field reads a value, a value that prints the same leaves it alone. */
  lemma CoerceAgain(v: Plans.Value, w: Plans.Value, x: Json)
    requires Coerce(v, x) == Some(x) && Coerce(w, x).Some? && ValueText(v) == ValueText(w)
    ensures Coerce(w, x) == Some(x)
  {
    if x.Int? { SignedDecimalIsInjective(v.n, w.n); }
  }

  lemma CoerceSettles(v: Plans.Value, was: Json)
    requires Coerce(v, was).Some?
    ensures Coerce(v, Coerce(v, was).value) == Coerce(v, was) && IsScalar(was)
  {
  }

  /** After an edit its own fields read its value. */
  lemma UpdatedReads(data: Json, data': Json, fields: seq<seq<string>>, previous: seq<Json>, value: Plans.Value)
    requires Updated(data, data', fields, previous, value)
    ensures Reads(data', fields, value)
  {
    hide Get, Coerce;
    forall i | 0 <= i < |fields|
      ensures Get(data', fields[i]).Some? && Coerce(value, Get(data', fields[i]).value) == Some(Get(data', fields[i]).value)
    {
      CoerceSettles(value, previous[i]);
    }
  }

  /** An edit keeps what other fields read, and fields shared with it when the values agree. */
  lemma UpdatedKeepsReads(data: Json, data': Json, fields: seq<seq<string>>, previous: seq<Json>, value: Plans.Value,
                          others: seq<seq<string>>, other: Plans.Value)
    requires Previous(data, fields, previous) && Updated(data, data', fields, previous, value)
    requires Reads(data, others, other)
    requires (exists f :: f in fields && f in others) ==> ValueText(value) == ValueText(other)
    ensures Reads(data', others, other)
  {
    hide Get, Coerce, ValueText, IsScalar;
    forall j | 0 <= j < |others|
      ensures Get(data', others[j]).Some? && Coerce(other, Get(data', others[j]).value) == Some(Get(data', others[j]).value)
    {
      var x := Get(data, others[j]).value;
      CoerceSettles(other, x);
      if others[j] in fields {
        var i :| 0 <= i < |fields| && fields[i] == others[j];
        assert fields[i] in fields && fields[i] in others;
        CoerceAgain(other, value, x);
      }
    }
  }

  /** The file reads the value in every selected field, whoever owns it. */
  ghost predicate ReadsValue(files: map<string, string>, plan: Plan, d: Declaration) {
    && d.path in files && Decode(files[d.path]).Decoded? && ProjectedValue(plan, d).Some?
    && Reads(Decode(files[d.path]).value, Selects(Decode(files[d.path]).value, d.format), ProjectedValue(plan, d).value)
  }

  /** One edit of a file: the edited declaration reads its value, and so do those that agreed before. */
  lemma EditReads(files: map<string, string>, plan: Plan, d: Declaration, e: Declaration)
    requires EditOne(files, plan, d).Edited?
    requires e == d || (ReadsValue(files, plan, e) && !Conflict(files, plan, d, e))
    ensures ReadsValue(files[d.path := EditOne(files, plan, d).text], plan, e)
  {
    hide Edit, Decode, Reads, Get, PutAll, AtOnce, Selected, ProjectedValue, Owned, SameShape, Updated, Previous, Selects, ValueText;
    var text := files[d.path];
    var value := ProjectedValue(plan, d).value;
    var files' := files[d.path := EditOne(files, plan, d).text];
    EditIsAlike(files, plan, d);
    EditIsExact(text, d.format, value);
    var data := Decode(text).value;
    if e.path == d.path {
      SameSelection(text, files'[d.path], e.format);
      var data', previous := Decode(files'[d.path]).value, Edit(text, d.format, value).previous;
      if e == d {
        UpdatedReads(data, data', Selects(data, d.format), previous, value);
      } else {
        UpdatedKeepsReads(data, data', Selects(data, d.format), previous, value, Selects(data, e.format), ProjectedValue(plan, e).value);
      }
    }
  }

  lemma NoNewConflict(files: map<string, string>, now: map<string, string>, plan: Plan, d: Declaration, e: Declaration)
    requires AllAlike(files, now) && d.path in files && Decode(files[d.path]).Decoded? && !Conflict(files, plan, d, e)
    ensures !Conflict(now, plan, d, e)
  {
    hide Decode, Selects, ProjectedValue, ValueText, Alike;
    if d.path == e.path {
      SameSelection(files[d.path], now[d.path], d.format);
      SameSelection(files[d.path], now[d.path], e.format);
    }
  }

  // -------------------------------------------------------------------- acceptance

  /** No two declarations conflict on the original files. */
  ghost predicate NoConflicts(files: map<string, string>, plan: Plan, declarations: seq<Declaration>) {
    forall d, e :: d in declarations && e in declarations ==> !Conflict(files, plan, d, e)
  }

  lemma ProjectedWhenEdited(files: map<string, string>, plan: Plan, d: Declaration)
    requires EditOne(files, plan, d).Edited?
    ensures ProjectedValue(plan, d).Some?
  {
  }

  /** The first loop succeeds when every declaration can be carried out in its turn, and then all of them read
  their values at the end. */
  lemma {:induction false} WorkSucceeds(files: map<string, string>, plan: Plan, declarations: seq<Declaration>)
    requires forall i :: 0 <= i < |declarations| ==> CanEdit(files, plan, declarations[..i], declarations[i])
    requires NoConflicts(files, plan, declarations)
    ensures WorkAll(Work(files, map[]), plan, declarations).Some?
    ensures var edited := WorkAll(Work(files, map[]), plan, declarations).value.edited;
      Tracks(files, edited, plan, declarations) && forall e :: e in declarations ==> ReadsValue(edited, plan, e)
    decreases |declarations|
  {
    hide EditOne, Tracks, Conflict, ReadsValue, ProjectedValue, NameAfter, OwnedBy, Decode, Takes, Selects, WorkAll;
    var start := Work(files, map[]);
    if declarations == [] {
      TracksAtFirst(files, plan);
      NothingDone(start, plan, declarations);
      assert declarations[..0] == declarations;
    } else {
      var n := |declarations| - 1;
      var past, d := declarations[..n], declarations[n];
      assert past + [d] == declarations && declarations[..n + 1] == declarations;
      assert forall i :: 0 <= i < n ==> past[..i] == declarations[..i] && past[i] == declarations[i];
      WorkSucceeds(files, plan, past);
      WorkAllEnds(start, plan, declarations, n);
      var work := WorkAll(start, plan, past).value;
      EditableTracked(files, work.edited, plan, past, d);
      ProjectedWhenEdited(work.edited, plan, d);
      EditTracks(files, work.edited, plan, past, d);
      var next := WorkOne(work, plan, d).value;
      forall e | e in declarations ensures ReadsValue(next.edited, plan, e) {
        TracksAlike(files, work.edited, plan, past);
        NoNewConflict(files, work.edited, plan, d, e);
        EditReads(work.edited, plan, d, e);
      }
    }
  }

  lemma TracksAlike(files: map<string, string>, now: map<string, string>, plan: Plan, past: seq<Declaration>)
    requires Tracks(files, now, plan, past)
    ensures AllAlike(files, now)
  {
  }

  /** When the first loop succeeds, every declaration could be carried out in its turn. */
  lemma {:induction false} WorkEdits(files: map<string, string>, plan: Plan, declarations: seq<Declaration>)
    requires WorkAll(Work(files, map[]), plan, declarations).Some?
    ensures forall i :: 0 <= i < |declarations| ==> CanEdit(files, plan, declarations[..i], declarations[i])
    ensures Tracks(files, WorkAll(Work(files, map[]), plan, declarations).value.edited, plan, declarations)
    decreases |declarations|
  {
    hide EditOne, Tracks, CanEdit, ProjectedValue, WorkAll;
    var start := Work(files, map[]);
    if declarations == [] {
      TracksAtFirst(files, plan);
      NothingDone(start, plan, declarations);
      assert declarations[..0] == declarations;
    } else {
      var n := |declarations| - 1;
      var past, d := declarations[..n], declarations[n];
      assert past + [d] == declarations && declarations[..n + 1] == declarations;
      WorkAllEnds(start, plan, declarations, n);
      WorkEdits(files, plan, past);
      assert forall i :: 0 <= i < n ==> past[..i] == declarations[..i] && past[i] == declarations[i];
      var work := WorkAll(start, plan, past).value;
      EditableTracked(files, work.edited, plan, past, d);
      EditTracks(files, work.edited, plan, past, d);
    }
  }

  lemma SettledWhenOwned(files: map<string, string>, plan: Plan, d: Declaration)
    requires ReadsValue(files, plan, d)
    ensures Settled(files, plan, d) <==> EditOne(files, plan, d).Edited?
  {
    hide Edit, Decode, Owned, Selects, ProjectedValue, Reads, Takes;
    SettledReads(files, plan, d);
    EditIsRefused(files[d.path], d.format, ProjectedValue(plan, d).value);
  }

  /** A run is accepted exactly when every declaration can be carried out in its turn, could still be carried out
  with the names that all declarations have written, and no two declarations conflict: all of it decided by the
  original files. */
  lemma {:induction false} SyncIsExact(files: map<string, string>, policy: Policy, plan: Plan)
    ensures Sync(files, policy, plan, false).Synced? <==>
      && ValidPlanFor(plan, policy, plan.source)
      && (forall i :: 0 <= i < |policy.files| ==> CanEdit(files, plan, policy.files[..i], policy.files[i]))
      && (forall d :: d in policy.files ==> CanEdit(files, plan, policy.files, d))
      && NoConflicts(files, plan, policy.files)
  {
    hide WorkAll, EditOne, Tracks, Conflict, Settled, ReadsPlan, ReadsValue, CanEdit, ValidPlanFor;
    var start, declarations := Work(files, map[]), policy.files;
    if Sync(files, policy, plan, false).Synced? {
      WorkEdits(files, plan, declarations);
      var edited := WorkAll(start, plan, declarations).value.edited;
      forall d | d in declarations ensures CanEdit(files, plan, declarations, d) {
        SettledIs(edited, plan, d);
        EditableTracked(files, edited, plan, declarations, d);
      }
      forall d, e | d in declarations && e in declarations ensures !Conflict(files, plan, d, e) {
        if Conflict(files, plan, d, e) { ConflictsAreRejected(files, policy, plan, false, d, e); }
      }
    }
    if && ValidPlanFor(plan, policy, plan.source)
       && (forall i :: 0 <= i < |declarations| ==> CanEdit(files, plan, declarations[..i], declarations[i]))
       && (forall d :: d in declarations ==> CanEdit(files, plan, declarations, d))
       && NoConflicts(files, plan, declarations) {
      WorkSucceeds(files, plan, declarations);
      var edited := WorkAll(start, plan, declarations).value.edited;
      forall i | 0 <= i < |declarations| ensures Settled(edited, plan, declarations[i]) {
        EditableTracked(files, edited, plan, declarations, declarations[i]);
        SettledWhenOwned(edited, plan, declarations[i]);
      }
    }
  }

  // ------------------------------------------------- policies that leave the names alone

  /** The declaration does not write a name that ownership is read from. */
  predicate SparesNames(d: Declaration) {
    d.format.JsonField? ==> d.format.field != NAME && d.format.field != ROOT_NAME
  }

  lemma {:induction false} NameSpared(data: Json, plan: Plan, past: seq<Declaration>, path: string, field: seq<string>)
    requires (field == NAME || field == ROOT_NAME) && forall d :: d in past ==> SparesNames(d)
    ensures NameAfter(data, plan, past, path, field) == Get(data, field)
    decreases |past|
  {
    hide Get, ProjectedValue;
    if past != [] {
      assert SparesNames(past[|past| - 1]);
      NameSpared(data, plan, past[..|past| - 1], path, field);
    }
  }

  lemma CanEditAlone(files: map<string, string>, plan: Plan, past: seq<Declaration>, d: Declaration)
    requires forall e :: e in past ==> SparesNames(e)
    ensures CanEdit(files, plan, past, d) <==> EditOne(files, plan, d).Edited?
  {
    hide EditOne, CanEdit, Tracks, SparesNames;
    TracksAtFirst(files, plan);
    EditableTracked(files, files, plan, [], d);
    SameWithoutNames(files, plan, past, d);
  }

  lemma SameWithoutNames(files: map<string, string>, plan: Plan, past: seq<Declaration>, d: Declaration)
    requires forall e :: e in past ==> SparesNames(e)
    ensures CanEdit(files, plan, past, d) <==> CanEdit(files, plan, [], d)
  {
    hide Decode, OwnedBy, Takes, NameAfter, Get, SparesNames, Selects, ProjectedValue;
    if d.path in files && Decode(files[d.path]).Decoded? {
      var data := Decode(files[d.path]).value;
      NameSpared(data, plan, past, d.path, NAME);
      NameSpared(data, plan, past, d.path, ROOT_NAME);
      NameSpared(data, plan, [], d.path, NAME);
      NameSpared(data, plan, [], d.path, ROOT_NAME);
    }
  }

  /** When no declaration writes a name, each declaration alone decides. */
  lemma {:induction false} SyncIsExactForNames(files: map<string, string>, policy: Policy, plan: Plan)
    requires forall d :: d in policy.files ==> SparesNames(d)
    ensures Sync(files, policy, plan, false).Synced? <==>
      && ValidPlanFor(plan, policy, plan.source)
      && (forall d :: d in policy.files ==> EditOne(files, plan, d).Edited?)
      && NoConflicts(files, plan, policy.files)
  {
    hide Sync, EditOne, CanEdit, Conflict, SparesNames, ValidPlanFor;
    SyncIsExact(files, policy, plan);
    forall i | 0 <= i < |policy.files|
      ensures CanEdit(files, plan, policy.files[..i], policy.files[i]) <==> EditOne(files, plan, policy.files[i]).Edited?
    {
      CanEditAlone(files, plan, policy.files[..i], policy.files[i]);
    }
    forall d | d in policy.files ensures CanEdit(files, plan, policy.files, d) <==> EditOne(files, plan, d).Edited? {
      CanEditAlone(files, plan, policy.files, d);
    }
  }
}
