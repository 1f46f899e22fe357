/** Writing one release plan into every declared version file, or into none. */
module SyncVersions {
  import opened Wrappers
  import opened Plans
  import opened JsonLexer
  import opened JsonValues
  import opened JsonDocument
  import opened JsonEdit

  // ------------------------------------------------------------------ the program

  datatype Change = Change(declaration: Declaration, value: Plans.Value, previous: seq<Json>)

  datatype Record = Record(before: string, after: string, changed: bool, fields: seq<Change>)

  /** The prepared texts, and what was done to each touched file. */
  datatype Work = Work(edited: map<string, string>, changes: map<string, seq<Change>>)

  datatype Synchronized = Unsynced | Synced(files: map<string, string>, evidence: map<string, Record>)

  /** One `_edit` of a declared file. */
  function EditOne(files: map<string, string>, plan: Plan, d: Declaration): Edited {
    if d.path !in files || ProjectedValue(plan, d).None? then Refused
    else Edit(files[d.path], d.format, ProjectedValue(plan, d).value)
  }

  function Note(changes: map<string, seq<Change>>, path: string, change: Change): map<string, seq<Change>> {
    changes[path := (if path in changes then changes[path] else []) + [change]]
  }

  function WorkOne(work: Work, plan: Plan, d: Declaration): Option<Work> {
    match EditOne(work.edited, plan, d)
    case Refused => None
    case Edited(text, previous) =>
      if ProjectedValue(plan, d).None? then None
      else Some(Work(work.edited[d.path := text], Note(work.changes, d.path, Change(d, ProjectedValue(plan, d).value, previous))))
  }

  /** The first loop: every declaration edits what the ones before it left. */
  function WorkAll(work: Work, plan: Plan, declarations: seq<Declaration>): Option<Work>
    decreases |declarations|
  {
    if declarations == [] then Some(work)
    else match WorkOne(work, plan, declarations[0])
      case None => None
      case Some(next) => WorkAll(next, plan, declarations[1..])
  }

  /** The second loop: no declaration has anything left to edit. */
  predicate Settled(files: map<string, string>, plan: Plan, d: Declaration) {
    var e := EditOne(files, plan, d);
    e.Edited? && d.path in files && e.text == files[d.path]
  }

  predicate AllSettled(files: map<string, string>, plan: Plan, declarations: seq<Declaration>) {
    forall i :: 0 <= i < |declarations| ==> Settled(files, plan, declarations[i])
  }

  function Evidence(files: map<string, string>, work: Work): map<string, Record>
    requires work.changes.Keys <= files.Keys && work.changes.Keys <= work.edited.Keys
  {
    map p | p in work.changes :: Record(files[p], work.edited[p], files[p] != work.edited[p], work.changes[p])
  }

  predicate Drifts(evidence: map<string, Record>) {
    exists p :: p in evidence && evidence[p].changed
  }

  lemma {:induction false} WorkAllKeys(work: Work, plan: Plan, declarations: seq<Declaration>)
    requires work.changes.Keys <= work.edited.Keys && WorkAll(work, plan, declarations).Some?
    ensures WorkAll(work, plan, declarations).value.edited.Keys == work.edited.Keys
    ensures WorkAll(work, plan, declarations).value.changes.Keys <= work.edited.Keys
    decreases |declarations|
  {
    hide Edit, ProjectedValue;
    if declarations != [] {
      WorkAllKeys(WorkOne(work, plan, declarations[0]).value, plan, declarations[1..]);
    }
  }

  /** `sync_versions` on the files of one checkout. */
  function Sync(files: map<string, string>, policy: Policy, plan: Plan, check: bool): Synchronized {
    if !ValidPlanFor(plan, policy, plan.source) then Unsynced
    else match WorkAll(Work(files, map[]), plan, policy.files)
      case None => Unsynced
      case Some(work) =>
        WorkAllKeys(Work(files, map[]), plan, policy.files);
        var evidence := Evidence(files, work);
        if !AllSettled(work.edited, plan, policy.files) then Unsynced
        else if check && Drifts(evidence) then Unsynced
        else Synced(work.edited, evidence)
  }

  // ---------------------------------------------------------- what an accepted run means

  /** The declared file reads the projected value in every field the declaration selects. */
  ghost predicate ReadsPlan(files: map<string, string>, plan: Plan, d: Declaration) {
    && d.path in files && Decode(files[d.path]).Decoded?
    && Owned(Decode(files[d.path]).value, d.format)
    && ProjectedValue(plan, d).Some?
    && Reads(Decode(files[d.path]).value, Selects(Decode(files[d.path]).value, d.format), ProjectedValue(plan, d).value)
  }

  /** The second loop checks exactly that. */
  lemma SettledReads(files: map<string, string>, plan: Plan, d: Declaration)
    ensures Settled(files, plan, d) <==> ReadsPlan(files, plan, d)
  {
    hide Edit, Decode, Owned, Selects, ProjectedValue, Get, Coerce;
    if d.path in files && ProjectedValue(plan, d).Some? {
      var text, value := files[d.path], ProjectedValue(plan, d).value;
      EditIsRefused(text, d.format, value);
      if Edit(text, d.format, value).Edited? {
        EditSettles(text, d.format, value);
      }
    }
  }

  /** Files touched, file names and all other files stay. */
  lemma {:induction false} WorkAllFrames(work: Work, plan: Plan, declarations: seq<Declaration>, path: string)
    requires WorkAll(work, plan, declarations).Some?
    requires forall i :: 0 <= i < |declarations| ==> declarations[i].path != path
    ensures var w := WorkAll(work, plan, declarations).value;
      && (path in w.edited <==> path in work.edited)
      && (path in w.edited ==> w.edited[path] == work.edited[path])
      && (path in w.changes <==> path in work.changes)
    decreases |declarations|
  {
    hide Edit, ProjectedValue;
    if declarations != [] {
      assert declarations[0].path != path;
      WorkAllFrames(WorkOne(work, plan, declarations[0]).value, plan, declarations[1..], path);
    }
  }

  /** Editing settled files changes nothing. */
  lemma {:induction false} SettledWork(work: Work, plan: Plan, declarations: seq<Declaration>)
    requires AllSettled(work.edited, plan, declarations)
    ensures WorkAll(work, plan, declarations).Some?
    ensures WorkAll(work, plan, declarations).value.edited == work.edited
    decreases |declarations|
  {
    hide Edit, ProjectedValue;
    if declarations != [] {
      var d := declarations[0];
      assert Settled(work.edited, plan, d);
      var next := WorkOne(work, plan, d).value;
      assert next.edited == work.edited;
      SettledWork(next, plan, declarations[1..]);
    }
  }

  ghost predicate Declared(declarations: seq<Declaration>, path: string) {
    exists i :: 0 <= i < |declarations| && declarations[i].path == path
  }

  /** When it accepts, every declared selector reads its projected value, and undeclared files are untouched. */
  lemma {:induction false} AcceptedFilesReadThePlan(files: map<string, string>, policy: Policy, plan: Plan, check: bool)
    requires Sync(files, policy, plan, check).Synced?
    ensures var files' := Sync(files, policy, plan, check).files;
      && files'.Keys == files.Keys
      && (forall d :: d in policy.files ==> ReadsPlan(files', plan, d))
      && (forall p :: p in files && !Declared(policy.files, p) ==> files'[p] == files[p])
  {
    hide WorkAll, Settled, ReadsPlan, ValidPlanFor;
    var work := Work(files, map[]);
    WorkAllKeys(work, plan, policy.files);
    var files' := Sync(files, policy, plan, check).files;
    forall d | d in policy.files ensures ReadsPlan(files', plan, d) {
      SettledReads(files', plan, d);
    }
    forall p | p in files && !Declared(policy.files, p) ensures files'[p] == files[p] {
      WorkAllFrames(work, plan, policy.files, p);
    }
  }

  lemma {:induction false} WorkChanges(work: Work, plan: Plan, declarations: seq<Declaration>)
    requires WorkAll(work, plan, declarations).Some?
    ensures forall p :: p in WorkAll(work, plan, declarations).value.changes <==> p in work.changes || Declared(declarations, p)
    decreases |declarations|
  {
    hide Edit, ProjectedValue;
    if declarations != [] {
      var next := WorkOne(work, plan, declarations[0]).value;
      var rest := declarations[1..];
      WorkChanges(next, plan, rest);
      forall p ensures Declared(declarations, p) <==> p == declarations[0].path || Declared(rest, p) {
        if Declared(rest, p) {
          var i :| 0 <= i < |rest| && rest[i].path == p;
          assert declarations[i + 1].path == p;
        }
        if Declared(declarations, p) && p != declarations[0].path {
          var i :| 0 <= i < |declarations| && declarations[i].path == p;
          assert rest[i - 1].path == p;
        }
      }
    }
  }

  /** The evidence names exactly the declared files, with their texts before and after. */
  lemma {:induction false} EvidenceIsComplete(files: map<string, string>, policy: Policy, plan: Plan, check: bool)
    requires Sync(files, policy, plan, check).Synced?
    ensures var r := Sync(files, policy, plan, check);
      && r.files.Keys == files.Keys
      && (forall p :: p in r.evidence <==> Declared(policy.files, p))
      && (forall p :: p in r.evidence ==>
            p in files && r.evidence[p].before == files[p] && r.evidence[p].after == r.files[p]
            && (r.evidence[p].changed <==> r.files[p] != files[p]))
      && (!Drifts(r.evidence) <==> r.files == files)
  {
    hide WorkAll, Settled, ValidPlanFor;
    var work := Work(files, map[]);
    WorkAllKeys(work, plan, policy.files);
    WorkChanges(work, plan, policy.files);
    AcceptedFilesReadThePlan(files, policy, plan, check);
    var r := Sync(files, policy, plan, check);
    if !Drifts(r.evidence) {
      forall p | p in files ensures r.files[p] == files[p] {
        if Declared(policy.files, p) { assert p in r.evidence; }
      }
      assert r.files == files;
    }
  }

  /** The declarations of one file, in order. */
  function Of(path: string, declarations: seq<Declaration>): seq<Declaration> {
    if declarations == [] then []
    else (if declarations[0].path == path then [declarations[0]] else []) + Of(path, declarations[1..])
  }

  function ChangesOf(work: Work, path: string): seq<Change> {
    if path in work.changes then work.changes[path] else []
  }

  /** The changes edit `before` one after the other into `after`, each for the next of the declarations, with its
  projected value, and reporting what that edit reported. */
  ghost predicate Replays(plan: Plan, before: string, changes: seq<Change>, declarations: seq<Declaration>, after: string)
    decreases |changes|
  {
    if changes == [] then declarations == [] && before == after
    else
      var c := changes[0];
      && declarations != [] && c.declaration == declarations[0]
      && ProjectedValue(plan, c.declaration) == Some(c.value)
      && var e := Edit(before, c.declaration.format, c.value);
      e.Edited? && e.previous == c.previous && Replays(plan, e.text, changes[1..], declarations[1..], after)
  }

  lemma {:induction false} ReplaysOneMore(plan: Plan, before: string, changes: seq<Change>, declarations: seq<Declaration>, after: string,
                                          c: Change, text: string)
    requires Replays(plan, before, changes, declarations, after)
    requires ProjectedValue(plan, c.declaration) == Some(c.value)
    requires Edit(after, c.declaration.format, c.value) == Edited(text, c.previous)
    ensures Replays(plan, before, changes + [c], declarations + [c.declaration], text)
    decreases |changes|
  {
    hide Edit, ProjectedValue;
    if changes == [] {
      assert changes + [c] == [c] && declarations + [c.declaration] == [c.declaration];
      assert [c][1..] == [] && [c.declaration][1..] == [];
      assert Replays(plan, text, [c][1..], [c.declaration][1..], text);
    } else {
      var next := Edit(before, changes[0].declaration.format, changes[0].value).text;
      ReplaysOneMore(plan, next, changes[1..], declarations[1..], after, c, text);
      assert (changes + [c])[1..] == changes[1..] + [c];
      assert (declarations + [c.declaration])[1..] == declarations[1..] + [c.declaration];
    }
  }

  lemma {:induction false} WorkReplays(work: Work, plan: Plan, declarations: seq<Declaration>, path: string, before: string, past: seq<Declaration>)
    requires WorkAll(work, plan, declarations).Some? && path in work.edited
    requires Replays(plan, before, ChangesOf(work, path), past, work.edited[path])
    ensures var w := WorkAll(work, plan, declarations).value;
      path in w.edited && Replays(plan, before, ChangesOf(w, path), past + Of(path, declarations), w.edited[path])
    decreases |declarations|
  {
    hide Edit, ProjectedValue, Replays;
    if declarations == [] {
      assert past + [] == past;
    } else {
      var d, rest := declarations[0], declarations[1..];
      var next := WorkOne(work, plan, d).value;
      if d.path == path {
        var e := EditOne(work.edited, plan, d);
        ReplaysOneMore(plan, before, ChangesOf(work, path), past, work.edited[path], Change(d, ProjectedValue(plan, d).value, e.previous), e.text);
        WorkReplays(next, plan, rest, path, before, past + [d]);
        assert past + [d] + Of(path, rest) == past + Of(path, declarations);
      } else {
        WorkReplays(next, plan, rest, path, before, past);
        assert Of(path, declarations) == Of(path, rest);
      }
    }
  }

  /** The evidence of a file can be replayed: its recorded fields are its declarations in order, each with its
  projected value and what that edit found, and together they turn the text before into the text after. */
  lemma {:induction false} EvidenceReplays(files: map<string, string>, policy: Policy, plan: Plan, check: bool, path: string)
    requires Sync(files, policy, plan, check).Synced? && path in Sync(files, policy, plan, check).evidence
    ensures var record := Sync(files, policy, plan, check).evidence[path];
      Replays(plan, record.before, record.fields, Of(path, policy.files), record.after)
  {
    hide WorkAll, Settled, ValidPlanFor, Replays, Of;
    var work := Work(files, map[]);
    WorkAllKeys(work, plan, policy.files);
    NothingReplayed(plan, files[path]);
    WorkReplays(work, plan, policy.files, path, files[path], []);
    assert [] + Of(path, policy.files) == Of(path, policy.files);
  }

  lemma NothingReplayed(plan: Plan, text: string)
    ensures Replays(plan, text, [], [], text)
  {
  }

  /** Running it again, with or without `check`, accepts and finds no drift. */
  lemma {:induction false} SyncIsIdempotent(files: map<string, string>, policy: Policy, plan: Plan, check: bool, again: bool)
    requires Sync(files, policy, plan, check).Synced?
    ensures var files' := Sync(files, policy, plan, check).files;
      && Sync(files', policy, plan, again).Synced?
      && Sync(files', policy, plan, again).files == files'
      && !Drifts(Sync(files', policy, plan, again).evidence)
  {
    hide WorkAll, Settled, ValidPlanFor;
    var files' := Sync(files, policy, plan, check).files;
    NoDriftWhenSettled(files', policy, plan, again);
  }

  lemma NoDriftWhenSettled(files: map<string, string>, policy: Policy, plan: Plan, check: bool)
    requires ValidPlanFor(plan, policy, plan.source) && AllSettled(files, plan, policy.files)
    ensures Sync(files, policy, plan, check).Synced? && Sync(files, policy, plan, check).files == files
    ensures !Drifts(Sync(files, policy, plan, check).evidence)
  {
    hide WorkAll, Settled, ValidPlanFor;
    var work := Work(files, map[]);
    SettledWork(work, plan, policy.files);
    WorkAllKeys(work, plan, policy.files);
  }

  /** `check` accepts exactly the files that already read the plan. */
  lemma CheckIsExact(files: map<string, string>, policy: Policy, plan: Plan)
    ensures Sync(files, policy, plan, true).Synced? <==>
      ValidPlanFor(plan, policy, plan.source) && forall d :: d in policy.files ==> ReadsPlan(files, plan, d)
  {
    hide WorkAll, Settled, ReadsPlan, ValidPlanFor;
    if Sync(files, policy, plan, true).Synced? {
      EvidenceIsComplete(files, policy, plan, true);
      AcceptedFilesReadThePlan(files, policy, plan, true);
    } else if ValidPlanFor(plan, policy, plan.source) && forall d :: d in policy.files ==> ReadsPlan(files, plan, d) {
      forall i | 0 <= i < |policy.files| ensures Settled(files, plan, policy.files[i]) {
        SettledReads(files, plan, policy.files[i]);
      }
      NoDriftWhenSettled(files, policy, plan, true);
      assert false;
    }
  }

  // ------------------------------------------------------------------- conflicts

  /** `text'` came from `text` by edits: the same fields, of the same kinds. */
  ghost predicate Alike(text: string, text': string) {
    || text == text'
    || (Decode(text).Decoded? && Decode(text').Decoded? && SameShape(Decode(text).value, Decode(text').value))
  }

  ghost predicate AllAlike(files: map<string, string>, files': map<string, string>) {
    files.Keys == files'.Keys && forall p :: p in files ==> Alike(files[p], files'[p])
  }

  lemma AlikeChains(t: string, u: string, v: string)
    requires Alike(t, u) && Alike(u, v)
    ensures Alike(t, v)
  {
    hide Decode, Get;
  }

  /** Edited files select the same fields as before. */
  lemma SameSelection(text: string, text': string, format: Format)
    requires Alike(text, text') && Decode(text).Decoded?
    ensures Decode(text').Decoded? && Selects(Decode(text').value, format) == Selects(Decode(text).value, format)
  {
    hide Decode;
    if text != text' {
      var data, data' := Decode(text).value, Decode(text').value;
      ListsByShape(data, data');
    }
  }

  lemma GetOne(data: Json, key: string)
    ensures Get(data, [key]).Some? <==> data.Object? && key in data.fields
  {
    var field := [key];
    assert field[0] == key && field[1..] == [];
    if data.Object? && key in data.fields {
      assert Get(data, field) == Get(data.fields[key], []);
    }
  }

  lemma RootKind(data: Json, data': Json)
    requires SameShape(data, data')
    ensures SameKind(data, data')
  {
    assert Get(data, []) == Some(data);
  }

  lemma ListsByShape(data: Json, data': Json)
    requires SameShape(data, data')
    ensures ListsPackages(data) == ListsPackages(data')
  {
    hide Get;
    RootKind(data, data');
    GetOne(data, "packages");
    GetOne(data', "packages");
  }

  lemma EditIsAlike(files: map<string, string>, plan: Plan, d: Declaration)
    requires EditOne(files, plan, d).Edited?
    ensures d.path in files && Decode(files[d.path]).Decoded?
    ensures Alike(files[d.path], EditOne(files, plan, d).text)
    ensures AllAlike(files, files[d.path := EditOne(files, plan, d).text])
  {
    hide Edit, Decode, SameShape, ProjectedValue;
    EditKeepsShape(files[d.path], d.format, ProjectedValue(plan, d).value);
  }

  lemma AllAlikeChains(a: map<string, string>, b: map<string, string>, c: map<string, string>)
    requires AllAlike(a, b) && AllAlike(b, c)
    ensures AllAlike(a, c)
  {
    hide Alike;
    forall p | p in a ensures Alike(a[p], c[p]) { AlikeChains(a[p], b[p], c[p]); }
  }

  lemma {:induction false} WorkIsAlike(work: Work, plan: Plan, declarations: seq<Declaration>)
    requires WorkAll(work, plan, declarations).Some?
    ensures AllAlike(work.edited, WorkAll(work, plan, declarations).value.edited)
    decreases |declarations|
  {
    hide EditOne, AllAlike, ProjectedValue;
    if declarations == [] {
      AllAlikeItself(work.edited);
    } else {
      var next := WorkOne(work, plan, declarations[0]).value;
      EditIsAlike(work.edited, plan, declarations[0]);
      WorkIsAlike(next, plan, declarations[1..]);
      AllAlikeChains(work.edited, next.edited, WorkAll(next, plan, declarations[1..]).value.edited);
    }
  }

  lemma AllAlikeItself(files: map<string, string>)
    ensures AllAlike(files, files)
  {
  }

  /** Two declarations select one scalar of one file and want it to print differently. */
  ghost predicate Conflict(files: map<string, string>, plan: Plan, d: Declaration, e: Declaration) {
    && d.path == e.path && d.path in files && Decode(files[d.path]).Decoded?
    && ProjectedValue(plan, d).Some? && ProjectedValue(plan, e).Some?
    && ValueText(ProjectedValue(plan, d).value) != ValueText(ProjectedValue(plan, e).value)
    && exists f :: f in Selects(Decode(files[d.path]).value, d.format) && f in Selects(Decode(files[d.path]).value, e.format)
  }

  lemma OneReadingOneText(v: Plans.Value, w: Plans.Value, x: Json)
    requires Coerce(v, x) == Some(x) && Coerce(w, x) == Some(x)
    ensures ValueText(v) == ValueText(w)
  {
  }

  lemma ReadsField(data: Json, fields: seq<seq<string>>, value: Plans.Value, f: seq<string>)
    requires Reads(data, fields, value) && f in fields
    ensures Get(data, f).Some? && Coerce(value, Get(data, f).value) == Some(Get(data, f).value)
  {
    hide Get, Coerce;
    var i :| 0 <= i < |fields| && fields[i] == f;
  }

  lemma NoConflictWhenRead(files: map<string, string>, plan: Plan, d: Declaration, e: Declaration)
    requires ReadsPlan(files, plan, d) && ReadsPlan(files, plan, e)
    ensures !Conflict(files, plan, d, e)
  {
    hide Decode, Selects, Get, Coerce, ProjectedValue, ValueText, Reads, Owned;
    if Conflict(files, plan, d, e) {
      var data := Decode(files[d.path]).value;
      var f :| f in Selects(data, d.format) && f in Selects(data, e.format);
      ReadsField(data, Selects(data, d.format), ProjectedValue(plan, d).value, f);
      ReadsField(data, Selects(data, e.format), ProjectedValue(plan, e).value, f);
      OneReadingOneText(ProjectedValue(plan, d).value, ProjectedValue(plan, e).value, Get(data, f).value);
    }
  }

  lemma ConflictStays(files: map<string, string>, files': map<string, string>, plan: Plan, d: Declaration, e: Declaration)
    requires AllAlike(files, files') && Conflict(files, plan, d, e)
    ensures Conflict(files', plan, d, e)
  {
    hide Decode, Selects, ProjectedValue, ValueText, Alike;
    SameSelection(files[d.path], files'[d.path], d.format);
    SameSelection(files[d.path], files'[d.path], e.format);
  }

  /** Selectors that disagree about one scalar are always rejected: there is no last writer. */
  lemma {:induction false} ConflictsAreRejected(files: map<string, string>, policy: Policy, plan: Plan, check: bool, d: Declaration, e: Declaration)
    requires d in policy.files && e in policy.files && Conflict(files, plan, d, e)
    ensures Sync(files, policy, plan, check) == Unsynced
  {
    hide WorkAll, AllAlike, Conflict, ReadsPlan, Settled, ValidPlanFor;
    if Sync(files, policy, plan, check).Synced? {
      AcceptedFilesReadThePlan(files, policy, plan, check);
      var files' := Sync(files, policy, plan, check).files;
      WorkIsAlike(Work(files, map[]), plan, policy.files);
      ConflictStays(files, files', plan, d, e);
      NoConflictWhenRead(files', plan, d, e);
      assert false;
    }
  }

  /** `other` is a scalar of the file that no declaration of this file selects. */
  ghost predicate Unselected(text: string, declarations: seq<Declaration>, path: string, other: seq<string>) {
    && Decode(text).Decoded? && Get(Decode(text).value, other).Some? && IsScalar(Get(Decode(text).value, other).value)
    && forall d :: d in declarations && d.path == path ==> other !in Selects(Decode(text).value, d.format)
  }

  lemma EditKeepsUnselected(files: map<string, string>, plan: Plan, d: Declaration, declarations: seq<Declaration>, path: string, other: seq<string>)
    requires EditOne(files, plan, d).Edited? && path in files && d in declarations
    requires Unselected(files[path], declarations, path, other)
    ensures var files' := files[d.path := EditOne(files, plan, d).text];
      Unselected(files'[path], declarations, path, other)
      && Get(Decode(files'[path]).value, other) == Get(Decode(files[path]).value, other)
  {
    hide Edit, Decode, Selects, Get, ProjectedValue, PutAll, AtOnce, Selected, Owned, Coerce, IsScalar;
    if d.path == path {
      EditIsExact(files[path], d.format, ProjectedValue(plan, d).value);
      EditIsAlike(files, plan, d);
      var text' := EditOne(files, plan, d).text;
      forall e | e in declarations && e.path == path ensures other !in Selects(Decode(text').value, e.format) {
        SameSelection(files[path], text', e.format);
      }
    }
  }

  lemma {:induction false} WorkKeepsUnselected(work: Work, plan: Plan, declarations: seq<Declaration>, path: string, other: seq<string>)
    requires WorkAll(work, plan, declarations).Some? && path in work.edited
    requires Unselected(work.edited[path], declarations, path, other)
    ensures var edited := WorkAll(work, plan, declarations).value.edited;
      && path in edited && Decode(edited[path]).Decoded?
      && Get(Decode(edited[path]).value, other) == Get(Decode(work.edited[path]).value, other)
    decreases |declarations|
  {
    hide EditOne, Decode, Selects, Get, ProjectedValue, IsScalar;
    if declarations != [] {
      var d, rest := declarations[0], declarations[1..];
      EditKeepsUnselected(work.edited, plan, d, declarations, path, other);
      WorkKeepsUnselected(WorkOne(work, plan, d).value, plan, rest, path, other);
    }
  }

  /** An accepted run changes nothing but what is declared: every other scalar of a file reads as before. */
  lemma {:induction false} AcceptedFilesKeepTheRest(files: map<string, string>, policy: Policy, plan: Plan, check: bool, path: string, other: seq<string>)
    requires Sync(files, policy, plan, check).Synced? && path in files
    requires Unselected(files[path], policy.files, path, other)
    ensures var files' := Sync(files, policy, plan, check).files;
      && path in files' && Decode(files'[path]).Decoded?
      && Get(Decode(files'[path]).value, other) == Get(Decode(files[path]).value, other)
  {
    hide WorkAll, Unselected, Settled, ValidPlanFor, Decode, Get;
    WorkKeepsUnselected(Work(files, map[]), plan, policy.files, path, other);
  }

  // ------------------------------------------------------------------- the program

  lemma {:induction false} WorkAllEnds(work: Work, plan: Plan, declarations: seq<Declaration>, n: nat)
    requires n < |declarations|
    ensures WorkAll(work, plan, declarations[..n + 1]) ==
      match WorkAll(work, plan, declarations[..n])
      case None => None
      case Some(w) => WorkOne(w, plan, declarations[n])
    ensures WorkAll(work, plan, declarations[..n + 1]).None? ==> WorkAll(work, plan, declarations).None?
    decreases |declarations|
  {
    hide WorkOne;
    assert declarations[..n + 1][1..] == declarations[1..][..n];
    match WorkOne(work, plan, declarations[0])
    case None =>
    case Some(next) =>
      if n > 0 {
        WorkAllEnds(next, plan, declarations[1..], n - 1);
        assert declarations[..n][1..] == declarations[1..][..n - 1];
      } else {
        assert declarations[..1][1..] == [];
      }
  }

  lemma EditOneIs(files: map<string, string>, edited: map<string, string>, plan: Plan, d: Declaration)
    requires edited.Keys <= files.Keys
    ensures d.path !in files || ProjectedValue(plan, d).None? ==> EditOne(files + edited, plan, d).Refused?
    ensures d.path in edited && ProjectedValue(plan, d).Some? ==>
      EditOne(files + edited, plan, d) == Edit(edited[d.path], d.format, ProjectedValue(plan, d).value)
    ensures d.path in files && d.path !in edited ==> files + edited == files + edited[d.path := files[d.path]]
  {
    hide Edit, ProjectedValue;
  }

  lemma WorkOneIs(files: map<string, string>, edited: map<string, string>, changes: map<string, seq<Change>>, plan: Plan, d: Declaration,
                  text: string, previous: seq<Json>)
    requires edited.Keys == changes.Keys <= files.Keys && d.path in edited && ProjectedValue(plan, d).Some?
    requires EditOne(files + edited, plan, d) == Edited(text, previous)
    ensures WorkOne(Work(files + edited, changes), plan, d)
      == Some(Work(files + edited[d.path := text],
                   changes[d.path := changes[d.path] + [Change(d, ProjectedValue(plan, d).value, previous)]]))
  {
    hide EditOne, ProjectedValue;
    assert (files + edited)[d.path := text] == files + edited[d.path := text];
  }

  /** Meeting a file for the first time records no change yet. */
  lemma FirstMeeting(edited: map<string, string>, changes: map<string, seq<Change>>, plan: Plan, d: Declaration)
    requires d.path !in changes
    ensures WorkOne(Work(edited, changes), plan, d) == WorkOne(Work(edited, changes[d.path := []]), plan, d)
  {
    hide EditOne, ProjectedValue;
    match EditOne(edited, plan, d)
    case Refused =>
    case Edited(text, previous) =>
      if ProjectedValue(plan, d).Some? {
        var change := Change(d, ProjectedValue(plan, d).value, previous);
        assert Note(changes, d.path, change) == Note(changes[d.path := []], d.path, change);
      }
  }

  /** The second loop of `sync_versions`. */
  method CheckSelectors(files: map<string, string>, edited: map<string, string>, declarations: seq<Declaration>, plan: Plan) returns (settled: bool)
    requires edited.Keys <= files.Keys && forall j :: 0 <= j < |declarations| ==> declarations[j].path in edited
    ensures settled <==> AllSettled(files + edited, plan, declarations)
  {
    hide EditOne, Edit, Settled, ProjectedValue;
    for i := 0 to |declarations|
      invariant forall j :: 0 <= j < i ==> Settled(files + edited, plan, declarations[j])
    {
      var d := declarations[i];
      EditOneIs(files, edited, plan, d);
      SettledIs(files + edited, plan, d);
      var value := ProjectedValue(plan, d);
      if value.None? {
        return false;
      }
      var e := JsonEdit.JsonEdit(edited[d.path], d.format, value.value);
      if e.Refused? || e.text != edited[d.path] {
        return false;
      }
    }
    return true;
  }

  /** `edited` and `changes` have the same files, all of them among `files` and with their original texts noted. */
  ghost predicate Met(files: map<string, string>, originals: map<string, string>, edited: map<string, string>,
                      changes: map<string, seq<Change>>)
  {
    && originals.Keys == edited.Keys == changes.Keys <= files.Keys
    && forall p :: p in originals ==> originals[p] == files[p]
  }

  /** One turn of the first loop of `sync_versions`. */
  method EditDeclared(files: map<string, string>, originals: map<string, string>, edited: map<string, string>,
                      changes: map<string, seq<Change>>, d: Declaration, plan: Plan)
    returns (ok: bool, originals': map<string, string>, edited': map<string, string>, changes': map<string, seq<Change>>)
    requires Met(files, originals, edited, changes)
    ensures ok <==> WorkOne(Work(files + edited, changes), plan, d).Some?
    ensures ok ==> WorkOne(Work(files + edited, changes), plan, d) == Some(Work(files + edited', changes'))
    ensures ok ==> Met(files, originals', edited', changes') && edited'.Keys == edited.Keys + {d.path}
  {
    hide WorkOne, EditOne, Edit, ProjectedValue;
    originals', edited', changes' := originals, edited, changes;
    EditOneIs(files, edited, plan, d);
    var value := ProjectedValue(plan, d);
    if d.path !in files || value.None? {
      RefusedWork(Work(files + edited, changes), plan, d);
      return false, originals, edited, changes;
    }
    if d.path !in originals {
      FirstMeeting(files + edited, changes, plan, d);
      originals' := originals'[d.path := files[d.path]];
      edited' := edited'[d.path := originals'[d.path]];
      changes' := changes'[d.path := []];
      EditOneIs(files, edited', plan, d);
    }
    var e := JsonEdit.JsonEdit(edited'[d.path], d.format, value.value);
    if e.Refused? {
      RefusedWork(Work(files + edited', changes'), plan, d);
      return false, originals, edited, changes;
    }
    WorkOneIs(files, edited', changes', plan, d, e.text, e.previous);
    edited' := edited'[d.path := e.text];
    changes' := changes'[d.path := changes'[d.path] + [Change(d, value.value, e.previous)]];
    ok := true;
  }

  /** The first loop of `sync_versions`; `originals`, `edited` and `changes` grow as files are met. */
  method EditFiles(files: map<string, string>, declarations: seq<Declaration>, plan: Plan)
    returns (ok: bool, originals: map<string, string>, edited: map<string, string>, changes: map<string, seq<Change>>)
    ensures ok <==> WorkAll(Work(files, map[]), plan, declarations).Some?
    ensures ok ==> WorkAll(Work(files, map[]), plan, declarations) == Some(Work(files + edited, changes))
    ensures ok ==> Met(files, originals, edited, changes)
    ensures ok ==> forall j :: 0 <= j < |declarations| ==> declarations[j].path in edited
  {
    hide WorkAll, WorkOne;
    ok, originals, edited, changes := true, map[], map[], map[];
    ghost var start := Work(files, map[]);
    NothingDone(start, plan, declarations);
    assert files + edited == files;
    for i := 0 to |declarations|
      invariant ok && WorkAll(start, plan, declarations[..i]) == Some(Work(files + edited, changes))
      invariant Met(files, originals, edited, changes)
      invariant forall j :: 0 <= j < i ==> declarations[j].path in edited.Keys
    {
      WorkAllEnds(start, plan, declarations, i);
      ok, originals, edited, changes := EditDeclared(files, originals, edited, changes, declarations[i], plan);
      if !ok {
        return;
      }
    }
    assert declarations[..|declarations|] == declarations;
  }

  /** `sync_versions`. */
  method Synchronize(files: map<string, string>, policy: Policy, plan: Plan, check: bool) returns (r: Synchronized)
    ensures r == Sync(files, policy, plan, check)
  {
    hide WorkAll, Settled, ValidPlanFor;
    if !ValidPlanFor(plan, policy, plan.source) {
      return Unsynced;
    }
    var ok, originals, edited, changes := EditFiles(files, policy.files, plan);
    if !ok {
      return Unsynced;
    }
    var settled := CheckSelectors(files, edited, policy.files, plan);
    if !settled {
      return Unsynced;
    }
    var evidence := map p | p in originals :: Record(originals[p], edited[p], originals[p] != edited[p], changes[p]);
    assert evidence == Evidence(files, Work(files + edited, changes));
    var drift := exists p :: p in evidence && evidence[p].changed;
    if check && drift {
      return Unsynced;
    }
    return Synced(files + edited, evidence);
  }

  lemma NothingDone(work: Work, plan: Plan, declarations: seq<Declaration>)
    ensures WorkAll(work, plan, declarations[..0]) == Some(work)
  {
  }

  lemma RefusedWork(work: Work, plan: Plan, d: Declaration)
    requires EditOne(work.edited, plan, d).Refused?
    ensures WorkOne(work, plan, d).None?
  {
  }

  lemma SettledIs(files: map<string, string>, plan: Plan, d: Declaration)
    ensures Settled(files, plan, d) <==>
      EditOne(files, plan, d).Edited? && d.path in files && EditOne(files, plan, d).text == files[d.path]
  {
  }
}
