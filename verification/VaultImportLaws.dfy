/** What an import guarantees: nothing is lost or changed, conflicts are reported exactly, and when a second import of
    the same cache adds nothing. */
module VaultImportLaws {
  import opened Basics
  import opened VaultImport

  function Start(rows: seq<Row>, components: set<string>): Progress {
    Progress(rows, components, 0, 0, 0, [], None)
  }

  /** The import of a manifest into tables as they are. */
  function Imported(env: Env, rows: seq<Row>, components: set<string>, entries: seq<Entry>): Progress {
    TakeAll(env, Start(rows, components), ImportSteps(env, entries))
  }

  // ---------------------------------------------------------------- rows only grow

  lemma {:induction false} RowsOnlyGrow(env: Env, p: Progress, steps: seq<Step>)
    ensures p.rows <= TakeAll(env, p, steps).rows
    decreases |steps|
  {
    if steps != [] {
      RowsOnlyGrow(env, p, steps[..|steps| - 1]);
    }
  }

  lemma DuplicateStays(env: Env, rows: seq<Row>, later: seq<Row>, component: string, path: string, v: Scalar)
    requires rows <= later && HasDuplicate(env, rows, component, path, v)
    ensures HasDuplicate(env, later, component, path, v)
  {
    var i :| 0 <= i < |rows| && Duplicates(env, rows[i], component, path, v);
    assert Duplicates(env, later[i], component, path, v);
  }

  // ---------------------------------------------------------------- where the steps come from

  predicate FromRegistry(step: Step) {
    step.Write? ==> step.root in ROOTS
  }

  lemma {:induction false} SectionFromRegistry(mpn: string, root: string, fields: seq<Field>, source: string)
    requires root in ROOTS
    ensures forall s :: s in SectionSteps(mpn, root, fields, source) ==> FromRegistry(s)
    decreases |fields|
  {
    if fields != [] {
      SectionFromRegistry(mpn, root, fields[..|fields| - 1], source);
    }
  }

  lemma {:induction false} RootsFromRegistry(mpn: string, x: Extraction, roots: seq<string>, source: string)
    requires forall r :: r in roots ==> r in ROOTS
    ensures forall s :: s in RootsSteps(mpn, x, roots, source) ==> FromRegistry(s)
    decreases |roots|
  {
    if roots != [] {
      hide FromRegistry;
      var root := roots[|roots| - 1];
      RootsFromRegistry(mpn, x, roots[..|roots| - 1], source);
      SectionFromRegistry(mpn, root, FieldsOf(x, root), source);
    }
  }

  lemma EntryFromRegistry(env: Env, e: Entry)
    ensures forall s :: s in EntrySteps(env, e) ==> FromRegistry(s)
  {
    if e.file.Some? {
      var mpn, source := Strip(env.space, e.mpn), Strip(env.space, e.file.value.source);
      RootsFromRegistry(mpn, e.file.value, ROOTS, source);
      hide RootsSteps, Strip;
      assert FromRegistry(Upsert(mpn));
      hide FromRegistry;
      var rest := RootsSteps(mpn, e.file.value, ROOTS, source);
      assert forall s :: s in [Upsert(mpn)] + rest ==> s == Upsert(mpn) || s in rest;
    }
  }

  lemma {:induction false} StepsFromRegistry(env: Env, entries: seq<Entry>)
    ensures forall s :: s in ImportSteps(env, entries) ==> FromRegistry(s)
    decreases |entries|
  {
    if entries != [] {
      hide FromRegistry, EntrySteps;
      var front, last := entries[..|entries| - 1], entries[|entries| - 1];
      StepsFromRegistry(env, front);
      EntryFromRegistry(env, last);
      assert ImportSteps(env, entries) == ImportSteps(env, front) + EntrySteps(env, last);
    }
  }

  // ---------------------------------------------------------------- canonical paths

  /** White space after a key is the only thing the registry takes off a path. */
  predicate Tidy(space: char -> bool, step: Step) {
    step.Write? ==> StripRight(space, step.key) == step.key
  }

  predicate EndsWell(space: char -> bool, path: string) {
    path != [] && !space(path[|path| - 1])
  }

  /** What `write_spec` stores, for every row of the table. */
  predicate Canonical(space: char -> bool, rows: seq<Row>) {
    forall i :: 0 <= i < |rows| ==> EndsWell(space, rows[i].path)
  }

  lemma CanonicalPath(space: char -> bool, root: string, key: string)
    requires PlainText(space) && root in ROOTS
    ensures ResolvePath(space, PathOf(root, key)).Some? ==>
      && ResolvePath(space, PathOf(root, key)) == Some(PathOf(root, StripRight(space, key)))
      && EndsWell(space, PathOf(root, StripRight(space, key)))
    ensures EndsWell(space, PathOf(root, key)) ==> StripRight(space, key) == key
  {
    SectionPathResolves(space, root, key);
    PathEndsAsKey(root, key);
    PathEndsAsKey(root, StripRight(space, key));
    StripsNothing(space, key);
    hide ResolvePath, PathOf, PlainText;
  }

  lemma PathEndsAsKey(root: string, key: string)
    ensures PathOf(root, key) != [] && (key != [] ==> PathOf(root, key)[|PathOf(root, key)| - 1] == key[|key| - 1])
  {
  }

  lemma StripsNothing(space: char -> bool, key: string)
    ensures key == [] || !space(key[|key| - 1]) <==> StripRight(space, key) == key
  {
  }

  /** The step of a scalar, with the path resolved. */
  lemma TakeWriteIs(env: Env, p: Progress, step: Step)
    requires PlainText(env.space) && FromRegistry(step) && step.Write? && p.error == None
    ensures var component, path := env.keyOf(step.mpn), PathOf(step.root, step.key);
      var leaf := StripRight(env.space, step.key);
      var row := Row(component, PathOf(step.root, leaf), Stored(env.space, ImportSpec(step.value, step.source)));
      Take(env, p, step) ==
        if HasDuplicate(env, p.rows, component, path, step.value) then p.(skipped := p.skipped + 1)
        else if leaf == "" then p.(error := Some(E401))
        else p.(rows := p.rows + [row], written := p.written + 1,
                conflicts := p.conflicts + ConflictsWith(p.rows, path, row, |p.rows|))
  {
    SectionPathResolves(env.space, step.root, step.key);
    hide HasDuplicate, ResolvePath, PathOf, PlainText, StripRight, Stored, ImportSpec, ConflictsWith, FromRegistry;
  }

  /** What a written scalar adds: a row under the canonical path, and the conflicts found under the path asked for. */
  lemma WriteAdds(env: Env, p: Progress, step: Step) returns (row: Row)
    requires PlainText(env.space) && FromRegistry(step) && step.Write?
    requires |Take(env, p, step).rows| > |p.rows|
    ensures var q, path := Take(env, p, step), PathOf(step.root, step.key);
      && q.rows == p.rows + [row] && q.conflicts == p.conflicts + ConflictsWith(p.rows, path, row, |p.rows|)
      && EndsWell(env.space, row.path) && (row.path == path || !EndsWell(env.space, path))
      && row == Row(env.keyOf(step.mpn), PathOf(step.root, StripRight(env.space, step.key)),
                    Stored(env.space, ImportSpec(step.value, step.source)))
      && StripRight(env.space, step.key) != ""
  {
    assert p.error == None;
    TakeWriteIs(env, p, step);
    hide Take;
    CanonicalPath(env.space, step.root, step.key);
    SectionPathResolves(env.space, step.root, step.key);
    hide HasDuplicate, ResolvePath, PathOf, PlainText, StripRight, Stored, ImportSpec, EndsWell, ConflictsWith,
      FromRegistry;
    var stored := PathOf(step.root, StripRight(env.space, step.key));
    row := Row(env.keyOf(step.mpn), stored, Stored(env.space, ImportSpec(step.value, step.source)));
  }

  /** A step that adds no row leaves the rows alone. */
  lemma OtherwiseNoRow(env: Env, p: Progress, step: Step)
    requires step.Write? ==> |Take(env, p, step).rows| <= |p.rows|
    ensures Take(env, p, step).rows == p.rows && Take(env, p, step).conflicts == p.conflicts
  {
    hide HasDuplicate, ResolvePath, PathOf, Stored, ImportSpec, ConflictsWith;
  }

  lemma TakeKeepsCanonical(env: Env, p: Progress, step: Step)
    requires PlainText(env.space) && FromRegistry(step) && Canonical(env.space, p.rows)
    ensures Canonical(env.space, Take(env, p, step).rows)
  {
    hide Take, PlainText, FromRegistry, EndsWell;
    if step.Write? && |Take(env, p, step).rows| > |p.rows| {
      var row := WriteAdds(env, p, step);
    } else {
      OtherwiseNoRow(env, p, step);
    }
  }

  lemma {:induction false} TakeAllKeepsCanonical(env: Env, p: Progress, steps: seq<Step>)
    requires PlainText(env.space) && Canonical(env.space, p.rows) && forall s :: s in steps ==> FromRegistry(s)
    ensures Canonical(env.space, TakeAll(env, p, steps).rows)
    decreases |steps|
  {
    if steps != [] {
      var before := steps[..|steps| - 1];
      TakeAllKeepsCanonical(env, p, before);
      assert steps[|steps| - 1] in steps;
      TakeKeepsCanonical(env, TakeAll(env, p, before), steps[|steps| - 1]);
    }
  }

  // ---------------------------------------------------------------- every scalar has its row

  /** A row of this component and canonical path that an import wrote, with the value as the duplicate check sees it. */
  predicate HasRow(env: Env, rows: seq<Row>, step: Step)
    requires step.Write?
  {
    HasDuplicate(env, rows, env.keyOf(step.mpn), PathOf(step.root, StripRight(env.space, step.key)), step.value)
  }

  lemma NewRowDuplicates(env: Env, rows: seq<Row>, component: string, path: string, v: Scalar, source: string)
    ensures HasDuplicate(env, rows + [Row(component, path, Stored(env.space, ImportSpec(v, source)))], component, path,
      v)
  {
    var row := Row(component, path, Stored(env.space, ImportSpec(v, source)));
    assert NoteOf(source)[..|NOTE_PREFIX|] == NOTE_PREFIX;
    assert forall i :: 0 <= i < |NOTE_PREFIX| ==> NoteOf(source)[i] == NoteOf(source)[..|NOTE_PREFIX|][i];
    assert Duplicates(env, row, component, path, v);
    assert (rows + [row])[|rows|] == row;
  }

  lemma TakeLeavesRow(env: Env, p: Progress, step: Step)
    requires PlainText(env.space) && FromRegistry(step) && Canonical(env.space, p.rows) && step.Write?
    requires Take(env, p, step).error == None
    ensures HasRow(env, Take(env, p, step).rows, step)
  {
    var component, path := env.keyOf(step.mpn), PathOf(step.root, step.key);
    CanonicalPath(env.space, step.root, step.key);
    if HasDuplicate(env, p.rows, component, path, step.value) {
      var i :| 0 <= i < |p.rows| && Duplicates(env, p.rows[i], component, path, step.value);
      assert EndsWell(env.space, p.rows[i].path);
    } else {
      hide HasDuplicate;
      NewRowDuplicates(env, p.rows, component, PathOf(step.root, StripRight(env.space, step.key)), step.value,
        step.source);
    }
  }

  lemma {:induction false} TakeAllLeavesRows(env: Env, p: Progress, steps: seq<Step>, s: Step)
    requires PlainText(env.space) && Canonical(env.space, p.rows) && forall x :: x in steps ==> FromRegistry(x)
    requires TakeAll(env, p, steps).error == None && s in steps && s.Write?
    ensures HasRow(env, TakeAll(env, p, steps).rows, s)
    decreases |steps|
  {
    var before, last := steps[..|steps| - 1], steps[|steps| - 1];
    var q := TakeAll(env, p, before);
    assert last in steps;
    TakeAllKeepsCanonical(env, p, before);
    if s == last {
      TakeLeavesRow(env, q, last);
    } else {
      TakeAllLeavesRows(env, p, before, s);
      DuplicateStays(env, q.rows, Take(env, q, last).rows, env.keyOf(s.mpn),
        PathOf(s.root, StripRight(env.space, s.key)), s.value);
    }
  }

  /** After an import that ran to its end, every scalar of the manifest has a row, and the rows that were there are as
      they were, in front. */
  lemma EveryScalarHasARow(env: Env, rows: seq<Row>, components: set<string>, entries: seq<Entry>)
    requires PlainText(env.space) && Canonical(env.space, rows)
    requires Imported(env, rows, components, entries).error == None
    ensures var p := Imported(env, rows, components, entries);
      && rows <= p.rows
      && (forall s :: s in ImportSteps(env, entries) && s.Write? ==> HasRow(env, p.rows, s))
  {
    var steps := ImportSteps(env, entries);
    StepsFromRegistry(env, entries);
    RowsOnlyGrow(env, Start(rows, components), steps);
    forall s | s in steps && s.Write? ensures HasRow(env, Imported(env, rows, components, entries).rows, s) {
      TakeAllLeavesRows(env, Start(rows, components), steps, s);
    }
  }

  // ---------------------------------------------------------------- importing again

  /** A step that cannot fail on these rows, nor on more rows. */
  predicate Harmless(env: Env, rows: seq<Row>, step: Step) {
    match step
    case Upsert(mpn) => env.keyOf(mpn) != env.emptyKey
    case Write(mpn, root, key, v, _) =>
      HasDuplicate(env, rows, env.keyOf(mpn), PathOf(root, key), v) || ResolvePath(env.space, PathOf(root, key)).Some?
  }

  lemma HarmlessStays(env: Env, rows: seq<Row>, later: seq<Row>, step: Step)
    requires rows <= later && Harmless(env, rows, step)
    ensures Harmless(env, later, step)
  {
    hide HasDuplicate, ResolvePath;
    if step.Write? && HasDuplicate(env, rows, env.keyOf(step.mpn), PathOf(step.root, step.key), step.value) {
      DuplicateStays(env, rows, later, env.keyOf(step.mpn), PathOf(step.root, step.key), step.value);
    }
  }

  /** An import that ran to its end shows that each of its steps is harmless. */
  lemma {:induction false} SuccessShowsHarmless(env: Env, p: Progress, steps: seq<Step>, s: Step)
    requires TakeAll(env, p, steps).error == None && s in steps
    ensures Harmless(env, TakeAll(env, p, steps).rows, s)
    decreases |steps|
  {
    var before, last := steps[..|steps| - 1], steps[|steps| - 1];
    var q := TakeAll(env, p, before);
    hide ResolvePath, HasDuplicate;
    if s == last {
      assert q.error == None;
      HarmlessStays(env, q.rows, Take(env, q, last).rows, last);
    } else {
      SuccessShowsHarmless(env, p, before, s);
      HarmlessStays(env, q.rows, Take(env, q, last).rows, s);
    }
  }

  lemma {:induction false} HarmlessStepsSucceed(env: Env, p: Progress, steps: seq<Step>)
    requires p.error == None && forall s {:trigger Harmless(env, p.rows, s)} :: s in steps ==> Harmless(env, p.rows, s)
    ensures TakeAll(env, p, steps).error == None
    decreases |steps|
  {
    if steps != [] {
      var before, last := steps[..|steps| - 1], steps[|steps| - 1];
      assert Harmless(env, p.rows, last);
      HarmlessStepsSucceed(env, p, before);
      RowsOnlyGrow(env, p, before);
      HarmlessStays(env, p.rows, TakeAll(env, p, before).rows, last);
      hide ResolvePath, HasDuplicate;
    }
  }

  /** The duplicate check finds this scalar. */
  predicate Settled(env: Env, rows: seq<Row>, step: Step) {
    step.Write? ==> HasDuplicate(env, rows, env.keyOf(step.mpn), PathOf(step.root, step.key), step.value)
  }

  lemma {:induction false} SettledStepsAddNothing(env: Env, p: Progress, steps: seq<Step>)
    requires forall s {:trigger Settled(env, p.rows, s)} :: s in steps ==> Settled(env, p.rows, s)
    ensures TakeAll(env, p, steps).rows == p.rows
    decreases |steps|
  {
    if steps != [] {
      assert Settled(env, p.rows, steps[|steps| - 1]);
      SettledStepsAddNothing(env, p, steps[..|steps| - 1]);
      hide ResolvePath, HasDuplicate;
    }
  }

  /** A key with white space behind it is stored without it, so the duplicate check, which looks for it with it, finds
      nothing and the row is written again. */
  lemma UntidyIsWrittenAgain(env: Env, p: Progress, step: Step)
    requires PlainText(env.space) && FromRegistry(step) && Canonical(env.space, p.rows) && !Tidy(env.space, step)
    requires p.error == None && Harmless(env, p.rows, step)
    ensures |Take(env, p, step).rows| == |p.rows| + 1
  {
    var component, path := env.keyOf(step.mpn), PathOf(step.root, step.key);
    CanonicalPath(env.space, step.root, step.key);
    forall i | 0 <= i < |p.rows| ensures !Duplicates(env, p.rows[i], component, path, step.value) {
      assert EndsWell(env.space, p.rows[i].path);
    }
  }

  lemma {:induction false} UntidyStepsGrow(env: Env, p: Progress, steps: seq<Step>, s: Step)
    requires PlainText(env.space) && Canonical(env.space, p.rows) && forall x :: x in steps ==> FromRegistry(x)
    requires p.error == None && forall x {:trigger Harmless(env, p.rows, x)} :: x in steps ==> Harmless(env, p.rows, x)
    requires s in steps && !Tidy(env.space, s)
    ensures |TakeAll(env, p, steps).rows| > |p.rows|
    decreases |steps|
  {
    var before, last := steps[..|steps| - 1], steps[|steps| - 1];
    var q := TakeAll(env, p, before);
    RowsOnlyGrow(env, p, before);
    if s == last {
      TakeAllKeepsCanonical(env, p, before);
      assert Harmless(env, p.rows, last);
      HarmlessStepsSucceed(env, p, before);
      HarmlessStays(env, p.rows, q.rows, last);
      assert FromRegistry(last);
      UntidyIsWrittenAgain(env, q, last);
    } else {
      UntidyStepsGrow(env, p, before, s);
      assert q.rows <= Take(env, q, last).rows;
    }
  }

  /** Importing the same cache again adds nothing, exactly when no scalar's key has white space behind it. */
  lemma SecondImportAddsNothingIffTidy(env: Env, rows: seq<Row>, components: set<string>, entries: seq<Entry>)
    requires PlainText(env.space) && Canonical(env.space, rows)
    requires Imported(env, rows, components, entries).error == None
    ensures var once := Imported(env, rows, components, entries);
      var twice := Imported(env, once.rows, once.components, entries);
      && twice.error == None
      && (twice.rows == once.rows <==> forall s :: s in ImportSteps(env, entries) ==> Tidy(env.space, s))
  {
    var steps := ImportSteps(env, entries);
    var p := Start(rows, components);
    var once := TakeAll(env, p, steps);
    var again := Start(once.rows, once.components);
    StepsFromRegistry(env, entries);
    forall s {:trigger Harmless(env, once.rows, s)} | s in steps ensures Harmless(env, once.rows, s) {
      SuccessShowsHarmless(env, p, steps, s);
    }
    HarmlessStepsSucceed(env, again, steps);
    if s :| s in steps && !Tidy(env.space, s) {
      TakeAllKeepsCanonical(env, p, steps);
      UntidyStepsGrow(env, again, steps, s);
    } else {
      forall s {:trigger Settled(env, once.rows, s)} | s in steps ensures Settled(env, once.rows, s) {
        assert Tidy(env.space, s);
        if s.Write? { TakeAllLeavesRows(env, p, steps, s); }
      }
      SettledStepsAddNothing(env, again, steps);
    }
  }

  // ---------------------------------------------------------------- the conflict report

  lemma {:induction false} ConflictsWithAre(rows: seq<Row>, path: string, row: Row, id: nat, c: Conflict)
    ensures c in ConflictsWith(rows, path, row, id) <==>
      && c.imported == id && c.existing < |rows| && rows[c.existing].component == row.component &&
           rows[c.existing].path == path
      && ReportedOf(rows[c.existing].spec) != ReportedOf(row.spec)
    decreases |rows|
  {
    if rows != [] {
      ConflictsWithAre(rows[..|rows| - 1], path, row, id, c);
    }
  }

  /** The path each new row was asked for under, before white space was taken off it. */
  function PathsAsked(env: Env, p: Progress, steps: seq<Step>): seq<string>
    decreases |steps|
  {
    if steps == [] then []
    else
      var before, last := steps[..|steps| - 1], steps[|steps| - 1];
      PathsAsked(env, p, before) + PathAsked(env, TakeAll(env, p, before), last)
  }

  function PathAsked(env: Env, p: Progress, step: Step): seq<string> {
    if step.Write? && |Take(env, p, step).rows| > |p.rows| then [PathOf(step.root, step.key)] else []
  }

  /** An earlier row and a newly written one disagree. */
  predicate IsConflict(rows: seq<Row>, from: nat, c: Conflict) {
    from <= c.imported < |rows| && c.existing < c.imported && Disagree(rows[c.existing], rows[c.imported])
  }

  /** The report names exactly the pairs that disagree whose new row is stored under the path it was asked for under. */
  ghost predicate Reports(conflicts: seq<Conflict>, rows: seq<Row>, from: nat, asked: seq<string>) {
    && |rows| == from + |asked|
    && (forall c {:trigger IsConflict(rows, from, c)} ::
         c in conflicts <==> IsConflict(rows, from, c) && asked[c.imported - from] == rows[c.imported].path)
  }

  /** A path with white space behind it is no row's path. */
  lemma UntidyHasNoConflicts(space: char -> bool, rows: seq<Row>, path: string, row: Row, id: nat, c: Conflict)
    requires Canonical(space, rows) && !EndsWell(space, path)
    ensures c !in ConflictsWith(rows, path, row, id)
  {
    ConflictsWithAre(rows, path, row, id, c);
    if c.existing < |rows| { assert EndsWell(space, rows[c.existing].path); }
  }

  /** One more row, and the conflicts found for it, keep the report exact. */
  lemma RowReports(
      space: char -> bool, conflicts: seq<Conflict>, rows: seq<Row>, from: nat, asked: seq<string>, path: string,
        row: Row)
    requires Canonical(space, rows) && from <= |rows| && Reports(conflicts, rows, from, asked)
    requires row.path == path || !EndsWell(space, path)
    ensures Reports(conflicts + ConflictsWith(rows, path, row, |rows|), rows + [row], from, asked + [path])
  {
    var found := ConflictsWith(rows, path, row, |rows|);
    forall c {:trigger IsConflict(rows + [row], from, c)}
      ensures c in conflicts + found <==>
        IsConflict(rows + [row], from, c) && (asked + [path])[c.imported - from] == (rows + [row])[c.imported].path
    {
      assert c in conflicts <==> IsConflict(rows, from, c) && asked[c.imported - from] == rows[c.imported].path;
      ConflictsWithAre(rows, path, row, |rows|, c);
      if row.path != path {
        UntidyHasNoConflicts(space, rows, path, row, |rows|, c);
      }
    }
  }

  lemma WriteReports(env: Env, p: Progress, step: Step, from: nat, asked: seq<string>)
    requires PlainText(env.space) && FromRegistry(step) && step.Write? && Canonical(env.space, p.rows)
    requires from <= |p.rows| && Reports(p.conflicts, p.rows, from, asked) && |Take(env, p, step).rows| > |p.rows|
    ensures Reports(Take(env, p, step).conflicts, Take(env, p, step).rows, from, asked + [PathOf(step.root, step.key)])
  {
    hide Take, Reports, Canonical, PlainText, PathOf, EndsWell, FromRegistry;
    var row := WriteAdds(env, p, step);
    RowReports(env.space, p.conflicts, p.rows, from, asked, PathOf(step.root, step.key), row);
  }

  lemma TakeReports(env: Env, p: Progress, step: Step, from: nat, asked: seq<string>)
    requires PlainText(env.space) && FromRegistry(step) && Canonical(env.space, p.rows)
    requires from <= |p.rows| && Reports(p.conflicts, p.rows, from, asked)
    ensures Reports(Take(env, p, step).conflicts, Take(env, p, step).rows, from, asked + PathAsked(env, p, step))
  {
    if step.Write? && |Take(env, p, step).rows| > |p.rows| {
      WriteReports(env, p, step, from, asked);
    } else {
      OtherwiseNoRow(env, p, step);
      hide Take, Reports;
      assert asked + [] == asked;
    }
  }

  lemma {:induction false} TakeAllReports(env: Env, p: Progress, steps: seq<Step>)
    requires PlainText(env.space) && Canonical(env.space, p.rows) && p.conflicts == []
    requires forall s :: s in steps ==> FromRegistry(s)
    ensures Reports(TakeAll(env, p, steps).conflicts, TakeAll(env, p, steps).rows, |p.rows|, PathsAsked(env, p, steps))
    decreases |steps|
  {
    if steps != [] {
      var before, last := steps[..|steps| - 1], steps[|steps| - 1];
      TakeAllReports(env, p, before);
      TakeAllKeepsCanonical(env, p, before);
      RowsOnlyGrow(env, p, before);
      assert FromRegistry(last);
      hide Reports, Take, Canonical;
      TakeReports(env, TakeAll(env, p, before), last, |p.rows|, PathsAsked(env, p, before));
    }
  }

  /** Both sides of every conflict are kept, and the report lists exactly the disagreeing pairs whose new row is stored
      under the path it was asked for under. */
  lemma ConflictsAreExact(env: Env, rows: seq<Row>, components: set<string>, entries: seq<Entry>)
    requires PlainText(env.space) && Canonical(env.space, rows)
    ensures var p := Imported(env, rows, components, entries);
      rows <= p.rows &&
        Reports(p.conflicts, p.rows, |rows|, PathsAsked(env, Start(rows, components), ImportSteps(env, entries)))
  {
    var steps := ImportSteps(env, entries);
    StepsFromRegistry(env, entries);
    RowsOnlyGrow(env, Start(rows, components), steps);
    TakeAllReports(env, Start(rows, components), steps);
  }

  /** Conflicts are listed by the new row and then by the earlier one, each once. */
  ghost predicate Listed(conflicts: seq<Conflict>, rows: nat) {
    && (forall i :: 0 <= i < |conflicts| ==> conflicts[i].imported < rows)
    && (forall i, j :: 0 <= i < j < |conflicts| ==>
          || conflicts[i].imported < conflicts[j].imported
          || (conflicts[i].imported == conflicts[j].imported && conflicts[i].existing < conflicts[j].existing))
  }

  lemma {:induction false} FoundInOrder(rows: seq<Row>, path: string, row: Row, id: nat)
    ensures forall i :: 0 <= i < |ConflictsWith(rows, path, row, id)| ==>
      ConflictsWith(rows, path, row, id)[i].imported == id && ConflictsWith(rows, path, row, id)[i].existing < |rows|
    ensures forall i, j :: 0 <= i < j < |ConflictsWith(rows, path, row, id)| ==>
      ConflictsWith(rows, path, row, id)[i].existing < ConflictsWith(rows, path, row, id)[j].existing
    decreases |rows|
  {
    if rows != [] {
      FoundInOrder(rows[..|rows| - 1], path, row, id);
    }
  }

  lemma TakeLists(env: Env, p: Progress, step: Step)
    requires PlainText(env.space) && FromRegistry(step) && Listed(p.conflicts, |p.rows|)
    ensures Listed(Take(env, p, step).conflicts, |Take(env, p, step).rows|)
  {
    hide Take, PlainText, EndsWell, PathOf, StripRight, Stored, ImportSpec, FromRegistry;
    if step.Write? && |Take(env, p, step).rows| > |p.rows| {
      var row := WriteAdds(env, p, step);
      FoundInOrder(p.rows, PathOf(step.root, step.key), row, |p.rows|);
      hide ConflictsWith;
    } else {
      OtherwiseNoRow(env, p, step);
    }
  }

  /** The report lists each conflict once, new row by new row. */
  lemma {:induction false} ConflictsAreListedInOrder(env: Env, p: Progress, steps: seq<Step>)
    requires PlainText(env.space) && Listed(p.conflicts, |p.rows|) && forall s :: s in steps ==> FromRegistry(s)
    ensures Listed(TakeAll(env, p, steps).conflicts, |TakeAll(env, p, steps).rows|)
    decreases |steps|
  {
    if steps != [] {
      hide Take, Listed, PlainText, FromRegistry;
      var before, last := steps[..|steps| - 1], steps[|steps| - 1];
      assert last in steps;
      ConflictsAreListedInOrder(env, p, before);
      TakeLists(env, TakeAll(env, p, before), last);
    }
  }

  /** A tidy key is stored as it was asked for. */
  lemma {:induction false} TidyPathsAreStored(env: Env, p: Progress, steps: seq<Step>)
    requires PlainText(env.space) && forall s :: s in steps ==> FromRegistry(s)
    requires forall s {:trigger Tidy(env.space, s)} :: s in steps ==> Tidy(env.space, s)
    ensures var q, asked := TakeAll(env, p, steps), PathsAsked(env, p, steps);
      |q.rows| == |p.rows| + |asked| && forall i :: 0 <= i < |asked| ==> asked[i] == q.rows[|p.rows| + i].path
    decreases |steps|
  {
    hide Take, PathAsked, Tidy, FromRegistry, PlainText;
    if steps != [] {
      var before, last := steps[..|steps| - 1], steps[|steps| - 1];
      TidyPathsAreStored(env, p, before);
      assert last in steps;
      TidyPathIsStored(env, TakeAll(env, p, before), last);
    }
  }

  lemma TidyPathIsStored(env: Env, q: Progress, step: Step)
    requires PlainText(env.space) && FromRegistry(step) && Tidy(env.space, step)
    ensures var rows, asked := Take(env, q, step).rows, PathAsked(env, q, step);
      && q.rows <= rows && |rows| == |q.rows| + |asked| && |asked| <= 1
      && (|asked| == 1 ==> asked[0] == rows[|q.rows|].path)
  {
    if step.Write? { CanonicalPath(env.space, step.root, step.key); }
    hide HasDuplicate, ResolvePath, PathOf, PlainText;
  }

  /** Without white space behind keys the report is all the disagreeing pairs and no others. */
  lemma TidyConflictsAreAll(env: Env, rows: seq<Row>, components: set<string>, entries: seq<Entry>)
    requires PlainText(env.space) && Canonical(env.space, rows)
    requires forall s {:trigger Tidy(env.space, s)} :: s in ImportSteps(env, entries) ==> Tidy(env.space, s)
    ensures var p := Imported(env, rows, components, entries);
      forall c {:trigger IsConflict(p.rows, |rows|, c)} :: c in p.conflicts <==> IsConflict(p.rows, |rows|, c)
  {
    ConflictsAreExact(env, rows, components, entries);
    StepsFromRegistry(env, entries);
    TidyPathsAreStored(env, Start(rows, components), ImportSteps(env, entries));
    var p := Imported(env, rows, components, entries);
    var asked := PathsAsked(env, Start(rows, components), ImportSteps(env, entries));
    hide TakeAll, ImportSteps, PathsAsked;
    forall c {:trigger IsConflict(p.rows, |rows|, c)} | IsConflict(p.rows, |rows|, c)
      ensures asked[c.imported - |rows|] == p.rows[c.imported].path
    {
      var i := c.imported - |rows|;
      assert 0 <= i < |asked|;
    }
  }

  // ---------------------------------------------------------------- counters

  function Writes(steps: seq<Step>): nat {
    if steps == [] then 0 else Writes(steps[..|steps| - 1]) + if steps[|steps| - 1].Write? then 1 else 0
  }

  /** Every scalar is either written, as one row, or skipped. */
  lemma {:induction false} CountersAddUp(env: Env, p: Progress, steps: seq<Step>)
    requires TakeAll(env, p, steps).error == None
    ensures var q := TakeAll(env, p, steps);
      q.written - p.written == |q.rows| - |p.rows| && (q.written - p.written) + (q.skipped - p.skipped) == Writes(steps)
    decreases |steps|
  {
    if steps != [] {
      CountersAddUp(env, p, steps[..|steps| - 1]);
      hide HasDuplicate, ResolvePath;
    }
  }

  /** The duplicate check takes two scalars for one exactly when they are equal, but for the number that stands for
      NULL, which it takes for the empty text. */
  lemma SameValueMeansEqual(env: Env, row: Row, v: Scalar, w: Scalar)
    requires row.spec.num == NumOf(v) && row.spec.text == TextOf(v)
    ensures SameValue(env, row, w) <==>
      (NumOf(v) == NumOf(w) && TextOf(v) == TextOf(w)) ||
      (v == Number(env.sentinel) && TextOf(w) == Some("")) || (w == Number(env.sentinel) && TextOf(v) == Some(""))
  {
  }
}
