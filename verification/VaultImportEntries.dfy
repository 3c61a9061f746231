/** An import told from the entries of its manifest: which scalars it reads, what the row of each says, and when it runs
    to its end. */
module VaultImportEntries {
  import opened Basics
  import opened VaultImport
  import opened VaultImportLaws

  // ---------------------------------------------------------------- what an import reads

  /** An entry without a part number or without a readable file is passed over. */
  predicate IsRead(env: Env, e: Entry) {
    Strip(env.space, e.mpn) != "" && e.file.Some?
  }

  predicate IsRegistered(root: string) {
    root in ROOTS
  }

  /** The entry holds this scalar under this key of a section of the registry. */
  predicate Holds(env: Env, e: Entry, root: string, key: string, v: Scalar) {
    && IsRead(env, e) && IsRegistered(root) && root in e.file.value.sections
    && Field(key, Plain(v)) in e.file.value.sections[root]
  }

  /** The step of a scalar of an entry. */
  predicate IsStepOf(env: Env, e: Entry, s: Step) {
    && s.Write? && Holds(env, e, s.root, s.key, s.value)
    && s.mpn == Strip(env.space, e.mpn) && s.source == Strip(env.space, e.file.value.source)
  }

  predicate IsUpsertOf(env: Env, e: Entry, s: Step) {
    IsRead(env, e) && s == Upsert(Strip(env.space, e.mpn))
  }

  lemma {:induction false} SectionStepsAre(mpn: string, root: string, fields: seq<Field>, source: string, s: Step)
    ensures s in SectionSteps(mpn, root, fields, source) <==>
      s.Write? && s.mpn == mpn && s.root == root && s.source == source && Field(s.key, Plain(s.value)) in fields
    decreases |fields|
  {
    if fields != [] {
      SectionStepsAre(mpn, root, fields[..|fields| - 1], source, s);
      assert fields == fields[..|fields| - 1] + [fields[|fields| - 1]];
    }
  }

  lemma {:induction false} RootsStepsAre(mpn: string, x: Extraction, roots: seq<string>, source: string, s: Step)
    ensures s in RootsSteps(mpn, x, roots, source) <==>
      && s.Write? && s.mpn == mpn && s.root in roots && s.source == source
      && s.root in x.sections && Field(s.key, Plain(s.value)) in x.sections[s.root]
    decreases |roots|
  {
    if roots != [] {
      var root := roots[|roots| - 1];
      RootsStepsAre(mpn, x, roots[..|roots| - 1], source, s);
      SectionStepsAre(mpn, root, FieldsOf(x, root), source, s);
      assert roots == roots[..|roots| - 1] + [root];
      hide SectionSteps;
    }
  }

  lemma EntryStepsAre(env: Env, e: Entry, s: Step)
    ensures s in EntrySteps(env, e) <==> IsUpsertOf(env, e, s) || IsStepOf(env, e, s)
  {
    hide Strip, RootsSteps;
    if IsRead(env, e) {
      RootsStepsAre(Strip(env.space, e.mpn), e.file.value, ROOTS, Strip(env.space, e.file.value.source), s);
    }
  }

  /** An import reads every scalar of every entry that is not passed over, and nothing else. */
  lemma {:induction false} StepsAreTheScalars(env: Env, entries: seq<Entry>, s: Step)
    ensures s in ImportSteps(env, entries) <==>
      exists e :: e in entries && (IsUpsertOf(env, e, s) || IsStepOf(env, e, s))
    decreases |entries|
  {
    hide EntrySteps, IsUpsertOf, IsStepOf;
    if entries != [] {
      var front, last := entries[..|entries| - 1], entries[|entries| - 1];
      StepsAreTheScalars(env, front, s);
      EntryStepsAre(env, last, s);
      assert forall e :: e in entries <==> e in front || e == last;
    }
  }

  // ---------------------------------------------------------------- in which order

  lemma {:induction false} SectionsInOrder(mpn: string, root: string, a: seq<Field>, b: seq<Field>, source: string)
    ensures SectionSteps(mpn, root, a + b, source) ==
      SectionSteps(mpn, root, a, source) + SectionSteps(mpn, root, b, source)
    decreases |b|
  {
    if b == [] {
      assert a + b == a;
    } else {
      assert (a + b)[..|a + b| - 1] == a + b[..|b| - 1];
      SectionsInOrder(mpn, root, a, b[..|b| - 1], source);
    }
  }

  lemma {:induction false} RootsInOrder(mpn: string, x: Extraction, a: seq<string>, b: seq<string>, source: string)
    ensures RootsSteps(mpn, x, a + b, source) == RootsSteps(mpn, x, a, source) + RootsSteps(mpn, x, b, source)
    decreases |b|
  {
    if b == [] {
      assert a + b == a;
    } else {
      assert (a + b)[..|a + b| - 1] == a + b[..|b| - 1];
      RootsInOrder(mpn, x, a, b[..|b| - 1], source);
    }
  }

  /** Entries are read in the order of the manifest. */
  lemma {:induction false} EntriesInOrder(env: Env, a: seq<Entry>, b: seq<Entry>)
    ensures ImportSteps(env, a + b) == ImportSteps(env, a) + ImportSteps(env, b)
    decreases |b|
  {
    hide EntrySteps;
    if b == [] {
      assert a + b == a;
    } else {
      assert (a + b)[..|a + b| - 1] == a + b[..|b| - 1];
      EntriesInOrder(env, a, b[..|b| - 1]);
    }
  }

  // ---------------------------------------------------------------- what a new row says

  /** The note of a row without a source, and of one with it. */
  function SourceNote(source: string): string {
    if source == "" then "client-cache-import" else "client-cache-import:" + source
  }

  /** The row of a scalar: its component, its canonical path, its value as a number or as text, where it came from, and
      that it is verified only if it came from somewhere. No other column is set. */
  ghost predicate RowSays(env: Env, row: Row, e: Entry, root: string, key: string, v: Scalar)
    requires e.file.Some?
  {
    var source := Strip(env.space, e.file.value.source);
    && row.component == env.keyOf(Strip(env.space, e.mpn)) && row.path == PathOf(root, StripRight(env.space, key))
    && SpecSays(row.spec, v, source)
  }

  ghost predicate SpecSays(s: Spec, v: Scalar, source: string) {
    && (match v
        case Number(x) => s.num == Some(x) && s.text == None
        case Text(t) => s.num == None && s.text == Some(t)
        case Bool(b) => s.num == None && s.text == Some(if b then "True" else "False"))
    && (s.verified <==> source != "") && s.note == Some(SourceNote(source))
    && s.unit == None && s.condition == None && s.chunk == None && s.min == None && s.typ == None && s.max == None
  }

  ghost predicate IsRowOfSome(env: Env, row: Row, entries: seq<Entry>) {
    exists e, root, key, v :: e in entries && Holds(env, e, root, key, v) && RowSays(env, row, e, root, key, v)
  }

  lemma NoteIsNotBlank(space: char -> bool, source: string)
    requires PlainText(space)
    ensures Strip(space, NoteOf(source)) != ""
  {
    assert NoteOf(source)[0] == 'c' && !space('c');
  }

  lemma NoteIs(source: string)
    ensures NoteOf(source) == SourceNote(source)
  {
    assert "client-cache-import:" + source == NOTE_PREFIX + ":" + source;
  }

  lemma ImportSpecSays(space: char -> bool, v: Scalar, source: string)
    requires PlainText(space)
    ensures SpecSays(Stored(space, ImportSpec(v, source)), v, source)
  {
    NoteIsNotBlank(space, source);
    NoteIs(source);
    hide Strip, NoteOf, SourceNote, PlainText;
  }

  lemma StepRowSays(env: Env, p: Progress, e: Entry, s: Step)
    requires PlainText(env.space) && IsStepOf(env, e, s) && |Take(env, p, s).rows| > |p.rows|
    ensures var q := Take(env, p, s);
      q.rows == p.rows + [q.rows[|p.rows|]] && RowSays(env, q.rows[|p.rows|], e, s.root, s.key, s.value)
  {
    assert FromRegistry(s);
    hide Take, PlainText, Strip, StripRight, Stored, ImportSpec, ConflictsWith, EndsWell, IsRegistered, FromRegistry,
      PathOf, SpecSays;
    ImportSpecSays(env.space, s.value, s.source);
    var row := WriteAdds(env, p, s);
  }

  lemma StepAddsAScalar(env: Env, p: Progress, entries: seq<Entry>, s: Step)
    requires PlainText(env.space) && s in ImportSteps(env, entries)
    ensures var q := Take(env, p, s);
      p.rows <= q.rows && forall i :: |p.rows| <= i < |q.rows| ==> IsRowOfSome(env, q.rows[i], entries)
  {
    hide ImportSteps, Take, RowSays, PlainText, IsRegistered, Strip;
    if s.Write? && |Take(env, p, s).rows| > |p.rows| {
      StepsAreTheScalars(env, entries, s);
      var e :| e in entries && (IsUpsertOf(env, e, s) || IsStepOf(env, e, s));
      StepRowSays(env, p, e, s);
      assert IsRowOfSome(env, Take(env, p, s).rows[|p.rows|], entries);
    } else {
      OtherwiseNoRow(env, p, s);
    }
  }

  lemma {:induction false} StepsAddScalars(env: Env, p: Progress, entries: seq<Entry>, steps: seq<Step>)
    requires PlainText(env.space) && forall s :: s in steps ==> s in ImportSteps(env, entries)
    ensures var q := TakeAll(env, p, steps);
      p.rows <= q.rows && forall i :: |p.rows| <= i < |q.rows| ==> IsRowOfSome(env, q.rows[i], entries)
    decreases |steps|
  {
    if steps != [] {
      hide ImportSteps, Take, IsRowOfSome, PlainText;
      var before, last := steps[..|steps| - 1], steps[|steps| - 1];
      StepsAddScalars(env, p, entries, before);
      StepAddsAScalar(env, TakeAll(env, p, before), entries, last);
    }
  }

  /** Whether it runs to its end or not: the rows that were there stay in front, and every row an import adds is that of
      a scalar of some entry, verified if and only if that entry names a source. */
  lemma EveryNewRowIsAScalar(env: Env, rows: seq<Row>, components: set<string>, entries: seq<Entry>)
    requires PlainText(env.space)
    ensures var p := Imported(env, rows, components, entries);
      rows <= p.rows && forall i :: |rows| <= i < |p.rows| ==> IsRowOfSome(env, p.rows[i], entries)
  {
    StepsAddScalars(env, Start(rows, components), entries, ImportSteps(env, entries));
  }

  // ---------------------------------------------------------------- every scalar has its row

  /** The row of an import that holds this scalar, or one equal to it as far as the duplicate check can tell. */
  ghost predicate IsRowFor(env: Env, row: Row, e: Entry, root: string, key: string, v: Scalar) {
    && row.component == env.keyOf(Strip(env.space, e.mpn)) && row.path == PathOf(root, StripRight(env.space, key))
    && SameValue(env, row, v) && IsImportNote(row.spec.note)
  }

  lemma RowIsThere(env: Env, rows: seq<Row>, e: Entry, s: Step) returns (i: nat)
    requires IsStepOf(env, e, s) && HasRow(env, rows, s)
    ensures i < |rows| && IsRowFor(env, rows[i], e, s.root, s.key, s.value)
  {
    hide Strip, StripRight, SameValue, IsImportNote, PathOf, IsRegistered;
    var path := PathOf(s.root, StripRight(env.space, s.key));
    i :| 0 <= i < |rows| && Duplicates(env, rows[i], env.keyOf(s.mpn), path, s.value);
  }

  /** After an import that ran to its end, every scalar of every entry has its row. */
  lemma EveryScalarIsFound(
      env: Env, rows: seq<Row>, components: set<string>, entries: seq<Entry>, e: Entry, root: string, key: string,
      v: Scalar) returns (i: nat)
    requires PlainText(env.space) && Canonical(env.space, rows)
    requires Imported(env, rows, components, entries).error == None
    requires e in entries && Holds(env, e, root, key, v)
    ensures i < |Imported(env, rows, components, entries).rows|
    ensures IsRowFor(env, Imported(env, rows, components, entries).rows[i], e, root, key, v)
  {
    hide Imported, ImportSteps, Strip, HasRow, PlainText, Canonical, IsRegistered, IsRowFor;
    var s := Write(Strip(env.space, e.mpn), root, key, v, Strip(env.space, e.file.value.source));
    assert IsStepOf(env, e, s);
    StepsAreTheScalars(env, entries, s);
    EveryScalarHasARow(env, rows, components, entries);
    i := RowIsThere(env, Imported(env, rows, components, entries).rows, e, s);
  }

  /** What the duplicate check takes for a note of an import: the prefix, whatever the case of its letters. */
  lemma ImportNotesAre(note: Option<string>)
    ensures IsImportNote(note) <==>
      note.Some? && |note.value| >= 19 && forall i ::
        0 <= i < 19 ==> LowerChar(note.value[i]) == "client-cache-import"[i]
  {
    assert forall i :: 0 <= i < 19 ==> LowerChar("client-cache-import"[i]) == "client-cache-import"[i];
  }

  /** A row of an import says the same under this path. */
  ghost predicate IsKnown(env: Env, rows: seq<Row>, component: string, path: string, v: Scalar) {
    exists i :: 0 <= i < |rows| &&
      rows[i].component == component && rows[i].path == path && SameValue(env, rows[i], v) &&
      IsImportNote(rows[i].spec.note)
  }

  lemma KnownIs(env: Env, rows: seq<Row>, component: string, path: string, v: Scalar)
    ensures IsKnown(env, rows, component, path, v) <==> HasDuplicate(env, rows, component, path, v)
  {
    hide SameValue, IsImportNote;
    if HasDuplicate(env, rows, component, path, v) {
      var i :| 0 <= i < |rows| && Duplicates(env, rows[i], component, path, v);
    }
    if IsKnown(env, rows, component, path, v) {
      var i :| 0 <= i < |rows| && rows[i].component == component && rows[i].path == path &&
        SameValue(env, rows[i], v) && IsImportNote(rows[i].spec.note);
      assert Duplicates(env, rows[i], component, path, v);
    }
  }

  /** A scalar is skipped exactly when a row of an import says the same under the path asked for; otherwise it is an
      error exactly when its key is blank, and else it is written. */
  lemma WriteSays(env: Env, p: Progress, mpn: string, root: string, key: string, v: Scalar, source: string)
    requires PlainText(env.space) && IsRegistered(root) && p.error == None
    ensures var q := Take(env, p, Write(mpn, root, key, v, source));
      var known, blank := IsKnown(env, p.rows, env.keyOf(mpn), PathOf(root, key), v), StripRight(env.space, key) == "";
      && (known ==> q == p.(skipped := p.skipped + 1))
      && (!known && blank ==> q == p.(error := Some(E401)))
      && (!known && !blank ==>
            && |q.rows| == |p.rows| + 1 && q.written == p.written + 1 && q.skipped == p.skipped && q.error == None
            && q.components == p.components && q.imported == p.imported)
  {
    TakeWriteIs(env, p, Write(mpn, root, key, v, source));
    KnownIs(env, p.rows, env.keyOf(mpn), PathOf(root, key), v);
    hide Take, PlainText, StripRight, Stored, ImportSpec, ConflictsWith, IsKnown, HasDuplicate, IsRegistered, PathOf;
  }

  // ---------------------------------------------------------------- what counts as a conflict

  /** Two rows disagree when their numbers do, or, if neither has one, their texts; a number and no number always do. */
  lemma DisagreeingSpecs(a: Spec, b: Spec)
    ensures ReportedOf(a) != ReportedOf(b) <==>
      if a.num.Some? || b.num.Some? then a.num != b.num else a.text != b.text
  {
  }

  // ---------------------------------------------------------------- when an import runs to its end

  /** No row's path is a root with nothing behind the dot. */
  predicate HasLeaves(rows: seq<Row>) {
    forall i :: 0 <= i < |rows| ==> !IsBareRoot(rows[i].path)
  }

  predicate IsBareRoot(path: string) {
    exists r :: r in ROOTS && path == r + "."
  }

  /** The scalar has a key that is not blank, the part number a key of its own. */
  predicate IsSound(env: Env, s: Step) {
    match s
    case Upsert(mpn) => env.keyOf(mpn) != env.emptyKey
    case Write(_, _, key, _, _) => StripRight(env.space, key) != ""
  }

  lemma LeafPathIsNoBareRoot(root: string, leaf: string, r: string)
    requires root in ROOTS && r in ROOTS && leaf != ""
    ensures PathOf(root, leaf) != r + "."
  {
    RootsByLengthAreTheRoots();
    if r != root {
      var j :| 0 <= j < |ROOTS_BY_LENGTH| && ROOTS_BY_LENGTH[j] == r;
      RootIsApartFrom(root, j);
      ApartRootDoesNotMatch(r, root, leaf);
    } else {
      assert |PathOf(root, leaf)| > |r + "."|;
    }
  }

  lemma LeafPathIsFine(root: string, leaf: string)
    requires root in ROOTS && leaf != ""
    ensures !IsBareRoot(PathOf(root, leaf))
  {
    hide PathOf;
    forall r | r in ROOTS ensures PathOf(root, leaf) != r + "." {
      LeafPathIsNoBareRoot(root, leaf, r);
    }
  }

  lemma TakeKeepsLeaves(env: Env, p: Progress, s: Step)
    requires PlainText(env.space) && FromRegistry(s) && HasLeaves(p.rows)
    ensures HasLeaves(Take(env, p, s).rows)
  {
    hide Take, IsBareRoot, PlainText, EndsWell, PathOf, StripRight, Stored, ImportSpec, IsKnown;
    if s.Write? && |Take(env, p, s).rows| > |p.rows| {
      var row := WriteAdds(env, p, s);
      LeafPathIsFine(s.root, StripRight(env.space, s.key));
    } else {
      OtherwiseNoRow(env, p, s);
    }
  }

  /** On rows as `write_spec` leaves them, a step fails exactly when it is not sound. */
  lemma StepFailsIff(env: Env, p: Progress, s: Step)
    requires PlainText(env.space) && FromRegistry(s) && Canonical(env.space, p.rows) && HasLeaves(p.rows)
    requires p.error == None
    ensures Take(env, p, s).error == None <==> IsSound(env, s)
    ensures Take(env, p, s).error in {None, Some(E101), Some(E401)}
  {
    if s.Write? {
      WriteSays(env, p, s.mpn, s.root, s.key, s.value, s.source);
      if StripRight(env.space, s.key) == "" {
        BlankIsNowhere(env, p.rows, s);
      }
      hide Take, PlainText, FromRegistry, Canonical, HasLeaves, PathOf, StripRight;
    } else {
      hide HasDuplicate, ResolvePath, Stored, ImportSpec, ConflictsWith;
    }
  }

  lemma BlankIsNowhere(env: Env, rows: seq<Row>, s: Step)
    requires PlainText(env.space) && Canonical(env.space, rows) && HasLeaves(rows)
    requires s.Write? && FromRegistry(s) && StripRight(env.space, s.key) == ""
    ensures !IsKnown(env, rows, env.keyOf(s.mpn), PathOf(s.root, s.key), s.value)
  {
    hide SameValue, IsImportNote;
    forall i | 0 <= i < |rows| ensures rows[i].path != PathOf(s.root, s.key) {
      assert EndsWell(env.space, rows[i].path) && !IsBareRoot(rows[i].path);
      if s.key == "" { assert PathOf(s.root, s.key) == s.root + "."; }
    }
  }

  lemma {:induction false} StepsFailIff(env: Env, p: Progress, steps: seq<Step>)
    requires PlainText(env.space) && Canonical(env.space, p.rows) && HasLeaves(p.rows) && p.error == None
    requires forall s :: s in steps ==> FromRegistry(s)
    ensures var q := TakeAll(env, p, steps);
      && HasLeaves(q.rows) && Canonical(env.space, q.rows) && q.error in {None, Some(E101), Some(E401)}
      && (q.error == None <==> forall s {:trigger IsSound(env, s)} :: s in steps ==> IsSound(env, s))
    decreases |steps|
  {
    hide Take, IsSound, FromRegistry, Canonical, HasLeaves, PlainText;
    if steps != [] {
      var before, last := steps[..|steps| - 1], steps[|steps| - 1];
      var q := TakeAll(env, p, before);
      StepsFailIff(env, p, before);
      assert FromRegistry(last);
      TakeKeepsCanonical(env, q, last);
      TakeKeepsLeaves(env, q, last);
      assert steps == before + [last];
      if q.error == None {
        StepFailsIff(env, q, last);
      } else {
        ErrorStops(env, q, [last]);
        TakeOne(env, q, last);
      }
    }
  }

  /** Every entry that is read has a part number with a key, and every scalar in it a key that is not blank. */
  ghost predicate IsSoundManifest(env: Env, entries: seq<Entry>) {
    && (forall e :: e in entries && IsRead(env, e) ==> env.keyOf(Strip(env.space, e.mpn)) != env.emptyKey)
    && (forall e, root, key, v :: e in entries && Holds(env, e, root, key, v) ==> StripRight(env.space, key) != "")
  }

  lemma SoundStepsMakeASoundManifest(env: Env, entries: seq<Entry>)
    requires forall s {:trigger IsSound(env, s)} :: s in ImportSteps(env, entries) ==> IsSound(env, s)
    ensures IsSoundManifest(env, entries)
  {
    hide ImportSteps, Strip, StripRight, IsRegistered;
    forall e | e in entries && IsRead(env, e) ensures env.keyOf(Strip(env.space, e.mpn)) != env.emptyKey {
      var s := Upsert(Strip(env.space, e.mpn));
      assert IsUpsertOf(env, e, s);
      StepsAreTheScalars(env, entries, s);
      assert IsSound(env, s);
    }
    forall e, root, key, v | e in entries && Holds(env, e, root, key, v) ensures StripRight(env.space, key) != "" {
      var s := Write(Strip(env.space, e.mpn), root, key, v, Strip(env.space, e.file.value.source));
      assert IsStepOf(env, e, s);
      StepsAreTheScalars(env, entries, s);
      assert IsSound(env, s);
    }
  }

  lemma SoundManifestHasSoundSteps(env: Env, entries: seq<Entry>, s: Step)
    requires IsSoundManifest(env, entries) && s in ImportSteps(env, entries)
    ensures IsSound(env, s)
  {
    StepsAreTheScalars(env, entries, s);
    hide ImportSteps, Strip, StripRight, IsRegistered;
    var e :| e in entries && (IsUpsertOf(env, e, s) || IsStepOf(env, e, s));
  }

  /** An import runs to its end exactly when its manifest is sound. */
  lemma ImportSucceedsIff(env: Env, rows: seq<Row>, components: set<string>, entries: seq<Entry>)
    requires PlainText(env.space) && Canonical(env.space, rows) && HasLeaves(rows)
    ensures Imported(env, rows, components, entries).error == None <==> IsSoundManifest(env, entries)
  {
    var steps := ImportSteps(env, entries);
    StepsFromRegistry(env, entries);
    StepsFailIff(env, Start(rows, components), steps);
    hide ImportSteps, TakeAll, IsSoundManifest, IsSound, PlainText, Canonical, HasLeaves, FromRegistry;
    if forall s {:trigger IsSound(env, s)} :: s in steps ==> IsSound(env, s) {
      SoundStepsMakeASoundManifest(env, entries);
    }
    if IsSoundManifest(env, entries) {
      forall s {:trigger IsSound(env, s)} | s in steps ensures IsSound(env, s) {
        SoundManifestHasSoundSteps(env, entries, s);
      }
    }
  }

  // ---------------------------------------------------------------- components and counters

  function CountRead(env: Env, entries: seq<Entry>): nat {
    if entries == [] then 0
    else CountRead(env, entries[..|entries| - 1]) + if IsRead(env, entries[|entries| - 1]) then 1 else 0
  }

  function KeysRead(env: Env, entries: seq<Entry>): set<string> {
    set e | e in entries && IsRead(env, e) :: env.keyOf(Strip(env.space, e.mpn))
  }

  lemma WriteKeepsComponents(env: Env, p: Progress, s: Step)
    requires s.Write?
    ensures Take(env, p, s).components == p.components && Take(env, p, s).imported == p.imported
  {
    hide HasDuplicate, ResolvePath, Stored, ImportSpec, ConflictsWith, PathOf;
  }

  lemma {:induction false} WritesKeepComponents(env: Env, p: Progress, steps: seq<Step>)
    requires forall s :: s in steps ==> s.Write?
    ensures TakeAll(env, p, steps).components == p.components && TakeAll(env, p, steps).imported == p.imported
    decreases |steps|
  {
    if steps != [] {
      var before, last := steps[..|steps| - 1], steps[|steps| - 1];
      assert last in steps;
      WritesKeepComponents(env, p, before);
      WriteKeepsComponents(env, TakeAll(env, p, before), last);
      hide Take;
    }
  }

  lemma UpsertIs(env: Env, p: Progress, mpn: string)
    requires Take(env, p, Upsert(mpn)).error == None
    ensures var q := Take(env, p, Upsert(mpn));
      p.error == None && q.imported == p.imported + 1 && q.components == p.components + {env.keyOf(mpn)}
  {
  }

  lemma RestIsWrites(env: Env, mpn: string, x: Extraction, source: string)
    ensures forall s :: s in RootsSteps(mpn, x, ROOTS, source) ==> s.Write?
  {
    forall s | s in RootsSteps(mpn, x, ROOTS, source) ensures s.Write? {
      RootsStepsAre(mpn, x, ROOTS, source, s);
    }
  }

  lemma EntryReads(env: Env, p: Progress, mpn: string, rest: seq<Step>)
    requires TakeAll(env, p, [Upsert(mpn)] + rest).error == None && forall s :: s in rest ==> s.Write?
    ensures var q := TakeAll(env, p, [Upsert(mpn)] + rest);
      p.error == None && q.imported == p.imported + 1 && q.components == p.components + {env.keyOf(mpn)}
  {
    UpsertFirst(env, p, mpn, rest);
    var u := Take(env, p, Upsert(mpn));
    if u.error.Some? { ErrorStops(env, u, rest); }
    WritesKeepComponents(env, u, rest);
    hide Take, TakeAll;
    UpsertIs(env, p, mpn);
  }

  /** What an entry adds to the components: its key, if it is read. */
  function KeyRead(env: Env, e: Entry): set<string> {
    if IsRead(env, e) then {env.keyOf(Strip(env.space, e.mpn))} else {}
  }

  lemma EntryImports(env: Env, p: Progress, e: Entry)
    requires TakeAll(env, p, EntrySteps(env, e)).error == None
    ensures var q := TakeAll(env, p, EntrySteps(env, e));
      && p.error == None && q.components == p.components + KeyRead(env, e)
      && q.imported == p.imported + if IsRead(env, e) then 1 else 0
  {
    hide TakeAll, RootsSteps, Strip;
    if IsRead(env, e) {
      var mpn, source := Strip(env.space, e.mpn), Strip(env.space, e.file.value.source);
      RestIsWrites(env, mpn, e.file.value, source);
      EntryReads(env, p, mpn, RootsSteps(mpn, e.file.value, ROOTS, source));
    } else {
      NoStepsTaken(env, p);
    }
  }

  lemma KeysOfOneMore(env: Env, front: seq<Entry>, last: Entry)
    ensures KeysRead(env, front + [last]) == KeysRead(env, front) + KeyRead(env, last)
  {
    hide Strip;
    var entries := front + [last];
    assert forall e :: e in entries <==> e in front || e == last;
    forall e | e in entries && IsRead(env, e)
      ensures env.keyOf(Strip(env.space, e.mpn)) in KeysRead(env, front) + KeyRead(env, last)
    {
    }
  }

  /** An import that ran to its end counts the entries it read and has put in place the component of each. */
  lemma {:induction false} ImportedComponents(env: Env, p: Progress, entries: seq<Entry>)
    requires TakeAll(env, p, ImportSteps(env, entries)).error == None
    ensures var q := TakeAll(env, p, ImportSteps(env, entries));
      && p.error == None && q.imported == p.imported + CountRead(env, entries)
      && q.components == p.components + KeysRead(env, entries)
    decreases |entries|
  {
    hide TakeAll, EntrySteps, IsRead, Strip, KeyRead;
    if entries == [] {
      NoStepsTaken(env, p);
      assert KeysRead(env, entries) == {};
    } else {
      var front, last := entries[..|entries| - 1], entries[|entries| - 1];
      TakeAllInTwo(env, p, ImportSteps(env, front), EntrySteps(env, last));
      EntryImports(env, TakeAll(env, p, ImportSteps(env, front)), last);
      ImportedComponents(env, p, front);
      hide KeysRead;
      assert entries == front + [last];
      KeysOfOneMore(env, front, last);
    }
  }
}
