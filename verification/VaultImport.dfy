/** Importing a client cache into the component vault: duplicates are skipped, conflicts keep both sides.

    An import is a list of steps, one for each component and each scalar it finds, folded over the tables. */
module VaultImport {
  import opened Basics

  datatype Code = E101 | E401 | E403 | E702 | E902

  /** What the program takes from elsewhere: which characters are white space, the canonical key of a part number, the
      key of an empty one, and the number that stands for NULL in the duplicate check. */
  datatype Env = Env(space: char -> bool, keyOf: string -> string, emptyKey: string, sentinel: real)

  // ---------------------------------------------------------------- paths

  /** The registry, in the order the sections of an extraction are read. */
  const ROOTS: seq<string> := [
    "absolute_maximum_ratings", "recommended_operating_conditions", "electrical_characteristics",
    "thermal_characteristics", "timing_characteristics", "power_topology",
    "spice_model.diode", "spice_model.ldo", "spice_model.passive"]

  /** The registry as a path is matched against it, longest first. */
  const ROOTS_BY_LENGTH: seq<string> := [
    "recommended_operating_conditions", "electrical_characteristics", "absolute_maximum_ratings",
    "thermal_characteristics", "timing_characteristics", "spice_model.passive",
    "spice_model.diode", "spice_model.ldo", "power_topology"]

  const ALIASES: map<string, string> := map[
    "vcc_min_v" := "recommended_operating_conditions.vin_min_v",
    "vcc_max_v" := "recommended_operating_conditions.vin_max_v",
    "vin_min_v" := "recommended_operating_conditions.vin_min_v",
    "vin_max_v" := "recommended_operating_conditions.vin_max_v",
    "vout_min_v" := "recommended_operating_conditions.vout_min_v",
    "vout_max_v" := "recommended_operating_conditions.vout_max_v",
    "vout_v" := "electrical_characteristics.vref_v",
    "vref_v" := "electrical_characteristics.vref_v",
    "dropout_mv" := "electrical_characteristics.dropout_mv",
    "iout_max_ma" := "electrical_characteristics.output_current_max_ma",
    "output_current_max_ma" := "electrical_characteristics.output_current_max_ma"]

  /** A root, a dot, and a leaf with something in it; a root alone ends the search. */
  function MatchRoot(path: string, roots: seq<string>): Option<string> {
    if roots == [] || path == roots[0] then None
    else if roots[0] + "." <= path && |path| > |roots[0]| + 1 then Some(path)
    else MatchRoot(path, roots[1..])
  }

  /** `resolve_field_path`; no result is VAULT-E401. */
  function ResolvePath(space: char -> bool, field: string): Option<string> {
    var stripped := Strip(space, field);
    var resolved := if stripped in ALIASES then ALIASES[stripped] else stripped;
    MatchRoot(resolved, ROOTS_BY_LENGTH)
  }

  function PathOf(root: string, key: string): string {
    root + "." + key
  }

  /** The characters of the registry are no white space. */
  predicate PlainText(space: char -> bool) {
    !space('.') && !space('_') && forall c :: 'a' <= c <= 'z' ==> !space(c)
  }

  lemma RootsByLengthAreTheRoots()
    ensures forall r :: r in ROOTS <==> r in ROOTS_BY_LENGTH
    ensures forall i, j :: 0 <= i < j < |ROOTS_BY_LENGTH| ==> |ROOTS_BY_LENGTH[i]| > |ROOTS_BY_LENGTH[j]|
  {
  }

  /** Two roots differ at the first, the second or the thirteenth character. */
  predicate Apart(a: string, b: string) {
    && |a| > 12 && |b| > 12
    && (a[0] != b[0] || a[1] != b[1] || a[12] != b[12])
  }

  lemma RootsAreApart(i: nat, j: nat)
    requires i < j < |ROOTS_BY_LENGTH|
    ensures Apart(ROOTS_BY_LENGTH[i], ROOTS_BY_LENGTH[j])
  {
  }

  lemma RootsArePlain(space: char -> bool, root: string)
    requires PlainText(space) && root in ROOTS_BY_LENGTH
    ensures root != [] && !space(root[0])
  {
  }

  lemma AliasesHaveNoDot(field: string)
    requires '.' in field
    ensures field !in ALIASES
  {
  }

  lemma ApartRootDoesNotMatch(other: string, root: string, leaf: string)
    requires Apart(other, root)
    ensures PathOf(root, leaf) != other && !(other + "." <= PathOf(root, leaf))
  {
    var path := PathOf(root, leaf);
    assert path[0] == root[0] && path[1] == root[1] && path[12] == root[12];
    assert (other + ".")[0] == other[0] && (other + ".")[1] == other[1] && (other + ".")[12] == other[12];
  }

  lemma {:induction false} MatchRootAt(roots: seq<string>, i: nat, root: string, leaf: string)
    requires i <= |roots| && root in roots
    requires forall j {:trigger roots[j]} :: i <= j < |roots| && roots[j] != root ==> Apart(roots[j], root)
    requires forall j, k :: 0 <= j < k < |roots| ==> roots[j] != roots[k]
    ensures MatchRoot(PathOf(root, leaf), roots[i..]) ==
      if leaf == "" || root !in roots[i..] then None else Some(PathOf(root, leaf))
    decreases |roots| - i
  {
    if i < |roots| {
      assert roots[i..][1..] == roots[i + 1..] && roots[i..][0] == roots[i];
      MatchRootAt(roots, i + 1, root, leaf);
      if roots[i] != root {
        ApartRootDoesNotMatch(roots[i], root, leaf);
        assert root in roots[i..] <==> root in roots[i + 1..];
      } else {
        assert root !in roots[i + 1..];
        assert root + "." <= PathOf(root, leaf);
      }
    }
  }

  lemma {:induction false} StripRightAfterDot(space: char -> bool, before: string, key: string)
    requires before != [] && !space(before[|before| - 1])
    ensures StripRight(space, before + key) == before + StripRight(space, key)
    decreases |key|
  {
    if key == [] {
      assert before + key == before;
    } else {
      var n := |before + key|;
      assert (before + key)[n - 1] == key[|key| - 1] && (before + key)[..n - 1] == before + key[..|key| - 1];
      if space(key[|key| - 1]) {
        StripRightAfterDot(space, before, key[..|key| - 1]);
      }
    }
  }

  /** The path of a section's key is registered unless the key is blank, and white space after the key does not
      count. */
  lemma SectionPathResolves(space: char -> bool, root: string, key: string)
    requires PlainText(space) && root in ROOTS
    ensures ResolvePath(space, PathOf(root, key)) ==
      if StripRight(space, key) == "" then None else Some(PathOf(root, StripRight(space, key)))
  {
    RootsByLengthAreTheRoots();
    RootsArePlain(space, root);
    var leaf := StripRight(space, key);
    var path := PathOf(root, key);
    assert path[0] == root[0];
    assert path == (root + ".") + key && (root + ".")[|root|] == '.';
    StripRightAfterDot(space, root + ".", key);
    var stripped := PathOf(root, leaf);
    assert Strip(space, path) == stripped;
    assert stripped[|root|] == '.';
    AliasesHaveNoDot(stripped);
    forall j {:trigger ROOTS_BY_LENGTH[j]} | 0 <= j < |ROOTS_BY_LENGTH| && ROOTS_BY_LENGTH[j] != root
      ensures Apart(ROOTS_BY_LENGTH[j], root)
    {
      RootIsApartFrom(root, j);
    }
    hide PathOf, MatchRoot;
    MatchRootAt(ROOTS_BY_LENGTH, 0, root, leaf);
    assert ROOTS_BY_LENGTH[0..] == ROOTS_BY_LENGTH;
  }

  lemma RootIsApartFrom(root: string, j: nat)
    requires root in ROOTS_BY_LENGTH && j < |ROOTS_BY_LENGTH| && ROOTS_BY_LENGTH[j] != root
    ensures Apart(ROOTS_BY_LENGTH[j], root)
  {
    var i :| 0 <= i < |ROOTS_BY_LENGTH| && ROOTS_BY_LENGTH[i] == root;
    if i < j { RootsAreApart(i, j); } else { RootsAreApart(j, i); }
  }

  /** A path of the registry: one of its roots, a dot, and a leaf. */
  ghost predicate IsRooted(path: string, roots: seq<string>) {
    exists root, leaf :: root in roots && leaf != "" && path == PathOf(root, leaf)
  }

  lemma {:induction false} MatchIsRooted(path: string, roots: seq<string>)
    requires MatchRoot(path, roots).Some?
    ensures MatchRoot(path, roots) == Some(path) && IsRooted(path, roots)
    decreases |roots|
  {
    if roots[0] + "." <= path && |path| > |roots[0]| + 1 {
      var leaf := path[|roots[0]| + 1..];
      assert path == PathOf(roots[0], leaf) && leaf != "";
    } else {
      MatchIsRooted(path, roots[1..]);
      var root, leaf :| root in roots[1..] && leaf != "" && path == PathOf(root, leaf);
      assert root in roots;
    }
  }

  lemma RootedMatches(path: string)
    requires IsRooted(path, ROOTS_BY_LENGTH)
    ensures MatchRoot(path, ROOTS_BY_LENGTH) == Some(path)
  {
    hide PathOf, MatchRoot;
    var root, leaf :| root in ROOTS_BY_LENGTH && leaf != "" && path == PathOf(root, leaf);
    forall j {:trigger ROOTS_BY_LENGTH[j]} | 0 <= j < |ROOTS_BY_LENGTH| && ROOTS_BY_LENGTH[j] != root
      ensures Apart(ROOTS_BY_LENGTH[j], root)
    {
      RootIsApartFrom(root, j);
    }
    MatchRootAt(ROOTS_BY_LENGTH, 0, root, leaf);
    assert ROOTS_BY_LENGTH[0..] == ROOTS_BY_LENGTH;
  }

  lemma MatchesIffRooted(path: string)
    ensures MatchRoot(path, ROOTS_BY_LENGTH) == if IsRooted(path, ROOTS_BY_LENGTH) then Some(path) else None
  {
    hide MatchRoot, IsRooted;
    if IsRooted(path, ROOTS_BY_LENGTH) {
      RootedMatches(path);
    } else if MatchRoot(path, ROOTS_BY_LENGTH).Some? {
      MatchIsRooted(path, ROOTS_BY_LENGTH);
    }
  }

  /** A field resolves, to its path under the registry or to the path it is an alias of, exactly when that path is a
      root of the registry, a dot and a leaf. */
  lemma ResolvesIffRooted(space: char -> bool, field: string)
    ensures var name := Strip(space, field);
      var path := if name in ALIASES then ALIASES[name] else name;
      ResolvePath(space, field) == if IsRooted(path, ROOTS_BY_LENGTH) then Some(path) else None
  {
    hide Strip, MatchRoot, IsRooted;
    var name := Strip(space, field);
    MatchesIffRooted(if name in ALIASES then ALIASES[name] else name);
  }

  // ---------------------------------------------------------------- tables and manifests

  /** What `write_spec` is given besides the component and the field. */
  datatype Spec = Spec(
    num: Option<real>, text: Option<string>, unit: Option<string>, condition: Option<string>,
    min: Option<real>, typ: Option<real>, max: Option<real>,
    chunk: Option<nat>, note: Option<string>, verified: bool)

  /** A row of spec_values; the component is known by its canonical key, and the id of a row is its position. */
  datatype Row = Row(component: string, path: string, spec: Spec)

  /** A value, in one of the five columns that can hold one. */
  predicate HasValue(s: Spec) {
    s.num.Some? || s.text.Some? || s.min.Some? || s.typ.Some? || s.max.Some?
  }

  /** A chunk, or a note that is not blank. */
  predicate HasEvidence(space: char -> bool, s: Spec) {
    s.chunk.Some? || (s.note.Some? && Strip(space, s.note.value) != "")
  }

  /** Without evidence nothing is stored as verified. */
  function Stored(space: char -> bool, s: Spec): (r: Spec)
    ensures r.verified ==> HasEvidence(space, r)
    ensures HasValue(r) <==> HasValue(s)
  {
    s.(verified := s.verified && HasEvidence(space, s))
  }

  /** What is stored is what was given, but that nothing is verified without a chunk or a note that is not blank. */
  lemma StoredIs(space: char -> bool, s: Spec)
    ensures Stored(space, s).(verified := s.verified) == s
    ensures Stored(space, s).verified <==>
      s.verified && (s.chunk.Some? || (s.note.Some? && Strip(space, s.note.value) != ""))
  {
    hide Strip;
  }

  /** The first complaint of `write_spec`, in the order it makes them. */
  function SpecError(env: Env, mpn: string, field: string, s: Spec, actor: string): Option<Code> {
    if ResolvePath(env.space, field).None? then Some(E401)
    else if !HasValue(s) then Some(E403)
    else if Strip(env.space, actor) == "" then Some(E702)
    else if Strip(env.space, mpn) == "" || env.keyOf(Strip(env.space, mpn)) == env.emptyKey then Some(E101)
    else None
  }

  /** A spec is written exactly when its field resolves, some value is given, the actor has a name and the part number a
      key; what is missing first in this order is complained of. */
  lemma ComplaintsAre(env: Env, mpn: string, field: string, s: Spec, actor: string)
    ensures var error := SpecError(env, mpn, field, s, actor);
      var resolved := ResolvePath(env.space, field).Some?;
      var valued := s.num.Some? || s.text.Some? || s.min.Some? || s.typ.Some? || s.max.Some?;
      var named := Strip(env.space, actor) != "";
      var keyed := Strip(env.space, mpn) != "" && env.keyOf(Strip(env.space, mpn)) != env.emptyKey;
      && (error == None <==> resolved && valued && named && keyed)
      && (error == Some(E401) <==> !resolved)
      && (error == Some(E403) <==> resolved && !valued)
      && (error == Some(E702) <==> resolved && valued && !named)
      && (error == Some(E101) <==> resolved && valued && named && !keyed)
  {
    hide ResolvePath, Strip;
  }

  datatype Scalar = Number(value: real) | Text(text: string) | Bool(flag: bool)
  datatype Value = Null | Nested | Plain(scalar: Scalar)

  /** One key of a section. */
  datatype Field = Field(key: string, value: Value)

  /** The file of one component: its sections by root, and where its values come from. */
  datatype Extraction = Extraction(sections: map<string, seq<Field>>, source: string)

  /** An entry of the manifest; the file may be missing or unreadable. */
  datatype Entry = Entry(mpn: string, file: Option<Extraction>)

  const NOTE_PREFIX := "client-cache-import"

  function NoteOf(source: string): string {
    if source == "" then NOTE_PREFIX else NOTE_PREFIX + ":" + source
  }

  function NumOf(v: Scalar): Option<real> {
    if v.Number? then Some(v.value) else None
  }

  function TextOf(v: Scalar): Option<string> {
    match v
    case Number(_) => None
    case Text(t) => Some(t)
    case Bool(b) => Some(if b then "True" else "False")
  }

  /** What an import writes: the value, where it came from, and whether that is a real source. */
  function ImportSpec(v: Scalar, source: string): Spec {
    Spec(NumOf(v), TextOf(v), None, None, None, None, None, None, Some(NoteOf(source)), source != "")
  }

  /** `source_note LIKE 'client-cache-import%'`: NULL is no match, and the case of letters does not count. */
  predicate IsImportNote(note: Option<string>) {
    note.Some? && |note.value| >= |NOTE_PREFIX| &&
    forall i :: 0 <= i < |NOTE_PREFIX| ==> LowerChar(note.value[i]) == LowerChar(NOTE_PREFIX[i])
  }

  function Coalesce<T>(x: Option<T>, fallback: T): T {
    if x.Some? then x.value else fallback
  }

  /** The values agree as the duplicate check compares them. */
  predicate SameValue(env: Env, row: Row, v: Scalar) {
    && Coalesce(row.spec.num, env.sentinel) == Coalesce(NumOf(v), env.sentinel)
    && Coalesce(row.spec.text, "") == Coalesce(TextOf(v), "")
  }

  predicate Duplicates(env: Env, row: Row, component: string, path: string, v: Scalar) {
    row.component == component && row.path == path && SameValue(env, row, v) && IsImportNote(row.spec.note)
  }

  predicate HasDuplicate(env: Env, rows: seq<Row>, component: string, path: string, v: Scalar) {
    exists i :: 0 <= i < |rows| && Duplicates(env, rows[i], component, path, v)
  }

  /** A value as the conflict report compares it. */
  datatype Reported = Real(r: real) | Str(s: string) | Nothing

  function ReportedOf(s: Spec): Reported {
    if s.num.Some? then Real(s.num.value) else if s.text.Some? then Str(s.text.value) else Nothing
  }

  predicate Disagree(a: Row, b: Row) {
    a.component == b.component && a.path == b.path && ReportedOf(a.spec) != ReportedOf(b.spec)
  }

  /** An existing row and an imported one. */
  datatype Conflict = Conflict(existing: nat, imported: nat)

  /** The conflicts of a new row with the rows that were there, in order. */
  function ConflictsWith(rows: seq<Row>, path: string, row: Row, id: nat): seq<Conflict> {
    if rows == [] then []
    else
      var last := rows[|rows| - 1];
      ConflictsWith(rows[..|rows| - 1], path, row, id) +
        if last.component == row.component && last.path == path && ReportedOf(last.spec) != ReportedOf(row.spec)
        then [Conflict(|rows| - 1, id)] else []
  }

  // ---------------------------------------------------------------- one import as a list of steps

  datatype Step = Upsert(mpn: string) | Write(mpn: string, root: string, key: string, value: Scalar, source: string)

  /** The tables, the counters and the report; once there is an error nothing more is done. */
  datatype Progress = Progress(
      rows: seq<Row>, components: set<string>, imported: nat, written: nat, skipped: nat, conflicts: seq<Conflict>,
      error: Option<Code>)

  function Take(env: Env, p: Progress, step: Step): Progress {
    if p.error.Some? then p
    else match step
      case Upsert(mpn) =>
        if env.keyOf(mpn) == env.emptyKey then p.(error := Some(E101))
        else p.(components := p.components + {env.keyOf(mpn)}, imported := p.imported + 1)
      case Write(mpn, root, key, v, source) =>
        var component, path := env.keyOf(mpn), PathOf(root, key);
        if HasDuplicate(env, p.rows, component, path, v) then p.(skipped := p.skipped + 1)
        else
          var canonical := ResolvePath(env.space, path);
          if canonical.None? then p.(error := Some(E401))
          else
            var row := Row(component, canonical.value, Stored(env.space, ImportSpec(v, source)));
            p.(rows := p.rows + [row], written := p.written + 1,
              conflicts := p.conflicts + ConflictsWith(p.rows, path, row, |p.rows|))
  }

  function TakeAll(env: Env, p: Progress, steps: seq<Step>): Progress
    decreases |steps|
  {
    if steps == [] then p else Take(env, TakeAll(env, p, steps[..|steps| - 1]), steps[|steps| - 1])
  }

  lemma {:induction false} TakeAllInTwo(env: Env, p: Progress, a: seq<Step>, b: seq<Step>)
    ensures TakeAll(env, p, a + b) == TakeAll(env, TakeAll(env, p, a), b)
    decreases |b|
  {
    if b == [] {
      assert a + b == a;
    } else {
      assert (a + b)[..|a + b| - 1] == a + b[..|b| - 1];
      TakeAllInTwo(env, p, a, b[..|b| - 1]);
    }
  }

  /** The scalars of a section; nulls, lists and objects are passed over. */
  function SectionSteps(mpn: string, root: string, fields: seq<Field>, source: string): seq<Step> {
    if fields == [] then []
    else
      var last := fields[|fields| - 1];
      SectionSteps(mpn, root, fields[..|fields| - 1], source) +
        if last.value.Plain? then [Write(mpn, root, last.key, last.value.scalar, source)] else []
  }

  function FieldsOf(x: Extraction, root: string): seq<Field> {
    if root in x.sections then x.sections[root] else []
  }

  function RootsSteps(mpn: string, x: Extraction, roots: seq<string>, source: string): seq<Step> {
    if roots == [] then []
    else
      var root := roots[|roots| - 1];
      RootsSteps(mpn, x, roots[..|roots| - 1], source) + SectionSteps(mpn, root, FieldsOf(x, root), source)
  }

  function EntrySteps(env: Env, e: Entry): seq<Step> {
    var mpn := Strip(env.space, e.mpn);
    if mpn == "" || e.file.None? then []
    else [Upsert(mpn)] + RootsSteps(mpn, e.file.value, ROOTS, Strip(env.space, e.file.value.source))
  }

  function ImportSteps(env: Env, entries: seq<Entry>): seq<Step> {
    if entries == [] then []
    else ImportSteps(env, entries[..|entries| - 1]) + EntrySteps(env, entries[|entries| - 1])
  }

  // ---------------------------------------------------------------- the import as the program runs it

  datatype Audit = ComponentInserted(component: string) | SpecInserted(row: nat, path: string)

  function SpecAudits(log: seq<Audit>): seq<Audit> {
    if log == [] then []
    else SpecAudits(log[..|log| - 1]) + if log[|log| - 1].SpecInserted? then [log[|log| - 1]] else []
  }

  function AuditOf(rows: seq<Row>): seq<Audit> {
    if rows == [] then [] else AuditOf(rows[..|rows| - 1]) + [SpecInserted(|rows| - 1, rows[|rows| - 1].path)]
  }

  /** Exactly the components that are there have an entry, each one. */
  ghost predicate ComponentsAudited(log: seq<Audit>, components: set<string>) {
    && (forall c :: c in components <==> ComponentInserted(c) in log)
    && (forall i, j :: 0 <= i < j < |log| && log[i].ComponentInserted? ==> log[i] != log[j])
  }

  lemma {:induction false} AuditOfIs(rows: seq<Row>)
    ensures |AuditOf(rows)| == |rows|
    ensures forall i :: 0 <= i < |rows| ==> AuditOf(rows)[i] == SpecInserted(i, rows[i].path)
    decreases |rows|
  {
    if rows != [] {
      AuditOfIs(rows[..|rows| - 1]);
    }
  }

  /** An entry for a component that was not there, or for a row. */
  lemma AuditsStayInStep(log: seq<Audit>, components: set<string>, c: string, row: Option<Audit>)
    requires ComponentsAudited(log, components) && (row.Some? ==> row.value.SpecInserted?)
    ensures ComponentsAudited(
      log + (if c in components then [] else [ComponentInserted(c)]) + (if row.Some? then [row.value] else []),
      components + {c})
  {
    var more := (if c in components then [] else [ComponentInserted(c)]) + (if row.Some? then [row.value] else []);
    var all := log + more;
    assert log + (if c in components then [] else [ComponentInserted(c)]) + (if row.Some? then [row.value] else []) ==
        all;
    assert forall e :: e in all <==> e in log || e in more;
    assert forall i :: 0 <= i < |all| ==> all[i] == if i < |log| then log[i] else more[i - |log|];
    assert c !in components ==> ComponentInserted(c) !in log;
  }

  lemma AuditOneMore(log: seq<Audit>, rows: seq<Row>, row: Row, entry: Audit)
    ensures SpecAudits(log + [entry]) == SpecAudits(log) + if entry.SpecInserted? then [entry] else []
    ensures AuditOf(rows + [row]) == AuditOf(rows) + [SpecInserted(|rows|, row.path)]
  {
    assert (log + [entry])[..|log|] == log && (rows + [row])[..|rows|] == rows;
  }

  lemma OtherAuditsDoNotCount(log: seq<Audit>, more: seq<Audit>)
    requires more == [] || (|more| == 1 && more[0].ComponentInserted?)
    ensures SpecAudits(log + more) == SpecAudits(log)
  {
    if more == [] {
      assert log + more == log;
    } else {
      assert (log + more)[..|log|] == log;
    }
  }

  /** What an import reports. */
  datatype Report = Report(imported: nat, written: nat, skipped: nat, conflicts: seq<Conflict>)

  function ProgressOf(rows: seq<Row>, components: set<string>, r: Report, error: Option<Code>): Progress {
    Progress(rows, components, r.imported, r.written, r.skipped, r.conflicts, error)
  }

  method FindConflicts(existing: seq<Row>, path: string, row: Row) returns (found: seq<Conflict>)
    ensures found == ConflictsWith(existing, path, row, |existing|)
  {
    found := [];
    for i := 0 to |existing|
      invariant found == ConflictsWith(existing[..i], path, row, |existing|)
    {
      assert existing[..i + 1][..i] == existing[..i];
      var e := existing[i];
      if e.component == row.component && e.path == path && ReportedOf(e.spec) != ReportedOf(row.spec) {
        found := found + [Conflict(i, |existing|)];
      }
    }
    assert existing[..|existing|] == existing;
  }

  class Vault {
    var rows: seq<Row>
    var components: set<string>
    var audit: seq<Audit>
    var pending: seq<Audit>
    const env: Env

    constructor (env: Env)
      ensures Valid() && this.env == env && rows == [] && components == {}
    {
      this.env := env;
      rows, components, audit, pending := [], {}, [], [];
    }

    /** Every spec row has one audit entry, written with it, and every component has one. */
    ghost predicate Valid()
      reads this
    {
      SpecAudits(audit) == AuditOf(rows) && ComponentsAudited(audit, components)
    }

    /** The commit of `_Transaction`: the entries gathered since its start go to the log. */
    method Commit()
      modifies `audit, `pending
      ensures audit == old(audit) + old(pending) && pending == []
    {
      audit := audit + pending;
      pending := [];
    }

    /** The component of a part number that has a key, inside a transaction: it is inserted if it is not there. */
    method LinkComponent(component: string)
      requires Valid() && pending == []
      modifies `components, `pending
      ensures components == old(components) + {component}
      ensures pending == if component in old(components) then [] else [ComponentInserted(component)]
    {
      if component !in components {
        components := components + {component};
        pending := pending + [ComponentInserted(component)];
      } else {
        assert components == components + {component};
      }
    }

    /** `upsert_component`, as far as the component's key is concerned. */
    method UpsertComponent(mpn: string) returns (error: Option<Code>)
      requires Valid()
      modifies this
      ensures Valid() && rows == old(rows)
      ensures if env.keyOf(mpn) == env.emptyKey then error == Some(E101) && components == old(components)
              else error == None && components == old(components) + {env.keyOf(mpn)}
      ensures audit == old(audit) +
        if error == None && env.keyOf(mpn) !in old(components) then [ComponentInserted(env.keyOf(mpn))] else []
    {
      hide SpecAudits, AuditOf, ComponentsAudited;
      var component := env.keyOf(mpn);
      if component == env.emptyKey {
        return Some(E101);
      }
      pending := [];
      AuditsStayInStep(audit, components, component, None);
      LinkComponent(component);
      OtherAuditsDoNotCount(audit, pending);
      assert audit + pending + [] == audit + pending;
      Commit();
      return None;
    }

    /** `write_spec`: it complains before it changes anything, or writes one row under the canonical path, with one
        audit entry for it and one for a component that was not there. */
    method WriteSpec(mpn: string, field: string, spec: Spec, actor: string)
      returns (written: Option<Row>, error: Option<Code>)
      requires Valid()
      modifies this
      ensures Valid() && error == SpecError(env, mpn, field, spec, actor)
      ensures error.Some? ==>
        written == None && rows == old(rows) && components == old(components) && audit == old(audit)
      ensures error == None ==>
        var component := env.keyOf(Strip(env.space, mpn));
        var row := Row(component, ResolvePath(env.space, field).value, Stored(env.space, spec));
        && written == Some(row) && rows == old(rows) + [row] && components == old(components) + {component}
        && audit == old(audit) + (if component in old(components) then [] else [ComponentInserted(component)])
                    + [SpecInserted(|old(rows)|, row.path)]
    {
      hide SpecAudits, AuditOf, ResolvePath, Strip, HasEvidence, ComponentsAudited;
      var canonical := ResolvePath(env.space, field);
      if canonical == None {
        return None, Some(E401);
      }
      if !HasValue(spec) {
        return None, Some(E403);
      }
      if Strip(env.space, actor) == "" {
        return None, Some(E702);
      }
      pending := [];
      var part := Strip(env.space, mpn);
      var component := env.keyOf(part);
      if part == "" || component == env.emptyKey {
        return None, Some(E101);
      }
      AuditsStayInStep(audit, components, component, Some(SpecInserted(|rows|, canonical.value)));
      LinkComponent(component);
      var row := Row(component, canonical.value, Stored(env.space, spec));
      ghost var before := pending;
      OtherAuditsDoNotCount(audit, before);
      AuditOneMore(audit + before, rows, row, SpecInserted(|rows|, canonical.value));
      pending := pending + [SpecInserted(|rows|, canonical.value)];
      rows := rows + [row];
      assert audit + (before + [SpecInserted(|old(rows)|, row.path)]) ==
          audit + before + [SpecInserted(|old(rows)|, row.path)];
      Commit();
      return Some(row), None;
    }

    /** A part number as the import hands it on, with its component in place. */
    ghost predicate Placed(mpn: string)
      reads this
    {
      && mpn != "" && Strip(env.space, mpn) == mpn && env.keyOf(mpn) != env.emptyKey
      && env.keyOf(mpn) in components
    }

    method ImportScalar(
        mpn: string, root: string, key: string, v: Scalar, source: string, report: Report, actor: string)
      returns (r: Report, error: Option<Code>)
      requires Valid() && Placed(mpn) && Strip(env.space, actor) != ""
      modifies this
      ensures Valid() && Placed(mpn)
      ensures ProgressOf(rows, components, r, error) ==
        Take(env, ProgressOf(old(rows), old(components), report, None), Write(mpn, root, key, v, source))
    {
      hide SpecAudits, AuditOf, ComponentsAudited, ResolvePath, ConflictsWith, HasDuplicate, Strip, Stored;
      r, error := report, None;
      var component, path := env.keyOf(mpn), PathOf(root, key);
      if HasDuplicate(env, rows, component, path, v) {
        r := r.(skipped := r.skipped + 1);
        return;
      }
      var existing := rows;
      assert components + {component} == components;
      var row;
      row, error := WriteSpec(mpn, path, ImportSpec(v, source), actor);
      if error != None {
        return;
      }
      r := r.(written := r.written + 1);
      var found := FindConflicts(existing, path, row.value);
      r := r.(conflicts := r.conflicts + found);
    }

    method ImportSection(mpn: string, root: string, fields: seq<Field>, source: string, report: Report, actor: string)
      returns (r: Report, error: Option<Code>)
      requires Valid() && Placed(mpn) && Strip(env.space, actor) != ""
      modifies this
      ensures Valid() && Placed(mpn)
      ensures ProgressOf(rows, components, r, error) ==
        TakeAll(env, ProgressOf(old(rows), old(components), report, None), SectionSteps(mpn, root, fields, source))
    {
      hide SpecAudits, AuditOf, ComponentsAudited, Take, TakeAll, SectionSteps, Strip;
      r, error := report, None;
      ghost var p := ProgressOf(rows, components, report, None);
      NothingTaken(env, p, mpn, root, fields[..0], source);
      var i := 0;
      while i < |fields| && error == None
        invariant i <= |fields| && Valid() && Placed(mpn)
        invariant ProgressOf(rows, components, r, error) ==
          TakeAll(env, p, SectionSteps(mpn, root, fields[..i], source))
        decreases |fields| - i, error == None
      {
        SectionOneMore(env, p, mpn, root, fields, i, source);
        if fields[i].value.Plain? {
          r, error := ImportScalar(mpn, root, fields[i].key, fields[i].value.scalar, source, r, actor);
        }
        i := i + 1;
      }
      SectionStopped(env, p, mpn, root, fields, i, source);
    }

    method ImportEntry(e: Entry, report: Report, actor: string) returns (r: Report, error: Option<Code>)
      requires Valid() && Strip(env.space, actor) != ""
      modifies this
      ensures Valid()
      ensures ProgressOf(rows, components, r, error) ==
        TakeAll(env, ProgressOf(old(rows), old(components), report, None), EntrySteps(env, e))
    {
      hide SpecAudits, AuditOf, ComponentsAudited, TakeAll, RootsSteps, SectionSteps, Strip;
      r, error := report, None;
      ghost var p := ProgressOf(rows, components, report, None);
      NoStepsTaken(env, p);
      var mpn := Strip(env.space, e.mpn);
      if mpn == "" || e.file == None {
        return;
      }
      var source := Strip(env.space, e.file.value.source);
      StripTwice(env.space, e.mpn);
      error := UpsertComponent(mpn);
      if error == None {
        r := r.(imported := r.imported + 1);
      }
      ghost var q := Take(env, p, Upsert(mpn));
      NoRootsTaken(env, q, mpn, e.file.value, ROOTS[..0], source);
      var i := 0;
      while i < |ROOTS| && error == None
        invariant i <= |ROOTS| && Valid() && (error == None ==> Placed(mpn))
        invariant ProgressOf(rows, components, r, error) ==
          TakeAll(env, q, RootsSteps(mpn, e.file.value, ROOTS[..i], source))
        decreases |ROOTS| - i, error == None
      {
        RootsOneMore(env, q, mpn, e.file.value, ROOTS, i, source);
        r, error := ImportSection(mpn, ROOTS[i], FieldsOf(e.file.value, ROOTS[i]), source, r, actor);
        i := i + 1;
      }
      RootsStopped(env, q, mpn, e.file.value, ROOTS, i, source);
      UpsertFirst(env, p, mpn, RootsSteps(mpn, e.file.value, ROOTS, source));
    }

    /** The import of a cache: no manifest, no import; no actor, no import. */
    method Import(manifest: Option<seq<Entry>>, actor: string) returns (r: Report, error: Option<Code>)
      requires Valid()
      modifies this
      ensures Valid()
      ensures manifest == None ==> error == Some(E902) && rows == old(rows) && components == old(components)
      ensures manifest.Some? && Strip(env.space, actor) == "" ==>
        error == Some(E702) && rows == old(rows) && components == old(components)
      ensures manifest.Some? && Strip(env.space, actor) != "" ==>
        ProgressOf(rows, components, r, error) ==
          TakeAll(env, ProgressOf(old(rows), old(components), Report(0, 0, 0, []), None),
          ImportSteps(env, manifest.value))
    {
      r, error := Report(0, 0, 0, []), None;
      if manifest == None {
        return r, Some(E902);
      }
      if Strip(env.space, actor) == "" {
        return r, Some(E702);
      }
      var entries := manifest.value;
      ghost var p := ProgressOf(rows, components, r, None);
      var i := 0;
      while i < |entries| && error == None
        invariant i <= |entries| && Valid()
        invariant ProgressOf(rows, components, r, error) == TakeAll(env, p, ImportSteps(env, entries[..i]))
        decreases |entries| - i, error == None
      {
        ImportOneMore(env, p, entries, i);
        r, error := ImportEntry(entries[i], r, actor);
        i := i + 1;
      }
      ImportStopped(env, p, entries, i);
    }
  }

  // ---------------------------------------------------------------- the loops and the list of steps

  /** After an error nothing changes. */
  lemma {:induction false} ErrorStops(env: Env, p: Progress, steps: seq<Step>)
    requires p.error.Some?
    ensures TakeAll(env, p, steps) == p
    decreases |steps|
  {
    if steps != [] { ErrorStops(env, p, steps[..|steps| - 1]); }
  }

  lemma NothingTaken(env: Env, p: Progress, mpn: string, root: string, fields: seq<Field>, source: string)
    requires fields == []
    ensures TakeAll(env, p, SectionSteps(mpn, root, fields, source)) == p
  {
  }

  lemma NoStepsTaken(env: Env, p: Progress)
    ensures TakeAll(env, p, []) == p
  {
  }

  lemma NoRootsTaken(env: Env, p: Progress, mpn: string, x: Extraction, roots: seq<string>, source: string)
    requires roots == []
    ensures TakeAll(env, p, RootsSteps(mpn, x, roots, source)) == p
  {
  }

  lemma TakeOne(env: Env, p: Progress, step: Step)
    ensures TakeAll(env, p, [step]) == Take(env, p, step)
  {
    assert [step][..0] == [];
  }

  lemma UpsertFirst(env: Env, p: Progress, mpn: string, steps: seq<Step>)
    ensures TakeAll(env, p, [Upsert(mpn)] + steps) == TakeAll(env, Take(env, p, Upsert(mpn)), steps)
  {
    TakeOne(env, p, Upsert(mpn));
    TakeAllInTwo(env, p, [Upsert(mpn)], steps);
  }

  lemma SectionOneMore(env: Env, p: Progress, mpn: string, root: string, fields: seq<Field>, i: nat, source: string)
    requires i < |fields|
    ensures var q := TakeAll(env, p, SectionSteps(mpn, root, fields[..i], source));
      TakeAll(env, p, SectionSteps(mpn, root, fields[..i + 1], source)) ==
        if fields[i].value.Plain? then Take(env, q, Write(mpn, root, fields[i].key, fields[i].value.scalar, source))
        else q
  {
    assert fields[..i + 1][..i] == fields[..i];
    var before := SectionSteps(mpn, root, fields[..i], source);
    if fields[i].value.Plain? {
      var w := Write(mpn, root, fields[i].key, fields[i].value.scalar, source);
      TakeAllInTwo(env, p, before, [w]);
      TakeOne(env, TakeAll(env, p, before), w);
    } else {
      assert before + [] == before;
    }
  }

  lemma {:induction false} SectionStopped(
      env: Env, p: Progress, mpn: string, root: string, fields: seq<Field>, i: nat, source: string)
    requires i <= |fields|
    requires i < |fields| ==> TakeAll(env, p, SectionSteps(mpn, root, fields[..i], source)).error.Some?
    ensures TakeAll(env, p, SectionSteps(mpn, root, fields, source)) ==
      TakeAll(env, p, SectionSteps(mpn, root, fields[..i], source))
    decreases |fields| - i
  {
    if i < |fields| {
      SectionOneMore(env, p, mpn, root, fields, i, source);
      SectionStopped(env, p, mpn, root, fields, i + 1, source);
    } else {
      assert fields[..i] == fields;
    }
  }

  lemma RootsOneMore(env: Env, p: Progress, mpn: string, x: Extraction, roots: seq<string>, i: nat, source: string)
    requires i < |roots|
    ensures TakeAll(env, p, RootsSteps(mpn, x, roots[..i + 1], source)) ==
      TakeAll(env, TakeAll(env, p, RootsSteps(mpn, x, roots[..i], source)),
        SectionSteps(mpn, roots[i], FieldsOf(x, roots[i]), source))
  {
    assert roots[..i + 1][..i] == roots[..i];
    TakeAllInTwo(env, p, RootsSteps(mpn, x, roots[..i], source),
      SectionSteps(mpn, roots[i], FieldsOf(x, roots[i]), source));
  }

  lemma {:induction false} RootsStopped(
      env: Env, p: Progress, mpn: string, x: Extraction, roots: seq<string>, i: nat, source: string)
    requires i <= |roots|
    requires i < |roots| ==> TakeAll(env, p, RootsSteps(mpn, x, roots[..i], source)).error.Some?
    ensures TakeAll(env, p, RootsSteps(mpn, x, roots, source)) ==
      TakeAll(env, p, RootsSteps(mpn, x, roots[..i], source))
    decreases |roots| - i
  {
    if i < |roots| {
      RootsOneMore(env, p, mpn, x, roots, i, source);
      ErrorStops(env, TakeAll(env, p, RootsSteps(mpn, x, roots[..i], source)),
        SectionSteps(mpn, roots[i], FieldsOf(x, roots[i]), source));
      RootsStopped(env, p, mpn, x, roots, i + 1, source);
    } else {
      assert roots[..i] == roots;
    }
  }

  lemma ImportOneMore(env: Env, p: Progress, entries: seq<Entry>, i: nat)
    requires i < |entries|
    ensures TakeAll(env, p, ImportSteps(env, entries[..i + 1])) ==
      TakeAll(env, TakeAll(env, p, ImportSteps(env, entries[..i])), EntrySteps(env, entries[i]))
  {
    assert entries[..i + 1][..i] == entries[..i];
    TakeAllInTwo(env, p, ImportSteps(env, entries[..i]), EntrySteps(env, entries[i]));
  }

  lemma {:induction false} ImportStopped(env: Env, p: Progress, entries: seq<Entry>, i: nat)
    requires i <= |entries|
    requires i < |entries| ==> TakeAll(env, p, ImportSteps(env, entries[..i])).error.Some?
    ensures TakeAll(env, p, ImportSteps(env, entries)) == TakeAll(env, p, ImportSteps(env, entries[..i]))
    decreases |entries| - i
  {
    if i < |entries| {
      ImportOneMore(env, p, entries, i);
      ErrorStops(env, TakeAll(env, p, ImportSteps(env, entries[..i])), EntrySteps(env, entries[i]));
      ImportStopped(env, p, entries, i + 1);
    } else {
      assert entries[..i] == entries;
    }
  }
}
