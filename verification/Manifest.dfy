/** The release manifest: its canonical payload, its digest and its dict round trip. */
module Manifest {
  import opened Basics
  import opened Ordering

  datatype Result<T> = Ok(value: T) | Err(error: ManifestError)

  datatype ManifestError =
    | BadArtifact | BadDependency
    | UnsupportedSchema | EmptyRevision | NoArtifacts
    | DuplicatePath(path: string)
    | Sha256Mismatch

  datatype ArtifactRef = ArtifactRef(role: string, path: string, sha256: string, byteSize: int)

  datatype DependencyRef = DependencyRef(kind: string, name: string, version: Option<string>, digest: Option<string>)

  /** What is hashed: the canonical payload before its JSON encoding. */
  datatype Payload = Payload(
      schema: string, revision: string, artifacts: seq<ArtifactRef>, dependencies: seq<DependencyRef>)

  datatype Manifest = Manifest(
      schema: string, revision: string, artifacts: seq<ArtifactRef>, dependencies: seq<DependencyRef>, sha256: string)

  /** The dict form of a manifest. */
  datatype Dict = Dict(payload: Payload, sha256: string)

  // ---------------------------------------------------------------- strings

  function ReplaceBackslash(s: string): (r: string)
    ensures |r| == |s| && forall i :: 0 <= i < |s| ==> r[i] == if s[i] == '\\' then '/' else s[i]
  {
    seq(|s|, i requires 0 <= i < |s| => if s[i] == '\\' then '/' else s[i])
  }

  /** `str.lower` on the ASCII letters. */
  function Lower(s: string): (r: string)
    ensures |r| == |s| && forall i :: 0 <= i < |s| ==> r[i] == LowerChar(s[i])
  {
    seq(|s|, i requires 0 <= i < |s| => LowerChar(s[i]))
  }

  /** Whichever way the slashes lean: nothing between two of them, before the first or after the last is empty, a dot or
      two dots. */
  lemma ScopedIff(path: string)
    ensures var s := ReplaceBackslash(path);
      IsScoped(path) <==>
        forall i, j :: SegmentAt(s, i, j) ==>
          !(j == i) && !(j == i + 1 && s[i] == '.') && !(j == i + 2 && s[i] == '.' && s[i + 1] == '.')
  {
    var s := ReplaceBackslash(path);
    hide ReplaceBackslash, Segments;
    if IsScoped(path) {
      forall i, j | SegmentAt(s, i, j)
        ensures !(j == i) && !(j == i + 1 && s[i] == '.') && !(j == i + 2 && s[i] == '.' && s[i + 1] == '.')
      {
        SegmentsAre(s, s[i..j]);
        assert s[i..j] in Segments(s);
        assert s[i..j] != "" && s[i..j] != "." && s[i..j] != "..";
      }
    } else {
      var g :| g in Segments(s) && (g == "" || g == "." || g == "..");
      SegmentsAre(s, g);
      var i, j :| SegmentAt(s, i, j) && s[i..j] == g;
      assert j - i == |g| && (|g| > 0 ==> s[i] == g[0]) && (|g| > 1 ==> s[i + 1] == g[1]);
    }
  }

  predicate IsHexChar(c: char) {
    '0' <= c <= '9' || 'a' <= c <= 'f' || 'A' <= c <= 'F'
  }

  predicate IsSha256Hex(s: string) {
    |s| == 64 && forall c :: c in s ==> IsHexChar(c)
  }

  /** The parts of `s` between slashes. */
  function Segments(s: string): (r: seq<string>)
    ensures r != []
  {
    if s == [] then [""]
    else
      var front := Segments(s[..|s| - 1]);
      var c := s[|s| - 1];
      if c == '/' then front + [""] else front[..|front| - 1] + [front[|front| - 1] + [c]]
  }

  /** A stretch without slashes, from the start or a slash to a slash or the end. */
  predicate SegmentAt(s: string, i: int, j: int) {
    && 0 <= i <= j <= |s| && (i == 0 || s[i - 1] == '/') && (j == |s| || s[j] == '/')
    && forall k :: i <= k < j ==> s[k] != '/'
  }

  /** Where the last stretch starts. */
  function LastStart(s: string): (i: nat)
    ensures i <= |s|
  {
    if s == [] || s[|s| - 1] == '/' then |s| else LastStart(s[..|s| - 1])
  }

  lemma {:induction false} LastSegment(s: string)
    ensures Segments(s)[|Segments(s)| - 1] == s[LastStart(s)..]
    ensures forall i :: SegmentAt(s, i, |s|) <==> i == LastStart(s)
    decreases |s|
  {
    if s == [] || s[|s| - 1] == '/' {
      LastIsEmpty(s);
    } else {
      var front, i := s[..|s| - 1], LastStart(s);
      LastSegment(front);
      LastGrows(s);
      hide SegmentAt;
      assert s[i..] == front[i..] + [s[|s| - 1]];
    }
  }

  lemma LastIsEmpty(s: string)
    requires s == [] || s[|s| - 1] == '/'
    ensures forall i :: SegmentAt(s, i, |s|) <==> i == |s|
    ensures Segments(s)[|Segments(s)| - 1] == "" && s[|s|..] == ""
  {
    hide Segments;
    forall i | 0 <= i < |s| ensures !SegmentAt(s, i, |s|) {
      assert i <= |s| - 1 < |s| && s[|s| - 1] == '/';
    }
    LastOfSegments(s);
  }

  lemma LastOfSegments(s: string)
    requires s == [] || s[|s| - 1] == '/'
    ensures Segments(s)[|Segments(s)| - 1] == ""
  {
  }

  lemma LastGrows(s: string)
    requires s != [] && s[|s| - 1] != '/'
    ensures forall i :: SegmentAt(s, i, |s|) <==> SegmentAt(s[..|s| - 1], i, |s| - 1)
  {
    var front := s[..|s| - 1];
    forall i | SegmentAt(s, i, |s|) ensures SegmentAt(front, i, |front|) {
      assert i < |s|;
    }
  }

  lemma {:induction false} EarlierSegments(s: string, g: string)
    ensures g in Segments(s)[..|Segments(s)| - 1] <==> exists i, j :: j < |s| && SegmentAt(s, i, j) && s[i..j] == g
    decreases |s|
  {
    if s != [] {
      var front, c := s[..|s| - 1], s[|s| - 1];
      var r, n := Segments(front), |s| - 1;
      EarlierSegments(front, g);
      LastSegment(front);
      EarlierAreTheSame(s);
      if c == '/' {
        assert Segments(s)[..|Segments(s)| - 1] == r == r[..|r| - 1] + [r[|r| - 1]];
        SlashEnds(s);
        hide SegmentAt;
        assert s[LastStart(front)..n] == front[LastStart(front)..];
        forall i, j | j < |s| && SegmentAt(s, i, j) && s[i..j] == g ensures g in r {
          SegmentBounds(s, i, j);
          if j == n {
            assert SegmentAt(front, i, n);
          } else {
            assert SegmentAt(front, i, j) && front[i..j] == g;
          }
        }
        if g == r[|r| - 1] {
          assert SegmentAt(s, LastStart(front), n) && s[LastStart(front)..n] == g;
        } else if g in r {
          var i, j :| j < |front| && SegmentAt(front, i, j) && front[i..j] == g;
          assert SegmentAt(s, i, j) && s[i..j] == g;
        }
      } else {
        assert Segments(s)[..|Segments(s)| - 1] == r[..|r| - 1];
        assert forall i :: !SegmentAt(s, i, n);
        hide SegmentAt;
      }
    }
  }

  lemma EarlierAreTheSame(s: string)
    requires s != []
    ensures var front := s[..|s| - 1];
      && (forall i, j :: j < |front| && SegmentAt(s, i, j) ==> SegmentAt(front, i, j) && s[i..j] == front[i..j])
      && (forall i, j :: j < |front| && SegmentAt(front, i, j) ==> SegmentAt(s, i, j) && s[i..j] == front[i..j])
  {
  }

  lemma SlashEnds(s: string)
    requires s != [] && s[|s| - 1] == '/'
    ensures var front := s[..|s| - 1];
      forall i {:trigger SegmentAt(s, i, |front|)} {:trigger SegmentAt(front, i, |front|)} ::
        SegmentAt(s, i, |front|) <==> SegmentAt(front, i, |front|)
  {
  }

  /** The parts of a string between slashes are the stretches without slashes that reach from slash to slash. */
  lemma SegmentsAre(s: string, g: string)
    ensures g in Segments(s) <==> exists i, j :: SegmentAt(s, i, j) && s[i..j] == g
  {
    EarlierSegments(s, g);
    LastSegment(s);
    var r := Segments(s);
    assert r == r[..|r| - 1] + [r[|r| - 1]];
    hide Segments, SegmentAt;
    if g == r[|r| - 1] {
      assert SegmentAt(s, LastStart(s), |s|) && s[LastStart(s)..|s|] == g;
    }
    forall i, j | SegmentAt(s, i, j) && s[i..j] == g ensures g in r {
      SegmentBounds(s, i, j);
      if j == |s| { assert g == r[|r| - 1]; }
    }
  }

  lemma SegmentBounds(s: string, i: int, j: int)
    requires SegmentAt(s, i, j)
    ensures 0 <= i <= j <= |s|
  {
  }

  /** A relative path without empty, `.` or `..` segments. */
  predicate IsScoped(path: string) {
    forall g :: g in Segments(ReplaceBackslash(path)) ==> g != "" && g != "." && g != ".."
  }

  predicate IsArtifact(a: ArtifactRef) {
    a.role != "" && a.path != "" && IsScoped(a.path) && IsSha256Hex(a.sha256) && a.byteSize >= 0
  }

  predicate IsDependency(d: DependencyRef) {
    d.kind in ["source", "library", "tool", "rule"] && d.name != "" && (d.version.Some? || d.digest.Some?)
  }

  /** What the checks of a reference let through, character by character and kind by kind. */
  lemma ReferencesAreChecked(a: ArtifactRef, d: DependencyRef)
    ensures IsArtifact(a) <==>
      && |a.role| > 0 && |a.path| > 0 && IsScoped(a.path) && a.byteSize >= 0
      && |a.sha256| == 64 && forall i :: 0 <= i < |a.sha256| ==> a.sha256[i] in "0123456789abcdefABCDEF"
    ensures IsDependency(d) <==>
      && (d.kind == "source" || d.kind == "library" || d.kind == "tool" || d.kind == "rule")
      && |d.name| > 0 && !(d.version == None && d.digest == None)
  {
    hide IsScoped, IsSha256Hex;
    DigestIs(a.sha256);
  }

  lemma DigestIs(s: string)
    ensures IsSha256Hex(s) <==> |s| == 64 && forall i :: 0 <= i < |s| ==> s[i] in "0123456789abcdefABCDEF"
  {
    forall i | 0 <= i < |s|
      ensures s[i] in "0123456789abcdefABCDEF" <==>
        '0' <= s[i] <= '9' || 'a' <= s[i] <= 'f' || 'A' <= s[i] <= 'F'
    {
      HexDigitIs(s[i]);
    }
    assert forall i :: 0 <= i < |s| ==> s[i] in s;
  }

  lemma HexDigitIs(c: char)
    ensures c in "0123456789abcdefABCDEF" <==> '0' <= c <= '9' || 'a' <= c <= 'f' || 'A' <= c <= 'F'
  {
    var hex := "0123456789abcdefABCDEF";
    if '0' <= c <= '9' { assert hex[c as int - 48] == c; }
    if 'a' <= c <= 'f' { assert hex[c as int - 87] == c; }
    if 'A' <= c <= 'F' { assert hex[c as int - 49] == c; }
  }

  // ---------------------------------------------------------------- canonical form

  /** Two paths that differ in the way their slashes lean, if at all. */
  predicate SlashesApart(p: string, q: string) {
    && |p| == |q|
    && forall i :: 0 <= i < |p| ==> p[i] == q[i] || (p[i] in {'/', '\\'} && q[i] in {'/', '\\'})
  }

  predicate CaseApart(s: string, t: string) {
    |s| == |t| && forall i :: 0 <= i < |s| ==> LowerChar(s[i]) == LowerChar(t[i])
  }

  lemma SlashesApartIff(p: string, q: string)
    ensures SlashesApart(p, q) <==> ReplaceBackslash(p) == ReplaceBackslash(q)
  {
    var r, s := ReplaceBackslash(p), ReplaceBackslash(q);
    if r == s {
      forall i | 0 <= i < |p| ensures p[i] == q[i] || (p[i] in {'/', '\\'} && q[i] in {'/', '\\'}) {
        assert r[i] == s[i];
      }
    }
  }

  lemma CaseApartIff(s: string, t: string)
    ensures CaseApart(s, t) <==> Lower(s) == Lower(t)
  {
    var l, m := Lower(s), Lower(t);
    if l == m {
      forall i | 0 <= i < |s| ensures LowerChar(s[i]) == LowerChar(t[i]) {
        assert l[i] == m[i];
      }
    }
  }

  /** References to one artifact: the same role and size, the path up to slashes, the digest up to case. */
  predicate SameArtifact(a: ArtifactRef, b: ArtifactRef) {
    a.role == b.role && a.byteSize == b.byteSize && SlashesApart(a.path, b.path) && CaseApart(a.sha256, b.sha256)
  }

  /** No two artifacts have one path. */
  predicate DistinctPaths(artifacts: seq<ArtifactRef>) {
    forall i, j :: 0 <= i < j < |artifacts| ==> !SlashesApart(artifacts[i].path, artifacts[j].path)
  }

  lemma SameArtifactIff(a: ArtifactRef, b: ArtifactRef)
    ensures SameArtifact(a, b) <==> ArtifactDict(a) == ArtifactDict(b)
  {
    SlashesApartIff(a.path, b.path);
    CaseApartIff(a.sha256, b.sha256);
  }

  function ArtifactDict(a: ArtifactRef): ArtifactRef {
    a.(path := ReplaceBackslash(a.path), sha256 := Lower(a.sha256))
  }

  function ArtifactDicts(artifacts: seq<ArtifactRef>): (r: seq<ArtifactRef>)
    ensures |r| == |artifacts| && forall i :: 0 <= i < |r| ==> r[i] == ArtifactDict(artifacts[i])
  {
    seq(|artifacts|, i requires 0 <= i < |artifacts| => ArtifactDict(artifacts[i]))
  }

  function PathOf(a: ArtifactRef): string { a.path }

  function KindAndName(d: DependencyRef): (string, string) { (d.kind, d.name) }

  /** `canonical_payload_dict`. */
  function CanonicalPayload(
      schema: string, revision: string, artifacts: seq<ArtifactRef>, dependencies: seq<DependencyRef>): Payload
  {
    Payload(schema, revision, Sort(PathOf, Less, ArtifactDicts(artifacts)), Sort(KindAndName, PairLess, dependencies))
  }

  function PayloadOf(m: Manifest): Payload {
    CanonicalPayload(m.schema, m.revision, m.artifacts, m.dependencies)
  }

  predicate IsSchemaOne(s: string) {
    |s| >= 2 && s[0] == '1' && s[1] == '.'
  }

  /** The first artifact whose normalised path was seen before; the length when there is none. */
  function FirstRepeat(dicts: seq<ArtifactRef>, i: nat): (r: nat)
    requires i <= |dicts| && DistinctKeys(PathOf, dicts[..i])
    ensures i <= r <= |dicts| && DistinctKeys(PathOf, dicts[..r])
    ensures r < |dicts| ==> exists j :: 0 <= j < r && dicts[j].path == dicts[r].path
    decreases |dicts| - i
  {
    if i == |dicts| then i
    else if exists j :: 0 <= j < i && dicts[j].path == dicts[i].path then i
    else
      assert forall j, k :: 0 <= j < k < i ==> PathOf(dicts[..i][j]) != PathOf(dicts[..i][k]);
      FirstRepeat(dicts, i + 1)
  }

  /** `ArtifactManifest.__post_init__`; `hash` stands for SHA-256 of the JSON encoding, as lower-case hex. */
  function Construct(hash: Payload -> string, schema: string, revision: string,
                     artifacts: seq<ArtifactRef>, dependencies: seq<DependencyRef>, declared: string): Result<Manifest>
  {
    if !IsSchemaOne(schema) then Err(UnsupportedSchema)
    else if revision == "" then Err(EmptyRevision)
    else if artifacts == [] then Err(NoArtifacts)
    else
      var dicts := ArtifactDicts(artifacts);
      var repeat := FirstRepeat(dicts, 0);
      if repeat < |dicts| then Err(DuplicatePath(dicts[repeat].path))
      else
        var computed := hash(CanonicalPayload(schema, revision, artifacts, dependencies));
        if declared == "" then Ok(Manifest(schema, revision, artifacts, dependencies, computed))
        else if Lower(declared) != computed then Err(Sha256Mismatch)
        else Ok(Manifest(schema, revision, artifacts, dependencies, declared))
  }

  /** A manifest that construction let through, made of references that their own checks let through. */
  ghost predicate IsConstructed(hash: Payload -> string, m: Manifest) {
    && (forall a :: a in m.artifacts ==> IsArtifact(a))
    && (forall d :: d in m.dependencies ==> IsDependency(d))
    && IsSchemaOne(m.schema) && m.revision != "" && m.artifacts != []
    && DistinctKeys(PathOf, ArtifactDicts(m.artifacts))
    && Lower(m.sha256) == hash(PayloadOf(m)) && m.sha256 != ""
  }

  /** Digests are lower-case hex already and never empty. */
  ghost predicate IsHexDigest(hash: Payload -> string) {
    forall p :: hash(p) != "" && Lower(hash(p)) == hash(p)
  }

  /** The first artifact whose path, up to slashes, an earlier one has. */
  ghost predicate RepeatsAt(artifacts: seq<ArtifactRef>, i: nat) {
    && i < |artifacts|
    && (exists j :: 0 <= j < i && SlashesApart(artifacts[j].path, artifacts[i].path))
    && (forall j, k :: 0 <= j < k < i ==> !SlashesApart(artifacts[j].path, artifacts[k].path))
  }

  lemma PathsOfDicts(artifacts: seq<ArtifactRef>, j: nat, k: nat)
    requires j < |artifacts| && k < |artifacts|
    ensures SlashesApart(artifacts[j].path, artifacts[k].path) <==>
      PathOf(ArtifactDicts(artifacts)[j]) == PathOf(ArtifactDicts(artifacts)[k])
  {
    SlashesApartIff(artifacts[j].path, artifacts[k].path);
  }

  lemma FirstRepeatIs(artifacts: seq<ArtifactRef>)
    ensures var dicts := ArtifactDicts(artifacts); var i := FirstRepeat(dicts, 0);
      && (i < |artifacts| ==> RepeatsAt(artifacts, i))
      && (i == |artifacts| <==> DistinctPaths(artifacts))
  {
    hide ArtifactDicts, SlashesApart;
    var dicts := ArtifactDicts(artifacts);
    var i := FirstRepeat(dicts, 0);
    hide FirstRepeat;
    forall j, k | 0 <= j < k < |artifacts|
      ensures SlashesApart(artifacts[j].path, artifacts[k].path) <==> PathOf(dicts[j]) == PathOf(dicts[k])
    {
      PathsOfDicts(artifacts, j, k);
    }
    forall j, k | 0 <= j < k < i ensures PathOf(dicts[j]) != PathOf(dicts[k]) {
      assert PathOf(dicts[..i][j]) != PathOf(dicts[..i][k]);
    }
    if i < |dicts| {
      var j :| 0 <= j < i && dicts[j].path == dicts[i].path;
      assert PathOf(dicts[j]) == PathOf(dicts[i]);
    }
  }

  /** What construction lets through, and which complaint comes first. */
  lemma ConstructDecides(hash: Payload -> string, schema: string, revision: string,
                         artifacts: seq<ArtifactRef>, dependencies: seq<DependencyRef>, declared: string)
    ensures var r, computed :=
      Construct(hash, schema, revision, artifacts, dependencies, declared),
      hash(CanonicalPayload(schema, revision, artifacts, dependencies));
      && (r.Ok? <==>
           && "1." <= schema && revision != "" && artifacts != [] && DistinctPaths(artifacts)
           && (declared == "" || Lower(declared) == computed))
      && (r.Ok? ==>
           r.value ==
             Manifest(schema, revision, artifacts, dependencies, if declared == "" then computed else declared))
      && (r == Err(UnsupportedSchema) <==> !("1." <= schema))
      && (r == Err(EmptyRevision) <==> "1." <= schema && revision == "")
      && (r == Err(NoArtifacts) <==> "1." <= schema && revision != "" && artifacts == [])
      && (r.Err? && r.error.DuplicatePath? <==>
           "1." <= schema && revision != "" && artifacts != [] && !DistinctPaths(artifacts))
      && (r.Err? && r.error.DuplicatePath? ==>
           exists i :: 0 <= i < |artifacts| && RepeatsAt(artifacts, i)
             && r.error.path == ReplaceBackslash(artifacts[i].path))
      && (r == Err(Sha256Mismatch) <==>
           && "1." <= schema && revision != "" && artifacts != [] && DistinctPaths(artifacts)
           && declared != "" && Lower(declared) != computed)
  {
    FirstRepeatIs(artifacts);
    assert IsSchemaOne(schema) <==> "1." <= schema;
    hide FirstRepeat, DistinctPaths, RepeatsAt, CanonicalPayload, Lower, ReplaceBackslash;
  }

  /** A manifest made of checked references is a constructed one. */
  lemma ConstructedIs(hash: Payload -> string, schema: string, revision: string,
                      artifacts: seq<ArtifactRef>, dependencies: seq<DependencyRef>, declared: string)
    requires IsHexDigest(hash) && Construct(hash, schema, revision, artifacts, dependencies, declared).Ok?
    requires (forall a :: a in artifacts ==> IsArtifact(a)) && (forall d :: d in dependencies ==> IsDependency(d))
    ensures IsConstructed(hash, Construct(hash, schema, revision, artifacts, dependencies, declared).value)
  {
    ConstructDecides(hash, schema, revision, artifacts, dependencies, declared);
    FirstRepeatIs(artifacts);
    var dicts := ArtifactDicts(artifacts);
    assert dicts[..|dicts|] == dicts;
    hide Construct, Lower, CanonicalPayload, IsArtifact, IsDependency, ArtifactDicts;
  }

  // ---------------------------------------------------------------- the digest forgets order

  /** The artifacts correspond one to one: `f` says which is which. */
  ghost predicate Correspond(xs: seq<ArtifactRef>, ys: seq<ArtifactRef>, f: seq<nat>) {
    && |f| == |xs| == |ys| && (forall i :: 0 <= i < |f| ==> f[i] < |ys|)
    && (forall i, j :: 0 <= i < j < |f| ==> f[i] != f[j])
    && (forall i :: 0 <= i < |f| ==> SameArtifact(xs[i], ys[f[i]]))
  }

  /** Where a dictionary form stands in a list. */
  ghost function IndexIn(dicts: seq<ArtifactRef>, a: ArtifactRef): (i: nat)
    requires a in dicts
    ensures i < |dicts| && dicts[i] == a
  {
    var i: nat :| i < |dicts| && dicts[i] == a; i
  }

  lemma SameDictsCorrespond(xs: seq<ArtifactRef>, ys: seq<ArtifactRef>) returns (f: seq<nat>)
    requires multiset(ArtifactDicts(xs)) == multiset(ArtifactDicts(ys)) && DistinctKeys(PathOf, ArtifactDicts(xs))
    ensures Correspond(xs, ys, f)
  {
    var a, b := ArtifactDicts(xs), ArtifactDicts(ys);
    SameMultiset(a, b);
    f := seq(|xs|, i requires 0 <= i < |xs| => IndexIn(b, a[i]));
    forall i | 0 <= i < |f| ensures f[i] < |ys| && SameArtifact(xs[i], ys[f[i]]) {
      SameArtifactIff(xs[i], ys[f[i]]);
    }
    forall i, j | 0 <= i < j < |f| ensures f[i] != f[j] {
      assert PathOf(a[i]) != PathOf(a[j]);
    }
  }

  lemma {:induction false} CorrespondingDicts(xs: seq<ArtifactRef>, ys: seq<ArtifactRef>, f: seq<nat>)
    requires Correspond(xs, ys, f) && DistinctKeys(PathOf, ArtifactDicts(xs)) && DistinctKeys(PathOf, ArtifactDicts(ys))
    ensures multiset(ArtifactDicts(xs)) == multiset(ArtifactDicts(ys))
  {
    var a, b := ArtifactDicts(xs), ArtifactDicts(ys);
    forall i | 0 <= i < |f| ensures a[i] == b[f[i]] {
      SameArtifactIff(xs[i], ys[f[i]]);
    }
    DistinctKeysAreDistinct(a);
    DistinctKeysAreDistinct(b);
    SameElements(a, b);
    DistinctListsOfTheSame(a, b);
  }

  lemma DistinctKeysAreDistinct(a: seq<ArtifactRef>)
    requires DistinctKeys(PathOf, a)
    ensures NoDuplicates(a)
  {
  }

  lemma SameElements(a: seq<ArtifactRef>, b: seq<ArtifactRef>)
    requires NoDuplicates(a) && NoDuplicates(b) && |a| == |b| && forall i :: 0 <= i < |a| ==> a[i] in b
    ensures Elements(a) == Elements(b)
  {
    NoDuplicatesSize(a);
    NoDuplicatesSize(b);
    assert Elements(a) <= Elements(b);
    if x :| x in Elements(b) && x !in Elements(a) {
      SubsetSize(Elements(a) + {x}, Elements(b));
      assert false;
    }
  }

  lemma DistinctListsOfTheSame<T(!new)>(a: seq<T>, b: seq<T>)
    requires NoDuplicates(a) && NoDuplicates(b) && Elements(a) == Elements(b)
    ensures multiset(a) == multiset(b)
  {
    forall x ensures multiset(a)[x] == multiset(b)[x] {
      OnceAtMost(a, x);
      OnceAtMost(b, x);
      assert x in a <==> x in Elements(a);
      assert x in b <==> x in Elements(b);
    }
  }

  lemma {:induction false} OnceAtMost<T>(s: seq<T>, x: T)
    requires NoDuplicates(s)
    ensures multiset(s)[x] == if x in s then 1 else 0
    decreases |s|
  {
    if s != [] {
      var front, last := s[..|s| - 1], s[|s| - 1];
      OnceAtMost(front, x);
      assert s == front + [last];
    }
  }

  /** Two manifests have one canonical payload exactly when they agree on schema and revision, their artifacts
      correspond one to one, with the same role, size, path up to slashes and digest up to case, and they list the
      dependencies of each (kind, name) in the same order. */
  lemma SamePayloadIff(hash: Payload -> string, m: Manifest, n: Manifest)
    requires IsConstructed(hash, m) && IsConstructed(hash, n)
    ensures PayloadOf(m) == PayloadOf(n) <==>
            && m.schema == n.schema && m.revision == n.revision
            && (exists f :: Correspond(m.artifacts, n.artifacts, f))
            && SameByKey(KindAndName, m.dependencies, n.dependencies)
  {
    PayloadsAgreeIff(m, n);
    hide PayloadOf, SameByKey, Correspond, IsArtifact, IsDependency;
    var a, b := ArtifactDicts(m.artifacts), ArtifactDicts(n.artifacts);
    if multiset(a) == multiset(b) {
      var f := SameDictsCorrespond(m.artifacts, n.artifacts);
    }
    if f :| Correspond(m.artifacts, n.artifacts, f) {
      CorrespondingDicts(m.artifacts, n.artifacts, f);
    }
  }

  lemma PayloadsAgreeIff(m: Manifest, n: Manifest)
    requires DistinctKeys(PathOf, ArtifactDicts(m.artifacts))
    ensures PayloadOf(m) == PayloadOf(n) <==>
            && m.schema == n.schema && m.revision == n.revision
            && multiset(ArtifactDicts(m.artifacts)) == multiset(ArtifactDicts(n.artifacts))
            && SameByKey(KindAndName, m.dependencies, n.dependencies)
  {
    LessIsStrictTotalOrder();
    PairLessIsStrictTotalOrder();
    var a, b := ArtifactDicts(m.artifacts), ArtifactDicts(n.artifacts);
    SortPermutes(PathOf, Less, a);
    SortPermutes(PathOf, Less, b);
    if multiset(a) == multiset(b) { SortForgetsOrder(PathOf, Less, a, b); }
    SortAgreesIff(KindAndName, PairLess, m.dependencies, n.dependencies);
  }

  /** Under one digest there is one release: a manifest whose declared digest is that of another one lists the same
      artifacts and, up to their order, the same dependencies, unless the hash collides. */
  lemma SameDigestMeansSame(hash: Payload -> string, m: Manifest, n: Manifest) returns (f: seq<nat>)
    requires IsConstructed(hash, m) && IsConstructed(hash, n) && Lower(m.sha256) == Lower(n.sha256)
    requires hash(PayloadOf(m)) == hash(PayloadOf(n)) ==> PayloadOf(m) == PayloadOf(n)
    ensures m.schema == n.schema && m.revision == n.revision && Correspond(m.artifacts, n.artifacts, f)
    ensures multiset(m.dependencies) == multiset(n.dependencies)
  {
    PayloadsAgreeIff(m, n);
    SortPermutes(KindAndName, PairLess, m.dependencies);
    SortPermutes(KindAndName, PairLess, n.dependencies);
    assert PayloadOf(m).dependencies == PayloadOf(n).dependencies;
    f := SameDictsCorrespond(m.artifacts, n.artifacts);
  }

  /** What is hashed is in order: artifacts by path, dependencies by kind and name, code point by code point. */
  lemma PayloadIsSorted(m: Manifest)
    requires DistinctKeys(PathOf, ArtifactDicts(m.artifacts))
    ensures var p := PayloadOf(m);
      && (forall i, j :: 0 <= i < j < |p.artifacts| ==> Less(p.artifacts[i].path, p.artifacts[j].path))
      && (forall i, j :: 0 <= i < j < |p.dependencies| ==>
            var d, e := p.dependencies[i], p.dependencies[j];
            Less(d.kind, e.kind) || (d.kind == e.kind && (d.name == e.name || Less(d.name, e.name))))
  {
    LessIsStrictTotalOrder();
    PairLessIsStrictTotalOrder();
    var dicts := ArtifactDicts(m.artifacts);
    SortSorts(PathOf, Less, dicts);
    SortSorts(KindAndName, PairLess, m.dependencies);
    DistinctSurvivesSort(dicts);
    var p := PayloadOf(m);
    forall i, j | 0 <= i < j < |p.artifacts| ensures Less(p.artifacts[i].path, p.artifacts[j].path) {
      assert PathOf(p.artifacts[i]) != PathOf(p.artifacts[j]);
      LessTotal(p.artifacts[i].path, p.artifacts[j].path);
    }
    forall i, j | 0 <= i < j < |p.dependencies|
      ensures var d, e := p.dependencies[i], p.dependencies[j];
        Less(d.kind, e.kind) || (d.kind == e.kind && (d.name == e.name || Less(d.name, e.name)))
    {
      var d, e := p.dependencies[i], p.dependencies[j];
      assert !PairLess(KindAndName(e), KindAndName(d));
      LessTotal(d.kind, e.kind);
      LessTotal(d.name, e.name);
    }
  }

  /** The digest does not see the order of the artifacts, nor that of dependencies with distinct kind and name. */
  lemma DigestForgetsOrder(hash: Payload -> string, m: Manifest, n: Manifest)
    requires IsConstructed(hash, m) && IsConstructed(hash, n)
    requires m.schema == n.schema && m.revision == n.revision
    requires multiset(m.artifacts) == multiset(n.artifacts)
    requires multiset(m.dependencies) == multiset(n.dependencies) && DistinctKeys(KindAndName, m.dependencies)
    ensures PayloadOf(m) == PayloadOf(n) && Lower(m.sha256) == Lower(n.sha256)
  {
    PairLessIsStrictTotalOrder();
    DictsPermute(m.artifacts, n.artifacts);
    SortForgetsOrder(KindAndName, PairLess, m.dependencies, n.dependencies);
    SortAgreesIff(KindAndName, PairLess, m.dependencies, n.dependencies);
    PayloadsAgreeIff(m, n);
  }

  function Without<T>(t: seq<T>, i: nat): seq<T>
    requires i < |t|
  {
    t[..i] + t[i + 1..]
  }

  lemma WithoutCounts<T>(t: seq<T>, i: nat)
    requires i < |t|
    ensures multiset(t) == multiset{t[i]} + multiset(Without(t, i))
  {
    assert t == t[..i] + [t[i]] + t[i + 1..];
  }

  lemma DictsWithout(t: seq<ArtifactRef>, i: nat)
    requires i < |t|
    ensures multiset(ArtifactDicts(t)) == multiset{ArtifactDict(t[i])} + multiset(ArtifactDicts(Without(t, i)))
  {
    WithoutCounts(ArtifactDicts(t), i);
    assert ArtifactDicts(Without(t, i)) == Without(ArtifactDicts(t), i);
  }

  lemma CancelOne<T>(s: seq<T>, t: seq<T>, i: nat)
    requires s != [] && i < |t| && s[0] == t[i] && multiset(s) == multiset(t)
    ensures multiset(Without(s, 0)) == multiset(Without(t, i))
  {
    WithoutCounts(s, 0);
    WithoutCounts(t, i);
    assert multiset(Without(s, 0)) == multiset(s) - multiset{s[0]};
    assert multiset(Without(t, i)) == multiset(t) - multiset{t[i]};
  }

  lemma {:induction false} DictsPermute(s: seq<ArtifactRef>, t: seq<ArtifactRef>)
    requires multiset(s) == multiset(t)
    ensures multiset(ArtifactDicts(s)) == multiset(ArtifactDicts(t))
    decreases |s|
  {
    if s == [] {
      assert t == [];
    } else {
      assert s[0] in multiset(t);
      var i :| 0 <= i < |t| && t[i] == s[0];
      CancelOne(s, t, i);
      DictsPermute(Without(s, 0), Without(t, i));
      DictsWithout(s, 0);
      DictsWithout(t, i);
    }
  }

  /** Without distinct kinds and names the order does show: swapping two different entries for one dependency changes
      the payload. */
  lemma SwappedTwinsShow(
      schema: string, revision: string, artifacts: seq<ArtifactRef>, d: DependencyRef, e: DependencyRef)
    requires KindAndName(d) == KindAndName(e) && d != e
    ensures CanonicalPayload(schema, revision, artifacts, [d, e]) !=
      CanonicalPayload(schema, revision, artifacts, [e, d])
  {
    PairLessIsStrictTotalOrder();
    var k := KindAndName(d);
    assert [d, e][1..] == [e] && [e, d][1..] == [d] && [e][1..] == [] && [d][1..] == [];
    assert WithKey(KindAndName, k, [d, e]) ==
        [d] + WithKey(KindAndName, k, [e]) == [d] + ([e] + WithKey(KindAndName, k, []));
    assert WithKey(KindAndName, k, [e, d]) ==
        [e] + WithKey(KindAndName, k, [d]) == [e] + ([d] + WithKey(KindAndName, k, []));
    assert WithKey(KindAndName, k, [d, e])[0] == d && WithKey(KindAndName, k, [e, d])[0] == e;
    SortAgreesIff(KindAndName, PairLess, [d, e], [e, d]);
  }

  // ---------------------------------------------------------------- round trip

  function ToDict(m: Manifest): Dict {
    Dict(PayloadOf(m), Lower(m.sha256))
  }

  /** `ArtifactRef.from_dict` lower-cases the digest and checks the reference again. */
  function ArtifactFromDict(a: ArtifactRef): ArtifactRef {
    a.(sha256 := Lower(a.sha256))
  }

  function ArtifactsFromDict(artifacts: seq<ArtifactRef>): (r: seq<ArtifactRef>)
    ensures |r| == |artifacts| && forall i :: 0 <= i < |r| ==> r[i] == ArtifactFromDict(artifacts[i])
  {
    seq(|artifacts|, i requires 0 <= i < |artifacts| => ArtifactFromDict(artifacts[i]))
  }

  function FromDict(hash: Payload -> string, d: Dict): Result<Manifest> {
    var artifacts := ArtifactsFromDict(d.payload.artifacts);
    if exists a :: a in artifacts && !IsArtifact(a) then Err(BadArtifact)
    else if exists e :: e in d.payload.dependencies && !IsDependency(e) then Err(BadDependency)
    else Construct(hash, d.payload.schema, d.payload.revision, artifacts, d.payload.dependencies, d.sha256)
  }

  /** The references as they are read: the same artifacts at the same paths, as well or as badly formed. */
  ghost predicate ReadAs(read: seq<ArtifactRef>, artifacts: seq<ArtifactRef>) {
    && |read| == |artifacts|
    && (forall i :: 0 <= i < |read| ==> SameArtifact(read[i], artifacts[i]) && read[i].path == artifacts[i].path)
    && (AllChecked(read) <==> AllChecked(artifacts))
  }

  predicate AllChecked(artifacts: seq<ArtifactRef>) {
    forall a :: a in artifacts ==> IsArtifact(a)
  }

  lemma ReadAreTheSame(artifacts: seq<ArtifactRef>)
    ensures ReadAs(ArtifactsFromDict(artifacts), artifacts)
  {
    var read := ArtifactsFromDict(artifacts);
    forall i | 0 <= i < |read|
      ensures SameArtifact(read[i], artifacts[i]) && read[i].path == artifacts[i].path
      ensures IsArtifact(read[i]) <==> IsArtifact(artifacts[i])
    {
      CaseDoesNotMatter(artifacts[i]);
    }
    hide IsArtifact, SameArtifact, ArtifactFromDict;
    if AllChecked(artifacts) {
      forall a | a in read ensures IsArtifact(a) {
        var i :| 0 <= i < |read| && read[i] == a;
        assert artifacts[i] in artifacts;
      }
    }
    if AllChecked(read) {
      forall a | a in artifacts ensures IsArtifact(a) {
        var i :| 0 <= i < |artifacts| && artifacts[i] == a;
        assert read[i] in read;
      }
    }
  }

  /** Reading a dictionary checks every reference, artifacts first, with their digests in lower case, and then
      constructs the manifest from them. */
  lemma FromDictDecides(hash: Payload -> string, d: Dict)
    ensures var r, p := FromDict(hash, d), d.payload;
      && (r == Err(BadArtifact) <==> !AllChecked(p.artifacts))
      && (r == Err(BadDependency) <==>
            AllChecked(p.artifacts) && exists e :: e in p.dependencies && !IsDependency(e))
      && (r.Ok? ==>
            && r.value.schema == p.schema && r.value.revision == p.revision && r.value.dependencies == p.dependencies
            && ReadAs(r.value.artifacts, p.artifacts))
  {
    var p := d.payload;
    var artifacts := ArtifactsFromDict(p.artifacts);
    ReadAreTheSame(p.artifacts);
    ConstructDecides(hash, p.schema, p.revision, artifacts, p.dependencies, d.sha256);
    hide Construct, ArtifactsFromDict, IsArtifact, IsDependency, SameArtifact, DistinctPaths, RepeatsAt,
      CanonicalPayload,
      Lower, ReplaceBackslash;
  }

  lemma CaseDoesNotMatter(a: ArtifactRef)
    ensures SameArtifact(ArtifactFromDict(a), a)
    ensures IsArtifact(ArtifactFromDict(a)) <==> IsArtifact(a)
  {
    var low := Lower(a.sha256);
    LowerHex(a.sha256);
    hide IsScoped, IsSha256Hex;
    LowerTwice(a.sha256);
    CaseApartIff(low, a.sha256);
    hide CaseApart;
    SlashesApartIff(a.path, a.path);
  }

  lemma LowerHex(s: string)
    ensures IsSha256Hex(Lower(s)) <==> IsSha256Hex(s)
  {
    var low := Lower(s);
    forall i | 0 <= i < |s|
      ensures IsHexChar(low[i]) <==> IsHexChar(s[i])
    {
    }
    assert forall i :: 0 <= i < |s| ==> low[i] in low && s[i] in s;
    if IsSha256Hex(low) {
      forall c | c in s ensures IsHexChar(c) {
        var i :| 0 <= i < |s| && s[i] == c;
        assert IsHexChar(low[i]);
      }
    }
    if IsSha256Hex(s) {
      forall c | c in low ensures IsHexChar(c) {
        var i :| 0 <= i < |s| && low[i] == c;
        assert IsHexChar(s[i]);
      }
    }
  }

  lemma LowerTwice(s: string)
    ensures Lower(Lower(s)) == Lower(s)
  {
  }

  lemma ReplaceTwice(s: string)
    ensures ReplaceBackslash(ReplaceBackslash(s)) == ReplaceBackslash(s)
  {
  }

  /** The dict form of a checked reference passes its own checks, and is its own dict form. */
  lemma DictIsStable(a: ArtifactRef)
    requires IsArtifact(a)
    ensures IsArtifact(ArtifactDict(a))
    ensures ArtifactDict(ArtifactDict(a)) == ArtifactDict(a) == ArtifactFromDict(ArtifactDict(a))
  {
    LowerTwice(a.sha256);
    ReplaceTwice(a.path);
    var low := Lower(a.sha256);
    forall c | c in low ensures '0' <= c <= '9' || 'a' <= c <= 'f' {
      var i :| 0 <= i < |low| && low[i] == c;
      assert a.sha256[i] in a.sha256;
    }
  }

  lemma SortTwice<T(!new), K(!new)>(key: T -> K, less: (K, K) -> bool, s: seq<T>)
    requires StrictTotalOrder(less)
    ensures Sort(key, less, Sort(key, less, s)) == Sort(key, less, s)
  {
    SortKeepsKeys(key, less, s);
    SortAgreesIff(key, less, Sort(key, less, s), s);
  }

  lemma DistinctSurvivesSort(s: seq<ArtifactRef>)
    requires DistinctKeys(PathOf, s)
    ensures DistinctKeys(PathOf, Sort(PathOf, Less, s))
  {
    LessIsStrictTotalOrder();
    var t := Sort(PathOf, Less, s);
    forall i, j | 0 <= i < j < |t| ensures PathOf(t[i]) != PathOf(t[j]) {
      if PathOf(t[i]) == PathOf(t[j]) {
        var k := PathOf(t[i]);
        SortIsStable(PathOf, Less, s, k);
        AtMostOneWithKey(PathOf, k, s);
        TwoWithKey(PathOf, t, i, j);
      }
    }
  }

  lemma {:induction false} TwoWithKey<T(!new), K>(key: T -> K, s: seq<T>, i: nat, j: nat)
    requires i < j < |s| && key(s[i]) == key(s[j])
    ensures |WithKey(key, key(s[i]), s)| >= 2
  {
    if i == 0 {
      assert s[1..][j - 1] == s[j];
      assert s[j] in WithKey(key, key(s[j]), s[1..]);
    } else {
      TwoWithKey(key, s[1..], i - 1, j - 1);
    }
  }

  lemma SortedDictsAreStable(m: Manifest)
    requires forall a :: a in m.artifacts ==> IsArtifact(a)
    ensures var sorted := PayloadOf(m).artifacts;
            ArtifactsFromDict(sorted) == sorted && ArtifactDicts(sorted) == sorted &&
              forall a :: a in sorted ==> IsArtifact(a)
  {
    var dicts := ArtifactDicts(m.artifacts);
    var sorted := PayloadOf(m).artifacts;
    SortPermutes(PathOf, Less, dicts);
    forall a | a in sorted ensures IsArtifact(a) && ArtifactDict(a) == a == ArtifactFromDict(a) {
      var i :| 0 <= i < |dicts| && dicts[i] == a;
      assert m.artifacts[i] in m.artifacts;
      DictIsStable(m.artifacts[i]);
    }
    forall i | 0 <= i < |sorted| ensures ArtifactFromDict(sorted[i]) == sorted[i] == ArtifactDict(sorted[i]) {
      assert sorted[i] in sorted;
    }
  }

  /** Reading back what was written always succeeds: the artifacts are those of the manifest, one to one, the
      dependencies are its dependencies in some order, and payload and digest are the same. */
  lemma RoundTrip(hash: Payload -> string, m: Manifest) returns (f: seq<nat>)
    requires IsHexDigest(hash) && IsConstructed(hash, m)
    ensures var r := FromDict(hash, ToDict(m));
            && r.Ok? && IsConstructed(hash, r.value) && PayloadOf(r.value) == PayloadOf(m)
            && r.value.schema == m.schema && r.value.revision == m.revision
            && Correspond(m.artifacts, r.value.artifacts, f)
            && multiset(r.value.dependencies) == multiset(m.dependencies)
            && r.value.sha256 == Lower(m.sha256)
  {
    ReadsBack(hash, m);
    var n := FromDict(hash, ToDict(m)).value;
    f := SameDigestMeansSame(hash, m, n);
  }

  lemma ReadsBack(hash: Payload -> string, m: Manifest)
    requires IsHexDigest(hash) && IsConstructed(hash, m)
    ensures var r := FromDict(hash, ToDict(m));
            r.Ok? && IsConstructed(hash, r.value) && PayloadOf(r.value) == PayloadOf(m) &&
              Lower(r.value.sha256) == r.value.sha256 == Lower(m.sha256)
  {
    var p := PayloadOf(m);
    PayloadIsStable(m);
    SortPermutes(KindAndName, PairLess, m.dependencies);
    DistinctSurvivesSort(ArtifactDicts(m.artifacts));
    LowerTwice(m.sha256);
    FirstRepeatIs(p.artifacts);
    DistinctDicts(p.artifacts);
    ConstructDecides(hash, p.schema, p.revision, p.artifacts, p.dependencies, Lower(m.sha256));
    ConstructedIs(hash, p.schema, p.revision, p.artifacts, p.dependencies, Lower(m.sha256));
  }

  lemma DistinctDicts(artifacts: seq<ArtifactRef>)
    ensures DistinctPaths(artifacts) <==> DistinctKeys(PathOf, ArtifactDicts(artifacts))
  {
    forall j, k | 0 <= j < k < |artifacts|
      ensures SlashesApart(artifacts[j].path, artifacts[k].path) <==>
        PathOf(ArtifactDicts(artifacts)[j]) == PathOf(ArtifactDicts(artifacts)[k])
    {
      PathsOfDicts(artifacts, j, k);
    }
  }

  /** The canonical payload, read as a manifest, is its own canonical payload. */
  lemma PayloadIsStable(m: Manifest)
    requires forall a :: a in m.artifacts ==> IsArtifact(a)
    ensures var p := PayloadOf(m);
            && CanonicalPayload(p.schema, p.revision, p.artifacts, p.dependencies) == p
            && ArtifactsFromDict(p.artifacts) == p.artifacts && ArtifactDicts(p.artifacts) == p.artifacts
            && |p.artifacts| == |m.artifacts| && forall a :: a in p.artifacts ==> IsArtifact(a)
  {
    LessIsStrictTotalOrder();
    PairLessIsStrictTotalOrder();
    SortedDictsAreStable(m);
    SortTwice(PathOf, Less, ArtifactDicts(m.artifacts));
    SortTwice(KindAndName, PairLess, m.dependencies);
    SortPermutes(PathOf, Less, ArtifactDicts(m.artifacts));
  }
}
