/** The fidelity gate: baseline nets against the merged nets of the exported sheets, compared as partitions of pins. */
module FidelityGate {
  import opened NetPartition

  /** One sheet's netlist: the export may fail, in which case the sheet is skipped with a warning. */
  datatype Export = Failed | Exported(nets: seq<seq<string>>)

  datatype Verdict = NoSheets | Pass | Fail

  function AllNets(sheets: seq<Export>): seq<seq<string>> {
    if sheets == [] then []
    else AllNets(sheets[..|sheets| - 1]) + (match sheets[|sheets| - 1] case Failed => [] case Exported(nets) => nets)
  }

  // ---------------------------------------------------------------- union-find over all sheets

  /** The pairs while `net` is being merged: all earlier nets are done, and its first pin is paired up to position
      `i`. */
  ghost predicate PartlyCovers(pairs: set<Pair>, before: seq<seq<string>>, net: seq<string>, i: nat) {
    && (forall e {:trigger ShareNet(before + [net], e.left, e.right)} ::
         e in pairs ==> ShareNet(before + [net], e.left, e.right))
    && (forall n, k :: n in before && 1 <= k < |n| ==> Pair(n[0], n[k]) in pairs)
    && (forall k :: 1 <= k < i && k < |net| ==> Pair(net[0], net[k]) in pairs)
  }

  lemma CoverStarts(pairs: set<Pair>, before: seq<seq<string>>, net: seq<string>)
    requires Covers(pairs, before)
    ensures PartlyCovers(pairs, before, net, 1)
  {
    forall e | e in pairs
      ensures ShareNet(before + [net], e.left, e.right)
    {
      ShareNetGrows(before, net, e.left, e.right);
    }
  }

  lemma CoverStep(pairs: set<Pair>, before: seq<seq<string>>, net: seq<string>, i: nat)
    requires PartlyCovers(pairs, before, net, i) && 1 <= i < |net|
    ensures PartlyCovers(pairs + {Pair(net[0], net[i])}, before, net, i + 1)
  {
    assert net in before + [net];
    assert ShareNet(before + [net], net[0], net[i]);
  }

  lemma CoverEnds(pairs: set<Pair>, before: seq<seq<string>>, net: seq<string>, i: nat)
    requires PartlyCovers(pairs, before, net, i) && i >= |net|
    ensures Covers(pairs, before + [net])
  {
  }

  method MergeNet(uf: UnionFind, net: seq<string>, ghost before: seq<seq<string>>, ghost pairs0: set<Pair>)
    returns (ghost pairs: set<Pair>)
    requires uf.Valid() && Partitions(uf.root, pairs0) && Covers(pairs0, before)
    modifies uf
    ensures uf.Valid() && Partitions(uf.root, pairs) && Covers(pairs, before + [net])
  {
    pairs := pairs0;
    CoverStarts(pairs, before, net);
    var i := 1;
    while i < |net|
      invariant 1 <= i
      invariant uf.Valid() && Partitions(uf.root, pairs)
      invariant PartlyCovers(pairs, before, net, i)
    {
      JoinPartitions(uf.root, pairs, net[0], net[i]);
      CoverStep(pairs, before, net, i);
      uf.Union(net[0], net[i]);
      pairs := pairs + {Pair(net[0], net[i])};
      i := i + 1;
    }
    CoverEnds(pairs, before, net, i);
  }

  lemma ShareNetGrows(before: seq<seq<string>>, net: seq<string>, a: string, b: string)
    requires ShareNet(before, a, b)
    ensures ShareNet(before + [net], a, b)
  {
    var n :| n in before && |n| >= 2 && a in n && b in n;
    assert n in before + [net];
  }

  method MergeSheet(uf: UnionFind, nets: seq<seq<string>>, ghost before: seq<seq<string>>, ghost pairs0: set<Pair>)
    returns (ghost pairs: set<Pair>)
    requires uf.Valid() && Partitions(uf.root, pairs0) && Covers(pairs0, before)
    modifies uf
    ensures uf.Valid() && Partitions(uf.root, pairs) && Covers(pairs, before + nets)
  {
    pairs := pairs0;
    assert before + nets[..0] == before;
    for j := 0 to |nets|
      invariant uf.Valid() && Partitions(uf.root, pairs) && Covers(pairs, before + nets[..j])
    {
      assert before + nets[..j + 1] == before + nets[..j] + [nets[j]];
      pairs := MergeNet(uf, nets[j], before + nets[..j], pairs);
    }
    assert nets[..|nets|] == nets;
  }

  /** `sch_union_classes` up to the point where the classes are read off. */
  method MergeSheets(sheets: seq<Export>) returns (uf: UnionFind, ghost pairs: set<Pair>)
    ensures fresh(uf) && uf.Valid() && Partitions(uf.root, pairs) && Covers(pairs, AllNets(sheets))
  {
    uf := new UnionFind();
    pairs := {};
    for i := 0 to |sheets|
      invariant fresh(uf) && uf.Valid() && Partitions(uf.root, pairs) && Covers(pairs, AllNets(sheets[..i]))
    {
      assert sheets[..i + 1][..i] == sheets[..i];
      if sheets[i].Exported? {
        pairs := MergeSheet(uf, sheets[i].nets, AllNets(sheets[..i]), pairs);
      } else {
        assert AllNets(sheets[..i + 1]) == AllNets(sheets[..i]);
      }
    }
    assert sheets[..|sheets|] == sheets;
  }

  ghost function ClassOf(root: map<string, string>, x: string): set<string> {
    set y | y in root && Look(root, y) == Look(root, x)
  }

  /** The classes of the root map, each listed once. */
  ghost predicate ListsClasses(classes: seq<set<string>>, root: map<string, string>) {
    && (forall i, x :: 0 <= i < |classes| && x in classes[i] ==> x in root && classes[i] == ClassOf(root, x))
    && (forall x :: x in root ==> exists i :: 0 <= i < |classes| && x in classes[i])
    && Disjoint(classes)
  }

  ghost predicate Disjoint(classes: seq<set<string>>) {
    forall i, j :: 0 <= i < j < |classes| ==> classes[i] !! classes[j]
  }

  /** Those of `done` that stand below the root `r`. */
  ghost function Members(root: map<string, string>, done: set<string>, r: string): set<string> {
    set y | y in done && Look(root, y) == r
  }

  lemma MembersGrow(root: map<string, string>, done: set<string>, x: string, r: string)
    ensures Members(root, done + {x}, r) ==
      if Look(root, x) == r then Members(root, done, r) + {x} else Members(root, done, r)
  {
  }

  /** The dict from root to members that the code fills: `names[i]` is the root of `classes[i]`. */
  ghost predicate Collects(
      classes: seq<set<string>>, names: seq<string>, place: map<string, nat>, root: map<string, string>,
      done: set<string>)
  {
    && |names| == |classes|
    && (forall i :: 0 <= i < |names| ==> names[i] in place && place[names[i]] == i)
    && (forall i :: 0 <= i < |names| ==> classes[i] == Members(root, done, names[i]))
    && (forall r :: r in place ==> r in names)
    && (forall x {:trigger Look(root, x)} :: x in done ==> Look(root, x) in place)
  }

  lemma LookupKeeps(root: map<string, string>, x: string)
    requires x in root
    ensures root[x := Look(root, x)] == root
  {
  }

  lemma CollectStep(
      classes: seq<set<string>>, names: seq<string>, place: map<string, nat>, root: map<string, string>,
      done: set<string>, x: string)
    requires Collects(classes, names, place, root, done)
    ensures var r := Look(root, x);
            if r in place
            then place[r] < |classes| &&
                Collects(classes[place[r] := classes[place[r]] + {x}], names, place, root, done + {x})
            else Collects(classes + [{x}], names + [r], place[r := |classes|], root, done + {x})
  {
    var r := Look(root, x);
    forall s { MembersGrow(root, done, x, s); }
    if r in place {
      var i :| 0 <= i < |names| && names[i] == r;
    } else {
      assert Members(root, done, r) == {};
    }
  }

  lemma CollectedAll(classes: seq<set<string>>, names: seq<string>, place: map<string, nat>, root: map<string, string>)
    requires Collects(classes, names, place, root, root.Keys)
    ensures ListsClasses(classes, root)
  {
    forall i, x | 0 <= i < |classes| && x in classes[i] ensures x in root && classes[i] == ClassOf(root, x) {
    }
    forall x | x in root ensures exists i :: 0 <= i < |classes| && x in classes[i] {
      assert Look(root, x) in place && Look(root, x) in names;
      var i :| 0 <= i < |names| && names[i] == Look(root, x);
      assert x in classes[i];
    }
    forall i, j | 0 <= i < j < |classes| ensures classes[i] !! classes[j] {
      assert names[i] != names[j];
    }
  }

  /** Reading the classes off the forest: a dict from root to members, in the order the roots first turn up. */
  method CollectClasses(uf: UnionFind) returns (classes: seq<set<string>>)
    requires uf.Valid()
    modifies uf
    ensures ListsClasses(classes, old(uf.root))
  {
    classes := [];
    var place: map<string, nat> := map[];
    var todo := uf.parent.Keys;
    ghost var root, names := uf.root, [];
    assert root.Keys - todo == {};
    while todo != {}
      invariant uf.Valid() && uf.root == root && todo <= root.Keys
      invariant Collects(classes, names, place, root, root.Keys - todo)
      decreases todo
    {
      var node :| node in todo;
      LookupKeeps(root, node);
      CollectStep(classes, names, place, root, root.Keys - todo, node);
      assert root.Keys - (todo - {node}) == root.Keys - todo + {node};
      todo := todo - {node};
      var r := uf.Find(node);
      if r in place {
        classes := classes[place[r] := classes[place[r]] + {node}];
      } else {
        place := place[r := |classes|];
        classes := classes + [{node}];
        names := names + [r];
      }
    }
    assert root.Keys - todo == root.Keys;
    CollectedAll(classes, names, place, root);
  }

  // ---------------------------------------------------------------- comparing partitions

  predicate IsPowerFlag(pin: string) {
    pin != "" && pin[0] == '#'
  }

  function RealPins(cls: set<string>): set<string> {
    set pin | pin in cls && !IsPowerFlag(pin)
  }

  /** `_drop_power_flags`. */
  function DropPowerFlags(classes: seq<set<string>>): seq<set<string>> {
    if classes == [] then []
    else
      var front := DropPowerFlags(classes[..|classes| - 1]);
      var pins := RealPins(classes[|classes| - 1]);
      if pins == {} then front else front + [pins]
  }

  /** The dict from pin to its class: a later class overrides an earlier one. */
  function Index(classes: seq<set<string>>): map<string, set<string>> {
    if classes == [] then map[]
    else
      var last := classes[|classes| - 1];
      Index(classes[..|classes| - 1]) + (map pin | pin in last :: last)
  }

  ghost predicate Together(classes: seq<set<string>>, a: string, b: string) {
    exists i :: 0 <= i < |classes| && a in classes[i] && b in classes[i]
  }

  lemma {:induction false} DropKeepsReal(classes: seq<set<string>>, a: string, b: string)
    ensures Together(DropPowerFlags(classes), a, b) <==> Together(classes, a, b) && !IsPowerFlag(a) && !IsPowerFlag(b)
  {
    if classes != [] {
      var front, pins := classes[..|classes| - 1], RealPins(classes[|classes| - 1]);
      DropKeepsReal(front, a, b);
      TogetherSnoc(front, classes[|classes| - 1], a, b);
      TogetherSnoc(DropPowerFlags(front), pins, a, b);
      assert classes == front + [classes[|classes| - 1]];
      assert a in classes[|classes| - 1] && !IsPowerFlag(a) ==> a in pins;
    }
  }

  lemma TogetherSnoc(front: seq<set<string>>, last: set<string>, a: string, b: string)
    ensures Together(front + [last], a, b) <==> Together(front, a, b) || (a in last && b in last)
  {
    var all := front + [last];
    assert all[|front|] == last;
    if Together(front, a, b) {
      var i :| 0 <= i < |front| && a in front[i] && b in front[i];
      assert a in all[i] && b in all[i];
    }
  }

  lemma {:induction false} DropKeepsDisjoint(classes: seq<set<string>>)
    requires Disjoint(classes)
    ensures Disjoint(DropPowerFlags(classes))
  {
    if classes != [] {
      var front, last := classes[..|classes| - 1], classes[|classes| - 1];
      DropKeepsDisjoint(front);
      var kept := DropPowerFlags(front);
      forall i | 0 <= i < |kept| ensures kept[i] !! RealPins(last) {
        forall x | x in kept[i] ensures x !in last {
          assert Together(kept, x, x);
          DropKeepsReal(front, x, x);
          var j :| 0 <= j < |front| && x in front[j] && x in front[j];
          assert front[j] == classes[j];
        }
      }
    }
  }

  /** With disjoint classes the index gives each pin exactly those it stands together with. */
  lemma {:induction false} IndexOfDisjoint(classes: seq<set<string>>, x: string, y: string)
    requires Disjoint(classes)
    ensures x in Index(classes) <==> Together(classes, x, x)
    ensures x in Index(classes) ==> (y in Index(classes)[x] <==> Together(classes, x, y))
  {
    if classes != [] {
      var front, last := classes[..|classes| - 1], classes[|classes| - 1];
      IndexOfDisjoint(front, x, y);
      TogetherSnoc(front, last, x, x);
      TogetherSnoc(front, last, x, y);
      assert classes == front + [last];
    }
  }

  /** What `main` compares, on the two indexes. */
  ghost predicate Agree(b: map<string, set<string>>, c: map<string, set<string>>) {
    && (forall pin :: pin in b && pin !in c ==> |b[pin]| <= 1)
    && (forall pin :: pin in c ==> pin in b)
    && (forall pin :: pin in b && pin in c ==> b[pin] * (b.Keys * c.Keys) == c[pin] * (b.Keys * c.Keys))
  }

  method BuildIndex(classes: seq<set<string>>) returns (index: map<string, set<string>>)
    ensures index == Index(classes)
  {
    index := map[];
    for i := 0 to |classes|
      invariant index == Index(classes[..i])
    {
      assert classes[..i + 1][..i] == classes[..i];
      index := index + (map pin | pin in classes[i] :: classes[i]);
    }
    assert classes[..|classes|] == classes;
  }

  /** The comparison in `main`: missing pins that had company, extra pins, and pins whose company changed. */
  method Compare(baseline: seq<set<string>>, candidate: seq<set<string>>) returns (ok: bool)
    ensures ok <==> Agree(Index(baseline), Index(candidate))
  {
    var b := BuildIndex(baseline);
    var c := BuildIndex(candidate);
    var shared := b.Keys * c.Keys;
    var onlyBaseline := set pin | pin in b.Keys - c.Keys && |b[pin]| > 1;
    var onlyCandidate := c.Keys - b.Keys;
    var moved: set<string> := {};
    var todo := shared;
    while todo != {}
      invariant todo <= shared
      invariant moved == set pin | pin in shared - todo && b[pin] * shared != c[pin] * shared
      decreases todo
    {
      var pin :| pin in todo;
      todo := todo - {pin};
      if b[pin] * shared != c[pin] * shared {
        moved := moved + {pin};
      }
    }
    ok := moved == {} && onlyBaseline == {} && onlyCandidate == {};
    VerdictIsAgreement(b, c, moved, onlyBaseline, onlyCandidate);
  }

  lemma VerdictIsAgreement(
      b: map<string, set<string>>, c: map<string, set<string>>, moved: set<string>, onlyBaseline: set<string>,
      onlyCandidate: set<string>)
    requires moved == set pin | pin in b.Keys * c.Keys && b[pin] * (b.Keys * c.Keys) != c[pin] * (b.Keys * c.Keys)
    requires onlyBaseline == set pin | pin in b.Keys - c.Keys && |b[pin]| > 1
    requires onlyCandidate == c.Keys - b.Keys
    ensures moved == {} && onlyBaseline == {} && onlyCandidate == {} <==> Agree(b, c)
  {
    if Agree(b, c) {
    } else if pin :| pin in b && pin !in c && |b[pin]| > 1 {
      assert pin in onlyBaseline;
    } else if pin :| pin in c && pin !in b {
      assert pin in onlyCandidate;
    } else {
      var pin :| pin in b && pin in c && b[pin] * (b.Keys * c.Keys) != c[pin] * (b.Keys * c.Keys);
      assert pin in moved;
    }
  }

  // ---------------------------------------------------------------- what PASS means

  ghost predicate BaselinePin(expected: seq<set<string>>, x: string) {
    Together(expected, x, x) && !IsPowerFlag(x)
  }

  ghost predicate CandidatePin(nets: seq<seq<string>>, x: string) {
    IsNode(nets, x) && !IsPowerFlag(x)
  }

  /** The electrical promise: no pin is new, and two pins share a baseline net exactly when the sheets connect them.
      A pin that no sheet shows in company is connected to nobody. */
  ghost predicate SameElectrically(expected: seq<set<string>>, nets: seq<seq<string>>) {
    && (forall x :: CandidatePin(nets, x) ==> BaselinePin(expected, x))
    && (forall a, b :: BaselinePin(expected, a) && BaselinePin(expected, b) && a != b ==>
          (Together(expected, a, b) <==> Connected(nets, a, b)))
  }

  lemma ConnectedPinsAreNodes(nets: seq<seq<string>>, a: string, b: string)
    requires Connected(nets, a, b) && a != b
    ensures IsNode(nets, a) && IsNode(nets, b)
  {
    var p :| Chain(nets, p) && p[0] == a && p[|p| - 1] == b;
    assert ShareNet(nets, p[0], p[1]);
    assert ShareNet(nets, p[|p| - 2], p[|p| - 1]);
  }

  /** The dict `main` compares for the baseline. */
  function BaselineMap(expected: seq<set<string>>): map<string, set<string>> {
    Index(DropPowerFlags(expected))
  }

  function PinsOf(nets: seq<seq<string>>): set<string> {
    set n, x | n in nets && x in n :: x
  }

  ghost function CompanyOf(nets: seq<seq<string>>, x: string): set<string> {
    set y | y in PinsOf(nets) && CandidatePin(nets, y) && Connected(nets, x, y)
  }

  /** The dict `main` compares for the sheets, told without union-find. */
  ghost function CandidateMap(nets: seq<seq<string>>): map<string, set<string>> {
    map x | x in PinsOf(nets) && CandidatePin(nets, x) :: CompanyOf(nets, x)
  }

  /** The verdict of `main` for any baseline and any sheets. */
  ghost predicate Passes(expected: seq<set<string>>, nets: seq<seq<string>>) {
    Agree(BaselineMap(expected), CandidateMap(nets))
  }

  lemma CandidateMapAt(nets: seq<seq<string>>, x: string, y: string)
    ensures x in CandidateMap(nets) <==> CandidatePin(nets, x)
    ensures x in CandidateMap(nets) ==>
      (y in CandidateMap(nets)[x] <==> CandidatePin(nets, y) && Connected(nets, x, y))
  {
  }

  /** The classes that were read off answer who is connected with whom. */
  ghost predicate TellConnection(classes: seq<set<string>>, nets: seq<seq<string>>) {
    forall x, y :: Together(classes, x, y) <==> IsNode(nets, x) && IsNode(nets, y) && Connected(nets, x, y)
  }

  lemma CandidateIndexed(classes: seq<set<string>>, nets: seq<seq<string>>)
    requires Disjoint(classes) && TellConnection(classes, nets)
    ensures Index(DropPowerFlags(classes)) == CandidateMap(nets)
  {
    hide Index, DropPowerFlags, CandidateMap, TellConnection, Disjoint, Connected, IsNode;
    var c, m := Index(DropPowerFlags(classes)), CandidateMap(nets);
    forall x ensures x in c <==> x in m ensures x in c ==> c[x] == m[x] {
      CandidateIndexAt(classes, nets, x, x);
      CandidateMapAt(nets, x, x);
      if x in c {
        forall y ensures y in c[x] <==> y in m[x] {
          CandidateIndexAt(classes, nets, x, y);
          CandidateMapAt(nets, x, y);
        }
      }
    }
  }

  lemma CandidateIndexAt(classes: seq<set<string>>, nets: seq<seq<string>>, x: string, y: string)
    requires Disjoint(classes) && TellConnection(classes, nets)
    ensures var c := Index(DropPowerFlags(classes));
            && (x in c <==> CandidatePin(nets, x))
            && (x in c ==> (y in c[x] <==> CandidatePin(nets, y) && Connected(nets, x, y)))
  {
    DropKeepsDisjoint(classes);
    IndexOfDisjoint(DropPowerFlags(classes), x, y);
    DropKeepsReal(classes, x, x);
    DropKeepsReal(classes, x, y);
    ConnectedToItself(nets, x);
  }

  lemma ConnectedToItself(nets: seq<seq<string>>, x: string)
    ensures Connected(nets, x, x)
  {
    assert Chain(nets, [x]) && [x][0] == x;
  }

  lemma TogetherMeansSameRoot(classes: seq<set<string>>, root: map<string, string>, x: string, y: string)
    requires ListsClasses(classes, root)
    ensures Together(classes, x, y) <==> x in root && y in root && Look(root, x) == Look(root, y)
  {
    if Together(classes, x, y) {
      var i :| 0 <= i < |classes| && x in classes[i] && y in classes[i];
      assert classes[i] == ClassOf(root, x);
    }
    if x in root && y in root && Look(root, x) == Look(root, y) {
      var i :| 0 <= i < |classes| && x in classes[i];
      assert y in ClassOf(root, x) && classes[i] == ClassOf(root, x);
    }
  }

  lemma ClassesTellConnection(
      classes: seq<set<string>>, root: map<string, string>, pairs: set<Pair>, nets: seq<seq<string>>)
    requires ListsClasses(classes, root) && Partitions(root, pairs) && Covers(pairs, nets)
    ensures TellConnection(classes, nets)
  {
    forall x, y ensures Together(classes, x, y) <==> IsNode(nets, x) && IsNode(nets, y) && Connected(nets, x, y) {
      ClassesTellAt(classes, root, pairs, nets, x, y);
    }
  }

  lemma ClassesTellAt(classes: seq<set<string>>, root: map<string, string>, pairs: set<Pair>, nets: seq<seq<string>>,
                      x: string, y: string)
    requires ListsClasses(classes, root) && Partitions(root, pairs) && Covers(pairs, nets)
    ensures Together(classes, x, y) <==> IsNode(nets, x) && IsNode(nets, y) && Connected(nets, x, y)
  {
    TogetherMeansSameRoot(classes, root, x, y);
    RootsTellConnection(root, pairs, nets, x, y);
    NodesAreRooted(root, pairs, nets, x);
    NodesAreRooted(root, pairs, nets, y);
  }

  /** `main`: whatever the baseline and whichever exports fail, the verdict compares the two dicts. */
  method Gate(expected: seq<set<string>>, sheets: seq<Export>) returns (verdict: Verdict)
    ensures verdict.NoSheets? <==> sheets == []
    ensures sheets != [] ==> (verdict.Pass? <==> Passes(expected, AllNets(sheets)))
  {
    var baseline := DropPowerFlags(expected);
    if sheets == [] { return NoSheets; }
    var uf, pairs := MergeSheets(sheets);
    ghost var root := uf.root;
    var classes := CollectClasses(uf);
    var candidate := DropPowerFlags(classes);
    var ok := Compare(baseline, candidate);
    verdict := if ok then Pass else Fail;
    ClassesTellConnection(classes, root, pairs, AllNets(sheets));
    CandidateIndexed(classes, AllNets(sheets));
  }
}
