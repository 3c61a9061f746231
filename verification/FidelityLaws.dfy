/** What a PASS of the fidelity gate means: exactly which baselines it can be trusted on, and where it sees less than
    its description says. */
module FidelityLaws {
  import opened NetPartition
  import opened FidelityGate

  // ---------------------------------------------------------------- the baseline condition

  /** What a caller can check: the index lists, for each pin of each baseline net, at least that whole net. */
  predicate Consistent(expected: seq<set<string>>) {
    forall i, x :: 0 <= i < |DropPowerFlags(expected)| && x in DropPowerFlags(expected)[i] ==>
      x in BaselineMap(expected) && DropPowerFlags(expected)[i] <= BaselineMap(expected)[x]
  }

  /** The index gives each real pin exactly those it stands with. */
  ghost predicate TellsCompany(b: map<string, set<string>>, expected: seq<set<string>>) {
    && (forall x :: x in b <==> BaselinePin(expected, x))
    && (forall x, y :: x in b ==> (y in b[x] <==> Together(expected, x, y) && !IsPowerFlag(y)))
  }

  /** Whatever the classes, a pin is indexed exactly if it has one, under one that it stands in. */
  lemma {:induction false} IndexIsAClass(classes: seq<set<string>>, x: string)
    ensures x in Index(classes) <==> Together(classes, x, x)
    ensures x in Index(classes) ==> Index(classes)[x] in classes && x in Index(classes)[x]
  {
    if classes != [] {
      var front, last := classes[..|classes| - 1], classes[|classes| - 1];
      IndexIsAClass(front, x);
      TogetherSnoc(front, last, x, x);
      assert classes == front + [last];
    }
  }

  lemma IndexedWith(expected: seq<set<string>>, x: string, y: string)
    ensures var b := BaselineMap(expected);
      && (x in b <==> BaselinePin(expected, x))
      && (x in b ==> x in b[x])
      && (x in b && y in b[x] ==> Together(expected, x, y) && !IsPowerFlag(y))
  {
    var kept := DropPowerFlags(expected);
    IndexIsAClass(kept, x);
    DropKeepsReal(expected, x, x);
    DropKeepsReal(expected, x, y);
  }

  lemma ConsistentGives(expected: seq<set<string>>, x: string, y: string)
    requires Consistent(expected) && x in BaselineMap(expected) && Together(expected, x, y) && !IsPowerFlag(y)
    ensures y in BaselineMap(expected)[x]
  {
    var kept := DropPowerFlags(expected);
    IndexedWith(expected, x, x);
    DropKeepsReal(expected, x, y);
    assert Together(kept, x, y);
    var i :| 0 <= i < |kept| && x in kept[i] && y in kept[i];
    assert kept[i] <= BaselineMap(expected)[x];
  }

  lemma TellingGives(expected: seq<set<string>>, i: nat, x: string, y: string)
    requires TellsCompany(BaselineMap(expected), expected) && i < |DropPowerFlags(expected)|
    requires x in DropPowerFlags(expected)[i] && y in DropPowerFlags(expected)[i]
    ensures x in BaselineMap(expected) && y in BaselineMap(expected)[x]
  {
    var kept := DropPowerFlags(expected);
    assert Together(kept, x, x) && Together(kept, x, y);
    DropKeepsReal(expected, x, x);
    DropKeepsReal(expected, x, y);
  }

  /** The condition says exactly that the index can be relied on. */
  lemma ConsistentTellsCompany(expected: seq<set<string>>)
    ensures Consistent(expected) <==> TellsCompany(BaselineMap(expected), expected)
  {
    var kept, b := DropPowerFlags(expected), BaselineMap(expected);
    if Consistent(expected) {
      forall x, y ensures x in b <==> BaselinePin(expected, x)
        ensures x in b ==> (y in b[x] <==> Together(expected, x, y) && !IsPowerFlag(y))
      {
        IndexedWith(expected, x, y);
        if x in b && Together(expected, x, y) && !IsPowerFlag(y) { ConsistentGives(expected, x, y); }
      }
    }
    if TellsCompany(b, expected) {
      forall i, x | 0 <= i < |kept| && x in kept[i] ensures x in b && kept[i] <= b[x] {
        TellingGives(expected, i, x, x);
        forall y | y in kept[i] ensures y in b[x] { TellingGives(expected, i, x, y); }
      }
    }
  }

  /** Baseline nets that share no pin are consistent. */
  lemma DisjointIsConsistent(expected: seq<set<string>>)
    requires Disjoint(expected)
    ensures Consistent(expected)
  {
    var b := BaselineMap(expected);
    DropKeepsDisjoint(expected);
    forall x, y ensures x in b <==> BaselinePin(expected, x)
      ensures x in b ==> (y in b[x] <==> Together(expected, x, y) && !IsPowerFlag(y))
    {
      IndexOfDisjoint(DropPowerFlags(expected), x, y);
      DropKeepsReal(expected, x, x);
      DropKeepsReal(expected, x, y);
    }
    ConsistentTellsCompany(expected);
  }

  // ---------------------------------------------------------------- PASS on a consistent baseline

  ghost predicate TellsSheets(c: map<string, set<string>>, nets: seq<seq<string>>) {
    && (forall x :: x in c <==> CandidatePin(nets, x))
    && (forall x, y :: x in c ==> (y in c[x] <==> CandidatePin(nets, y) && Connected(nets, x, y)))
  }

  lemma MapTellsSheets(nets: seq<seq<string>>)
    ensures TellsSheets(CandidateMap(nets), nets)
  {
    forall x, y ensures x in CandidateMap(nets) <==> CandidatePin(nets, x)
      ensures x in CandidateMap(nets) ==>
        (y in CandidateMap(nets)[x] <==> CandidatePin(nets, y) && Connected(nets, x, y))
    {
      CandidateMapAt(nets, x, y);
    }
  }

  lemma TogetherIsMutual(classes: seq<set<string>>, x: string, y: string)
    requires Together(classes, x, y)
    ensures Together(classes, x, x) && Together(classes, y, y) && Together(classes, y, x)
  {
  }

  lemma AtMostItself(s: set<string>, x: string)
    requires x in s
    ensures |s| <= 1 <==> forall y :: y in s ==> y == x
  {
    if forall y :: y in s ==> y == x {
      assert s == {x};
    } else {
      var y :| y in s && y != x;
      assert s == {x, y} + (s - {x, y});
      assert |{x, y}| == 2;
    }
  }

  lemma AgreementMeansSame(
      b: map<string, set<string>>, c: map<string, set<string>>, expected: seq<set<string>>, nets: seq<seq<string>>)
    requires TellsCompany(b, expected) && TellsSheets(c, nets) && Agree(b, c)
    ensures SameElectrically(expected, nets)
  {
    forall x, y | BaselinePin(expected, x) && BaselinePin(expected, y) && x != y
      ensures Together(expected, x, y) <==> Connected(nets, x, y)
    {
      assert x in b && y in b && x in b[x] && y in b[y];
      if Together(expected, x, y) {
        TogetherIsMutual(expected, x, y);
        assert y in b[x] && x in b[y];
        AtMostItself(b[x], x);
        AtMostItself(b[y], y);
        assert y in b[x] * (b.Keys * c.Keys);
      }
      if Connected(nets, x, y) {
        ConnectedPinsAreNodes(nets, x, y);
        assert y in c[x] * (b.Keys * c.Keys);
      }
    }
  }

  lemma SameMeansAgreement(
      b: map<string, set<string>>, c: map<string, set<string>>, expected: seq<set<string>>, nets: seq<seq<string>>)
    requires TellsCompany(b, expected) && TellsSheets(c, nets) && SameElectrically(expected, nets)
    ensures Agree(b, c)
  {
    forall x | x in b && x !in c ensures |b[x]| <= 1 {
      forall y | y in b[x] ensures y == x {
        TogetherIsMutual(expected, x, y);
        if y != x { ConnectedPinsAreNodes(nets, x, y); }
      }
      AtMostItself(b[x], x);
    }
    forall x | x in b && x in c ensures b[x] * (b.Keys * c.Keys) == c[x] * (b.Keys * c.Keys) {
      forall y | y in b && y in c ensures y in b[x] <==> y in c[x] {
        if y == x { ConnectedToItself(nets, x); }
      }
    }
  }

  /** On a consistent baseline the gate passes exactly the sheets that are electrically the baseline. */
  lemma PassMeansSame(expected: seq<set<string>>, nets: seq<seq<string>>)
    requires Consistent(expected)
    ensures Passes(expected, nets) <==> SameElectrically(expected, nets)
  {
    var b, c := BaselineMap(expected), CandidateMap(nets);
    ConsistentTellsCompany(expected);
    MapTellsSheets(nets);
    hide BaselineMap, CandidateMap, Agree, SameElectrically, TellsCompany, TellsSheets, Consistent;
    if Agree(b, c) { AgreementMeansSame(b, c, expected, nets); }
    if SameElectrically(expected, nets) { SameMeansAgreement(b, c, expected, nets); }
  }

  // ---------------------------------------------------------------- sheets made to order

  /** A division of some real pins into blocks, each pin in its own. */
  ghost predicate IsDivision(blocks: map<string, set<string>>) {
    && (forall x :: x in blocks ==> x in blocks[x] && !IsPowerFlag(x))
    && (forall x, y :: x in blocks && y in blocks[x] ==> y in blocks && blocks[y] == blocks[x])
  }

  ghost function ListOf(pins: set<string>): (s: seq<string>)
    ensures |s| == |pins| && forall x :: x in s <==> x in pins
  {
    if pins == {} then []
    else
      var x :| x in pins;
      [x] + ListOf(pins - {x})
  }

  /** The power flag drawn on the net of a pin. */
  function FlagOf(x: string): string { ['#'] + x }

  /** One net for each pin: its block, and a flag of its own. */
  ghost function NetsFor(blocks: map<string, set<string>>, pins: seq<string>): seq<seq<string>>
    requires forall x :: x in pins ==> x in blocks
  {
    if pins == [] then [] else [ListOf(blocks[pins[0]]) + [FlagOf(pins[0])]] + NetsFor(blocks, pins[1..])
  }

  ghost function Sheets(blocks: map<string, set<string>>): seq<seq<string>> {
    NetsFor(blocks, ListOf(blocks.Keys))
  }

  lemma {:induction false} NetsForAre(blocks: map<string, set<string>>, pins: seq<string>, n: seq<string>)
    requires forall x :: x in pins ==> x in blocks
    ensures n in NetsFor(blocks, pins) <==> exists x :: x in pins && n == ListOf(blocks[x]) + [FlagOf(x)]
    decreases |pins|
  {
    if pins != [] {
      NetsForAre(blocks, pins[1..], n);
      assert forall x :: x in pins <==> x == pins[0] || x in pins[1..];
    }
  }

  /** The block a pin belongs to; a flag belongs to the block of its net. */
  ghost function Home(blocks: map<string, set<string>>, pin: string): set<string> {
    if pin in blocks then blocks[pin]
    else if pin != "" && pin[1..] in blocks then blocks[pin[1..]]
    else {}
  }

  lemma NetHasOneHome(blocks: map<string, set<string>>, x: string, pin: string)
    requires IsDivision(blocks) && x in blocks && pin in ListOf(blocks[x]) + [FlagOf(x)]
    ensures Home(blocks, pin) == blocks[x]
  {
    if pin in blocks[x] {
      assert pin in blocks;
    } else {
      assert pin == FlagOf(x) && pin[1..] == x && IsPowerFlag(pin);
      assert pin !in blocks;
    }
  }

  lemma SharingKeepsHome(blocks: map<string, set<string>>, a: string, b: string)
    requires IsDivision(blocks) && ShareNet(Sheets(blocks), a, b)
    ensures Home(blocks, a) == Home(blocks, b)
  {
    var n :| n in Sheets(blocks) && |n| >= 2 && a in n && b in n;
    NetsForAre(blocks, ListOf(blocks.Keys), n);
    var x :| x in blocks && n == ListOf(blocks[x]) + [FlagOf(x)];
    NetHasOneHome(blocks, x, a);
    NetHasOneHome(blocks, x, b);
  }

  lemma {:induction false} ChainKeepsHome(blocks: map<string, set<string>>, p: seq<string>)
    requires IsDivision(blocks) && Chain(Sheets(blocks), p)
    ensures Home(blocks, p[0]) == Home(blocks, p[|p| - 1])
    decreases |p|
  {
    if |p| > 1 {
      var front := p[..|p| - 1];
      assert Chain(Sheets(blocks), front);
      ChainKeepsHome(blocks, front);
      SharingKeepsHome(blocks, p[|p| - 2], p[|p| - 1]);
    }
  }

  lemma BlockIsANet(blocks: map<string, set<string>>, x: string, y: string)
    requires IsDivision(blocks) && x in blocks && y in blocks[x]
    ensures ShareNet(Sheets(blocks), x, y)
  {
    var n := ListOf(blocks[x]) + [FlagOf(x)];
    NetsForAre(blocks, ListOf(blocks.Keys), n);
    assert x in ListOf(blocks.Keys);
    assert x in n && y in n && |n| >= 2;
  }

  lemma NetOfSheets(blocks: map<string, set<string>>, x: string) returns (z: string)
    requires IsNode(Sheets(blocks), x)
    ensures z in blocks && (x in blocks[z] || x == FlagOf(z))
  {
    var n :| n in Sheets(blocks) && |n| >= 2 && x in n;
    NetsForAre(blocks, ListOf(blocks.Keys), n);
    hide NetsFor, IsNode;
    z :| z in blocks && n == ListOf(blocks[z]) + [FlagOf(z)];
  }

  lemma SheetsShowOnly(blocks: map<string, set<string>>, x: string)
    requires IsDivision(blocks) && CandidatePin(Sheets(blocks), x)
    ensures x in blocks
  {
    var z := NetOfSheets(blocks, x);
    hide Sheets, IsNode;
    assert IsPowerFlag(FlagOf(z));
    assert x in blocks[z];
  }

  lemma SheetsConnectOnly(blocks: map<string, set<string>>, x: string, y: string)
    requires IsDivision(blocks) && x in blocks && y in blocks && Connected(Sheets(blocks), x, y)
    ensures y in blocks[x]
  {
    var p :| Chain(Sheets(blocks), p) && p[0] == x && p[|p| - 1] == y;
    ChainKeepsHome(blocks, p);
    hide Sheets, Chain;
  }

  lemma NetConnects(nets: seq<seq<string>>, x: string, y: string)
    requires ShareNet(nets, x, y)
    ensures Connected(nets, x, y) && IsNode(nets, x)
  {
    assert Chain(nets, [x, y]) && [x, y][0] == x && [x, y][1] == y;
  }

  /** The sheets made to order show exactly these pins in exactly these blocks. */
  lemma SheetsShow(blocks: map<string, set<string>>, x: string, y: string)
    requires IsDivision(blocks)
    ensures CandidatePin(Sheets(blocks), x) <==> x in blocks
    ensures x in blocks && y in blocks ==> (Connected(Sheets(blocks), x, y) <==> y in blocks[x])
  {
    hide Sheets, Connected, IsNode, ShareNet;
    var nets := Sheets(blocks);
    if CandidatePin(nets, x) { SheetsShowOnly(blocks, x); }
    if x in blocks {
      BlockIsANet(blocks, x, x);
      NetConnects(nets, x, x);
      if y in blocks[x] {
        BlockIsANet(blocks, x, y);
        NetConnects(nets, x, y);
      }
      if y in blocks && Connected(nets, x, y) { SheetsConnectOnly(blocks, x, y); }
    }
  }

  lemma SheetsMapRow(blocks: map<string, set<string>>, x: string)
    requires IsDivision(blocks)
    ensures x in CandidateMap(Sheets(blocks)) <==> x in blocks
    ensures x in blocks ==> CandidateMap(Sheets(blocks))[x] == blocks[x]
  {
    var c := CandidateMap(Sheets(blocks));
    SheetsShow(blocks, x, x);
    CandidateMapAt(Sheets(blocks), x, x);
    hide CandidateMap, Sheets, Connected, CandidatePin;
    if x in blocks {
      forall y ensures y in c[x] <==> y in blocks[x] {
        SheetsShow(blocks, x, y);
        SheetsShow(blocks, y, x);
        CandidateMapAt(Sheets(blocks), x, y);
      }
    }
  }

  lemma SheetsMap(blocks: map<string, set<string>>)
    requires IsDivision(blocks)
    ensures CandidateMap(Sheets(blocks)) == blocks
  {
    hide CandidateMap, Sheets, IsDivision;
    forall x ensures x in CandidateMap(Sheets(blocks)) <==> x in blocks
      ensures x in blocks ==> CandidateMap(Sheets(blocks))[x] == blocks[x]
    {
      SheetsMapRow(blocks, x);
    }
  }

  // ---------------------------------------------------------------- exactly which baselines can be trusted

  ghost predicate Bridged(expected: seq<set<string>>, x: string, y: string, z: string) {
    && BaselinePin(expected, x) && BaselinePin(expected, y) && BaselinePin(expected, z)
    && Together(expected, x, y) && Together(expected, y, z)
  }

  /** Standing in one baseline net is an equivalence among the real pins. */
  ghost predicate Transitive(expected: seq<set<string>>) {
    forall x, y, z :: Bridged(expected, x, y, z) ==> Together(expected, x, z)
  }

  /** The pins the index gives company. */
  function Crowd(b: map<string, set<string>>): set<string> {
    set x | x in b && |b[x]| > 1
  }

  /** Among the pins with company the index describes blocks, so that some sheets could agree with it. */
  predicate Settles(b: map<string, set<string>>) {
    forall x, y :: x in Crowd(b) && y in Crowd(b) && y in b[x] ==> b[x] * Crowd(b) == b[y] * Crowd(b)
  }

  /** The gate is right about these sheets. */
  ghost predicate RightOn(expected: seq<set<string>>, nets: seq<seq<string>>) {
    Passes(expected, nets) <==> SameElectrically(expected, nets)
  }

  lemma {:induction false} JoinedChains(nets: seq<seq<string>>, a: string, b: string, c: string)
    requires Connected(nets, a, b) && Connected(nets, b, c)
    ensures Connected(nets, a, c)
  {
    var p :| Chain(nets, p) && p[0] == a && p[|p| - 1] == b;
    var q :| Chain(nets, q) && q[0] == b && q[|q| - 1] == c;
    var r := p + q[1..];
    forall i, j | 0 <= i < j < |r| && j == i + 1 ensures ShareNet(nets, r[i], r[j]) {
      if j < |p| { assert ShareNet(nets, p[i], p[j]); }
      else { assert r[i] == q[i - |p| + 1] && r[j] == q[j - |p| + 1]; }
    }
    assert Chain(nets, r) && r[0] == a && r[|r| - 1] == c;
  }

  /** Sheets can be electrically the baseline only if the baseline describes an equivalence. */
  lemma SameNeedsTransitive(expected: seq<set<string>>, nets: seq<seq<string>>)
    requires SameElectrically(expected, nets)
    ensures Transitive(expected)
  {
    forall x, y, z | Bridged(expected, x, y, z) ensures Together(expected, x, z) {
      if x != y && y != z && x != z { JoinedChains(nets, x, y, z); }
    }
  }

  lemma {:induction false} ReversedChain(nets: seq<seq<string>>, p: seq<string>)
    requires Chain(nets, p)
    ensures Connected(nets, p[|p| - 1], p[0])
    decreases |p|
  {
    if |p| == 1 {
      ConnectedToItself(nets, p[0]);
    } else {
      var front, x, y := p[..|p| - 1], p[|p| - 2], p[|p| - 1];
      assert Chain(nets, front);
      ReversedChain(nets, front);
      assert ShareNet(nets, x, y);
      assert ShareNet(nets, y, x);
      NetConnects(nets, y, x);
      JoinedChains(nets, y, x, p[0]);
    }
  }

  lemma ConnectedIsMutual(nets: seq<seq<string>>, a: string, b: string)
    requires Connected(nets, a, b)
    ensures Connected(nets, b, a)
  {
    var p :| Chain(nets, p) && p[0] == a && p[|p| - 1] == b;
    ReversedChain(nets, p);
  }

  lemma SameCompany(nets: seq<seq<string>>, x: string, y: string)
    requires x in CandidateMap(nets) && y in CandidateMap(nets)[x]
    ensures y in CandidateMap(nets) && CandidateMap(nets)[y] == CandidateMap(nets)[x]
  {
    CandidateMapAt(nets, x, y);
    CandidateMapAt(nets, y, y);
    ConnectedIsMutual(nets, x, y);
    var c := CandidateMap(nets);
    hide CandidateMap, Connected, CandidatePin;
    forall z ensures z in c[x] <==> z in c[y] {
      CandidateMapAt(nets, x, z);
      CandidateMapAt(nets, y, z);
      if Connected(nets, x, z) { JoinedChains(nets, y, x, z); }
      if Connected(nets, y, z) { JoinedChains(nets, x, y, z); }
    }
  }

  /** Sheets can pass only if the pins with company settle into blocks. */
  lemma PassNeedsSettled(b: map<string, set<string>>, nets: seq<seq<string>>)
    requires Agree(b, CandidateMap(nets))
    ensures Settles(b)
  {
    var c := CandidateMap(nets);
    forall x, y | x in Crowd(b) && y in Crowd(b) && y in b[x] ensures b[x] * Crowd(b) == b[y] * Crowd(b) {
      assert x in c && y in c;
      assert y in b[x] * (b.Keys * c.Keys);
      SameCompany(nets, x, y);
      assert Crowd(b) <= b.Keys * c.Keys;
      RestrictedFurther(b[x], b[y], b.Keys * c.Keys, Crowd(b));
    }
  }

  lemma RestrictedFurther(u: set<string>, v: set<string>, s: set<string>, t: set<string>)
    requires u * s == v * s && t <= s
    ensures u * t == v * t
  {
    forall x ensures x in u * t <==> x in v * t {
      assert x in u * s <==> x in v * s;
    }
  }

  /** The blocks of a baseline that is an equivalence. */
  ghost function BaselineBlocks(expected: seq<set<string>>): map<string, set<string>> {
    map x | x in BaselineMap(expected) :: set y | y in BaselineMap(expected) && Together(expected, x, y)
  }

  function CrowdBlocks(b: map<string, set<string>>): map<string, set<string>> {
    map x | x in Crowd(b) :: b[x] * Crowd(b)
  }

  lemma StandAlike(expected: seq<set<string>>, x: string, y: string, z: string)
    requires Transitive(expected) && BaselinePin(expected, x) && BaselinePin(expected, y) && BaselinePin(expected, z)
    requires Together(expected, x, y)
    ensures Together(expected, x, z) <==> Together(expected, y, z)
  {
    TogetherIsMutual(expected, x, y);
    if Together(expected, x, z) { assert Bridged(expected, y, x, z); }
    if Together(expected, y, z) { assert Bridged(expected, x, y, z); }
  }

  lemma BaselineBlocksDivide(expected: seq<set<string>>)
    requires Transitive(expected)
    ensures IsDivision(BaselineBlocks(expected))
  {
    var blocks := BaselineBlocks(expected);
    forall x ensures x in blocks <==> BaselinePin(expected, x) { IndexedWith(expected, x, x); }
    forall x, y | x in blocks && y in blocks[x] ensures y in blocks && blocks[y] == blocks[x] {
      TogetherIsMutual(expected, x, y);
      forall z ensures z in blocks[x] <==> z in blocks[y] {
        if BaselinePin(expected, z) { StandAlike(expected, x, y, z); }
      }
    }
  }

  /** Sheets that are electrically an equivalence baseline. */
  lemma SheetsAreBaseline(expected: seq<set<string>>)
    requires Transitive(expected)
    ensures SameElectrically(expected, Sheets(BaselineBlocks(expected)))
  {
    var blocks := BaselineBlocks(expected);
    BaselineBlocksDivide(expected);
    forall x ensures CandidatePin(Sheets(blocks), x) <==> BaselinePin(expected, x) {
      SheetsShow(blocks, x, x);
      IndexedWith(expected, x, x);
    }
    forall x, y | BaselinePin(expected, x) && BaselinePin(expected, y) && x != y
      ensures Together(expected, x, y) <==> Connected(Sheets(blocks), x, y)
    {
      SheetsShow(blocks, x, y);
      IndexedWith(expected, x, x);
      IndexedWith(expected, y, y);
    }
  }

  /** An inconsistent index leaves one of two pins that stand together out of the other's entry. */
  lemma LeftOut(expected: seq<set<string>>) returns (x: string, y: string)
    requires !Consistent(expected)
    ensures x in BaselineMap(expected) && y in BaselineMap(expected) && Together(expected, x, y)
    ensures y !in BaselineMap(expected)[x]
  {
    var b, kept := BaselineMap(expected), DropPowerFlags(expected);
    var i: nat, z :| i < |kept| && z in kept[i] && !(z in b && kept[i] <= b[z]);
    x := z;
    assert Together(kept, x, x);
    IndexIsAClass(kept, x);
    y :| y in kept[i] && y !in b[x];
    assert Together(kept, x, y) && Together(kept, y, y);
    IndexIsAClass(kept, y);
    DropKeepsReal(expected, x, y);
  }

  /** Whatever sheets are electrically an inconsistent baseline, the gate fails them. */
  lemma SameFailsOnInconsistent(expected: seq<set<string>>, nets: seq<seq<string>>)
    requires !Consistent(expected) && SameElectrically(expected, nets)
    ensures !Passes(expected, nets)
  {
    var b, c := BaselineMap(expected), CandidateMap(nets);
    var x, y := LeftOut(expected);
    IndexedWith(expected, x, x);
    IndexedWith(expected, y, y);
    ConnectedPinsAreNodes(nets, x, y);
    CandidateMapAt(nets, x, y);
    CandidateMapAt(nets, y, y);
    hide BaselineMap, CandidateMap, Consistent, SameElectrically;
    assert y in c[x] * (b.Keys * c.Keys);
    assert y !in b[x] * (b.Keys * c.Keys);
  }

  /** A settled baseline is passed by sheets made to order. */
  lemma SettledPasses(expected: seq<set<string>>)
    requires Settles(BaselineMap(expected))
    ensures Passes(expected, Sheets(CrowdBlocks(BaselineMap(expected))))
  {
    var b := BaselineMap(expected);
    var blocks := CrowdBlocks(b);
    forall x | x in blocks ensures x in blocks[x] && !IsPowerFlag(x) {
      IndexedWith(expected, x, x);
    }
    assert IsDivision(blocks);
    SheetsMap(blocks);
    assert Agree(b, blocks);
  }

  /** Some sheets are electrically the baseline and fail, exactly when the baseline is an equivalence but not
      consistent. */
  lemma WrongFailIff(expected: seq<set<string>>)
    ensures (exists nets :: SameElectrically(expected, nets) && !Passes(expected, nets)) <==>
      Transitive(expected) && !Consistent(expected)
  {
    hide Transitive, Consistent, SameElectrically, Passes;
    if nets :| SameElectrically(expected, nets) && !Passes(expected, nets) {
      SameNeedsTransitive(expected, nets);
      if Consistent(expected) { PassMeansSame(expected, nets); }
    }
    if Transitive(expected) && !Consistent(expected) {
      SheetsAreBaseline(expected);
      SameFailsOnInconsistent(expected, Sheets(BaselineBlocks(expected)));
    }
  }

  /** Some sheets pass that are not electrically the baseline, exactly when the baseline settles but is not
      consistent. */
  lemma WrongPassIff(expected: seq<set<string>>)
    ensures (exists nets :: Passes(expected, nets) && !SameElectrically(expected, nets)) <==>
      Settles(BaselineMap(expected)) && !Consistent(expected)
  {
    hide Consistent, SameElectrically, Settles;
    if nets :| Passes(expected, nets) && !SameElectrically(expected, nets) {
      PassNeedsSettled(BaselineMap(expected), nets);
      if Consistent(expected) { PassMeansSame(expected, nets); }
    }
    if Settles(BaselineMap(expected)) && !Consistent(expected) {
      var nets := Sheets(CrowdBlocks(BaselineMap(expected)));
      SettledPasses(expected);
      if SameElectrically(expected, nets) { SameFailsOnInconsistent(expected, nets); }
      assert Passes(expected, nets) && !SameElectrically(expected, nets);
    }
  }

  /** The gate is right about all sheets exactly when the baseline is consistent, or can neither be met by any sheets
      nor passed by any: all are conditions on the baseline alone. */
  lemma RightOnAllSheetsIff(expected: seq<set<string>>)
    ensures (forall nets :: RightOn(expected, nets)) <==>
      Consistent(expected) || (!Transitive(expected) && !Settles(BaselineMap(expected)))
  {
    hide Consistent, Transitive, Settles, Passes, SameElectrically;
    WrongFailIff(expected);
    WrongPassIff(expected);
    if nets :| SameElectrically(expected, nets) && !Passes(expected, nets) {
      assert !RightOn(expected, nets);
    }
    if nets :| Passes(expected, nets) && !SameElectrically(expected, nets) {
      assert !RightOn(expected, nets);
    }
  }

  lemma MapSnoc(front: seq<set<string>>, last: set<string>)
    requires RealPins(last) == last && last != {}
    ensures DropPowerFlags(front + [last]) == DropPowerFlags(front) + [last]
    ensures BaselineMap(front + [last]) == BaselineMap(front) + map pin | pin in last :: last
  {
    assert (front + [last])[..|front|] == front;
    var kept := DropPowerFlags(front);
    assert (kept + [last])[..|kept|] == kept;
  }

  /** Baseline nets that overlap make the gate wrong in one direction: pins `a` and `b` share a net, and the gate passes
      sheets on which neither is connected to anything: the nets {a} and {b} come last and shadow it. */
  lemma OverlapPassesWrongly()
    ensures var expected: seq<set<string>> := [{"a", "b"}, {"a"}, {"b"}];
      Passes(expected, []) && Together(expected, "a", "b") && !SameElectrically(expected, [])
  {
    var expected: seq<set<string>> := [{"a", "b"}, {"a"}, {"b"}];
    ShadowedMap("a", "b");
    assert CandidateMap([]) == map[];
    assert "a" in expected[0] && "b" in expected[0];
    assert BaselinePin(expected, "a") && BaselinePin(expected, "b") && Together(expected, "a", "b");
    NothingConnected("a", "b");
    hide BaselineMap, CandidateMap;
    assert Agree(BaselineMap(expected), CandidateMap([]));
  }

  lemma ShadowedMap(a: string, b: string)
    requires a != b && !IsPowerFlag(a) && !IsPowerFlag(b)
    ensures BaselineMap([{a, b}, {a}, {b}]) == map[a := {a}, b := {b}]
  {
    var both, one, other := {a, b}, {a}, {b};
    assert RealPins(both) == both && RealPins(one) == one && RealPins(other) == other;
    assert BaselineMap([]) == map[];
    hide DropPowerFlags, Index, BaselineMap, RealPins, IsPowerFlag;
    MapSnoc([], both);
    assert [] + [both] == [both];
    MapSnoc([both], one);
    assert [both] + [one] == [both, one];
    MapSnoc([both, one], other);
    assert [both, one] + [other] == [both, one, other];
  }

  lemma NothingConnected(a: string, b: string)
    requires a != b
    ensures !Connected([], a, b)
  {
    if Connected([], a, b) {
      ConnectedPinsAreNodes([], a, b);
    }
  }

  lemma ShadowingMap(big: set<string>, small: set<string>)
    requires RealPins(big) == big && RealPins(small) == small && small != {} && small <= big
    ensures DropPowerFlags([big, small]) == [big, small]
    ensures forall x :: x in small ==> x in BaselineMap([big, small]) && BaselineMap([big, small])[x] == small
  {
    assert DropPowerFlags([]) == [];
    hide DropPowerFlags, Index, RealPins;
    MapSnoc([], big);
    assert [] + [big] == [big];
    MapSnoc([big], small);
    assert [big] + [small] == [big, small];
  }

  lemma ShadowingIsInconsistent(big: set<string>, small: set<string>)
    requires RealPins(big) == big && RealPins(small) == small && small != {} && small < big
    ensures !Consistent([big, small])
  {
    ShadowingMap(big, small);
    var x :| x in small;
    hide DropPowerFlags, Index, RealPins, BaselineMap;
    assert x in DropPowerFlags([big, small])[0];
  }

  /** And in the other: a net listed again in part shadows its whole, and the gate fails sheets that are the
      baseline. */
  lemma OverlapFailsWrongly(big: set<string>, small: set<string>)
    requires RealPins(big) == big && RealPins(small) == small && small != {} && small < big
    ensures exists nets :: SameElectrically([big, small], nets) && !Passes([big, small], nets)
  {
    TogetherOverlap(big, small);
    assert Transitive([big, small]);
    hide Consistent, Transitive, RealPins;
    ShadowingIsInconsistent(big, small);
    WrongFailIff([big, small]);
  }

  lemma TogetherOverlap(big: set<string>, small: set<string>)
    requires small <= big
    ensures forall x, y :: Together([big, small], x, y) <==> x in big && y in big
  {
    forall x, y ensures Together([big, small], x, y) <==> x in big && y in big {
      TogetherSnoc([big], small, x, y);
      TogetherSnoc([], big, x, y);
      assert [big] + [small] == [big, small] && [] + [big] == [big];
    }
  }

  /** Sharing no pin is more than is needed: a net listed twice is consistent. */
  lemma ListedTwiceIsConsistent()
    ensures var expected: seq<set<string>> := [{"a", "b"}, {"a", "b"}]; Consistent(expected) && !Disjoint(expected)
  {
    var ab: set<string> := {"a", "b"};
    var expected := [ab, ab];
    assert RealPins(ab) == ab;
    MapSnoc([], ab);
    MapSnoc([ab], ab);
    assert [] + [ab] == [ab] && [ab] + [ab] == expected;
    assert DropPowerFlags(expected) == [ab, ab];
    assert "a" in expected[0] * expected[1];
  }

  // ---------------------------------------------------------------- nets with one entry

  /** The real pins that stand alone in a net and in no other company. */
  ghost function LonelyPins(nets: seq<seq<string>>): set<string> {
    set n, x | n in nets && x in n && |n| == 1 && !IsPowerFlag(x) && !IsNode(nets, x) :: x
  }

  /** The dict of the sheets as the module's description has it: nets with one entry are kept, as classes of one pin. */
  ghost function KeptMap(nets: seq<seq<string>>): map<string, set<string>> {
    CandidateMap(nets) + map x | x in LonelyPins(nets) :: {x}
  }

  /** The verdict as described. */
  ghost predicate PassesAsDescribed(expected: seq<set<string>>, nets: seq<seq<string>>) {
    Agree(BaselineMap(expected), KeptMap(nets))
  }

  /** Some net with one entry holds a real pin that the baseline lacks. */
  ghost predicate HasStray(expected: seq<set<string>>, nets: seq<seq<string>>) {
    exists n :: n in nets && |n| == 1 && !IsPowerFlag(n[0]) && !BaselinePin(expected, n[0])
  }

  lemma KeptMapAt(nets: seq<seq<string>>, x: string)
    ensures x in KeptMap(nets) <==> x in CandidateMap(nets) || x in LonelyPins(nets)
    ensures x in CandidateMap(nets) ==> KeptMap(nets)[x] == CandidateMap(nets)[x] && x !in LonelyPins(nets)
    ensures x in LonelyPins(nets) ==> KeptMap(nets)[x] == {x}
  {
    CandidateMapAt(nets, x, x);
  }

  lemma CompanyIsMutual(expected: seq<set<string>>, x: string, y: string)
    requires Consistent(expected) && x in BaselineMap(expected) && y in BaselineMap(expected)[x]
    ensures y in BaselineMap(expected) && x in BaselineMap(expected)[y]
  {
    IndexedWith(expected, x, y);
    TogetherIsMutual(expected, x, y);
    IndexedWith(expected, y, y);
    ConsistentGives(expected, y, x);
  }

  lemma DescribedIsStricter(expected: seq<set<string>>, nets: seq<seq<string>>)
    requires Consistent(expected) && PassesAsDescribed(expected, nets)
    ensures Passes(expected, nets)
  {
    var b, c, k := BaselineMap(expected), CandidateMap(nets), KeptMap(nets);
    forall x ensures x in k <==> x in c || x in LonelyPins(nets)
      ensures x in c ==> k[x] == c[x]
    {
      KeptMapAt(nets, x);
    }
    forall x | x in b && x !in c ensures |b[x]| <= 1 {
      IndexedWith(expected, x, x);
      if x in k {
        KeptMapAt(nets, x);
        forall y | y in b[x] ensures y == x {
          CompanyIsMutual(expected, x, y);
          IndexedWith(expected, y, y);
          if y in k { assert y in b[x] * (b.Keys * k.Keys); } else { AtMostItself(b[y], y); }
        }
        AtMostItself(b[x], x);
      }
    }
    forall x | x in b && x in c ensures b[x] * (b.Keys * c.Keys) == c[x] * (b.Keys * c.Keys) {
      RestrictedFurther(b[x], c[x], b.Keys * k.Keys, b.Keys * c.Keys);
    }
  }

  lemma WithoutStraysTheSame(expected: seq<set<string>>, nets: seq<seq<string>>)
    requires Consistent(expected) && Passes(expected, nets) && !HasStray(expected, nets)
    ensures PassesAsDescribed(expected, nets)
  {
    var b, c, k := BaselineMap(expected), CandidateMap(nets), KeptMap(nets);
    forall x ensures x in k <==> x in c || x in LonelyPins(nets)
      ensures x in c ==> k[x] == c[x] && x !in LonelyPins(nets)
      ensures x in LonelyPins(nets) ==> k[x] == {x}
    {
      KeptMapAt(nets, x);
    }
    forall x | x in LonelyPins(nets) ensures x in b && b[x] == {x} {
      LonelyIsKnown(expected, nets, x);
    }
    forall x | x in b && x in k ensures b[x] * (b.Keys * k.Keys) == k[x] * (b.Keys * k.Keys) {
      if x in c {
        forall y | y in b && y in k ensures y in b[x] <==> y in c[x] {
          if y in c {
            assert y in b[x] * (b.Keys * c.Keys) <==> y in c[x] * (b.Keys * c.Keys);
          } else {
            CandidateMapAt(nets, x, y);
            CandidateMapAt(nets, y, y);
            if y in b[x] { CompanyIsMutual(expected, x, y); }
          }
        }
      }
    }
  }

  lemma LonelyIsKnown(expected: seq<set<string>>, nets: seq<seq<string>>, x: string)
    requires Passes(expected, nets) && !HasStray(expected, nets) && x in LonelyPins(nets)
    ensures x in BaselineMap(expected) && BaselineMap(expected)[x] == {x}
  {
    var b := BaselineMap(expected);
    var n :| n in nets && x in n && |n| == 1;
    assert n[0] == x;
    IndexedWith(expected, x, x);
    KeptMapAt(nets, x);
    AtMostItself(b[x], x);
  }

  lemma StrayFailsAsDescribed(expected: seq<set<string>>, nets: seq<seq<string>>)
    requires Passes(expected, nets) && HasStray(expected, nets)
    ensures !PassesAsDescribed(expected, nets)
  {
    var n :| n in nets && |n| == 1 && !IsPowerFlag(n[0]) && !BaselinePin(expected, n[0]);
    IndexedWith(expected, n[0], n[0]);
    CandidateMapAt(nets, n[0], n[0]);
    assert n[0] in LonelyPins(nets);
    KeptMapAt(nets, n[0]);
  }

  /** The gate as written and the gate as described differ exactly where the gate passes sheets on which a real pin the
      baseline lacks stands alone in a net. */
  lemma StraysAreTheDifference(expected: seq<set<string>>, nets: seq<seq<string>>)
    requires Consistent(expected)
    ensures Passes(expected, nets) != PassesAsDescribed(expected, nets) <==>
      Passes(expected, nets) && HasStray(expected, nets)
  {
    hide Passes, PassesAsDescribed, HasStray, Consistent;
    if PassesAsDescribed(expected, nets) { DescribedIsStricter(expected, nets); }
    if Passes(expected, nets) {
      if HasStray(expected, nets) { StrayFailsAsDescribed(expected, nets); }
      else { WithoutStraysTheSame(expected, nets); }
    }
  }

  lemma OneNetShows(a: string, b: string, z: string)
    requires a != b && !IsPowerFlag(a) && !IsPowerFlag(b)
    ensures SameElectrically([{a, b}], [[a, b], [z]])
  {
    var expected, nets := [{a, b}], [[a, b], [z]];
    forall x ensures IsNode(nets, x) ==> x in {a, b} {
    }
    forall x, y ensures Together(expected, x, y) <==> x in {a, b} && y in {a, b} {
      if x in {a, b} && y in {a, b} { assert x in expected[0] && y in expected[0]; }
    }
    assert [a, b] in nets && a in [a, b] && b in [a, b];
    assert ShareNet(nets, a, b) && ShareNet(nets, b, a);
    NetConnects(nets, a, b);
    NetConnects(nets, b, a);
    hide IsNode, Together, Connected, ShareNet;
    forall x | CandidatePin(nets, x) ensures BaselinePin(expected, x) {
    }
  }

  /** Such a place: pin `z` is new, alone in its net, and the gate passes. */
  lemma StraySlipsThrough(a: string, b: string, z: string)
    requires a != b && z != a && z != b && !IsPowerFlag(a) && !IsPowerFlag(b) && !IsPowerFlag(z)
    ensures Passes([{a, b}], [[a, b], [z]]) && !PassesAsDescribed([{a, b}], [[a, b], [z]])
  {
    var expected, nets := [{a, b}], [[a, b], [z]];
    OneNetShows(a, b, z);
    DisjointIsConsistent(expected);
    assert !BaselinePin(expected, z);
    assert [z] in nets && [z][0] == z;
    assert HasStray(expected, nets);
    hide SameElectrically, Passes, PassesAsDescribed, HasStray, Consistent;
    PassMeansSame(expected, nets);
    StraysAreTheDifference(expected, nets);
  }

  // ---------------------------------------------------------------- order

  /** The verdict does not see the order of the nets, nor that of the pins in them. */
  lemma VerdictIgnoresNetOrder(expected: seq<set<string>>, nets: seq<seq<string>>, other: seq<seq<string>>)
    requires SameNets(nets, other)
    ensures Passes(expected, nets) <==> Passes(expected, other)
  {
    var c, d := CandidateMap(nets), CandidateMap(other);
    hide CandidateMap, Connected, IsNode, SameNets;
    forall x ensures x in c <==> x in d ensures x in c ==> c[x] == d[x] {
      CandidateMapAt(nets, x, x);
      CandidateMapAt(other, x, x);
      ConnectionIgnoresOrder(nets, other, x, x);
      if x in c {
        forall y ensures y in c[x] <==> y in d[x] {
          CandidateMapAt(nets, x, y);
          CandidateMapAt(other, x, y);
          ConnectionIgnoresOrder(nets, other, x, y);
          ConnectionIgnoresOrder(nets, other, y, x);
        }
      }
    }
    assert c == d;
  }

  /** The same sheets in some order, the nets of each in some order, the pins of each net in some order. */
  ghost predicate Reordered(sheets: seq<Export>, other: seq<Export>) {
    HasSheetsOf(sheets, other) && HasSheetsOf(other, sheets)
  }

  ghost predicate HasSheetsOf(sheets: seq<Export>, other: seq<Export>) {
    forall s {:trigger HasSheet(sheets, s)} :: s in other && s.Exported? ==> HasSheet(sheets, s)
  }

  ghost predicate HasSheet(sheets: seq<Export>, s: Export)
    requires s.Exported?
  {
    exists t: Export :: t in sheets && t.Exported? && SameNets(t.nets, s.nets)
  }

  lemma {:induction false} NetsAreOfSheets(sheets: seq<Export>, n: seq<string>)
    ensures n in AllNets(sheets) <==> exists s: Export :: s in sheets && s.Exported? && n in s.nets
    decreases |sheets|
  {
    if sheets != [] {
      var front, last := sheets[..|sheets| - 1], sheets[|sheets| - 1];
      NetsAreOfSheets(front, n);
      assert forall s :: s in sheets <==> s in front || s == last;
    }
  }

  lemma SheetsGiveNets(sheets: seq<Export>, other: seq<Export>)
    requires HasSheetsOf(sheets, other)
    ensures HasNetsOf(AllNets(sheets), AllNets(other))
  {
    forall n {:trigger HasNet(AllNets(sheets), n)} | n in AllNets(other) ensures HasNet(AllNets(sheets), n) {
      NetsAreOfSheets(other, n);
      var s: Export :| s in other && s.Exported? && n in s.nets;
      assert HasSheet(sheets, s);
      var t: Export :| t in sheets && t.Exported? && SameNets(t.nets, s.nets);
      assert HasNet(t.nets, n);
      var m :| m in t.nets && multiset(m) == multiset(n);
      NetsAreOfSheets(sheets, m);
    }
  }

  /** The verdict does not see the order of sheets, of nets or of pins, nor where the failed exports stand. */
  lemma VerdictIgnoresOrder(expected: seq<set<string>>, sheets: seq<Export>, other: seq<Export>)
    requires Reordered(sheets, other)
    ensures Passes(expected, AllNets(sheets)) <==> Passes(expected, AllNets(other))
  {
    SheetsGiveNets(sheets, other);
    SheetsGiveNets(other, sheets);
    hide Passes, HasNetsOf;
    VerdictIgnoresNetOrder(expected, AllNets(sheets), AllNets(other));
  }

  lemma SameMembers<T>(s: seq<T>, t: seq<T>, x: T)
    requires multiset(s) == multiset(t)
    ensures x in s <==> x in t
  {
    assert x in multiset(s) <==> x in multiset(t);
  }

  lemma SameNetsItself(nets: seq<seq<string>>)
    ensures SameNets(nets, nets)
  {
    assert forall n :: n in nets ==> HasNet(nets, n);
  }

  /** Permuting the nets of a sheet is such a reordering. */
  lemma PermutedNetsAreTheSame(nets: seq<seq<string>>, other: seq<seq<string>>)
    requires multiset(nets) == multiset(other)
    ensures SameNets(nets, other)
  {
    forall n {:trigger HasNet(other, n)} | n in nets ensures HasNet(other, n) { SameMembers(nets, other, n); }
    forall n {:trigger HasNet(nets, n)} | n in other ensures HasNet(nets, n) { SameMembers(nets, other, n); }
  }

  lemma SheetIsThere(sheets: seq<Export>, s: Export)
    requires s in sheets && s.Exported?
    ensures HasSheet(sheets, s)
  {
    SameNetsItself(s.nets);
  }

  /** So is permuting the sheets. */
  lemma PermutedSheetsAreTheSame(sheets: seq<Export>, other: seq<Export>)
    requires multiset(sheets) == multiset(other)
    ensures Reordered(sheets, other)
  {
    forall s {:trigger HasSheet(sheets, s)} | s in other && s.Exported? ensures HasSheet(sheets, s) {
      SameMembers(sheets, other, s);
      SheetIsThere(sheets, s);
    }
    forall s {:trigger HasSheet(other, s)} | s in sheets && s.Exported? ensures HasSheet(other, s) {
      SameMembers(sheets, other, s);
      SheetIsThere(other, s);
    }
  }
}
