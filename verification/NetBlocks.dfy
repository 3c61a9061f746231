/** The balanced-parenthesis scanner that cuts a KiCad netlist into its `(net ...)` blocks. */
module NetBlocks {

  /** The text from `from` up to `to`. */
  datatype Span = Span(from: nat, to: nat)

  /** The opener `"(net "` stands in `s` at `k`. */
  predicate StartsAt(s: string, k: int) {
    0 <= k <= |s| - 5 && s[k] == '(' && s[k + 1] == 'n' && s[k + 2] == 'e' && s[k + 3] == 't' && s[k + 4] == ' '
  }

  lemma OpenerIs(s: string, k: nat)
    ensures StartsAt(s, k) <==> k + 5 <= |s| && s[k..k + 5] == "(net "
  {
    if k + 5 <= |s| {
      assert s[k..k + 5] == [s[k], s[k + 1], s[k + 2], s[k + 3], s[k + 4]];
    }
  }

  /** `s.find("(net ", i)`: the first occurrence at or after `i`, or -1. */
  function Find(s: string, i: nat): (k: int)
    ensures k == -1 || i <= k < |s|
    ensures k >= 0 ==> StartsAt(s, k) && forall l :: i <= l < k ==> !StartsAt(s, l)
    ensures k == -1 ==> forall l :: i <= l ==> !StartsAt(s, l)
    decreases |s| - i
  {
    if i >= |s| then -1
    else if StartsAt(s, i) then i
    else Find(s, i + 1)
  }

  /** Where the scan stops that has reached `j` with `depth` parentheses open: at the closing one, or at the end of
      `s`. */
  function BlockEnd(s: string, j: nat, depth: int): (end: nat)
    requires j <= |s|
    ensures j <= end <= |s|
    decreases |s| - j
  {
    if j == |s| then j
    else if s[j] == '(' then BlockEnd(s, j + 1, depth + 1)
    else if s[j] == ')' then
      if depth == 1 then j else BlockEnd(s, j + 1, depth - 1)
    else BlockEnd(s, j + 1, depth)
  }

  /** Python's `s[i:j]`, which stops at the end of `s`. */
  function Slice(s: string, i: nat, j: nat): string
    requires i <= |s| && i <= j
  {
    s[i..if j < |s| then j else |s|]
  }

  /** How many more parentheses `s` opens than it closes. */
  function Depth(s: string): int {
    if s == [] then 0
    else Depth(s[..|s| - 1]) + (if s[|s| - 1] == '(' then 1 else if s[|s| - 1] == ')' then -1 else 0)
  }

  /** One net: it starts with the opener and its first parenthesis is closed by its last character. */
  ghost predicate Balanced(b: string) {
    && StartsAt(b, 0)
    && Depth(b) == 0
    && forall k :: 0 < k < |b| ==> Depth(b[..k]) > 0
  }

  /** A block that the text ends in: its first parenthesis is never closed. */
  ghost predicate NeverCloses(b: string) {
    StartsAt(b, 0) && forall k :: 0 < k <= |b| ==> Depth(b[..k]) > 0
  }

  /** What is cut out: a balanced net, or one that never closes and runs to the end of the text. */
  ghost predicate IsBlock(s: string, span: Span) {
    && span.from < span.to <= |s|
    && (Balanced(s[span.from..span.to]) || (NeverCloses(s[span.from..span.to]) && span.to == |s|))
  }

  /** The half-open ranges of the blocks found from position `i` on. */
  function Spans(s: string, i: nat): seq<Span>
    decreases |s| + 1 - i
  {
    var k := Find(s, i);
    if k < 0 then []
    else
      var j := BlockEnd(s, k, 0);
      [Span(k, if j + 1 < |s| then j + 1 else |s|)] + Spans(s, j + 1)
  }

  /** From `i` on: the spans are disjoint and in order, no opener starts outside them, and each is a balanced net, or
      one that never closes and runs to the end of the text. */
  ghost predicate Tiles(s: string, i: nat, spans: seq<Span>)
    decreases |spans|
  {
    if spans == [] then forall l :: i <= l ==> !StartsAt(s, l)
    else
      && i <= spans[0].from && IsBlock(s, spans[0])
      && (forall l :: i <= l < spans[0].from ==> !StartsAt(s, l))
      && Tiles(s, spans[0].to, spans[1..])
  }

  ghost function Cut(s: string, i: nat, spans: seq<Span>): seq<string>
    requires Tiles(s, i, spans)
    decreases |spans|
  {
    if spans == [] then [] else [s[spans[0].from..spans[0].to]] + Cut(s, spans[0].to, spans[1..])
  }

  lemma DepthOfOneMore(s: string, k: nat, j: nat)
    requires k <= j < |s|
    ensures Depth(s[k..j + 1]) == Depth(s[k..j]) + (if s[j] == '(' then 1 else if s[j] == ')' then -1 else 0)
  {
    assert s[k..j + 1][..j - k] == s[k..j];
  }

  /** The scan from an opening parenthesis stops where that is closed, and else at the end. */
  lemma {:induction false} ScanStopsAtClose(s: string, k: nat, j: nat)
    requires k < |s| && k <= j <= |s| && s[k] == '('
    requires forall m :: k < m <= j ==> Depth(s[k..m]) > 0
    ensures var end := BlockEnd(s, j, Depth(s[k..j]));
      && k < end && (forall m :: k < m <= end ==> Depth(s[k..m]) > 0)
      && (end < |s| ==> Depth(s[k..end + 1]) == 0)
    decreases |s| - j
  {
    assert s[k..k] == [] && Depth([]) == 0;
    if j < |s| {
      DepthOfOneMore(s, k, j);
      hide Depth;
      if !(s[j] == ')' && Depth(s[k..j]) == 1) {
        ScanStopsAtClose(s, k, j + 1);
      }
    }
  }

  lemma PrefixesOfSlice(s: string, k: nat, to: nat)
    requires k <= to <= |s|
    ensures forall m :: 0 <= m <= to - k ==> s[k..to][..m] == s[k..k + m]
  {
  }

  lemma SliceStarts(s: string, k: nat, to: nat)
    requires StartsAt(s, k) && k + 5 <= to <= |s|
    ensures StartsAt(s[k..to], 0)
  {
  }

  /** What the scan cuts out at an opener is a block. */
  lemma ScanCutsABlock(s: string, k: nat)
    requires StartsAt(s, k)
    ensures var end := BlockEnd(s, k, 0);
      k < end && IsBlock(s, Span(k, if end < |s| then end + 1 else |s|))
  {
    assert s[k..k] == [];
    ScanStopsAtClose(s, k, k);
    var end := BlockEnd(s, k, 0);
    var to := if end < |s| then end + 1 else |s|;
    PrefixesOfSlice(s, k, to);
    if end < |s| {
      OpenerIsOpen(s, k, end);
    }
    SliceStarts(s, k, to);
    hide BlockEnd, StartsAt, Depth;
    var b := s[k..to];
    assert b[..|b|] == b;
    forall m | 0 < m < |b| ensures Depth(b[..m]) > 0 {
      assert Depth(s[k..k + m]) > 0;
    }
    if end == |s| { assert Depth(s[k..|s|]) > 0; }
  }

  /** The scan does not stop inside the opener. */
  lemma OpenerIsOpen(s: string, k: nat, end: nat)
    requires StartsAt(s, k) && k < end < |s| && Depth(s[k..end + 1]) == 0
    ensures end >= k + 5
  {
    assert s[k..k] == [];
    DepthOfOneMore(s, k, k);
    DepthOfOneMore(s, k, k + 1);
    DepthOfOneMore(s, k, k + 2);
    DepthOfOneMore(s, k, k + 3);
    DepthOfOneMore(s, k, k + 4);
  }

  lemma TilesWith(s: string, i: nat, head: Span, rest: seq<Span>)
    requires i <= head.from && IsBlock(s, head) && Tiles(s, head.to, rest)
    requires forall l :: i <= l < head.from ==> !StartsAt(s, l)
    ensures Tiles(s, i, [head] + rest) && Cut(s, i, [head] + rest) == [s[head.from..head.to]] + Cut(s, head.to, rest)
  {
    hide StartsAt, Balanced, NeverCloses;
    assert ([head] + rest)[1..] == rest;
  }

  lemma NothingAfterTheEnd(s: string, i: nat)
    requires i >= |s|
    ensures Tiles(s, i, [])
  {
  }

  lemma SpansUnfold(s: string, i: nat)
    ensures Find(s, i) >= 0 ==>
      var k := Find(s, i);
      var j := BlockEnd(s, k, 0);
      Spans(s, i) == [Span(k, if j < |s| then j + 1 else |s|)] + Spans(s, j + 1)
    ensures Find(s, i) < 0 || i >= |s| ==> Spans(s, i) == []
  {
  }

  lemma {:induction false} SpansTile(s: string, i: nat)
    ensures Tiles(s, i, Spans(s, i))
    decreases |s| + 1 - i
  {
    hide IsBlock, Spans, StartsAt;
    SpansUnfold(s, i);
    var k := Find(s, i);
    if k >= 0 {
      var j := BlockEnd(s, k, 0);
      ScanCutsABlock(s, k);
      SpansTile(s, j + 1);
      SpansUnfold(s, j + 1);
      NothingAfterTheEnd(s, |s|);
      TilesWith(s, i, Span(k, if j < |s| then j + 1 else |s|), Spans(s, j + 1));
    }
  }

  /** What `_net_blocks` returns for the text from `i` on. */
  ghost function Blocks(s: string, i: nat): seq<string> {
    SpansTile(s, i);
    Cut(s, i, Spans(s, i))
  }

  lemma BlocksUnfold(s: string, i: nat)
    ensures Blocks(s, i) ==
            if Find(s, i) < 0 then []
            else [Slice(s, Find(s, i), BlockEnd(s, Find(s, i), 0) + 1)] + Blocks(s, BlockEnd(s, Find(s, i), 0) + 1)
  {
    hide IsBlock, Spans, StartsAt;
    var k := Find(s, i);
    SpansUnfold(s, i);
    SpansTile(s, i);
    if k >= 0 {
      var j := BlockEnd(s, k, 0);
      ScanCutsABlock(s, k);
      SpansTile(s, j + 1);
      SpansUnfold(s, j + 1);
      NothingAfterTheEnd(s, |s|);
      var head, rest := Span(k, if j < |s| then j + 1 else |s|), Spans(s, j + 1);
      TilesWith(s, i, head, rest);
    }
  }

  lemma StartOfBlocks(s: string)
    ensures Tiles(s, 0, Spans(s, 0)) && Blocks(s, 0) == Cut(s, 0, Spans(s, 0))
  {
    SpansTile(s, 0);
    hide Tiles, Spans;
  }

  /** `_net_blocks`. Whatever the input, it ends and returns the slices at `Spans(s, 0)`. */
  method Split(s: string) returns (out: seq<string>)
    ensures Tiles(s, 0, Spans(s, 0)) && out == Cut(s, 0, Spans(s, 0))
  {
    StartOfBlocks(s);
    hide Blocks, Cut, Spans, Tiles, IsBlock;
    out := [];
    var i := 0;
    while true
      invariant out + Blocks(s, i) == Blocks(s, 0)
      decreases |s| + 1 - i
    {
      BlocksUnfold(s, i);
      var k := Find(s, i);
      if k < 0 { break; }
      var j := Scan(s, k);
      out := out + [Slice(s, k, j + 1)];
      i := j + 1;
    }
  }

  /** The inner loop: count parentheses until the one at `k` is closed or the text ends. */
  method Scan(s: string, k: nat) returns (j: nat)
    requires k <= |s|
    ensures j == BlockEnd(s, k, 0)
  {
    var depth := 0;
    j := k;
    while j < |s|
      invariant k <= j <= |s|
      invariant BlockEnd(s, j, depth) == BlockEnd(s, k, 0)
    {
      if s[j] == '(' {
        depth := depth + 1;
      } else if s[j] == ')' {
        depth := depth - 1;
        if depth == 0 { break; }
      }
      j := j + 1;
    }
  }

  // ---------------------------------------------------------------- round trip

  /** Text without an opener in it. */
  ghost predicate Plain(s: string) {
    forall k :: !StartsAt(s, k)
  }

  /** The blocks one after another, with `gaps[n]` before block `n` and the last gap at the end. */
  function Weave(gaps: seq<string>, blocks: seq<string>): string
    requires |gaps| == |blocks| + 1
  {
    if blocks == [] then gaps[0] else gaps[0] + blocks[0] + Weave(gaps[1..], blocks[1..])
  }

  lemma {:induction false} ScanClosesBlock(pre: string, b: string, post: string, k: nat)
    requires Balanced(b) && k < |b|
    ensures BlockEnd(pre + b + post, |pre| + k, Depth(b[..k])) == |pre| + |b| - 1
    decreases |b| - k
  {
    var s := pre + b + post;
    assert s[|pre| + k] == b[k];
    assert b[..k + 1][..k] == b[..k];
    assert k > 0 ==> Depth(b[..k]) > 0;
    if k + 1 < |b| {
      ScanClosesBlock(pre, b, post, k + 1);
    } else {
      assert b[..k + 1] == b;
    }
  }

  lemma FindSkipsGap(pre: string, gap: string, b: string, post: string)
    requires Plain(gap) && Balanced(b)
    ensures Find(pre + gap + b + post, |pre|) == |pre| + |gap|
  {
    var s := pre + gap + b + post;
    var at := |pre| + |gap|;
    assert forall m :: 0 <= m < |gap| ==> s[|pre| + m] == gap[m];
    assert forall m :: 0 <= m < |b| ==> s[at + m] == b[m];
    forall l | |pre| <= l < at ensures !StartsAt(s, l) {
      assert !StartsAt(gap, l - |pre|);
      assert s[at] == '(';
    }
    assert StartsAt(s, at);
  }

  lemma FindEnds(pre: string, gap: string)
    requires Plain(gap)
    ensures Find(pre + gap, |pre|) == -1
  {
    forall l | |pre| <= l ensures !StartsAt(pre + gap, l) {
      assert !StartsAt(gap, l - |pre|);
    }
  }

  lemma FirstBlockComesFirst(pre: string, gap: string, b: string, post: string)
    requires Plain(gap) && Balanced(b)
    ensures Blocks(pre + gap + b + post, |pre|) == [b] + Blocks(pre + gap + b + post, |pre + gap + b|)
  {
    var s := pre + gap + b + post;
    BlocksUnfold(s, |pre|);
    FindSkipsGap(pre, gap, b, post);
    ScanClosesBlock(pre + gap, b, post, 0);
    assert b[..0] == [];
    assert Slice(s, |pre + gap|, |pre + gap + b|) == b;
  }

  lemma {:induction false} WeaveIsCutBack(pre: string, gaps: seq<string>, blocks: seq<string>)
    requires |gaps| == |blocks| + 1
    requires forall n :: 0 <= n < |gaps| ==> Plain(gaps[n])
    requires forall n :: 0 <= n < |blocks| ==> Balanced(blocks[n])
    ensures Blocks(pre + Weave(gaps, blocks), |pre|) == blocks
    decreases |blocks|
  {
    var s := pre + Weave(gaps, blocks);
    if blocks == [] {
      FindEnds(pre, gaps[0]);
      BlocksUnfold(s, |pre|);
    } else {
      var post := Weave(gaps[1..], blocks[1..]);
      var front := pre + gaps[0] + blocks[0];
      assert s == front + post;
      FirstBlockComesFirst(pre, gaps[0], blocks[0], post);
      assert blocks == [blocks[0]] + blocks[1..];
      WeaveIsCutBack(front, gaps[1..], blocks[1..]);
    }
  }

  /** Balanced nets in any opener-free surroundings come back exactly, in order. */
  lemma SplitUndoesWeave(gaps: seq<string>, blocks: seq<string>)
    requires |gaps| == |blocks| + 1
    requires forall n :: 0 <= n < |gaps| ==> Plain(gaps[n])
    requires forall n :: 0 <= n < |blocks| ==> Balanced(blocks[n])
    ensures Tiles(Weave(gaps, blocks), 0, Spans(Weave(gaps, blocks), 0))
    ensures Cut(Weave(gaps, blocks), 0, Spans(Weave(gaps, blocks), 0)) == blocks
  {
    var s := Weave(gaps, blocks);
    assert "" + s == s;
    SpansTile(s, 0);
    WeaveIsCutBack("", gaps, blocks);
  }
}
