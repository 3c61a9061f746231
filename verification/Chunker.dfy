/** Paragraph-merge chunking: paragraphs are gathered into groups, and each group remembers where it starts. */
module Chunker {
  import opened Basics

  const BREAK: string := "\n\n"

  // ---------------------------------------------------------------- splitting at blank lines

  predicate BreakAt(raw: string, i: nat) {
    i + 2 <= |raw| && raw[i] == '\n' && raw[i + 1] == '\n'
  }

  /** Where the first blank line is; the length of the text if there is none. */
  function FirstBreak(raw: string): (n: nat)
    ensures n <= |raw| && (n < |raw| ==> BreakAt(raw, n)) && forall i :: 0 <= i < n ==> !BreakAt(raw, i)
  {
    if raw == [] || BreakAt(raw, 0) then 0
    else
      assert forall i :: 0 < i && BreakAt(raw, i) ==> BreakAt(raw[1..], i - 1);
      1 + FirstBreak(raw[1..])
  }

  function Paragraphs(raw: string): (r: seq<string>)
    ensures r != []
    decreases |raw|
  {
    var n := FirstBreak(raw);
    if n == |raw| then [raw] else [raw[..n]] + Paragraphs(raw[n + 2..])
  }

  function Join(paras: seq<string>): string {
    if paras == [] then "" else if |paras| == 1 then paras[0] else paras[0] + BREAK + Join(paras[1..])
  }

  lemma JoinOfOneAnd(p: string, rest: seq<string>)
    requires rest != []
    ensures Join([p] + rest) == p + BREAK + Join(rest)
  {
    assert ([p] + rest)[1..] == rest;
  }

  lemma BreakSplits(raw: string, n: nat)
    requires BreakAt(raw, n)
    ensures raw[..n] + BREAK + raw[n + 2..] == raw
  {
    assert raw[n..n + 2] == BREAK;
  }

  /** Splitting loses nothing. */
  lemma {:induction false} ParagraphsJoinBack(raw: string)
    ensures Join(Paragraphs(raw)) == raw
    decreases |raw|
  {
    var n := FirstBreak(raw);
    if n < |raw| {
      ParagraphsJoinBack(raw[n + 2..]);
      JoinOfOneAnd(raw[..n], Paragraphs(raw[n + 2..]));
      BreakSplits(raw, n);
      hide Join;
    }
  }

  predicate HasBreak(p: string) {
    exists i :: 0 <= i < |p| && BreakAt(p, i)
  }

  /** Every blank line ends a paragraph: none has one in it. */
  lemma {:induction false} ParagraphsHaveNoBreak(raw: string)
    ensures forall p {:trigger HasBreak(p)} :: p in Paragraphs(raw) ==> !HasBreak(p)
    decreases |raw|
  {
    var n := FirstBreak(raw);
    if n < |raw| {
      ParagraphsHaveNoBreak(raw[n + 2..]);
      forall i | 0 <= i < n ensures BreakAt(raw[..n], i) ==> BreakAt(raw, i) {
      }
    }
  }

  /** A blank line is taken as early as it comes: no paragraph but the last ends in a line break. */
  lemma {:induction false} ParagraphsEndEarly(raw: string, n: nat)
    requires n + 1 < |Paragraphs(raw)|
    ensures var p := Paragraphs(raw)[n]; p == "" || p[|p| - 1] != '\n'
    decreases |raw|
  {
    var k := FirstBreak(raw);
    if n == 0 {
      assert k > 0 ==> !BreakAt(raw, k - 1);
    } else {
      ParagraphsEndEarly(raw[k + 2..], n - 1);
    }
  }

  /** What a list of paragraphs takes up, each with the two characters after it. */
  function Span(paras: seq<string>): nat {
    if paras == [] then 0 else Span(paras[..|paras| - 1]) + |paras[|paras| - 1]| + 2
  }

  lemma {:induction false} SpanIsAdditive(a: seq<string>, b: seq<string>)
    ensures Span(a + b) == Span(a) + Span(b)
    decreases |b|
  {
    if b == [] {
      assert a + b == a;
    } else {
      assert (a + b)[..|a + b| - 1] == a + b[..|b| - 1];
      SpanIsAdditive(a, b[..|b| - 1]);
    }
  }

  lemma {:induction false} JoinOfTwo(a: seq<string>, b: seq<string>)
    requires a != [] && b != []
    ensures Join(a + b) == Join(a) + BREAK + Join(b)
    decreases |a|
  {
    if |a| == 1 {
      assert (a + b)[1..] == b;
    } else {
      assert (a + b)[1..] == a[1..] + b;
      JoinOfTwo(a[1..], b);
    }
  }

  lemma {:induction false} JoinLength(paras: seq<string>)
    requires paras != []
    ensures |Join(paras)| + 2 == Span(paras)
    decreases |paras|
  {
    if |paras| > 1 {
      JoinLength(paras[1..]);
      assert paras == [paras[0]] + paras[1..];
      SpanIsAdditive([paras[0]], paras[1..]);
      assert Span([paras[0]]) == |paras[0]| + 2;
    } else {
      assert paras[..0] == [];
    }
  }

  // ---------------------------------------------------------------- stripping

  lemma BlankExactlyIfStripsToNothing(space: char -> bool, s: string)
    ensures Strip(space, s) == "" <==> forall i :: 0 <= i < |s| ==> space(s[i])
  {
    var l := StripLeft(space, s);
    var skipped := |s| - |l|;
    if Strip(space, s) == "" {
      forall i | 0 <= i < |s| ensures space(s[i]) {
        if i >= skipped { assert s[i] == l[i - skipped]; }
      }
    } else if l != [] {
      assert s[skipped] == l[0];
    }
  }

  // ---------------------------------------------------------------- groups and chunks

  datatype Chunk = Chunk(content: string, anchor: nat)

  function Flatten(groups: seq<seq<string>>): seq<string> {
    if groups == [] then [] else Flatten(groups[..|groups| - 1]) + groups[|groups| - 1]
  }

  /** The chunk of a group; a group of nothing but white space has none. */
  function ChunkOf(space: char -> bool, group: seq<string>, anchor: nat): seq<Chunk> {
    var content := Strip(space, Join(group));
    if content == "" then [] else [Chunk(content, anchor)]
  }

  /** The chunks of a list of groups, each anchored where the groups before it end. */
  function ChunksOf(space: char -> bool, groups: seq<seq<string>>): seq<Chunk> {
    if groups == [] then []
    else
      var before := groups[..|groups| - 1];
      ChunksOf(space, before) + ChunkOf(space, groups[|groups| - 1], Span(Flatten(before)))
  }

  predicate Fits(group: seq<string>, target: int) {
    group != [] && (|group| == 1 || Span(group) <= target)
  }

  /** A group was closed only because the next paragraph would not have fitted. */
  predicate Full(group: seq<string>, next: seq<string>, target: int)
    requires next != []
  {
    Span(group) + |next[0]| + 2 > target
  }

  /** Every group fits, and none could have taken the paragraph that opens the next. */
  ghost predicate GoodGroups(groups: seq<seq<string>>, target: int)
    ensures GoodGroups(groups, target) && groups != [] ==> groups[|groups| - 1] != []
  {
    groups == [] ||
    var last := groups[|groups| - 1];
    var before := groups[..|groups| - 1];
    && GoodGroups(before, target) && Fits(last, target)
    && (before != [] ==> Full(before[|before| - 1], last, target))
  }

  /** The paragraphs in order, in groups that fit, none of which could have taken one more. */
  ghost predicate IsGrouping(paras: seq<string>, groups: seq<seq<string>>, target: int) {
    Flatten(groups) == paras && GoodGroups(groups, target)
  }

  lemma {:induction false} GroupsFitAndAreFull(groups: seq<seq<string>>, target: int, i: nat)
    requires GoodGroups(groups, target) && i < |groups|
    ensures Fits(groups[i], target)
    ensures i + 1 < |groups| ==> groups[i + 1] != [] && Full(groups[i], groups[i + 1], target)
    decreases |groups|
  {
    if i + 1 < |groups| {
      var before := groups[..|groups| - 1];
      GroupsFitAndAreFull(before, target, i);
      assert before[|before| - 1] == groups[|groups| - 2];
    }
  }

  /** The sum the loop recomputes for every paragraph. */
  method Sum(buf: seq<string>) returns (n: nat)
    ensures n == Span(buf)
  {
    n := 0;
    for i := 0 to |buf|
      invariant n == Span(buf[..i])
    {
      assert buf[..i + 1][..i] == buf[..i];
      n := n + |buf[i]| + 2;
    }
    assert buf[..|buf|] == buf;
  }

  /** What is true between two paragraphs: the closed groups are final, the buffer is the group still open. */
  ghost predicate Gathered(
      space: char -> bool, target: int, read: seq<string>, groups: seq<seq<string>>, buf: seq<string>,
      chunks: seq<Chunk>, bufStart: nat)
  {
    && IsGrouping(Flatten(groups), groups, target)
    && Flatten(groups) + buf == read && (buf == [] ==> groups == [])
    && (buf != [] ==> Fits(buf, target))
    && (groups != [] && buf != [] ==> Full(groups[|groups| - 1], buf, target))
    && chunks == ChunksOf(space, groups) && bufStart == Span(Flatten(groups))
  }

  lemma AddGroup(groups: seq<seq<string>>, buf: seq<string>, target: int)
    requires IsGrouping(Flatten(groups), groups, target) && Fits(buf, target)
    requires groups != [] ==> Full(groups[|groups| - 1], buf, target)
    ensures IsGrouping(Flatten(groups) + buf, groups + [buf], target)
  {
    assert (groups + [buf])[..|groups|] == groups;
  }

  /** The open group is closed and the paragraph opens the next. */
  lemma CloseAndOpen(
      space: char -> bool, target: int, read: seq<string>, groups: seq<seq<string>>, buf: seq<string>,
      chunks: seq<Chunk>, bufStart: nat, para: string)
    requires Gathered(space, target, read, groups, buf, chunks, bufStart) && buf != []
    requires Span(buf) + (|para| + 2) > target
    ensures Gathered(space, target, read + [para], groups + [buf], [para], chunks + ChunkOf(space, buf, bufStart),
      bufStart + Span(buf))
  {
    hide IsGrouping, Flatten, ChunksOf, Strip, Join, Span;
    GroupClosed(space, groups, buf);
    AddGroup(groups, buf, target);
  }

  lemma TakeOneMore(
      space: char -> bool, target: int, read: seq<string>, groups: seq<seq<string>>, buf: seq<string>,
      chunks: seq<Chunk>, bufStart: nat, para: string)
    requires Gathered(space, target, read, groups, buf, chunks, bufStart)
    requires buf == [] || Span(buf) + (|para| + 2) <= target
    ensures Gathered(space, target, read + [para], groups, buf + [para], chunks, bufStart)
    ensures Span(buf + [para]) == Span(buf) + |para| + 2
  {
    hide IsGrouping, ChunksOf;
    SpanOfOneMore(buf, para);
    assert Flatten(groups) + (buf + [para]) == read + [para];
    assert buf != [] ==> (buf + [para])[0] == buf[0];
    hide Flatten, Span;
  }

  lemma SpanOfOne(para: string)
    ensures Span([para]) == |para| + 2
  {
    assert [para][..0] == [];
  }

  lemma SpanOfOneMore(buf: seq<string>, para: string)
    ensures Span(buf + [para]) == Span(buf) + |para| + 2
  {
    assert (buf + [para])[..|buf|] == buf;
  }

  lemma LastGroup(
      space: char -> bool, target: int, read: seq<string>, groups: seq<seq<string>>, buf: seq<string>,
      chunks: seq<Chunk>, bufStart: nat)
    requires Gathered(space, target, read, groups, buf, chunks, bufStart) && buf != []
    ensures IsGrouping(read, groups + [buf], target)
    ensures chunks + ChunkOf(space, buf, bufStart) == ChunksOf(space, groups + [buf])
  {
    hide IsGrouping, Flatten, ChunksOf, Strip, Join, Span;
    GroupClosed(space, groups, buf);
    AddGroup(groups, buf, target);
  }

  /** A group with something in it becomes a chunk. */
  method Emit(space: char -> bool, chunks: seq<Chunk>, buf: seq<string>, bufStart: nat) returns (more: seq<Chunk>)
    ensures more == chunks + ChunkOf(space, buf, bufStart)
  {
    more := chunks;
    var content := Strip(space, Join(buf));
    if content != "" {
      more := more + [Chunk(content, bufStart)];
    }
  }

  lemma NothingGathered(space: char -> bool, target: int, paras: seq<string>)
    ensures Gathered(space, target, paras[..0], [], [], [], 0) && Span([]) == 0
  {
  }

  lemma GroupClosed(space: char -> bool, groups: seq<seq<string>>, buf: seq<string>)
    ensures Flatten(groups + [buf]) == Flatten(groups) + buf
    ensures Span(Flatten(groups + [buf])) == Span(Flatten(groups)) + Span(buf)
    ensures ChunksOf(space, groups + [buf]) == ChunksOf(space, groups) + ChunkOf(space, buf, Span(Flatten(groups)))
  {
    assert (groups + [buf])[..|groups|] == groups;
    SpanIsAdditive(Flatten(groups), buf);
  }

  // ---------------------------------------------------------------- one grouping only

  lemma {:induction false} TailIsGood(groups: seq<seq<string>>, target: int)
    requires GoodGroups(groups, target) && groups != []
    ensures GoodGroups(groups[1..], target)
    decreases |groups|
  {
    var tail, before := groups[1..], groups[..|groups| - 1];
    if tail != [] {
      TailIsGood(before, target);
      assert tail[..|tail| - 1] == before[1..];
      assert tail[|tail| - 1] == groups[|groups| - 1];
      assert before[1..] != [] ==> before[1..][|before[1..]| - 1] == before[|before| - 1];
    }
  }

  lemma FirstAndRest(groups: seq<seq<string>>)
    requires groups != []
    ensures Flatten(groups) == groups[0] + Flatten(groups[1..])
  {
    FlattenSplits(groups, 1);
    assert groups[..1] == [groups[0]] && [groups[0]][..0] == [];
    assert Flatten([groups[0]]) == groups[0];
  }

  lemma SpanOfPrefix(a: seq<string>, b: seq<string>)
    requires a < b
    ensures Span(b) >= Span(a) + |b[|a|]| + 2
  {
    SpanOfOneMore(a, b[|a|]);
    SpanIsAdditive(a + [b[|a|]], b[|a| + 1..]);
    assert a + [b[|a|]] + b[|a| + 1..] == b;
  }

  /** A first group that took more paragraphs would not fit. */
  lemma LongerDoesNotFit(groups: seq<seq<string>>, longer: seq<string>, target: int)
    requires GoodGroups(groups, target) && groups != [] && longer <= Flatten(groups) && |longer| > |groups[0]|
    ensures !Fits(longer, target)
  {
    FirstAndRest(groups);
    GroupsFitAndAreFull(groups, target, 0);
    var first, rest := groups[0], groups[1..];
    assert Flatten(rest) != [];
    FirstAndRest(rest);
    assert rest[0] == groups[1];
    assert first == Flatten(groups)[..|first|] && longer == Flatten(groups)[..|longer|];
    assert first == longer[..|first|];
    assert longer[|first|] == Flatten(groups)[|first|] == rest[0][0];
    SpanOfPrefix(first, longer);
  }

  lemma NoGroupsWithoutParagraphs(groups: seq<seq<string>>, target: int)
    requires GoodGroups(groups, target)
    ensures Flatten(groups) == [] <==> groups == []
  {
    if groups != [] {
      FirstAndRest(groups);
      GroupsFitAndAreFull(groups, target, 0);
    }
  }

  lemma FirstGroupsAgree(a: seq<seq<string>>, b: seq<seq<string>>, target: int)
    requires GoodGroups(a, target) && GoodGroups(b, target) && a != [] && b != [] && Flatten(a) == Flatten(b)
    ensures a[0] == b[0]
  {
    FirstAndRest(a);
    FirstAndRest(b);
    GroupsFitAndAreFull(a, target, 0);
    GroupsFitAndAreFull(b, target, 0);
    assert a[0] == Flatten(a)[..|a[0]|] && b[0] == Flatten(b)[..|b[0]|];
    assert |a[0]| <= |b[0]| by { if |a[0]| > |b[0]| { LongerDoesNotFit(b, a[0], target); } }
    assert |b[0]| <= |a[0]| by { if |b[0]| > |a[0]| { LongerDoesNotFit(a, b[0], target); } }
  }

  /** What the paragraphs and the target ask for is one grouping: the chunks of a text are determined. */
  lemma {:induction false} GroupingIsUnique(a: seq<seq<string>>, b: seq<seq<string>>, target: int)
    requires GoodGroups(a, target) && GoodGroups(b, target) && Flatten(a) == Flatten(b)
    ensures a == b
    decreases |a|
  {
    NoGroupsWithoutParagraphs(a, target);
    NoGroupsWithoutParagraphs(b, target);
    if a != [] {
      FirstGroupsAgree(a, b, target);
      FirstAndRest(a);
      FirstAndRest(b);
      assert Flatten(a[1..]) == Flatten(a)[|a[0]|..] && Flatten(b[1..]) == Flatten(b)[|b[0]|..];
      TailIsGood(a, target);
      TailIsGood(b, target);
      GroupingIsUnique(a[1..], b[1..], target);
      assert a == [a[0]] + a[1..] && b == [b[0]] + b[1..];
    }
  }

  // ---------------------------------------------------------------- what an anchor points at

  lemma {:induction false} FlattenSplits(groups: seq<seq<string>>, i: nat)
    requires i <= |groups|
    ensures Flatten(groups) == Flatten(groups[..i]) + Flatten(groups[i..])
    decreases |groups|
  {
    if i == |groups| {
      assert groups[..i] == groups && groups[i..] == [];
    } else {
      var before := groups[..|groups| - 1];
      FlattenSplits(before, i);
      assert before[..i] == groups[..i];
      assert groups[i..][..|groups[i..]| - 1] == before[i..];
      assert groups[i..][|groups[i..]| - 1] == groups[|groups| - 1];
    }
  }

  lemma JoinBegins(a: seq<string>, b: seq<string>)
    requires a != []
    ensures |Join(a)| <= |Join(a + b)| && Join(a + b)[..|Join(a)|] == Join(a)
  {
    if b == [] {
      assert a + b == a;
    } else {
      JoinOfTwo(a, b);
      hide Join;
    }
  }

  lemma JoinEnds(a: seq<string>, b: seq<string>)
    requires b != []
    ensures Span(a) + |Join(b)| == |Join(a + b)| && Join(a + b)[Span(a)..] == Join(b)
  {
    if a == [] {
      assert a + b == b;
    } else {
      JoinOfTwo(a, b);
      JoinLength(a);
      hide Join, Span;
      assert Join(a + b)[|Join(a) + BREAK|..] == Join(b);
    }
  }

  /** The text of a stretch of paragraphs stands in the joined text where the stretch before it ends. */
  lemma StretchStandsAt(before: seq<string>, middle: seq<string>, after: seq<string>)
    requires middle != []
    ensures var raw := Join(before + (middle + after));
      Span(before) + |Join(middle)| <= |raw| && raw[Span(before)..Span(before) + |Join(middle)|] == Join(middle)
  {
    hide Join, Span;
    JoinEnds(before, middle + after);
    JoinBegins(middle, after);
    var raw := Join(before + (middle + after));
    assert raw[Span(before)..][..|Join(middle)|] == Join(middle);
  }

  lemma GroupsAround(groups: seq<seq<string>>, i: nat)
    requires i < |groups|
    ensures Flatten(groups) == Flatten(groups[..i]) + (groups[i] + Flatten(groups[i + 1..]))
  {
    FlattenSplits(groups, i + 1);
    FlattenOneMore(groups, i);
    hide Flatten;
    AppendIsAssociative(Flatten(groups[..i]), groups[i], Flatten(groups[i + 1..]));
  }

  lemma AppendIsAssociative(a: seq<string>, b: seq<string>, c: seq<string>)
    ensures (a + b) + c == a + (b + c)
  {
  }

  /** The anchor of a group is where its text, not yet stripped, stands in the source. */
  lemma AnchorPointsAtGroup(raw: string, groups: seq<seq<string>>, target: int, i: nat)
    requires IsGrouping(Paragraphs(raw), groups, target) && i < |groups|
    ensures var anchor := Span(Flatten(groups[..i]));
      anchor + |Join(groups[i])| <= |raw| && raw[anchor..anchor + |Join(groups[i])|] == Join(groups[i])
  {
    hide Join, Span, Paragraphs, GoodGroups, Flatten;
    GroupsFitAndAreFull(groups, target, i);
    GroupsAround(groups, i);
    ParagraphsJoinBack(raw);
    StretchStandsAt(Flatten(groups[..i]), groups[i], Flatten(groups[i + 1..]));
  }

  lemma FlattenOneMore(groups: seq<seq<string>>, i: nat)
    requires i < |groups|
    ensures Flatten(groups[..i + 1]) == Flatten(groups[..i]) + groups[i]
  {
    assert groups[..i + 1][..i] == groups[..i];
  }

  /** The chunk of a group, which is stripped, starts at its anchor only when the group does not open with white
      space. */
  lemma ContentStartsAtAnchorUnlessIndented(space: char -> bool, text: string)
    requires Strip(space, text) != ""
    ensures Strip(space, text) <= text <==> !space(text[0])
  {
    var l := StripLeft(space, text);
    if !space(text[0]) {
      assert l == text;
    } else {
      assert Strip(space, text)[0] == l[0];
    }
  }

  // ---------------------------------------------------------------- the chunks of a text

  /** There is more to it than white space. */
  ghost predicate HasText(space: char -> bool, s: string) {
    exists k :: 0 <= k < |s| && !space(s[k])
  }

  /** The groups with something in them, each once and in order. */
  ghost predicate ListsTheNonBlank(space: char -> bool, groups: seq<seq<string>>, from: seq<nat>) {
    && (forall m, n :: 0 <= m < n < |from| ==> from[m] < from[n])
    && (forall n :: 0 <= n < |from| ==> from[n] < |groups|)
    && (forall i :: 0 <= i < |groups| ==> (i in from <==> HasText(space, Join(groups[i]))))
  }

  /** The chunk of a group holds its text, stripped; its anchor is where that text, not stripped, stands in the source:
      behind all earlier paragraphs and a blank line. */
  ghost predicate IsChunkOf(space: char -> bool, raw: string, groups: seq<seq<string>>, i: nat, c: Chunk) {
    && i < |groups| && c.content == Strip(space, Join(groups[i])) && c.content != ""
    && c.anchor == (if i == 0 then 0 else |Join(Flatten(groups[..i]))| + 2)
    && c.anchor + |Join(groups[i])| <= |raw| && raw[c.anchor..c.anchor + |Join(groups[i])|] == Join(groups[i])
  }

  ghost function NonBlank(space: char -> bool, groups: seq<seq<string>>): seq<nat> {
    if groups == [] then []
    else
      var n := |groups| - 1;
      NonBlank(space, groups[..n]) + if Strip(space, Join(groups[n])) == "" then [] else [n]
  }

  lemma {:induction false} NonBlankLists(space: char -> bool, groups: seq<seq<string>>)
    ensures ListsTheNonBlank(space, groups, NonBlank(space, groups))
    decreases |groups|
  {
    if groups != [] {
      hide Join, Strip, HasText, ListsTheNonBlank;
      var n := |groups| - 1;
      NonBlankLists(space, groups[..n]);
      TextIffChunk(space, Join(groups[n]));
      ListsOneMore(space, groups, NonBlank(space, groups[..n]));
    }
  }

  lemma ListsOneMore(space: char -> bool, groups: seq<seq<string>>, from: seq<nat>)
    requires groups != [] && ListsTheNonBlank(space, groups[..|groups| - 1], from)
    ensures var n := |groups| - 1;
      ListsTheNonBlank(space, groups, from + if HasText(space, Join(groups[n])) then [n] else [])
  {
    hide Join, HasText;
    var n := |groups| - 1;
    var more := from + if HasText(space, Join(groups[n])) then [n] else [];
    forall i | 0 <= i < |groups| ensures i in more <==> HasText(space, Join(groups[i])) {
      if i < n {
        assert groups[..n][i] == groups[i];
      } else {
        assert n !in from;
      }
    }
  }

  lemma TextIffChunk(space: char -> bool, s: string)
    ensures HasText(space, s) <==> Strip(space, s) != ""
  {
    BlankExactlyIfStripsToNothing(space, s);
  }

  lemma AnchorIs(groups: seq<seq<string>>, target: int, i: nat)
    requires GoodGroups(groups, target) && i < |groups|
    ensures Span(Flatten(groups[..i])) == if i == 0 then 0 else |Join(Flatten(groups[..i]))| + 2
  {
    if i > 0 {
      GroupsFitAndAreFull(groups, target, 0);
      FirstAndRest(groups[..i]);
      hide Flatten, Join, Span;
      JoinLength(Flatten(groups[..i]));
    } else {
      assert groups[..i] == [];
    }
  }

  /** The chunk of one group. */
  lemma ChunkOfIs(space: char -> bool, raw: string, target: int, groups: seq<seq<string>>, i: nat)
    requires IsGrouping(Paragraphs(raw), groups, target) && i < |groups| && Strip(space, Join(groups[i])) != ""
    ensures ChunkOf(space, groups[i], Span(Flatten(groups[..i]))) ==
      [Chunk(Strip(space, Join(groups[i])), Span(Flatten(groups[..i])))]
    ensures IsChunkOf(space, raw, groups, i, Chunk(Strip(space, Join(groups[i])), Span(Flatten(groups[..i]))))
  {
    hide Join, Span, Flatten, Strip, GoodGroups, Paragraphs;
    AnchorPointsAtGroup(raw, groups, target, i);
    AnchorIs(groups, target, i);
    hide IsGrouping;
  }

  lemma OneGroupMore(space: char -> bool, groups: seq<seq<string>>, m: nat)
    requires m < |groups|
    ensures ChunksOf(space, groups[..m + 1]) ==
      ChunksOf(space, groups[..m]) + ChunkOf(space, groups[m], Span(Flatten(groups[..m])))
    ensures NonBlank(space, groups[..m + 1]) ==
      NonBlank(space, groups[..m]) + if Strip(space, Join(groups[m])) == "" then [] else [m]
    ensures Strip(space, Join(groups[m])) == "" ==> ChunkOf(space, groups[m], Span(Flatten(groups[..m]))) == []
  {
    hide Strip, Join, Span, Flatten;
    assert groups[..m + 1][..m] == groups[..m];
  }

  /** Chunk by chunk, the chunks are those of the groups named. */
  ghost predicate ArePaired(
      space: char -> bool, raw: string, groups: seq<seq<string>>, from: seq<nat>, chunks: seq<Chunk>)
  {
    |chunks| == |from| && forall n :: 0 <= n < |chunks| ==> IsChunkOf(space, raw, groups, from[n], chunks[n])
  }

  lemma NothingPaired(space: char -> bool, raw: string, groups: seq<seq<string>>)
    ensures ArePaired(space, raw, groups, NonBlank(space, groups[..0]), ChunksOf(space, groups[..0]))
  {
    hide IsChunkOf, ChunkOf, Join, Strip, Span, Flatten;
  }

  lemma OnePairMore(
      space: char -> bool, raw: string, groups: seq<seq<string>>, from: seq<nat>, chunks: seq<Chunk>, i: nat, c: Chunk)
    requires ArePaired(space, raw, groups, from, chunks) && IsChunkOf(space, raw, groups, i, c)
    ensures ArePaired(space, raw, groups, from + [i], chunks + [c])
  {
    hide IsChunkOf;
  }

  lemma {:induction false} ChunksUpTo(space: char -> bool, raw: string, target: int, groups: seq<seq<string>>, m: nat)
    requires IsGrouping(Paragraphs(raw), groups, target) && m <= |groups|
    ensures ArePaired(space, raw, groups, NonBlank(space, groups[..m]), ChunksOf(space, groups[..m]))
    decreases m
  {
    hide IsGrouping, IsChunkOf, Join, Strip, Span, Flatten, ChunksOf, ChunkOf, NonBlank, ArePaired, Paragraphs;
    if m == 0 {
      NothingPaired(space, raw, groups);
    } else {
      ChunksUpTo(space, raw, target, groups, m - 1);
      OneGroupMore(space, groups, m - 1);
      var before, chunks := NonBlank(space, groups[..m - 1]), ChunksOf(space, groups[..m - 1]);
      if Strip(space, Join(groups[m - 1])) == "" {
        assert before + [] == before && chunks + [] == chunks;
      } else {
        ChunkOfIs(space, raw, target, groups, m - 1);
        var c := Chunk(Strip(space, Join(groups[m - 1])), Span(Flatten(groups[..m - 1])));
        OnePairMore(space, raw, groups, before, chunks, m - 1, c);
      }
    }
  }

  lemma ChunksAre(space: char -> bool, raw: string, target: int, groups: seq<seq<string>>)
    requires IsGrouping(Paragraphs(raw), groups, target)
    ensures var chunks, from := ChunksOf(space, groups), NonBlank(space, groups);
      && ListsTheNonBlank(space, groups, from)
      && |chunks| == |from| && forall n :: 0 <= n < |chunks| ==> IsChunkOf(space, raw, groups, from[n], chunks[n])
  {
    NonBlankLists(space, groups);
    assert groups[..|groups|] == groups;
    ChunksUpTo(space, raw, target, groups, |groups|);
  }

  /** `chunk_text`: the paragraphs of the text are grouped as the target asks, and `from` says which group each chunk is
      of: the groups that are not blank, in order. */
  method ChunkText(space: char -> bool, raw: string, target: int)
    returns (chunks: seq<Chunk>, ghost groups: seq<seq<string>>, ghost from: seq<nat>)
    ensures IsGrouping(Paragraphs(raw), groups, target) && ListsTheNonBlank(space, groups, from)
    ensures |chunks| == |from| && forall n :: 0 <= n < |chunks| ==> IsChunkOf(space, raw, groups, from[n], chunks[n])
  {
    hide Gathered, IsGrouping, ChunksOf, ChunkOf, Span, Paragraphs, Fits, ListsTheNonBlank, IsChunkOf;
    chunks := [];
    groups := [];
    var buf: seq<string> := [];
    var bufStart: nat, offset: nat := 0, 0;
    var paras := Paragraphs(raw);
    NothingGathered(space, target, paras);
    for n := 0 to |paras|
      invariant Gathered(space, target, paras[..n], groups, buf, chunks, bufStart)
      invariant offset == bufStart + Span(buf) && (n > 0 ==> buf != [])
    {
      var para := paras[n];
      var total := Sum(buf);
      assert paras[..n + 1] == paras[..n] + [para];
      if buf != [] && total + (|para| + 2) > target {
        CloseAndOpen(space, target, paras[..n], groups, buf, chunks, bufStart, para);
        chunks := Emit(space, chunks, buf, bufStart);
        groups := groups + [buf];
        bufStart := offset;
        buf := [para];
        SpanOfOne(para);
      } else {
        TakeOneMore(space, target, paras[..n], groups, buf, chunks, bufStart, para);
        buf := buf + [para];
      }
      offset := offset + |para| + 2;
    }
    assert paras[..|paras|] == paras;
    LastGroup(space, target, paras, groups, buf, chunks, bufStart);
    chunks := Emit(space, chunks, buf, bufStart);
    groups := groups + [buf];
    from := NonBlank(space, groups);
    ChunksAre(space, raw, target, groups);
  }

  /** Told by their texts: each group takes up at most the target with the blank line behind it, unless it is one
      paragraph; and with the next paragraph and its blank line it would have taken up more. */
  lemma GroupsByTheirTexts(groups: seq<seq<string>>, target: int, i: nat)
    requires GoodGroups(groups, target) && i < |groups|
    ensures groups[i] != [] && (|groups[i]| == 1 || |Join(groups[i])| + 2 <= target)
    ensures i + 1 < |groups| ==>
      groups[i + 1] != [] && |Join(groups[i])| + 2 + |groups[i + 1][0]| + 2 > target
  {
    GroupsFitAndAreFull(groups, target, i);
    JoinLength(groups[i]);
    hide Join, Span;
  }
}
