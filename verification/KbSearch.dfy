/** Query planning for the knowledge base: which tokens go into the full-text expression, which into LIKE patterns, and
    what both mean to the engine that reads them. */
module KbSearch {
  import opened Basics

  // ---------------------------------------------------------------- LIKE, with `\` as the escape character

  /** LIKE folds the case of ASCII letters only. */
  predicate SameLetter(c: char, d: char) { LowerChar(c) == LowerChar(d) }

  /** `text LIKE pattern ESCAPE '\'`. */
  predicate Like(pattern: string, text: string)
    decreases |pattern|, |text|
  {
    if pattern == [] then text == []
    else if pattern[0] == '%' then Like(pattern[1..], text) || (text != [] && Like(pattern, text[1..]))
    else if text == [] then false
    else if pattern[0] == '_' then Like(pattern[1..], text[1..])
    else if pattern[0] == '\\' then |pattern| > 1 && SameLetter(pattern[1], text[0]) && Like(pattern[2..], text[1..])
    else SameLetter(pattern[0], text[0]) && Like(pattern[1..], text[1..])
  }

  function Escaped(token: string): string {
    if token == [] then []
    else (if token[0] in {'\\', '%', '_'} then ['\\', token[0]] else [token[0]]) + Escaped(token[1..])
  }

  /** `_kb_like_pattern`. */
  function LikePattern(token: string): string {
    "%" + Escaped(token) + "%"
  }

  predicate OccursAt(token: string, text: string, i: int) {
    0 <= i <= |text| - |token| && forall j :: 0 <= j < |token| ==> SameLetter(text[i + j], token[j])
  }

  predicate Occurs(token: string, text: string) {
    exists i :: 0 <= i <= |text| && OccursAt(token, text, i)
  }

  lemma {:induction false} PercentMatchesAll(text: string)
    ensures Like("%", text)
    decreases |text|
  {
    if text == [] {
      assert "%"[1..] == [];
    } else {
      PercentMatchesAll(text[1..]);
    }
  }

  /** An escaped token and a trailing `%` match exactly the texts that begin with the token. */
  lemma {:induction false} EscapedMatchesPrefix(token: string, text: string)
    ensures Like(Escaped(token) + "%", text) <==> OccursAt(token, text, 0)
    decreases |token|
  {
    var p := Escaped(token) + "%";
    if token == [] {
      assert p == "%";
      PercentMatchesAll(text);
    } else {
      var rest := Escaped(token[1..]) + "%";
      var special := token[0] in {'\\', '%', '_'};
      assert p == (if special then ['\\', token[0]] else [token[0]]) + rest;
      assert p[if special then 2 else 1..] == rest;
      if text != [] {
        EscapedMatchesPrefix(token[1..], text[1..]);
        assert Like(p, text) <==> SameLetter(token[0], text[0]) && Like(rest, text[1..]);
        assert OccursAt(token, text, 0) <==> SameLetter(text[0], token[0]) && OccursAt(token[1..], text[1..], 0) by {
          if OccursAt(token, text, 0) {
            forall j | 0 <= j < |token[1..]| ensures SameLetter(text[1..][j], token[1..][j]) {
              assert SameLetter(text[0 + (j + 1)], token[j + 1]);
            }
          }
          if SameLetter(text[0], token[0]) && OccursAt(token[1..], text[1..], 0) {
            forall j | 0 <= j < |token| ensures SameLetter(text[0 + j], token[j]) {
              if j > 0 { assert SameLetter(text[1..][0 + (j - 1)], token[1..][j - 1]); }
            }
          }
        }
      }
    }
  }

  lemma {:induction false} LeadingPercentSearches(p: string, token: string, text: string)
    requires forall s :: Like(p, s) <==> OccursAt(token, s, 0)
    ensures Like("%" + p, text) <==> Occurs(token, text)
    decreases |text|
  {
    var q := "%" + p;
    assert q[1..] == p;
    if Like(p, text) {
      assert OccursAt(token, text, 0);
    } else if text == [] {
      forall i ensures !(0 <= i <= |text| && OccursAt(token, text, i)) {
        if i == 0 { assert !OccursAt(token, text, 0); }
      }
    } else {
      LeadingPercentSearches(p, token, text[1..]);
      OccursInTail(token, text);
    }
  }

  lemma OccursInTail(token: string, text: string)
    requires text != [] && !OccursAt(token, text, 0)
    ensures Occurs(token, text) <==> Occurs(token, text[1..])
  {
    var tail := text[1..];
    forall i | 0 <= i <= |tail| ensures OccursAt(token, tail, i) <==> OccursAt(token, text, i + 1) {
      if OccursAt(token, tail, i) {
        forall j | 0 <= j < |token|
          ensures SameLetter(text[i + 1 + j], token[j])
        {
          assert SameLetter(tail[i + j], token[j]);
        }
      }
      if OccursAt(token, text, i + 1) {
        forall j | 0 <= j < |token|
          ensures SameLetter(tail[i + j], token[j])
        {
          assert SameLetter(text[i + 1 + j], token[j]);
        }
      }
    }
    if Occurs(token, text) {
      var i :| 0 <= i <= |text| && OccursAt(token, text, i);
      assert OccursAt(token, tail, i - 1);
    }
    if Occurs(token, tail) {
      var i :| 0 <= i <= |tail| && OccursAt(token, tail, i);
      assert OccursAt(token, text, i + 1);
    }
  }

  /** The pattern of a token matches a text exactly when the token occurs in it, whatever characters either has. */
  lemma LikeFindsToken(token: string, text: string)
    ensures Like(LikePattern(token), text) <==> Occurs(token, text)
  {
    var p := Escaped(token) + "%";
    forall s ensures Like(p, s) <==> OccursAt(token, s, 0) {
      EscapedMatchesPrefix(token, s);
    }
    LeadingPercentSearches(p, token, text);
    assert LikePattern(token) == "%" + p;
  }

  // ---------------------------------------------------------------- full-text expressions

  function Doubled(token: string): string {
    if token == [] then []
    else (if token[0] == '"' then "\"\"" else [token[0]]) + Doubled(token[1..])
  }

  function Phrase(token: string): string {
    "\"" + Doubled(token) + "\""
  }

  function Joined(parts: seq<string>, joiner: string): string {
    if parts == [] then ""
    else if |parts| == 1 then parts[0]
    else parts[0] + joiner + Joined(parts[1..], joiner)
  }

  function Phrases(tokens: seq<string>): seq<string> {
    if tokens == [] then [] else [Phrase(tokens[0])] + Phrases(tokens[1..])
  }

  datatype Operator = And | Or

  function Joiner(op: Operator): string {
    if op == And then " AND " else " OR "
  }

  /** What the engine reads: quoted phrases, with an operator before each but the first. */
  datatype Expression = Expression(phrases: seq<string>, operators: seq<Operator>)

  /** Reads a quoted string from just after its opening quote: its text, and what follows it. A doubled quote is a
      quote. */
  function ReadString(s: string): (r: Option<(string, string)>)
    ensures r.Some? ==> |r.value.1| < |s|
    decreases |s|
  {
    if s == [] then None
    else if s[0] != '"' then
      var r := ReadString(s[1..]);
      if r.None? then None else Some(([s[0]] + r.value.0, r.value.1))
    else if |s| > 1 && s[1] == '"' then
      var r := ReadString(s[2..]);
      if r.None? then None else Some((['"'] + r.value.0, r.value.1))
    else Some(("", s[1..]))
  }

  /** The operator a text begins with. */
  function ReadOperator(s: string): (r: Option<Operator>)
    ensures r.Some? ==> |Joiner(r.value)| <= |s|
  {
    if " AND " <= s then Some(And) else if " OR " <= s then Some(Or) else None
  }

  function ReadExpression(s: string): (r: Option<Expression>)
    ensures r.Some? ==> |r.value.phrases| == |r.value.operators| + 1
    decreases |s|
  {
    if s == [] || s[0] != '"' then None
    else
      var r := ReadString(s[1..]);
      if r.None? then None
      else if r.value.1 == [] then Some(Expression([r.value.0], []))
      else
        var op := ReadOperator(r.value.1);
        if op.None? then None
        else
          var rest := ReadExpression(r.value.1[|Joiner(op.value)|..]);
          if rest.None? then None
          else Some(Expression([r.value.0] + rest.value.phrases, [op.value] + rest.value.operators))
  }

  function Repeated(op: Operator, n: nat): (r: seq<Operator>)
    ensures |r| == n
  {
    if n == 0 then [] else [op] + Repeated(op, n - 1)
  }

  /** A quoted token is read back whole, embedded quotes included, when no quote follows it. */
  lemma {:induction false} StringReadsBack(token: string, after: string)
    requires after == [] || after[0] != '"'
    ensures ReadString(Doubled(token) + "\"" + after) == Some((token, after))
    decreases |token|
  {
    var s := Doubled(token) + "\"" + after;
    if token == [] {
      assert s[0] == '"' && s[1..] == after;
    } else {
      var head := if token[0] == '"' then "\"\"" else [token[0]];
      var tail := Doubled(token[1..]) + "\"" + after;
      assert s == head + tail && s[|head|..] == tail;
      StringReadsBack(token[1..], after);
      assert [token[0]] + token[1..] == token;
    }
  }

  lemma OperatorReadsBack(op: Operator, after: string)
    ensures ReadOperator(Joiner(op) + after) == Some(op)
  {
    assert (Joiner(op) + after)[1] == Joiner(op)[1];
    assert " AND "[1] == 'A';
  }

  lemma RepeatedUnfolds(op: Operator, n: nat)
    requires n > 0
    ensures Repeated(op, n) == [op] + Repeated(op, n - 1)
  {
  }

  lemma JoinedUnfolds(tokens: seq<string>, joiner: string)
    requires |tokens| > 1
    ensures Joined(Phrases(tokens), joiner) == Phrase(tokens[0]) + (joiner + Joined(Phrases(tokens[1..]), joiner))
  {
    assert |Phrases(tokens[1..])| >= 1;
    assert Phrases(tokens)[1..] == Phrases(tokens[1..]);
  }

  lemma PhraseReadsBack(t: string)
    ensures ReadExpression(Phrase(t)) == Some(Expression([t], []))
  {
    assert Phrase(t)[1..] == Doubled(t) + "\"" + "";
    StringReadsBack(t, "");
  }

  /** One phrase, an operator, and an expression that reads back. */
  lemma ReadsOneMore(t: string, op: Operator, rest: string, e: Expression)
    requires ReadExpression(rest) == Some(e)
    ensures ReadExpression(Phrase(t) + (Joiner(op) + rest)) == Some(Expression([t] + e.phrases, [op] + e.operators))
  {
    var s := Phrase(t) + (Joiner(op) + rest);
    var after := Joiner(op) + rest;
    assert s[1..] == Doubled(t) + "\"" + after;
    StringReadsBack(t, after);
    OperatorReadsBack(op, rest);
    assert after[|Joiner(op)|..] == rest;
  }

  /** The expression built from a list of tokens reads back as exactly those tokens, each joined by the operator
      meant. */
  lemma {:induction false} ExpressionReadsBack(tokens: seq<string>, op: Operator)
    requires tokens != []
    ensures ReadExpression(Joined(Phrases(tokens), Joiner(op))) == Some(Expression(tokens, Repeated(op, |tokens| - 1)))
    decreases |tokens|
  {
    var t := tokens[0];
    if |tokens| == 1 {
      assert tokens == [t] && Phrases(tokens) == [Phrase(t)];
      PhraseReadsBack(t);
    } else {
      ExpressionReadsBack(tokens[1..], op);
      JoinedUnfolds(tokens, Joiner(op));
      RepeatedUnfolds(op, |tokens| - 1);
      hide ReadExpression, Phrase, Joiner, Repeated, Joined, Phrases;
      ReadsOneMore(t, op, Joined(Phrases(tokens[1..]), Joiner(op)),
        Expression(tokens[1..], Repeated(op, |tokens| - 2)));
      assert [t] + tokens[1..] == tokens;
    }
  }

  // ---------------------------------------------------------------- the plan

  /** `str.split` without arguments: the longest stretches without white space, in order. */
  function Words(space: char -> bool, q: string): (r: seq<string>)
    ensures forall t :: t in r ==> t != [] && forall c :: c in t ==> !space(c)
    decreases |q|
  {
    var n := WordEnd(space, q);
    if q == [] then []
    else if n == 0 then Words(space, q[1..])
    else [q[..n]] + Words(space, q[n..])
  }

  function WordEnd(space: char -> bool, q: string): (n: nat)
    ensures n <= |q| && (forall i :: 0 <= i < n ==> !space(q[i])) && (n < |q| ==> space(q[n]))
  {
    if q == [] || space(q[0]) then 0 else 1 + WordEnd(space, q[1..])
  }

  lemma {:induction false} WordEndOf(space: char -> bool, t: string, after: string)
    requires (forall c :: c in t ==> !space(c)) && (after == [] || space(after[0]))
    ensures WordEnd(space, t + after) == |t|
  {
    if t == [] {
      assert t + after == after;
    } else {
      assert (t + after)[1..] == t[1..] + after;
      WordEndOf(space, t[1..], after);
    }
  }

  predicate IsWord(space: char -> bool, t: string) {
    t != [] && forall c :: c in t ==> !space(c)
  }

  lemma FirstWord(space: char -> bool, t: string, after: string)
    requires IsWord(space, t) && (after == [] || space(after[0]))
    ensures Words(space, t + after) == [t] + if after == [] then [] else Words(space, after[1..])
  {
    WordEndOf(space, t, after);
    assert (t + after)[..|t|] == t && (t + after)[|t|..] == after;
  }

  /** Splitting finds the words that were written with a blank between them, none cut and none run together. */
  lemma {:induction false} WordsReadBack(space: char -> bool, tokens: seq<string>)
    requires space(' ') && forall t {:trigger IsWord(space, t)} :: t in tokens ==> IsWord(space, t)
    ensures Words(space, Joined(tokens, " ")) == tokens
    decreases |tokens|
  {
    if |tokens| == 1 {
      assert IsWord(space, tokens[0]);
      FirstWord(space, tokens[0], "");
      assert tokens[0] + "" == tokens[0];
    } else if tokens != [] {
      var rest := Joined(tokens[1..], " ");
      assert IsWord(space, tokens[0]);
      WordsReadBack(space, tokens[1..]);
      FirstWord(space, tokens[0], " " + rest);
      assert (" " + rest)[1..] == rest;
      assert Joined(tokens, " ") == tokens[0] + (" " + rest);
      assert tokens == [tokens[0]] + tokens[1..];
    }
  }

  /** Every token is looked up in one way and one only. */
  lemma {:induction false} TokensAreSorted(tokens: seq<string>)
    ensures multiset(LongTokens(tokens)) + multiset(ShortTokens(tokens)) == multiset(tokens)
  {
    if tokens != [] {
      TokensAreSorted(tokens[1..]);
      assert tokens == [tokens[0]] + tokens[1..];
    }
  }

  /** White space separates: what is on either side of it is split on its own. */
  lemma {:induction false} WordsSplitAtSpace(space: char -> bool, a: string, c: char, b: string)
    requires space(c)
    ensures Words(space, a + [c] + b) == Words(space, a) + Words(space, b)
    decreases |a|
  {
    var q := a + [c] + b;
    if a == [] {
      assert q == [c] + b && q[1..] == b;
    } else if space(a[0]) {
      assert q[1..] == a[1..] + [c] + b;
      WordsSplitAtSpace(space, a[1..], c, b);
    } else {
      var n := WordEnd(space, a);
      WordEndBefore(space, a, [c] + b);
      assert q == a + ([c] + b);
      assert q[..n] == a[..n] && q[n..] == a[n..] + [c] + b;
      WordsSplitAtSpace(space, a[n..], c, b);
    }
  }

  lemma {:induction false} WordEndBefore(space: char -> bool, a: string, after: string)
    requires after != [] && space(after[0])
    ensures WordEnd(space, a + after) == WordEnd(space, a)
    decreases |a|
  {
    if a != [] && !space(a[0]) {
      assert (a + after)[1..] == a[1..] + after;
      WordEndBefore(space, a[1..], after);
    } else if a == [] {
      assert a + after == after;
    }
  }

  /** A stretch without white space is one word, and nothing is none. */
  lemma WordsOfOne(space: char -> bool, t: string)
    requires forall c :: c in t ==> !space(c)
    ensures Words(space, t) == if t == "" then [] else [t]
  {
    WordEndOf(space, t, "");
    assert t + "" == t;
    if t != "" {
      assert t[..|t|] == t && t[|t|..] == "";
    }
  }

  const MIN_TRIGRAM := 3

  function LongTokens(tokens: seq<string>): (r: seq<string>)
    ensures forall t :: t in r <==> t in tokens && |t| >= MIN_TRIGRAM
  {
    if tokens == [] then [] else (if |tokens[0]| >= MIN_TRIGRAM then [tokens[0]] else []) + LongTokens(tokens[1..])
  }

  function ShortTokens(tokens: seq<string>): (r: seq<string>)
    ensures forall t :: t in r <==> t in tokens && |t| < MIN_TRIGRAM
  {
    if tokens == [] then [] else (if |tokens[0]| < MIN_TRIGRAM then [tokens[0]] else []) + ShortTokens(tokens[1..])
  }

  datatype Mode = LikeScan | Fts(op: Operator) | Hybrid(op: Operator)

  datatype Plan = Plan(expression: Option<string>, likeTokens: seq<string>, mode: Mode)

  function MatchPlan(space: char -> bool, q: string, wantAnd: bool): Plan {
    var tokens := Words(space, q);
    var long, short := LongTokens(tokens), ShortTokens(tokens);
    var op := if wantAnd then And else Or;
    var text := Joined(Phrases(long), Joiner(op));
    var expression := if text == "" then None else Some(text);
    Plan(expression, short, if expression.None? then LikeScan else if short == [] then Fts(op) else Hybrid(op))
  }

  lemma JoinedIsEmptyOnlyWithoutTokens(tokens: seq<string>, joiner: string)
    ensures Joined(Phrases(tokens), joiner) == "" <==> tokens == []
  {
    if tokens != [] {
      assert Phrases(tokens)[0][0] == '"';
      assert Joined(Phrases(tokens), joiner)[0] == '"';
    }
  }

  /** The engine reads the MATCH expression of a plan as exactly the long tokens of the query, in order, quotes and all,
      with the operator the mode announces between any two; there is no expression exactly when there is no long
      token. */
  lemma PlanReadsBack(space: char -> bool, q: string, wantAnd: bool)
    ensures var plan := MatchPlan(space, q, wantAnd);
      var long := LongTokens(Words(space, q));
      && (plan.expression == None <==> long == []) && (plan.mode == LikeScan <==> long == [])
      && (plan.expression.Some? ==>
            && !plan.mode.LikeScan? && plan.mode.op == (if wantAnd then And else Or)
            && ReadExpression(plan.expression.value) == Some(Expression(long, Repeated(plan.mode.op, |long| - 1))))
  {
    hide ReadExpression, Words, LongTokens, ShortTokens, Phrases, Joined, Repeated;
    var long := LongTokens(Words(space, q));
    var op := if wantAnd then And else Or;
    JoinedIsEmptyOnlyWithoutTokens(long, Joiner(op));
    if long != [] {
      ExpressionReadsBack(long, op);
    }
  }

  // ---------------------------------------------------------------- what a query selects

  /** The engine's meaning of an expression it has read; how a phrase is looked up is its own business. */
  predicate Holds(e: Expression, hit: string -> bool)
    requires |e.phrases| == |e.operators| + 1
    decreases |e.phrases|
  {
    if e.operators == [] then hit(e.phrases[0])
    else
      var rest := Holds(Expression(e.phrases[1..], e.operators[1..]), hit);
      if e.operators[0] == And then hit(e.phrases[0]) && rest else hit(e.phrases[0]) || rest
  }

  /** The WHERE clause built from a plan, on one row. */
  predicate Selects(plan: Plan, title: string, body: string, hit: string -> bool) {
    && (plan.expression.Some? ==>
          var e := ReadExpression(plan.expression.value);
          e.Some? && Holds(e.value, hit))
    && (forall t :: t in plan.likeTokens ==> Like(LikePattern(t), title) || Like(LikePattern(t), body))
  }

  lemma {:induction false} RepeatedHolds(tokens: seq<string>, op: Operator, hit: string -> bool)
    requires tokens != []
    ensures Holds(Expression(tokens, Repeated(op, |tokens| - 1)), hit) <==>
      if op == And then forall t :: t in tokens ==> hit(t) else exists t :: t in tokens && hit(t)
    decreases |tokens|
  {
    if |tokens| > 1 {
      assert Repeated(op, |tokens| - 1)[1..] == Repeated(op, |tokens| - 2);
      RepeatedHolds(tokens[1..], op, hit);
      assert forall t :: t in tokens <==> t == tokens[0] || t in tokens[1..];
    } else {
      assert tokens == [tokens[0]];
    }
  }

  /** What a query means: its long tokens are looked up in the full text, all of them or any of them as asked; each
      short token must occur in the title or the body, in either mode. */
  lemma QuerySelects(space: char -> bool, q: string, wantAnd: bool, title: string, body: string, hit: string -> bool)
    ensures Selects(MatchPlan(space, q, wantAnd), title, body, hit) <==>
      var tokens := Words(space, q);
      && (LongTokens(tokens) != [] ==>
            if wantAnd then forall t :: t in LongTokens(tokens) ==> hit(t)
            else exists t :: t in LongTokens(tokens) && hit(t))
      && (forall t :: t in ShortTokens(tokens) ==> Occurs(t, title) || Occurs(t, body))
  {
    hide ReadExpression, Words, LongTokens, ShortTokens, Phrases, Joined, Repeated, Holds, Like, LikePattern, Occurs;
    var long := LongTokens(Words(space, q));
    var plan := MatchPlan(space, q, wantAnd);
    PlanReadsBack(space, q, wantAnd);
    if long != [] {
      RepeatedHolds(long, plan.mode.op, hit);
    }
    forall t | t in plan.likeTokens
      ensures Like(LikePattern(t), title) <==> Occurs(t, title)
      ensures Like(LikePattern(t), body) <==> Occurs(t, body)
    {
      LikeFindsToken(t, title);
      LikeFindsToken(t, body);
    }
  }

  lemma AppendIsAssociative(a: seq<string>, b: seq<string>, c: seq<string>)
    ensures a + (b + c) == (a + b) + c
  {
  }

  /** The long tokens keep their order, and so do the short ones. */
  lemma {:induction false} LongTokensInOrder(a: seq<string>, b: seq<string>)
    ensures LongTokens(a + b) == LongTokens(a) + LongTokens(b)
    decreases |a|
  {
    hide LongTokens;
    if a == [] {
      LongTokensOfNone();
      assert a + b == b && [] + LongTokens(b) == LongTokens(b);
    } else {
      var first := LongTokensFrom(a, b);
      LongTokensInOrder(a[1..], b);
      AppendIsAssociative(first, LongTokens(a[1..]), LongTokens(b));
    }
  }

  lemma LongTokensOfNone()
    ensures LongTokens([]) == []
  {
  }

  lemma LongTokensFrom(a: seq<string>, b: seq<string>) returns (first: seq<string>)
    requires a != []
    ensures LongTokens(a + b) == first + LongTokens(a[1..] + b) && LongTokens(a) == first + LongTokens(a[1..])
  {
    assert (a + b)[1..] == a[1..] + b && (a + b)[0] == a[0];
    first := if |a[0]| >= MIN_TRIGRAM then [a[0]] else [];
  }

  lemma {:induction false} ShortTokensInOrder(a: seq<string>, b: seq<string>)
    ensures ShortTokens(a + b) == ShortTokens(a) + ShortTokens(b)
    decreases |a|
  {
    hide ShortTokens;
    if a == [] {
      ShortTokensOfNone();
      assert a + b == b && [] + ShortTokens(b) == ShortTokens(b);
    } else {
      var first := ShortTokensFrom(a, b);
      ShortTokensInOrder(a[1..], b);
      AppendIsAssociative(first, ShortTokens(a[1..]), ShortTokens(b));
    }
  }

  lemma ShortTokensOfNone()
    ensures ShortTokens([]) == []
  {
  }

  lemma ShortTokensFrom(a: seq<string>, b: seq<string>) returns (first: seq<string>)
    requires a != []
    ensures ShortTokens(a + b) == first + ShortTokens(a[1..] + b) && ShortTokens(a) == first + ShortTokens(a[1..])
  {
    assert (a + b)[1..] == a[1..] + b && (a + b)[0] == a[0];
    first := if |a[0]| < MIN_TRIGRAM then [a[0]] else [];
  }

  /** Three characters make a token long. */
  lemma OneToken(t: string)
    ensures LongTokens([t]) == (if |t| >= 3 then [t] else []) && ShortTokens([t]) == if |t| >= 3 then [] else [t]
  {
    assert [t][1..] == [];
  }

  /** The LIKE tokens of a plan are the short ones, and its mode says which kinds of token there are and how the long
      ones are joined. */
  lemma ModeTells(space: char -> bool, q: string, wantAnd: bool)
    ensures var plan := MatchPlan(space, q, wantAnd);
      var long, short := LongTokens(Words(space, q)), ShortTokens(Words(space, q));
      && plan.likeTokens == short
      && (plan.mode.LikeScan? <==> long == [])
      && (plan.mode.Fts? <==> long != [] && short == [])
      && (plan.mode.Hybrid? <==> long != [] && short != [])
      && (!plan.mode.LikeScan? ==> plan.mode.op == if wantAnd then And else Or)
  {
    hide Words, LongTokens, ShortTokens, Phrases, Joined;
    JoinedIsEmptyOnlyWithoutTokens(LongTokens(Words(space, q)), Joiner(if wantAnd then And else Or));
  }

  /** The expression itself: each long token in double quotes, one joined to the next by the word for the mode. */
  lemma ExpressionIs(s: string, t: string)
    requires '"' !in s && '"' !in t
    ensures Joined(Phrases([s]), Joiner(And)) == "\"" + s + "\"" == Joined(Phrases([s]), Joiner(Or))
    ensures Joined(Phrases([s, t]), Joiner(And)) == "\"" + s + "\" AND \"" + t + "\""
    ensures Joined(Phrases([s, t]), Joiner(Or)) == "\"" + s + "\" OR \"" + t + "\""
  {
    PhraseIs(s);
    PhraseIs(t);
    hide Phrase;
    assert [s][1..] == [] && [s, t][1..] == [t] && [t][1..] == [];
    assert Phrases([t]) == [Phrase(t)] && Phrases([s]) == [Phrase(s)];
    assert Phrases([s, t]) == [Phrase(s), Phrase(t)];
    assert [Phrase(s), Phrase(t)][1..] == [Phrase(t)];
    assert Joined([Phrase(t)], Joiner(And)) == Phrase(t) == Joined([Phrase(t)], Joiner(Or));
    assert "\"" + s + "\"" + " AND " + ("\"" + t + "\"") == "\"" + s + "\" AND \"" + t + "\"";
    assert "\"" + s + "\"" + " OR " + ("\"" + t + "\"") == "\"" + s + "\" OR \"" + t + "\"";
  }

  lemma PhraseIs(t: string)
    requires '"' !in t
    ensures Phrase(t) == "\"" + t + "\""
  {
    NothingDoubled(t);
  }

  lemma {:induction false} NothingDoubled(t: string)
    requires '"' !in t
    ensures Doubled(t) == t
    decreases |t|
  {
    if t != [] {
      assert t == [t[0]] + t[1..];
      NothingDoubled(t[1..]);
    }
  }
}
