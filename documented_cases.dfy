/**
 * Concrete cases: the table in the doc comment of `BuildMarkovTable`, the
 * weighted choice over `{A:2, B:1}`, the start candidates of a small corpus,
 * and what the walk over the doc-comment corpus actually does.
 */
module DocumentedCases {
  import opened MarkovTypes
  import opened TableBuilder
  import opened WeightedChoice
  import opened ChainWalker


  predicate Distinct4(a: Token, b: Token, c: Token, x: Token)
  {
    a != b && a != c && a != x && b != c && b != x && c != x
  }

  /** The corpus of the `BuildMarkovTable` doc comment, `[a b c a b x]`, over any four distinct tokens. */
  function DocTokens(a: Token, b: Token, c: Token, x: Token): seq<Token> { [a, b, c, a, b, x] }

  /** The table that doc comment shows for it with n = 2. */
  function DocTable(a: Token, b: Token, c: Token, x: Token): MarkovTable
  {
    map[[a, b] := [SuffixFrequency(c, 1), SuffixFrequency(x, 1)],
        [b, c] := [SuffixFrequency(a, 1)],
        [c, a] := [SuffixFrequency(b, 1)]]
  }

  /** The corpus peeled one token at a time, with the prefix of width 2 at each position. */
  lemma DocSuffixes(a: Token, b: Token, c: Token, x: Token)
    ensures var t0 := DocTokens(a, b, c, x);
      && t0[..2] == [a, b] && t0[2] == c && t0[1..] == [b, c, a, b, x]
      && [b, c, a, b, x][..2] == [b, c] && [b, c, a, b, x][2] == a && [b, c, a, b, x][1..] == [c, a, b, x]
      && [c, a, b, x][..2] == [c, a] && [c, a, b, x][2] == b && [c, a, b, x][1..] == [a, b, x]
      && [a, b, x][..2] == [a, b] && [a, b, x][2] == x && [a, b, x][1..] == [b, x]
  {
  }

  lemma DocPrefixes(a: Token, b: Token, c: Token, x: Token)
    ensures Prefixes(DocTokens(a, b, c, x), 2) == {[a, b], [b, c], [c, a]}
  {
    DocSuffixes(a, b, c, x);
    assert Prefixes([b, x], 2) == {};
    assert Prefixes([a, b, x], 2) == {[a, b]};
    assert Prefixes([c, a, b, x], 2) == {[c, a], [a, b]};
    assert Prefixes([b, c, a, b, x], 2) == {[b, c], [c, a], [a, b]};
  }

  lemma DocFollowersAB(a: Token, b: Token, c: Token, x: Token)
    requires Distinct4(a, b, c, x)
    ensures Followers(DocTokens(a, b, c, x), 2, [a, b]) == [c, x]
  {
    DocSuffixes(a, b, c, x);
    var k := [a, b];
    assert Followers([b, x], 2, k) == [];
    assert Followers([a, b, x], 2, k) == [x];
    assert Followers([c, a, b, x], 2, k) == [x];
    assert Followers([b, c, a, b, x], 2, k) == [x];
  }

  lemma DocFollowersBC(a: Token, b: Token, c: Token, x: Token)
    requires Distinct4(a, b, c, x)
    ensures Followers(DocTokens(a, b, c, x), 2, [b, c]) == [a]
  {
    DocSuffixes(a, b, c, x);
    var k := [b, c];
    assert Followers([b, x], 2, k) == [];
    assert Followers([a, b, x], 2, k) == [];
    assert Followers([c, a, b, x], 2, k) == [];
    assert Followers([b, c, a, b, x], 2, k) == [a];
  }

  lemma DocFollowersCA(a: Token, b: Token, c: Token, x: Token)
    requires Distinct4(a, b, c, x)
    ensures Followers(DocTokens(a, b, c, x), 2, [c, a]) == [b]
  {
    DocSuffixes(a, b, c, x);
    var k := [c, a];
    assert Followers([b, x], 2, k) == [];
    assert Followers([a, b, x], 2, k) == [];
    assert Followers([c, a, b, x], 2, k) == [b];
    assert Followers([b, c, a, b, x], 2, k) == [b];
  }

  lemma DocGroups(a: Token, b: Token, c: Token, x: Token)
    requires Distinct4(a, b, c, x)
    ensures Prefixes(DocTokens(a, b, c, x), 2) == {[a, b], [b, c], [c, a]}
    ensures Followers(DocTokens(a, b, c, x), 2, [a, b]) == [c, x]
    ensures Followers(DocTokens(a, b, c, x), 2, [b, c]) == [a]
    ensures Followers(DocTokens(a, b, c, x), 2, [c, a]) == [b]
  {
    DocPrefixes(a, b, c, x);
    DocFollowersAB(a, b, c, x);
    DocFollowersBC(a, b, c, x);
    DocFollowersCA(a, b, c, x);
  }

  lemma DocTallies(a: Token, b: Token, c: Token, x: Token)
    requires c != x
    ensures Tally([c, x]) == [SuffixFrequency(c, 1), SuffixFrequency(x, 1)]
    ensures Tally([a]) == [SuffixFrequency(a, 1)]
    ensures Tally([b]) == [SuffixFrequency(b, 1)]
  {
    assert [c, x][..1] == [c] && [c][..0] == [];
    var one := [SuffixFrequency(c, 1)];
    assert Tally([c]) == one;
    assert one[1..] == [];
    assert Bump(one, x) == [SuffixFrequency(c, 1)] + Bump([], x);
    assert [a][..0] == [];
    assert [b][..0] == [];
  }

  lemma DocTableParts(a: Token, b: Token, c: Token, x: Token)
    requires Distinct4(a, b, c, x)
    ensures var t := BuildMarkovTable(DocTokens(a, b, c, x), 2);
      && t.Keys == {[a, b], [b, c], [c, a]}
      && t[[a, b]] == [SuffixFrequency(c, 1), SuffixFrequency(x, 1)]
      && t[[b, c]] == [SuffixFrequency(a, 1)]
      && t[[c, a]] == [SuffixFrequency(b, 1)]
  {
    DocGroups(a, b, c, x);
    DocTallies(a, b, c, x);
    TableOfCorpus(DocTokens(a, b, c, x), 2, [a, b]);
    TableOfCorpus(DocTokens(a, b, c, x), 2, [b, c]);
    TableOfCorpus(DocTokens(a, b, c, x), 2, [c, a]);
    TableKeySet(DocTokens(a, b, c, x), 2);
  }

  /** `[a b c a b x]` with n = 2 gives `{[a b]: [c:1, x:1], [b c]: [a:1], [c a]: [b:1]}`. */
  lemma DocCommentTable(a: Token, b: Token, c: Token, x: Token)
    requires Distinct4(a, b, c, x)
    ensures BuildMarkovTable(DocTokens(a, b, c, x), 2) == DocTable(a, b, c, x)
  {
    DocTableParts(a, b, c, x);
    DocTableShape(a, b, c, x);
    SameMap(BuildMarkovTable(DocTokens(a, b, c, x), 2), DocTable(a, b, c, x), [a, b], [b, c], [c, a]);
  }

  lemma DocTableShape(a: Token, b: Token, c: Token, x: Token)
    requires Distinct4(a, b, c, x)
    ensures var m := DocTable(a, b, c, x);
      && m.Keys == {[a, b], [b, c], [c, a]}
      && m[[a, b]] == [SuffixFrequency(c, 1), SuffixFrequency(x, 1)]
      && m[[b, c]] == [SuffixFrequency(a, 1)]
      && m[[c, a]] == [SuffixFrequency(b, 1)]
  {
  }

  /** Two maps over the same three keys that agree on each are equal. */
  lemma SameMap(t: MarkovTable, m: MarkovTable, p: Prefix, q: Prefix, r: Prefix)
    requires t.Keys == {p, q, r} && m.Keys == {p, q, r}
    requires t[p] == m[p] && t[q] == m[q] && t[r] == m[r]
    ensures t == m
  {
  }

  /**
   * Over `{A:2, B:1}` (total 3) the draws 0, 1 and 2 all select A; B needs the
   * draw 3, which `RandomInt(0, 3)` never returns.
   */
  lemma TwoToOneChoice(draw: int)
    requires 0 <= draw < 3
    ensures SelectSuffix([SuffixFrequency(Str("A"), 2), SuffixFrequency(Str("B"), 1)], draw) == Ok(Str("A"))
    ensures SelectSuffix([SuffixFrequency(Str("A"), 2), SuffixFrequency(Str("B"), 1)], 3) == Ok(Str("B"))
  {
    var fs := [SuffixFrequency(Str("A"), 2), SuffixFrequency(Str("B"), 1)];
    assert Total(fs) == 3;
    if draw <= 2 {
      LowDrawSelectsFirst(fs, draw);
    }
  }

  /** A token whose text starts with an upper-case letter, as `Alpha` and `Beta` do. */
  predicate Capitalised(tok: Token)
  {
    tok.Str? && tok.text != [] && IsUpper(tok.text[0])
  }

  /** A token whose text starts with anything else, as `one` and `two` do. */
  predicate Uncapitalised(tok: Token)
  {
    tok.Str? && tok.text != [] && !IsUpper(tok.text[0])
  }

  /** The corpus `[Alpha one two Beta three]` with n = 2 has the keys `[Alpha one]`, `[one two]`, `[two Beta]`. */
  lemma AlphaBetaPrefixes(alpha: Token, one: Token, two: Token, beta: Token, three: Token)
    ensures Prefixes([alpha, one, two, beta, three], 2) == {[alpha, one], [one, two], [two, beta]}
  {
    var t0 := [alpha, one, two, beta, three];
    assert t0[..2] == [alpha, one] && t0[1..] == [one, two, beta, three];
    assert [one, two, beta, three][..2] == [one, two] && [one, two, beta, three][1..] == [two, beta, three];
    assert [two, beta, three][..2] == [two, beta] && [two, beta, three][1..] == [beta, three];
    assert Prefixes([beta, three], 2) == {};
    assert Prefixes([two, beta, three], 2) == {[two, beta]};
    assert Prefixes([one, two, beta, three], 2) == {[one, two], [two, beta]};
  }

  lemma AlphaBetaKeys(alpha: Token, one: Token, two: Token, beta: Token, three: Token)
    ensures BuildMarkovTable([alpha, one, two, beta, three], 2).Keys == {[alpha, one], [one, two], [two, beta]}
  {
    TableKeySet([alpha, one, two, beta, three], 2);
    AlphaBetaPrefixes(alpha, one, two, beta, three);
  }

  /**
   * Any table whose keys are `[Alpha one]`, `[one two]` and `[two Beta]`, listed
   * in any order, has `[Alpha one]` as its only start candidate.
   */
  lemma AlphaBetaCandidates(alpha: Token, one: Token, two: Token, beta: Token, three: Token,
                             t: MarkovTable, order: seq<Prefix>)
    requires Capitalised(alpha) && Uncapitalised(one) && Uncapitalised(two) && Capitalised(beta)
    requires t.Keys == {[alpha, one], [one, two], [two, beta]} && Enumerates(order, t)
    ensures Candidates(order) == Ok([[alpha, one]])
  {
    EnumeratedKeys(order, t, {[alpha, one], [one, two], [two, beta]});
    AlphaBetaStarts(alpha, one, two, beta);
    OneCandidate(order, [alpha, one], [one, two], [two, beta]);
  }

  /**
   * Over `[Alpha one two Beta three]` with n = 2 the only start candidate is
   * `[Alpha one]`, whatever the key order: `[Beta three]` has no successor, so it is no key.
   */
  lemma AlphaBetaStart(alpha: Token, one: Token, two: Token, beta: Token, three: Token, order: seq<Prefix>)
    requires Capitalised(alpha) && Uncapitalised(one) && Uncapitalised(two) && Capitalised(beta)
    requires Enumerates(order, BuildMarkovTable([alpha, one, two, beta, three], 2))
    ensures Candidates(order) == Ok([[alpha, one]])
  {
    AlphaBetaKeys(alpha, one, two, beta, three);
    AlphaBetaCandidates(alpha, one, two, beta, three, BuildMarkovTable([alpha, one, two, beta, three], 2), order);
  }

  lemma EnumeratedKeys(order: seq<Prefix>, t: MarkovTable, keys: set<Prefix>)
    requires Enumerates(order, t) && t.Keys == keys
    ensures forall i, j :: 0 <= i < j < |order| ==> order[i] != order[j]
    ensures forall k :: k in order <==> k in keys
  {
  }

  lemma AlphaBetaStarts(alpha: Token, one: Token, two: Token, beta: Token)
    requires Capitalised(alpha) && Uncapitalised(one) && Uncapitalised(two)
    ensures StartsUpper([alpha, one]) == Ok(true)
    ensures StartsUpper([one, two]) == Ok(false)
    ensures StartsUpper([two, beta]) == Ok(false)
  {
  }

  /** An enumeration of three keys of which only `p` starts upper-case has `[p]` as its candidates. */
  lemma OneCandidate(order: seq<Prefix>, p: Prefix, q: Prefix, r: Prefix)
    requires forall i, j :: 0 <= i < j < |order| ==> order[i] != order[j]
    requires forall k :: k in order <==> k in {p, q, r}
    requires StartsUpper(p) == Ok(true) && StartsUpper(q) == Ok(false) && StartsUpper(r) == Ok(false)
    ensures Candidates(order) == Ok([p])
  {
    assert p in order;
    forall i | 0 <= i < |order|
      ensures StartsUpper(order[i]).Ok?
    {
      assert order[i] in order;
    }
    var c := Candidates(order);
    assert forall k :: k in c.value <==> k == p;
    CandidatesDistinct(order);
    SingleValued(c.value, p);
  }

  /** A list without repetitions whose only member is `k` is `[k]`. */
  lemma SingleValued(c: seq<Prefix>, k: Prefix)
    requires forall i, j :: 0 <= i < j < |c| ==> c[i] != c[j]
    requires k in c
    requires forall p :: p in c ==> p == k
    ensures c == [k]
  {
    assert c[0] in c && c[|c| - 1] in c;
    assert c[0] == k && c[|c| - 1] == k;
  }

  /** `a b c a b c ...`: the token at position `k` of the cycle. */
  function Cycle(a: Token, b: Token, c: Token, k: nat): Token
  {
    if k % 3 == 0 then a else if k % 3 == 1 then b else c
  }

  /**
   * A key of width 2 whose first entry has frequency 1 and whose total is at most 2:
   * every honest draw (0 or 1) selects that first entry.
   */
  lemma FirstEntryStep(t: MarkovTable, p: Prefix, calls: nat, rng: RandomSource)
    requires InRange(rng) && |p| == 2 && p in t && t[p] != []
    requires t[p][0].frequency == 1 && Total(t[p]) <= 2
    ensures Iterate(t, WalkState(p, calls), rng) == Ok(WalkState([p[1], t[p][0].suffix], calls + 1))
  {
    var fs := t[p];
    assert Total(fs) >= 1;
    var draw := rng(calls, 0, Total(fs));
    LowDrawSelectsFirst(fs, draw);
    assert ChooseRandomSuffix(t, p, rng, calls) == Ok(Choice(fs[0].suffix, calls + 1));
    assert p[1..] + [fs[0].suffix] == [p[1], fs[0].suffix];
  }

  /** From `[a b]` the walk moves to `[b c]`: `c` has frequency 1 of a total of 2. */
  lemma DocStepAB(a: Token, b: Token, c: Token, x: Token, calls: nat, rng: RandomSource)
    requires Distinct4(a, b, c, x) && InRange(rng)
    ensures Iterate(DocTable(a, b, c, x), WalkState([a, b], calls), rng) == Ok(WalkState([b, c], calls + 1))
  {
    var t := DocTable(a, b, c, x);
    assert [a, b][0] != [b, c][0] && [a, b][1] != [c, a][1];
    var fs := t[[a, b]];
    assert fs == [SuffixFrequency(c, 1), SuffixFrequency(x, 1)];
    assert fs[1..] == [SuffixFrequency(x, 1)] && fs[1..][1..] == [];
    assert Total(fs[1..]) == 1;
    assert Total(fs) == 2;
    FirstEntryStep(t, [a, b], calls, rng);
  }

  /** From `[b c]` the walk moves to `[c a]`. */
  lemma DocStepBC(a: Token, b: Token, c: Token, x: Token, calls: nat, rng: RandomSource)
    requires Distinct4(a, b, c, x) && InRange(rng)
    ensures Iterate(DocTable(a, b, c, x), WalkState([b, c], calls), rng) == Ok(WalkState([c, a], calls + 1))
  {
    var t := DocTable(a, b, c, x);
    assert [b, c][0] != [c, a][0];
    assert t[[b, c]] == [SuffixFrequency(a, 1)];
    assert t[[b, c]][1..] == [];
    assert Total(t[[b, c]]) == 1;
    FirstEntryStep(t, [b, c], calls, rng);
  }

  /** From `[c a]` the walk moves back to `[a b]`. */
  lemma DocStepCA(a: Token, b: Token, c: Token, x: Token, calls: nat, rng: RandomSource)
    requires Distinct4(a, b, c, x) && InRange(rng)
    ensures Iterate(DocTable(a, b, c, x), WalkState([c, a], calls), rng) == Ok(WalkState([a, b], calls + 1))
  {
    var t := DocTable(a, b, c, x);
    assert t[[c, a]] == [SuffixFrequency(b, 1)];
    assert t[[c, a]][1..] == [];
    assert Total(t[[c, a]]) == 1;
    FirstEntryStep(t, [c, a], calls, rng);
  }

  /** One step of the walk over the doc-comment table moves one place along the cycle. */
  lemma DocStep(a: Token, b: Token, c: Token, x: Token, j: nat, calls: nat, rng: RandomSource)
    requires Distinct4(a, b, c, x)
    requires InRange(rng)
    ensures Iterate(DocTable(a, b, c, x), WalkState([Cycle(a, b, c, j), Cycle(a, b, c, j + 1)], calls), rng)
      == Ok(WalkState([Cycle(a, b, c, j + 1), Cycle(a, b, c, j + 2)], calls + 1))
  {
    if j % 3 == 0 {
      assert Cycle(a, b, c, j) == a && Cycle(a, b, c, j + 1) == b && Cycle(a, b, c, j + 2) == c;
      DocStepAB(a, b, c, x, calls, rng);
    } else if j % 3 == 1 {
      assert Cycle(a, b, c, j) == b && Cycle(a, b, c, j + 1) == c && Cycle(a, b, c, j + 2) == a;
      DocStepBC(a, b, c, x, calls, rng);
    } else {
      assert Cycle(a, b, c, j) == c && Cycle(a, b, c, j + 1) == a && Cycle(a, b, c, j + 2) == b;
      DocStepCA(a, b, c, x, calls, rng);
    }
  }

  /** `out` is the cycle read from position `j` on. */
  predicate CycleFrom(out: seq<Token>, a: Token, b: Token, c: Token, j: nat)
  {
    forall i :: 0 <= i < |out| ==> out[i] == Cycle(a, b, c, j + i)
  }

  lemma CycleCons(out: seq<Token>, a: Token, b: Token, c: Token, j: nat)
    requires CycleFrom(out, a, b, c, j + 1)
    ensures CycleFrom([Cycle(a, b, c, j)] + out, a, b, c, j)
  {
    var s := [Cycle(a, b, c, j)] + out;
    forall i | 1 <= i < |s|
      ensures s[i] == Cycle(a, b, c, j + i)
    {
      assert s[i] == out[i - 1] == Cycle(a, b, c, (j + 1) + (i - 1));
    }
  }

  /**
   * Over the doc-comment table, with honest draws, a walk from `[Cycle(j), Cycle(j+1)]`
   * emits the cycle from position `j` on and is still running after any number of pulls.
   */
  lemma {:induction false} DocWalkCycles(a: Token, b: Token, c: Token, x: Token, t: MarkovTable,
                                         j: nat, p: Prefix, calls: nat, rng: RandomSource, pulls: nat)
    requires Distinct4(a, b, c, x) && Null !in [a, b, c]
    requires t == DocTable(a, b, c, x) && p == [Cycle(a, b, c, j), Cycle(a, b, c, j + 1)]
    requires InRange(rng)
    ensures RandomWalk(t, WalkState(p, calls), rng, pulls).end == Paused
    ensures CycleFrom(RandomWalk(t, WalkState(p, calls), rng, pulls).tokens, a, b, c, j)
    decreases pulls
  {
    assert p[0] != Null;
    if pulls == 1 {
      assert RandomWalk(t, WalkState(p, calls), rng, pulls).tokens == [p[0]];
    } else if pulls >= 2 {
      DocStep(a, b, c, x, j, calls, rng);
      var q := [Cycle(a, b, c, j + 1), Cycle(a, b, c, j + 2)];
      DocWalkCycles(a, b, c, x, t, j + 1, q, calls + 1, rng, pulls - 1);
      var rest := RandomWalk(t, WalkState(q, calls + 1), rng, pulls - 1);
      assert RandomWalk(t, WalkState(p, calls), rng, pulls).tokens == [p[0]] + rest.tokens;
      CycleCons(rest.tokens, a, b, c, j);
    }
  }

  /** Over the doc-comment table, the walk from `[a b]` with honest draws cycles `a b c` and never emits `x`. */
  lemma DocTableWalk(a: Token, b: Token, c: Token, x: Token, t: MarkovTable, rng: RandomSource, pulls: nat)
    requires Distinct4(a, b, c, x) && Null !in [a, b, c]
    requires t == DocTable(a, b, c, x)
    requires InRange(rng)
    ensures var tr := RandomWalk(t, WalkState([a, b], 1), rng, pulls);
      && tr.end == Paused && |tr.tokens| == pulls
      && x !in tr.tokens
      && forall i :: 0 <= i < |tr.tokens| ==> tr.tokens[i] == Cycle(a, b, c, i)
  {
    DocWalkCycles(a, b, c, x, t, 0, [a, b], 1, rng, pulls);
    var tr := RandomWalk(t, WalkState([a, b], 1), rng, pulls);
    forall i | 0 <= i < |tr.tokens|
      ensures tr.tokens[i] == Cycle(a, b, c, i) && tr.tokens[i] != x
    {
      assert tr.tokens[i] == Cycle(a, b, c, 0 + i);
    }
  }

  /**
   * The walk over `[a b c a b x]` from `[a b]` never ends while the draws are honest:
   * it repeats `a b c` and never emits `x`, since the boundary draw that would choose
   * `x` is the total, which `RandomInt(0, total)` excludes.
   */
  lemma DocWalkNeverEnds(a: Token, b: Token, c: Token, x: Token, rng: RandomSource, pulls: nat)
    requires Distinct4(a, b, c, x) && Null !in [a, b, c]
    requires InRange(rng)
    ensures var tr := RandomWalk(BuildMarkovTable(DocTokens(a, b, c, x), 2), WalkState([a, b], 1), rng, pulls);
      && tr.end == Paused && |tr.tokens| == pulls
      && x !in tr.tokens
      && forall i :: 0 <= i < |tr.tokens| ==> tr.tokens[i] == Cycle(a, b, c, i)
  {
    DocCommentTable(a, b, c, x);
    DocTableWalk(a, b, c, x, BuildMarkovTable(DocTokens(a, b, c, x), 2), rng, pulls);
  }
}
