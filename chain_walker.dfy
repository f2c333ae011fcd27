/**
 * The chain walker: `PickRandomKey`, `ChooseRandomSuffix`, `RandomWalk` and
 * their composition `Generate`.
 *
 * The injected `RandomInt` is stateful, so it is modelled as a function of the
 * index of the call and of its two bounds.  One call counter is threaded through
 * a generation: `PickRandomKey` makes call 0, and each walk step whose prefix is
 * in the table makes the next one.  The lazy enumerable is modelled by the
 * number of elements its consumer pulls (`pulls`), since a walk can cycle for ever.
 */
module ChainWalker {
  import opened MarkovTypes
  import opened TableBuilder
  import opened WeightedChoice

  /** `rng(call, lo, hi)` is what the `call`-th invocation `RandomInt(lo, hi)` returns. */
  type RandomSource = (nat, int, int) -> int

  /** The bound `System.Random.Next` keeps: `lo <= result < hi` whenever `lo < hi`. */
  ghost predicate InRange(rng: RandomSource)
  {
    forall call: nat, lo: int, hi: int :: lo < hi ==> lo <= rng(call, lo, hi) < hi
  }

  // ---------------------------------------------------------------------------
  // Start picker
  // ---------------------------------------------------------------------------

  /** `char.IsUpper`, for ASCII letters. */
  predicate IsUpper(c: char)
  {
    'A' <= c <= 'Z'
  }

  /** The `Where` lambda `char.IsUpper(key.Elements[0][0])`, with the exceptions it can throw. */
  function StartsUpper(key: Prefix): Result<bool>
  {
    if key == [] then Err(IndexOutOfRange)
    else match key[0]
      case Null => Err(NullReference)
      case Str(s) => if s == "" then Err(IndexOutOfRange) else Ok(IsUpper(s[0]))
  }

  /**
   * `keys.Where(...).ToList()`: it throws if the lambda throws on any key, and
   * otherwise keeps exactly the keys whose first token starts with an upper-case letter.
   */
  function Candidates(keys: seq<Prefix>): (r: Result<seq<Prefix>>)
    ensures r.Ok? <==> forall i :: 0 <= i < |keys| ==> StartsUpper(keys[i]).Ok?
    ensures r.Ok? ==> forall k :: k in r.value <==> k in keys && StartsUpper(k) == Ok(true)
  {
    if keys == [] then Ok([])
    else match StartsUpper(keys[0])
      case Err(e) => Err(e)
      case Ok(b) =>
        match Candidates(keys[1..])
        case Err(e) => Err(e)
        case Ok(rest) => Ok((if b then [keys[0]] else []) + rest)
  }

  /** `Where` keeps the order of its input, so candidates drawn from a list without repetitions have none. */
  lemma {:induction false} CandidatesDistinct(order: seq<Prefix>)
    requires forall i, j :: 0 <= i < j < |order| ==> order[i] != order[j]
    requires Candidates(order).Ok?
    ensures var c := Candidates(order).value;
      forall i, j :: 0 <= i < j < |c| ==> c[i] != c[j]
  {
    if order != [] {
      CandidatesDistinct(order[1..]);
      var rest := Candidates(order[1..]).value;
      assert order[0] !in order[1..];
      assert order[0] !in rest;
    }
  }

  /** `order` is an enumeration of the table's keys: each key once, nothing else. */
  ghost predicate Enumerates(order: seq<Prefix>, t: MarkovTable)
  {
    && (forall i, j :: 0 <= i < j < |order| ==> order[i] != order[j])
    && (forall k :: k in order <==> k in t)
  }

  /**
   * `PickRandomKey`: the candidate at index `RandomInt(0, count)`; `ElementAt`
   * throws when that index is outside the list, in particular when it is empty.
   */
  function PickRandomKey(t: MarkovTable, order: seq<Prefix>, rng: RandomSource): (r: Result<Prefix>)
    requires Enumerates(order, t)
    ensures r.Ok? ==> r.value in t && StartsUpper(r.value) == Ok(true)
  {
    match Candidates(order)
    case Err(e) => Err(e)
    case Ok(candidates) =>
      var startIndex := rng(0, 0, |candidates|);
      if 0 <= startIndex < |candidates| then Ok(candidates[startIndex]) else Err(ArgumentOutOfRange)
  }

  /**
   * With honest draws a start is found exactly when no key makes the lambda throw
   * and some key starts with an upper-case letter.
   */
  lemma PickRandomKeySucceeds(t: MarkovTable, order: seq<Prefix>, rng: RandomSource)
    requires Enumerates(order, t) && InRange(rng)
    ensures PickRandomKey(t, order, rng).Ok? <==>
      (forall k :: k in t ==> StartsUpper(k).Ok?) && (exists k :: k in t && StartsUpper(k) == Ok(true))
  {
    var c := Candidates(order);
    if forall k :: k in t ==> StartsUpper(k).Ok? {
      assert c.Ok?;
      if exists k :: k in t && StartsUpper(k) == Ok(true) {
        var k :| k in t && StartsUpper(k) == Ok(true);
        assert k in c.value;
        assert 0 <= rng(0, 0, |c.value|) < |c.value|;
      }
    } else {
      var k :| k in t && !StartsUpper(k).Ok?;
      var i :| 0 <= i < |order| && order[i] == k;
    }
  }

  // ---------------------------------------------------------------------------
  // One step of the walk
  // ---------------------------------------------------------------------------

  /** The suffix chosen for a prefix and the call counter after the choice. */
  datatype Choice = Choice(suffix: Token, calls: nat)

  /**
   * `ChooseRandomSuffix`: `null` for a prefix that is not a key, without drawing;
   * otherwise one draw `RandomInt(0, total)` and the weighted choice.
   */
  function ChooseRandomSuffix(t: MarkovTable, current: Prefix, rng: RandomSource, calls: nat): Result<Choice>
  {
    if current !in t then Ok(Choice(Null, calls))
    else
      var freqs := t[current];
      var random := rng(calls, 0, Total(freqs));
      match SelectSuffix(freqs, random)
      case Err(e) => Err(e)
      case Ok(s) => Ok(Choice(s, calls + 1))
  }

  lemma {:induction false} TotalPositive(fs: seq<SuffixFrequency>)
    requires fs != [] && Positive(fs)
    ensures Total(fs) >= 1
  {
  }

  /**
   * For a key with a proper frequency list and an honest draw `r` from `[0, total)`,
   * the choice succeeds, uses one draw, and is the entry that selection rule assigns to `r`.
   */
  lemma ChooseRandomSuffixSpec(t: MarkovTable, current: Prefix, rng: RandomSource, calls: nat)
    requires InRange(rng) && current in t && t[current] != [] && Positive(t[current])
    ensures var fs := t[current];
            var draw := rng(calls, 0, Total(fs));
            var r := ChooseRandomSuffix(t, current, rng, calls);
      && 0 <= draw < Total(fs)
      && r.Ok? && r.value.calls == calls + 1
      && exists k :: 0 <= k < |fs| && r.value.suffix == fs[k].suffix
           && (k == 0 || Cum(fs, k) < draw) && draw <= Cum(fs, k + 1)
  {
    var fs := t[current];
    TotalPositive(fs);
    var draw := rng(calls, 0, Total(fs));
    SelectSucceeds(fs, draw);
    var k := SkipFrom(fs, 0, draw);
    SelectsExactly(fs, draw, k);
  }

  /** The state threaded through a walk: the current prefix and the call counter. */
  datatype WalkState = WalkState(prefix: Prefix, calls: nat)

  /** The `iterate` lambda: slide the chosen suffix onto the prefix without its head. */
  function Iterate(t: MarkovTable, s: WalkState, rng: RandomSource): Result<WalkState>
  {
    match ChooseRandomSuffix(t, s.prefix, rng, s.calls)
    case Err(e) => Err(e)
    case Ok(c) => Ok(WalkState((if s.prefix == [] then [] else s.prefix[1..]) + [c.suffix], c.calls))
  }

  /**
   * A step keeps the prefix length: the new prefix is the old one without its head,
   * followed by `null` (no draw) when the old prefix is not a key, and otherwise by
   * one of its recorded suffixes (one draw).  It can only fail on a key.
   */
  lemma IterateShape(t: MarkovTable, s: WalkState, rng: RandomSource)
    requires s.prefix != []
    ensures match Iterate(t, s, rng)
      case Ok(next) =>
        && |next.prefix| == |s.prefix|
        && next.prefix == s.prefix[1..] + [next.prefix[|s.prefix| - 1]]
        && (s.prefix !in t ==> next.prefix[|s.prefix| - 1] == Null && next.calls == s.calls)
        && (s.prefix in t ==>
              && next.calls == s.calls + 1
              && exists k :: 0 <= k < |t[s.prefix]| && next.prefix[|s.prefix| - 1] == t[s.prefix][k].suffix)
      case Err(e) => s.prefix in t && e == InvalidOperation
  {
    if s.prefix in t && SelectSuffix(t[s.prefix], rng(s.calls, 0, Total(t[s.prefix]))).Ok? {
      var k := SkipFrom(t[s.prefix], 0, rng(s.calls, 0, Total(t[s.prefix])));
      assert k < |t[s.prefix]|;
    }
  }

  // ---------------------------------------------------------------------------
  // The walk
  // ---------------------------------------------------------------------------

  /** `prefix.Elements.All(e => e == null)`: the walk's stopping condition. */
  predicate AllNull(p: Prefix)
  {
    forall i :: 0 <= i < |p| ==> p[i] == Null
  }

  /** How the pulled part of the enumerable ends. */
  datatype End =
    | Ended             // the condition turned false: the enumerable is finished
    | Paused            // the consumer stopped pulling
    | Failed(error: Error)

  datatype Trace = Trace(tokens: seq<Token>, end: End)

  /**
   * `EnumerableEx.Generate(initial, condition, iterate, first)` pulled `pulls` times:
   * each pull after the first runs `iterate`, each pull checks the condition first,
   * and each successful pull emits the head of the current prefix.
   */
  function RandomWalk(t: MarkovTable, s: WalkState, rng: RandomSource, pulls: nat): (tr: Trace)
    ensures |tr.tokens| <= pulls
    ensures tr.end == Paused <==> |tr.tokens| == pulls
    decreases pulls
  {
    if pulls == 0 then Trace([], Paused)
    else if AllNull(s.prefix) then Trace([], Ended)
    else if pulls == 1 then Trace([s.prefix[0]], Paused)
    else
      match Iterate(t, s, rng)
      case Err(e) => Trace([s.prefix[0]], Failed(e))
      case Ok(next) =>
        var rest := RandomWalk(t, next, rng, pulls - 1);
        Trace([s.prefix[0]] + rest.tokens, rest.end)
  }

  /** The walk ends at once exactly when the prefix is all `null`; otherwise it emits the prefix's head first. */
  lemma WalkStart(t: MarkovTable, s: WalkState, rng: RandomSource, pulls: nat)
    requires pulls >= 1
    ensures RandomWalk(t, s, rng, pulls) == Trace([], Ended) <==> AllNull(s.prefix)
    ensures !AllNull(s.prefix) ==>
      |RandomWalk(t, s, rng, pulls).tokens| >= 1 && RandomWalk(t, s, rng, pulls).tokens[0] == s.prefix[0]
  {
  }

  function Nulls(m: nat): (p: Prefix)
    ensures |p| == m && AllNull(p)
  {
    seq(m, _ => Null)
  }

  /**
   * Once the prefix `q` followed by `m` nulls is not a key, the walk emits the
   * tokens of `q` one per pull, draws nothing, and ends.
   */
  lemma {:induction false} Drain(t: MarkovTable, q: Prefix, m: nat, calls: nat, rng: RandomSource, pulls: nat)
    requires Null !in q
    requires forall key :: key in t ==> Null !in key
    requires m == 0 ==> q !in t
    requires pulls > |q|
    ensures RandomWalk(t, WalkState(q + Nulls(m), calls), rng, pulls) == Trace(q, Ended)
    decreases |q|
  {
    var p := q + Nulls(m);
    if q == [] {
      assert p == Nulls(m);
    } else {
      assert p[0] == q[0] != Null;
      if m > 0 {
        assert p[|p| - 1] == Null;
        assert Null in p;
      } else {
        assert p == q;
      }
      assert p !in t;
      assert Iterate(t, WalkState(p, calls), rng) == Ok(WalkState(q[1..] + Nulls(m + 1), calls)) by {
        assert p[1..] + [Null] == q[1..] + Nulls(m + 1);
      }
      Drain(t, q[1..], m + 1, calls, rng, pulls - 1);
      assert [q[0]] + q[1..] == q;
    }
  }

  /**
   * On a table drawn from a null-free corpus, a prefix that is not a key has its
   * tokens emitted, one per pull, and then the walk ends.
   */
  lemma AbsentPrefixDrains(t: MarkovTable, tokens: seq<Token>, p: Prefix, calls: nat, rng: RandomSource, pulls: nat)
    requires Drawn(t, tokens) && Null !in tokens
    requires Null !in p && p !in t
    requires pulls > |p|
    ensures RandomWalk(t, WalkState(p, calls), rng, pulls) == Trace(p, Ended)
  {
    forall key | key in t
      ensures Null !in key
    {
      assert forall i :: 0 <= i < |key| ==> key[i] in tokens;
    }
    assert p + Nulls(0) == p;
    Drain(t, p, 0, calls, rng, pulls);
  }

  /** Every non-null token of the prefix is a corpus token, and nulls only trail. */
  predicate Proper(p: Prefix, tokens: seq<Token>)
  {
    && (forall i :: 0 <= i < |p| && p[i] != Null ==> p[i] in tokens)
    && (forall i, j :: 0 <= i < j < |p| && p[i] == Null ==> p[j] == Null)
  }

  /** With a table drawn from a null-free corpus, each step keeps a proper prefix proper. */
  lemma IterateKeepsProper(t: MarkovTable, tokens: seq<Token>, s: WalkState, rng: RandomSource)
    requires Drawn(t, tokens) && Null !in tokens && Proper(s.prefix, tokens) && s.prefix != []
    requires Iterate(t, s, rng).Ok?
    ensures Proper(Iterate(t, s, rng).value.prefix, tokens)
  {
    var p := s.prefix;
    var next := Iterate(t, s, rng).value.prefix;
    IterateShape(t, s, rng);
    var x := next[|p| - 1];
    if p in t {
      var k :| 0 <= k < |t[p]| && x == t[p][k].suffix;
      assert x in tokens;
      assert forall i :: 0 <= i < |p| ==> p[i] in tokens;
    }
  }

  /** Every emitted token is a non-null corpus token. */
  predicate CorpusOutput(out: seq<Token>, tokens: seq<Token>)
  {
    forall i :: 0 <= i < |out| ==> out[i] != Null && out[i] in tokens
  }

  /**
   * On a table drawn from a null-free corpus, a walk from a proper prefix (a key,
   * in particular) never emits `null` and emits only corpus tokens.
   */
  lemma {:induction false} WalkEmitsCorpusTokens(t: MarkovTable, tokens: seq<Token>, s: WalkState, rng: RandomSource, pulls: nat)
    requires Drawn(t, tokens) && Null !in tokens && Proper(s.prefix, tokens)
    ensures CorpusOutput(RandomWalk(t, s, rng, pulls).tokens, tokens)
    decreases pulls
  {
    if pulls > 0 && !AllNull(s.prefix) {
      var p := s.prefix;
      var k :| 0 <= k < |p| && p[k] != Null;
      assert p[0] != Null;
      assert p[0] in tokens;
      if pulls > 1 && Iterate(t, s, rng).Ok? {
        var next := Iterate(t, s, rng).value;
        IterateKeepsProper(t, tokens, s, rng);
        WalkEmitsCorpusTokens(t, tokens, next, rng, pulls - 1);
        var rest := RandomWalk(t, next, rng, pulls - 1);
        var tr := RandomWalk(t, s, rng, pulls);
        assert tr.tokens == [p[0]] + rest.tokens;
        forall i | 1 <= i < |tr.tokens|
          ensures tr.tokens[i] != Null && tr.tokens[i] in tokens
        {
          assert tr.tokens[i] == rest.tokens[i - 1];
        }
      }
    }
  }

  /** With honest draws `First()` never throws: a walk over a weighted table never fails. */
  lemma {:induction false} HonestWalkNeverFails(t: MarkovTable, s: WalkState, rng: RandomSource, pulls: nat)
    requires Weighted(t) && InRange(rng)
    ensures !RandomWalk(t, s, rng, pulls).end.Failed?
    decreases pulls
  {
    if pulls > 1 && !AllNull(s.prefix) {
      if s.prefix in t {
        ChooseRandomSuffixSpec(t, s.prefix, rng, s.calls);
      }
      var next := Iterate(t, s, rng).value;
      HonestWalkNeverFails(t, next, rng, pulls - 1);
    }
  }

  // ---------------------------------------------------------------------------
  // Generate
  // ---------------------------------------------------------------------------

  /** `Generate`: pick the start prefix (call 0), then walk from it. */
  function Generate(t: MarkovTable, order: seq<Prefix>, rng: RandomSource, pulls: nat): Result<Trace>
    requires Enumerates(order, t)
  {
    match PickRandomKey(t, order, rng)
    case Err(e) => Err(e)
    case Ok(initial) => Ok(RandomWalk(t, WalkState(initial, 1), rng, pulls))
  }

  /** Without a key that starts with an upper-case letter there is no start: an error, not an ended walk. */
  lemma NoStartIsAnError(t: MarkovTable, order: seq<Prefix>, rng: RandomSource, pulls: nat)
    requires Enumerates(order, t)
    requires forall k :: k in t ==> StartsUpper(k) != Ok(true)
    ensures Generate(t, order, rng, pulls).Err?
  {
    NoCandidates(order);
  }

  lemma {:induction false} NoCandidates(keys: seq<Prefix>)
    requires forall k :: k in keys ==> StartsUpper(k) != Ok(true)
    ensures Candidates(keys).Ok? ==> Candidates(keys).value == []
  {
    if keys != [] {
      NoCandidates(keys[1..]);
    }
  }

  /** A corpus of at most `n` tokens leaves nothing to start from. */
  lemma ShortCorpusCannotGenerate(tokens: seq<Token>, n: nat, order: seq<Prefix>, rng: RandomSource, pulls: nat)
    requires |tokens| <= n && Enumerates(order, BuildMarkovTable(tokens, n))
    ensures Generate(BuildMarkovTable(tokens, n), order, rng, pulls).Err?
  {
    NoStartIsAnError(BuildMarkovTable(tokens, n), order, rng, pulls);
  }

  /**
   * A generation over a table built from a null-free corpus, when it
   * starts, emits first a token beginning with an upper-case letter, then only corpus
   * tokens and never `null`; with honest draws it never fails.
   */
  lemma GenerateSpec(tokens: seq<Token>, n: nat, order: seq<Prefix>, rng: RandomSource, pulls: nat)
    requires Null !in tokens && pulls >= 1
    requires Enumerates(order, BuildMarkovTable(tokens, n))
    ensures var r := Generate(BuildMarkovTable(tokens, n), order, rng, pulls);
      r.Ok? ==>
        && |r.value.tokens| >= 1
        && r.value.tokens[0].Str? && r.value.tokens[0].text != "" && IsUpper(r.value.tokens[0].text[0])
        && (forall i :: 0 <= i < |r.value.tokens| ==> r.value.tokens[i] != Null && r.value.tokens[i] in tokens)
        && (InRange(rng) ==> !r.value.end.Failed?)
  {
    BuiltTable(tokens, n);
    GenerateFrom(BuildMarkovTable(tokens, n), tokens, order, rng, pulls);
  }

  /** `GenerateSpec` for any weighted table drawn from a null-free corpus. */
  lemma GenerateFrom(t: MarkovTable, tokens: seq<Token>, order: seq<Prefix>, rng: RandomSource, pulls: nat)
    requires Null !in tokens && pulls >= 1
    requires Weighted(t) && Drawn(t, tokens) && Enumerates(order, t)
    ensures var r := Generate(t, order, rng, pulls);
      r.Ok? ==>
        && |r.value.tokens| >= 1
        && r.value.tokens[0].Str? && r.value.tokens[0].text != "" && IsUpper(r.value.tokens[0].text[0])
        && (forall i :: 0 <= i < |r.value.tokens| ==> r.value.tokens[i] != Null && r.value.tokens[i] in tokens)
        && (InRange(rng) ==> !r.value.end.Failed?)
  {
    var pick := PickRandomKey(t, order, rng);
    if pick.Ok? {
      var p := pick.value;
      assert forall i :: 0 <= i < |p| ==> p[i] in tokens;
      assert Proper(p, tokens);
      var s := WalkState(p, 1);
      assert !AllNull(p) by {
        assert p[0] != Null;
      }
      WalkStart(t, s, rng, pulls);
      WalkEmitsCorpusTokens(t, tokens, s, rng, pulls);
      if InRange(rng) {
        HonestWalkNeverFails(t, s, rng, pulls);
      }
    }
  }
}
