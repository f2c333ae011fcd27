/**
 * The table builder (`BuildMarkovTable`): a window of width `n + 1` slides
 * over the tokens, the full windows are grouped by their first `n` tokens, and
 * each group's last tokens are counted.  Each LINQ stage of the source is one
 * function here; `Occurrences` and `Follows` count the same things directly
 * on the token sequence and are the reference the stages are proved against.
 */
module TableBuilder {
  import opened MarkovTypes

  function Min(a: int, b: int): int { if a <= b then a else b }

  // ---------------------------------------------------------------------------
  // The pipeline
  // ---------------------------------------------------------------------------

  /** `Buffer(count, 1)`: one window per start position; those near the end are shorter than `count`. */
  function Buffer(tokens: seq<Token>, count: nat): seq<seq<Token>>
  {
    seq(|tokens|, i requires 0 <= i < |tokens| => tokens[i..Min(i + count, |tokens|)])
  }

  /** `Where(segment => segment.Count == width)`, keeping the order of the windows. */
  function KeepFull(ws: seq<seq<Token>>, width: nat): seq<seq<Token>>
  {
    if ws == [] then [] else (if |ws[0]| == width then [ws[0]] else []) + KeepFull(ws[1..], width)
  }

  /** When the full windows come first, keeping the full ones keeps exactly that front part. */
  lemma {:induction false} KeepFullPrefix(ws: seq<seq<Token>>, width: nat, m: nat)
    requires m <= |ws|
    requires forall i :: 0 <= i < m ==> |ws[i]| == width
    requires forall i :: m <= i < |ws| ==> |ws[i]| != width
    ensures KeepFull(ws, width) == ws[..m]
  {
    if ws != [] {
      KeepFullPrefix(ws[1..], width, if m == 0 then 0 else m - 1);
      if m > 0 {
        assert ws[..m] == [ws[0]] + ws[1..][..m - 1];
      }
    }
  }

  /** The full windows of width `n + 1`: there are `max(0, |tokens| - n)` of them, the i-th starting at i. */
  function FullWindows(tokens: seq<Token>, n: nat): (ws: seq<seq<Token>>)
    ensures |ws| == if |tokens| > n then |tokens| - n else 0
    ensures forall i :: 0 <= i < |ws| ==> ws[i] == tokens[i..i + n + 1]
  {
    var b := Buffer(tokens, n + 1);
    var m := if |tokens| > n then |tokens| - n else 0;
    assert forall i :: 0 <= i < |b| ==> |b[i]| == Min(i + n + 1, |tokens|) - i;
    KeepFullPrefix(b, n + 1, m);
    KeepFull(b, n + 1)
  }

  lemma FullWindowsStep(tokens: seq<Token>, n: nat)
    requires |tokens| > n
    ensures FullWindows(tokens, n) == [tokens[..n + 1]] + FullWindows(tokens[1..], n)
  {
    var ws, rest := FullWindows(tokens, n), FullWindows(tokens[1..], n);
    forall i | 1 <= i < |ws|
      ensures ws[i] == rest[i - 1]
    {
      assert tokens[1..][i - 1..i + n] == tokens[i..i + n + 1];
    }
  }

  /** Every window has width `n + 1`. */
  predicate Full(ws: seq<seq<Token>>, n: nat)
  {
    forall i :: 0 <= i < |ws| ==> |ws[i]| == n + 1
  }

  /** The keys of `GroupBy(segment => Prefix(segment.Take(n)), ...)`. */
  function GroupKeys(ws: seq<seq<Token>>, n: nat): set<Prefix>
    requires Full(ws, n)
  {
    if ws == [] then {} else {ws[0][..n]} + GroupKeys(ws[1..], n)
  }

  /** The members of the group of `key` (`segment.Last()`), in window order. */
  function Successors(ws: seq<seq<Token>>, n: nat, key: Prefix): seq<Token>
    requires Full(ws, n)
  {
    if ws == [] then []
    else (if ws[0][..n] == key then [ws[0][n]] else []) + Successors(ws[1..], n, key)
  }

  /** Counts one more `x`: its entry's frequency goes up, or a new entry is appended. */
  function Bump(fs: seq<SuffixFrequency>, x: Token): seq<SuffixFrequency>
  {
    if fs == [] then [SuffixFrequency(x, 1)]
    else if fs[0].suffix == x then [SuffixFrequency(x, fs[0].frequency + 1)] + fs[1..]
    else [fs[0]] + Bump(fs[1..], x)
  }

  /**
   * `GroupBy(element => element).Select(g => SuffixFrequency(g.Key, g.Count()))`:
   * the distinct elements in order of first occurrence, each with its count.
   */
  function Tally(s: seq<Token>): seq<SuffixFrequency>
  {
    if s == [] then [] else Bump(Tally(s[..|s| - 1]), s[|s| - 1])
  }

  /** `ToDictionary`: each group key with the tally of its members. */
  function BuildMarkovTable(tokens: seq<Token>, n: nat): (t: MarkovTable)
    ensures |tokens| <= n ==> t == map[]
    ensures forall key :: key in t ==> |key| == n
  {
    var ws := FullWindows(tokens, n);
    assert |tokens| <= n ==> GroupKeys(ws, n) == {};
    GroupKeysWidth(ws, n);
    map key | key in GroupKeys(ws, n) :: Tally(Successors(ws, n, key))
  }

  lemma {:induction false} GroupKeysWidth(ws: seq<seq<Token>>, n: nat)
    requires Full(ws, n)
    ensures forall key :: key in GroupKeys(ws, n) ==> |key| == n
  {
    if ws != [] {
      GroupKeysWidth(ws[1..], n);
    }
  }

  /** `w` stands in `tokens` at position `i`. */
  predicate WindowAt(tokens: seq<Token>, i: nat, w: seq<Token>)
  {
    i + |w| <= |tokens| && tokens[i..i + |w|] == w
  }

  // ---------------------------------------------------------------------------
  // Reference counts, straight on the tokens
  // ---------------------------------------------------------------------------

  /** The number of positions at which `key` occurs and is followed by some token. */
  function Occurrences(tokens: seq<Token>, n: nat, key: Prefix): nat
  {
    if |tokens| <= n then 0
    else (if tokens[..n] == key then 1 else 0) + Occurrences(tokens[1..], n, key)
  }

  /** The number of positions at which `key` occurs and is followed by `x`. */
  function Follows(tokens: seq<Token>, n: nat, key: Prefix, x: Token): nat
  {
    if |tokens| <= n then 0
    else (if tokens[..n] == key && tokens[n] == x then 1 else 0) + Follows(tokens[1..], n, key, x)
  }

  /** The tokens that follow `key` in the corpus, in corpus order. */
  function Followers(tokens: seq<Token>, n: nat, key: Prefix): seq<Token>
  {
    if |tokens| <= n then []
    else (if tokens[..n] == key then [tokens[n]] else []) + Followers(tokens[1..], n, key)
  }

  /** The prefixes of width `n` that some token follows. */
  function Prefixes(tokens: seq<Token>, n: nat): set<Prefix>
  {
    if |tokens| <= n then {} else {tokens[..n]} + Prefixes(tokens[1..], n)
  }

  // ---------------------------------------------------------------------------
  // Properties of a tally
  // ---------------------------------------------------------------------------

  function SuffixSet(fs: seq<SuffixFrequency>): set<Token>
  {
    if fs == [] then {} else {fs[0].suffix} + SuffixSet(fs[1..])
  }

  predicate Distinct(fs: seq<SuffixFrequency>)
  {
    fs == [] || (fs[0].suffix !in SuffixSet(fs[1..]) && Distinct(fs[1..]))
  }

  predicate Positive(fs: seq<SuffixFrequency>)
  {
    forall i :: 0 <= i < |fs| ==> fs[i].frequency >= 1
  }

  /** The summed frequency of the entries for `y`. */
  function Freq(fs: seq<SuffixFrequency>, y: Token): nat
  {
    if fs == [] then 0 else (if fs[0].suffix == y then fs[0].frequency else 0) + Freq(fs[1..], y)
  }

  lemma {:induction false} BumpFreq(fs: seq<SuffixFrequency>, x: Token, y: Token)
    ensures Freq(Bump(fs, x), y) == Freq(fs, y) + (if y == x then 1 else 0)
  {
    if fs != [] && fs[0].suffix != x {
      BumpFreq(fs[1..], x, y);
      var b := Bump(fs, x);
      assert b[0] == fs[0] && b[1..] == Bump(fs[1..], x);
    }
  }

  lemma {:induction false} BumpSuffixes(fs: seq<SuffixFrequency>, x: Token)
    ensures SuffixSet(Bump(fs, x)) == SuffixSet(fs) + {x}
    ensures Total(Bump(fs, x)) == Total(fs) + 1
  {
    if fs != [] && fs[0].suffix != x {
      BumpSuffixes(fs[1..], x);
      var b := Bump(fs, x);
      assert b[0] == fs[0] && b[1..] == Bump(fs[1..], x);
    }
  }

  lemma {:induction false} BumpShape(fs: seq<SuffixFrequency>, x: Token)
    ensures Distinct(fs) ==> Distinct(Bump(fs, x))
    ensures Positive(fs) ==> Positive(Bump(fs, x))
  {
    if fs != [] && fs[0].suffix != x {
      BumpShape(fs[1..], x);
      BumpSuffixes(fs[1..], x);
      var b := Bump(fs, x);
      assert b[0] == fs[0] && b[1..] == Bump(fs[1..], x);
    }
  }

  /** Bumping `x` counts one more `x` and leaves the entries distinct and positive. */
  lemma BumpSpec(fs: seq<SuffixFrequency>, x: Token)
    ensures forall y :: Freq(Bump(fs, x), y) == Freq(fs, y) + (if y == x then 1 else 0)
    ensures SuffixSet(Bump(fs, x)) == SuffixSet(fs) + {x}
    ensures Total(Bump(fs, x)) == Total(fs) + 1
    ensures Distinct(fs) ==> Distinct(Bump(fs, x))
    ensures Positive(fs) ==> Positive(Bump(fs, x))
  {
    forall y
      ensures Freq(Bump(fs, x), y) == Freq(fs, y) + (if y == x then 1 else 0)
    {
      BumpFreq(fs, x, y);
    }
    BumpSuffixes(fs, x);
    BumpShape(fs, x);
  }

  lemma {:induction false} TallyFreq(s: seq<Token>, y: Token)
    ensures Freq(Tally(s), y) == multiset(s)[y]
  {
    if s != [] {
      var init, last := s[..|s| - 1], s[|s| - 1];
      assert s == init + [last];
      TallyFreq(init, y);
      BumpFreq(Tally(init), last, y);
      assert multiset(s) == multiset(init) + multiset{last};
    }
  }

  lemma {:induction false} TallySuffixes(s: seq<Token>)
    ensures SuffixSet(Tally(s)) == set y | y in s
    ensures Total(Tally(s)) == |s|
  {
    if s != [] {
      var init, last := s[..|s| - 1], s[|s| - 1];
      assert s == init + [last];
      TallySuffixes(init);
      BumpSuffixes(Tally(init), last);
      assert (set y | y in s) == (set y | y in init) + {last};
    }
  }

  lemma {:induction false} TallyShape(s: seq<Token>)
    ensures Distinct(Tally(s)) && Positive(Tally(s))
  {
    if s != [] {
      TallyShape(s[..|s| - 1]);
      BumpShape(Tally(s[..|s| - 1]), s[|s| - 1]);
    }
  }

  /** A tally counts every element of `s` exactly, once per distinct element, with no zero entry. */
  lemma TallySpec(s: seq<Token>)
    ensures forall y :: Freq(Tally(s), y) == multiset(s)[y]
    ensures SuffixSet(Tally(s)) == set y | y in s
    ensures Total(Tally(s)) == |s|
    ensures Distinct(Tally(s)) && Positive(Tally(s))
  {
    forall y
      ensures Freq(Tally(s), y) == multiset(s)[y]
    {
      TallyFreq(s, y);
    }
    TallySuffixes(s);
    TallyShape(s);
  }

  lemma {:induction false} FreqAbsent(fs: seq<SuffixFrequency>, y: Token)
    requires y !in SuffixSet(fs)
    ensures Freq(fs, y) == 0
  {
    if fs != [] {
      FreqAbsent(fs[1..], y);
    }
  }

  lemma {:induction false} InSuffixSet(fs: seq<SuffixFrequency>, i: nat)
    requires i < |fs|
    ensures fs[i].suffix in SuffixSet(fs)
  {
    if i > 0 {
      InSuffixSet(fs[1..], i - 1);
    }
  }

  /** In a distinct tally, the frequency of an entry is the frequency of its suffix. */
  lemma {:induction false} DistinctFreq(fs: seq<SuffixFrequency>, i: nat)
    requires Distinct(fs) && i < |fs|
    ensures Freq(fs, fs[i].suffix) == fs[i].frequency
  {
    if i == 0 {
      FreqAbsent(fs[1..], fs[0].suffix);
    } else {
      DistinctFreq(fs[1..], i - 1);
      InSuffixSet(fs[1..], i - 1);
    }
  }

  lemma {:induction false} DistinctEntries(fs: seq<SuffixFrequency>)
    requires Distinct(fs)
    ensures forall i, j :: 0 <= i < j < |fs| ==> fs[i].suffix != fs[j].suffix
  {
    if fs != [] {
      DistinctEntries(fs[1..]);
      forall j | 0 < j < |fs|
        ensures fs[0].suffix != fs[j].suffix
      {
        InSuffixSet(fs[1..], j - 1);
      }
    }
  }

  lemma {:induction false} InSuffixSetIndex(fs: seq<SuffixFrequency>, y: Token)
    requires y in SuffixSet(fs)
    ensures exists i :: 0 <= i < |fs| && fs[i].suffix == y
  {
    if fs[0].suffix != y {
      InSuffixSetIndex(fs[1..], y);
      var i :| 0 <= i < |fs[1..]| && fs[1..][i].suffix == y;
      assert fs[i + 1].suffix == y;
    }
  }

  // ---------------------------------------------------------------------------
  // The pipeline against the reference counts
  // ---------------------------------------------------------------------------

  /** Dropping the first token of the corpus drops the first full window and nothing else. */
  lemma WindowsStep(tokens: seq<Token>, n: nat, key: Prefix)
    requires |tokens| > n
    ensures Successors(FullWindows(tokens, n), n, key) ==
      (if tokens[..n] == key then [tokens[n]] else []) + Successors(FullWindows(tokens[1..], n), n, key)
    ensures GroupKeys(FullWindows(tokens, n), n) == {tokens[..n]} + GroupKeys(FullWindows(tokens[1..], n), n)
  {
    var ws := FullWindows(tokens, n);
    FullWindowsStep(tokens, n);
    var w := tokens[..n + 1];
    assert ws[0] == w && ws[1..] == FullWindows(tokens[1..], n);
    assert w[..n] == tokens[..n] && w[n] == tokens[n];
  }

  lemma {:induction false} SuccessorsCount(tokens: seq<Token>, n: nat, key: Prefix)
    ensures |Successors(FullWindows(tokens, n), n, key)| == Occurrences(tokens, n, key)
    decreases |tokens|
  {
    if |tokens| > n {
      WindowsStep(tokens, n, key);
      SuccessorsCount(tokens[1..], n, key);
    }
  }

  lemma {:induction false} SuccessorsFollow(tokens: seq<Token>, n: nat, key: Prefix, x: Token)
    ensures multiset(Successors(FullWindows(tokens, n), n, key))[x] == Follows(tokens, n, key, x)
    decreases |tokens|
  {
    if |tokens| > n {
      WindowsStep(tokens, n, key);
      SuccessorsFollow(tokens[1..], n, key, x);
      var head := if tokens[..n] == key then [tokens[n]] else [];
      var rest := Successors(FullWindows(tokens[1..], n), n, key);
      assert multiset(head + rest)[x] == multiset(head)[x] + multiset(rest)[x];
      assert multiset(head)[x] == if tokens[..n] == key && tokens[n] == x then 1 else 0;
    }
  }

  lemma {:induction false} GroupKeysOccur(tokens: seq<Token>, n: nat, key: Prefix)
    ensures key in GroupKeys(FullWindows(tokens, n), n) <==> Occurrences(tokens, n, key) > 0
    decreases |tokens|
  {
    if |tokens| > n {
      WindowsStep(tokens, n, key);
      GroupKeysOccur(tokens[1..], n, key);
    }
  }

  /** The group of `key` holds one successor per occurrence of `key`, and `x` once per time it follows `key`. */
  lemma SuccessorsOfCorpus(tokens: seq<Token>, n: nat, key: Prefix)
    ensures |Successors(FullWindows(tokens, n), n, key)| == Occurrences(tokens, n, key)
    ensures forall x :: multiset(Successors(FullWindows(tokens, n), n, key))[x] == Follows(tokens, n, key, x)
    ensures key in GroupKeys(FullWindows(tokens, n), n) <==> Occurrences(tokens, n, key) > 0
  {
    SuccessorsCount(tokens, n, key);
    forall x
      ensures multiset(Successors(FullWindows(tokens, n), n, key))[x] == Follows(tokens, n, key, x)
    {
      SuccessorsFollow(tokens, n, key, x);
    }
    GroupKeysOccur(tokens, n, key);
  }

  /** The groups of the pipeline are the followers and prefixes taken straight on the corpus. */
  lemma {:induction false} GroupsOfCorpus(tokens: seq<Token>, n: nat, key: Prefix)
    ensures Successors(FullWindows(tokens, n), n, key) == Followers(tokens, n, key)
    ensures GroupKeys(FullWindows(tokens, n), n) == Prefixes(tokens, n)
    decreases |tokens|
  {
    if |tokens| > n {
      WindowsStep(tokens, n, key);
      GroupsOfCorpus(tokens[1..], n, key);
    }
  }

  /** The table straight from the corpus: its keys are the followed prefixes, each with the tally of its followers. */
  lemma TableOfCorpus(tokens: seq<Token>, n: nat, key: Prefix)
    ensures key in BuildMarkovTable(tokens, n) <==> key in Prefixes(tokens, n)
    ensures key in BuildMarkovTable(tokens, n) ==> BuildMarkovTable(tokens, n)[key] == Tally(Followers(tokens, n, key))
  {
    GroupsOfCorpus(tokens, n, key);
  }

  /** The keys of the table are the followed prefixes. */
  lemma TableKeySet(tokens: seq<Token>, n: nat)
    ensures BuildMarkovTable(tokens, n).Keys == Prefixes(tokens, n)
  {
    forall key
      ensures key in BuildMarkovTable(tokens, n) <==> key in Prefixes(tokens, n)
    {
      TableOfCorpus(tokens, n, key);
    }
  }

  /**
   * The reference counts are the counts of the followers: `Occurrences` is their
   * number, `Follows` the multiplicity of one token among them, and `Prefixes`
   * the keys that have any.
   */
  lemma FollowersCounts(tokens: seq<Token>, n: nat, key: Prefix)
    ensures |Followers(tokens, n, key)| == Occurrences(tokens, n, key)
    ensures forall x :: multiset(Followers(tokens, n, key))[x] == Follows(tokens, n, key, x)
    ensures key in Prefixes(tokens, n) <==> Occurrences(tokens, n, key) > 0
  {
    GroupsOfCorpus(tokens, n, key);
    SuccessorsOfCorpus(tokens, n, key);
  }

  /** A prefix is a key exactly when it occurs in the corpus followed by some token. */
  lemma TableKeys(tokens: seq<Token>, n: nat, key: Prefix)
    ensures key in BuildMarkovTable(tokens, n) <==> Occurrences(tokens, n, key) > 0
  {
    SuccessorsOfCorpus(tokens, n, key);
  }

  /**
   * The entries of a key: none is missing or repeated, each counts how often its
   * suffix follows the key, and together they count every occurrence of the key.
   */
  lemma TableEntries(tokens: seq<Token>, n: nat, key: Prefix)
    requires key in BuildMarkovTable(tokens, n)
    ensures var fs := BuildMarkovTable(tokens, n)[key];
      && |key| == n
      && |fs| > 0
      && Total(fs) == Occurrences(tokens, n, key)
      && (forall i, j :: 0 <= i < j < |fs| ==> fs[i].suffix != fs[j].suffix)
      && (forall i :: 0 <= i < |fs| ==> 1 <= fs[i].frequency == Follows(tokens, n, key, fs[i].suffix))
      && (forall x :: Follows(tokens, n, key, x) > 0 ==> exists i :: 0 <= i < |fs| && fs[i].suffix == x)
  {
    TableOfCorpus(tokens, n, key);
    FollowerEntries(tokens, n, key);
  }

  /** `TableEntries` for the tally of the followers of a key that occurs. */
  lemma FollowerEntries(tokens: seq<Token>, n: nat, key: Prefix)
    requires key in Prefixes(tokens, n)
    ensures var fs := Tally(Followers(tokens, n, key));
      && |fs| > 0
      && Total(fs) == Occurrences(tokens, n, key)
      && (forall i, j :: 0 <= i < j < |fs| ==> fs[i].suffix != fs[j].suffix)
      && (forall i :: 0 <= i < |fs| ==> 1 <= fs[i].frequency == Follows(tokens, n, key, fs[i].suffix))
      && (forall x :: Follows(tokens, n, key, x) > 0 ==> exists i :: 0 <= i < |fs| && fs[i].suffix == x)
  {
    var s := Followers(tokens, n, key);
    FollowersCounts(tokens, n, key);
    TallyEntries(s);
    forall x | Follows(tokens, n, key, x) > 0
      ensures x in s
    {
      assert multiset(s)[x] > 0;
    }
  }

  /** The entries of a tally: distinct suffixes, each counted as often as it occurs, none missing. */
  lemma TallyEntries(s: seq<Token>)
    ensures var fs := Tally(s);
      && Total(fs) == |s|
      && (forall i, j :: 0 <= i < j < |fs| ==> fs[i].suffix != fs[j].suffix)
      && (forall i :: 0 <= i < |fs| ==> 1 <= fs[i].frequency == multiset(s)[fs[i].suffix])
      && (forall x :: x in s ==> exists i :: 0 <= i < |fs| && fs[i].suffix == x)
  {
    var fs := Tally(s);
    TallySpec(s);
    DistinctEntries(fs);
    forall i | 0 <= i < |fs|
      ensures 1 <= fs[i].frequency == multiset(s)[fs[i].suffix]
    {
      DistinctFreq(fs, i);
    }
    forall x | x in s
      ensures exists i :: 0 <= i < |fs| && fs[i].suffix == x
    {
      InSuffixSetIndex(fs, x);
    }
  }

  /** Whatever follows a key at least once is a window of the corpus: the key, then that token. */
  lemma {:induction false} FollowsWindow(tokens: seq<Token>, n: nat, key: Prefix, x: Token)
    requires Follows(tokens, n, key, x) > 0
    ensures |key| == n
    ensures exists i: nat :: WindowAt(tokens, i, key + [x])
  {
    if tokens[..n] == key && tokens[n] == x {
      assert tokens[0..n + 1] == key + [x];
      assert WindowAt(tokens, 0, key + [x]);
    } else {
      FollowsWindow(tokens[1..], n, key, x);
      var w := key + [x];
      var i: nat :| WindowAt(tokens[1..], i, w);
      assert tokens[i + 1..i + 1 + |w|] == tokens[1..][i..i + |w|];
      assert WindowAt(tokens, i + 1, w);
    }
  }

  /** Each key followed by any of its suffixes is a contiguous window of the tokens. */
  lemma TableWindows(tokens: seq<Token>, n: nat, key: Prefix, k: nat)
    requires key in BuildMarkovTable(tokens, n)
    requires k < |BuildMarkovTable(tokens, n)[key]|
    ensures exists i: nat :: WindowAt(tokens, i, key + [BuildMarkovTable(tokens, n)[key][k].suffix])
  {
    TableEntries(tokens, n, key);
    FollowsWindow(tokens, n, key, BuildMarkovTable(tokens, n)[key][k].suffix);
  }

  /** No key maps to an empty entry list, and no entry has a zero count. */
  lemma TableEntriesPositive(tokens: seq<Token>, n: nat, key: Prefix)
    requires key in BuildMarkovTable(tokens, n)
    ensures BuildMarkovTable(tokens, n)[key] != [] && Positive(BuildMarkovTable(tokens, n)[key])
  {
    TableEntries(tokens, n, key);
  }

  /** Every element of a window of the corpus is a corpus token. */
  lemma WindowTokens(tokens: seq<Token>, i: nat, w: seq<Token>)
    requires WindowAt(tokens, i, w)
    ensures forall j :: 0 <= j < |w| ==> w[j] in tokens
  {
    forall j | 0 <= j < |w|
      ensures w[j] in tokens
    {
      assert w[j] == tokens[i..i + |w|][j] == tokens[i + j];
    }
  }

  /** The suffix of entry `k` of a key is a corpus token. */
  lemma SuffixFromCorpus(tokens: seq<Token>, n: nat, key: Prefix, k: nat)
    requires key in BuildMarkovTable(tokens, n)
    requires k < |BuildMarkovTable(tokens, n)[key]|
    ensures BuildMarkovTable(tokens, n)[key][k].suffix in tokens
  {
    TableWindows(tokens, n, key, k);
    var w := key + [BuildMarkovTable(tokens, n)[key][k].suffix];
    var i: nat :| WindowAt(tokens, i, w);
    WindowTokens(tokens, i, w);
    assert w[|key|] == BuildMarkovTable(tokens, n)[key][k].suffix;
  }

  /** Every token of a key and every suffix recorded for it is a token of the corpus. */
  lemma TableTokensFromCorpus(tokens: seq<Token>, n: nat, key: Prefix)
    requires key in BuildMarkovTable(tokens, n)
    ensures forall i :: 0 <= i < |key| ==> key[i] in tokens
    ensures forall k :: 0 <= k < |BuildMarkovTable(tokens, n)[key]| ==>
      BuildMarkovTable(tokens, n)[key][k].suffix in tokens
  {
    var fs := BuildMarkovTable(tokens, n)[key];
    TableEntriesPositive(tokens, n, key);
    TableWindows(tokens, n, key, 0);
    var w := key + [fs[0].suffix];
    var j: nat :| WindowAt(tokens, j, w);
    WindowTokens(tokens, j, w);
    assert forall i :: 0 <= i < |key| ==> key[i] == w[i];
    forall k | 0 <= k < |fs|
      ensures fs[k].suffix in tokens
    {
      SuffixFromCorpus(tokens, n, key, k);
    }
  }

  // ---------------------------------------------------------------------------
  // What the walker relies on
  // ---------------------------------------------------------------------------

  /** Every key has a non-empty list of entries, each counted at least once. */
  predicate Weighted(t: MarkovTable)
  {
    forall key :: key in t ==> t[key] != [] && Positive(t[key])
  }

  /** Every token of every key and every recorded suffix is one of `tokens`. */
  predicate Drawn(t: MarkovTable, tokens: seq<Token>)
  {
    forall key :: key in t ==>
      && (forall i :: 0 <= i < |key| ==> key[i] in tokens)
      && (forall k :: 0 <= k < |t[key]| ==> t[key][k].suffix in tokens)
  }

  /** A built table is weighted and drawn from its corpus. */
  lemma BuiltTable(tokens: seq<Token>, n: nat)
    ensures Weighted(BuildMarkovTable(tokens, n))
    ensures Drawn(BuildMarkovTable(tokens, n), tokens)
  {
    forall key | key in BuildMarkovTable(tokens, n)
      ensures BuildMarkovTable(tokens, n)[key] != [] && Positive(BuildMarkovTable(tokens, n)[key])
    {
      TableEntriesPositive(tokens, n, key);
    }
    forall key | key in BuildMarkovTable(tokens, n)
      ensures && (forall i :: 0 <= i < |key| ==> key[i] in tokens)
              && (forall k :: 0 <= k < |BuildMarkovTable(tokens, n)[key]| ==> BuildMarkovTable(tokens, n)[key][k].suffix in tokens)
    {
      TableTokensFromCorpus(tokens, n, key);
    }
  }
}
