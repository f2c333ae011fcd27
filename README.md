# Markov text generator

A model in Dafny of `MarkovGenerator`, the n-gram Markov chain text generator of
the JavaScript-framework-name generator. The generator has three parts.

- **Table builder.** It slides a window of `ngramSize + 1` tokens over a corpus and keeps the full windows. It groups them by their first `ngramSize` tokens, which form the `Prefix` key. It counts how often each last token follows each key, as `SuffixFrequency` entries.
- **Start picker.** It keeps the keys whose first token starts with an upper-case letter and picks one of them by a `RandomInt(lo, hi)` draw.
- **Walker.** It is a lazy unfold over a prefix:
  - it emits the head of the current prefix;
  - it draws a frequency-weighted successor;
  - it slides the window by dropping the head and appending the successor;
  - on a prefix that is not a key it appends `null`;
  - it stops once the window holds only `null`s.

Files:

- `markov_types.dfy`: tokens (a string or `null`), prefixes, frequency entries, the table, the .NET exceptions the generator can raise, and the running sums of frequencies.
- `table_builder.dfy`: one function per LINQ stage of `BuildMarkovTable` (`Buffer`, `Where`, `GroupBy`, the inner `GroupBy`/`Count`, `ToDictionary`). They are proved against counts taken directly on the token sequence (`Occurrences`, `Follows`).
- `weighted_choice.dfy`: the `SkipWhile` over a decremented running value, as a recursive function and as the loop it is (`WeightedSelect`). It also states which draws choose which entry.
- `chain_walker.dfy`: `PickRandomKey`, `ChooseRandomSuffix`, one walk step, `RandomWalk` and `Generate`, with the walk's termination and content properties.
- `documented_cases.dfy`: the table in the doc comment of `BuildMarkovTable`, the choice over `{A:2, B:1}`, the start candidates of a small corpus, and the walk over the doc-comment corpus.

The modelling choices:

- **Randomness.** `RandomInt` is a stateful function. It is modelled as `rng(call, lo, hi)`: what the `call`-th invocation returns.
  - `PickRandomKey` makes call 0. Each walk step on a prefix that is a key makes the next call. A step on a prefix that is not a key makes none.
  - `InRange(rng)` is the bound `lo <= r < hi` that `Random.Next` keeps. Properties that need honest draws assume it.
- **Laziness.** The walk is an `IEnumerable` that may be infinite. It is modelled by the number of elements the consumer pulls. The resulting `Trace` says whether the enumerable ended, was still running (`Paused`), or threw.
- **Key order.** Dictionary key order is a parameter: a sequence that lists each key once.
- **Exceptions.** Exceptions are `Err` results.
  - An empty prefix or an empty first token gives `IndexOutOfRange`.
  - A `null` first token gives `NullReference`.
  - An index outside the candidate list gives `ArgumentOutOfRange`.
  - `First()` of nothing gives `InvalidOperation`.

### The weighted choice as written

Lines 132-136 subtract each frequency from the draw `r` and skip while the rest stays positive. So entry `k` is chosen by the draws in `(Cum(k), Cum(k+1)]`, and entry 0 also by the draws up to `Cum(1)`.

Because `RandomInt(0, total)` never returns `total`, when a key has at least two entries:

- the first entry gets one draw more than its frequency;
- the last entry gets one draw fewer;
- a last entry of frequency 1 is never chosen.

A key with a single entry of frequency `f` is chosen by all `f` honest draws, as `[b c]: [a:1]` and `[c a]: [b:1]` of the doc-comment table are (`DocStep`).

For `{A:2, B:1}`, the draws 0, 1 and 2 all choose `A`. The natural reading, where each suffix is chosen in proportion to its frequency, is therefore not what the code does. The model follows the code (`SelectsExactly`, `LastSingletonNeverChosen`, `TwoToOneChoice`).

As a consequence, the corpus `[a b c a b x]` of the doc comment never lets the walk from `[a b]` reach `x`. The walk repeats `a b c` for ever (`DocWalkNeverEnds`).

## Model

| member | source | states |
|---|---|---|
| TableBuilder.Buffer | JSFrameworkGenerator/Services/MarkovGenerator.cs:67 | Ix `Buffer(count, 1)`: one window per position, the tokens from there on, cut at `count`; its meaning together with the filter is stated by `FullWindows` |
| TableBuilder.KeepFull | JSFrameworkGenerator/Services/MarkovGenerator.cs:69 | the `Where` keeping the windows of full width, in order; with `Buffer` it leaves exactly the full windows (`FullWindows`) |
| TableBuilder.FullWindows | JSFrameworkGenerator/Services/MarkovGenerator.cs:65-69 | `Buffer(n + 1, 1)` followed by the full-window filter leaves exactly `max(0, |tokens| - n)` windows, the i-th being `tokens[i..i+n+1]` |
| TableBuilder.GroupKeys | JSFrameworkGenerator/Services/MarkovGenerator.cs:70-75 | the keys `segment.Take(ngramSize)` of the outer `GroupBy`; they are exactly the followed prefixes of the corpus (`GroupsOfCorpus`, `SuccessorsOfCorpus`) |
| TableBuilder.Successors | JSFrameworkGenerator/Services/MarkovGenerator.cs:70-75 | the members `segment.Last()` of one group, in window order; they are the followers of the key in the corpus, counted per token (`GroupsOfCorpus`, `SuccessorsOfCorpus`) |
| TableBuilder.Bump | JSFrameworkGenerator/Services/MarkovGenerator.cs:79-82 | counting one more element in a tally, by its first-occurrence entry or a new last entry; its effect on counts, suffixes, total and shape is stated by `BumpSpec` |
| TableBuilder.Tally | JSFrameworkGenerator/Services/MarkovGenerator.cs:79-82 | the inner `GroupBy(element => element).Select(... Count())`: distinct suffixes in order of first occurrence, each with its count (`TallySpec`, `TallyEntries`) |
| TableBuilder.BuildMarkovTable | JSFrameworkGenerator/Services/MarkovGenerator.cs:63-84 | a corpus of at most `n` tokens gives the empty table; every key has exactly `n` tokens |
| TableBuilder.TallySpec | JSFrameworkGenerator/Services/MarkovGenerator.cs:79-82 | the inner `GroupBy`/`Count` counts each distinct element exactly as often as it occurs, with one entry per distinct element, no zero count, and counts summing to the group size |
| TableBuilder.SuccessorsOfCorpus | JSFrameworkGenerator/Services/MarkovGenerator.cs:67-75 | the group of a key holds one successor per occurrence of the key in the corpus, and each token as often as it follows the key; a prefix forms a group iff it occurs followed by a token |
| TableBuilder.GroupsOfCorpus | JSFrameworkGenerator/Services/MarkovGenerator.cs:67-75 | the successor group of a key is the list of tokens that follow it in the corpus, in corpus order, and the group keys are exactly the prefixes followed by a token |
| TableBuilder.TableOfCorpus | JSFrameworkGenerator/Services/MarkovGenerator.cs:63-84 | a prefix is a key iff it occurs followed by a token, and its entries are the tally of its followers in corpus order |
| TableBuilder.TableKeySet | JSFrameworkGenerator/Services/MarkovGenerator.cs:63-84 | the key set of the table is the set of followed prefixes of the corpus |
| TableBuilder.FollowersCounts | JSFrameworkGenerator/Services/MarkovGenerator.cs:67-75 | the per-key counts of the corpus are those of its follower list: `Occurrences` is its length, `Follows` each token's multiplicity in it, and a prefix is followed iff it occurs |
| TableBuilder.TableKeys | JSFrameworkGenerator/Services/MarkovGenerator.cs:63-84 | a prefix is a table key iff it occurs in the corpus followed by some token |
| TableBuilder.TableEntries | JSFrameworkGenerator/Services/MarkovGenerator.cs:67-82 | a key has `n` tokens and a non-empty entry list; its suffixes are distinct; each frequency is at least 1 and equals how often that suffix follows the key; every token that follows the key has an entry; the frequencies sum to the number of full windows starting with the key |
| TableBuilder.FollowsWindow | JSFrameworkGenerator/Services/MarkovGenerator.cs:67-75 | a token that follows a key was observed in a contiguous window that is the key followed by that token |
| TableBuilder.TableWindows | JSFrameworkGenerator/Services/MarkovGenerator.cs:67-75 | each key followed by any of its suffixes is a contiguous window of the corpus |
| TableBuilder.TableEntriesPositive | JSFrameworkGenerator/Services/MarkovGenerator.cs:77-82 | no key has an empty entry list and no entry has a zero count |
| TableBuilder.TableTokensFromCorpus | JSFrameworkGenerator/Services/MarkovGenerator.cs:67-75 | every token of a key and every recorded suffix is a corpus token |
| TableBuilder.BuiltTable | JSFrameworkGenerator/Services/MarkovGenerator.cs:63-84 | a built table is weighted (every key has entries, all counts positive) and drawn from its corpus (every key token and suffix is a corpus token) |
| WeightedChoice.SkipFrom | JSFrameworkGenerator/Services/MarkovGenerator.cs:132-136 | the index at which `SkipWhile` stops under the decremented running value; it is the first entry whose cumulative frequency reaches the draw (`SkipFromFirstReaching`, `SelectedIndex`) |
| WeightedChoice.SelectSuffix | JSFrameworkGenerator/Services/MarkovGenerator.cs:131-138 | `SkipWhile(...).First().Suffix`, with `InvalidOperation` when nothing is left; it fails iff there is no entry or the draw exceeds the total (`SelectSucceeds`), and picks by the cumulative rule (`SelectsExactly`) |
| WeightedChoice.WeightedSelect | JSFrameworkGenerator/Services/MarkovGenerator.cs:131-138 | the decrement-and-skip loop computes the skip's choice, and `First()` succeeds iff there is an entry and the draw is at most the total |
| WeightedChoice.SkipFromFirstReaching | JSFrameworkGenerator/Services/MarkovGenerator.cs:132-136 | from any entry on, the skip stops at the first entry whose cumulative frequency reaches the draw, or at the end |
| WeightedChoice.SelectedIndex | JSFrameworkGenerator/Services/MarkovGenerator.cs:131-138 | the chosen entry is the first whose cumulative frequency reaches the draw |
| WeightedChoice.SelectsExactly | JSFrameworkGenerator/Services/MarkovGenerator.cs:131-138 | entry 0 is chosen iff the draw is at most its frequency; entry `k > 0` iff `Cum(k) < draw <= Cum(k+1)` (boundary draws go to the earlier entry) |
| WeightedChoice.SelectSucceeds | JSFrameworkGenerator/Services/MarkovGenerator.cs:129-138 | `First()` throws iff the entry list is empty or the draw exceeds the total |
| WeightedChoice.LowDrawSelectsFirst | JSFrameworkGenerator/Services/MarkovGenerator.cs:130-138 | a draw of 0, or any draw up to the first frequency, selects the first entry |
| WeightedChoice.LastSingletonNeverChosen | JSFrameworkGenerator/Services/MarkovGenerator.cs:130-138 | with at least two entries, a last entry of frequency 1 is never chosen by a draw below the total |
| ChainWalker.StartsUpper | JSFrameworkGenerator/Services/MarkovGenerator.cs:89 | the lambda `char.IsUpper(key.Elements[0][0])`, with its exceptions on an empty prefix, a `null` or an empty first token; the candidates it selects are stated by `Candidates` |
| ChainWalker.Candidates | JSFrameworkGenerator/Services/MarkovGenerator.cs:88-90 | the candidate list exists iff the `IsUpper` lambda throws on no key; its members are exactly the keys whose first token starts upper-case |
| ChainWalker.CandidatesDistinct | JSFrameworkGenerator/Services/MarkovGenerator.cs:88-90 | candidates drawn from keys listed without repetition are themselves without repetition |
| ChainWalker.PickRandomKey | JSFrameworkGenerator/Services/MarkovGenerator.cs:86-94 | a picked start is a table key whose first token starts with an upper-case letter |
| ChainWalker.PickRandomKeySucceeds | JSFrameworkGenerator/Services/MarkovGenerator.cs:86-93 | with honest draws a start is found iff no key makes the lambda throw and some key starts upper-case |
| ChainWalker.ChooseRandomSuffix | JSFrameworkGenerator/Services/MarkovGenerator.cs:122-139 | `null` without a draw off-table, else one `RandomInt(0, total)` draw and the skip's choice (`ChooseRandomSuffixSpec`, `IterateShape`) |
| ChainWalker.ChooseRandomSuffixSpec | JSFrameworkGenerator/Services/MarkovGenerator.cs:122-139 | on a key with positive frequencies, an honest draw lies in `[0, total)`, the choice succeeds after one draw, and it is the entry the cumulative rule assigns to the draw |
| ChainWalker.Iterate | JSFrameworkGenerator/Services/MarkovGenerator.cs:106-112 | the `iterate` step: drop the head, append the chosen suffix, advance the call count; its shape and draws are stated by `IterateShape`, and that it keeps a prefix proper by `IterateKeepsProper` |
| ChainWalker.AllNull | JSFrameworkGenerator/Services/MarkovGenerator.cs:105 | the negated `condition`: every element of the prefix is `null`; the walk ends at once exactly then (`WalkStart`) |
| ChainWalker.IterateShape | JSFrameworkGenerator/Services/MarkovGenerator.cs:106-112 | a step keeps the prefix length: the new prefix is the old one without its head plus one token, which is `null` without a draw for a non-key (lines 124-128) and one of the key's suffixes after one draw for a key; it can only fail on a key, with `InvalidOperation` |
| ChainWalker.RandomWalk | JSFrameworkGenerator/Services/MarkovGenerator.cs:101-115 | the walk emits at most one element per pull, and it is still running exactly when every pull produced an element |
| ChainWalker.WalkStart | JSFrameworkGenerator/Services/MarkovGenerator.cs:103-113 | the walk ends at once iff the prefix is all `null`; otherwise its first element is the head of the prefix |
| ChainWalker.Drain | JSFrameworkGenerator/Services/MarkovGenerator.cs:105-128 | once the window is no key, it emits its remaining non-null tokens one per pull, draws nothing, and ends |
| ChainWalker.AbsentPrefixDrains | JSFrameworkGenerator/Services/MarkovGenerator.cs:105-128 | on any table drawn from a null-free corpus, a walk reaching a null-free prefix that is not a key emits that prefix's tokens, one per pull, and then ends |
| ChainWalker.IterateKeepsProper | JSFrameworkGenerator/Services/MarkovGenerator.cs:106-112 | on a table drawn from a null-free corpus, each step keeps every non-null token of the prefix a corpus token, with nulls only at the end |
| ChainWalker.WalkEmitsCorpusTokens | JSFrameworkGenerator/Services/MarkovGenerator.cs:101-115 | on a table drawn from a null-free corpus, a walk from a proper prefix (a key in particular) never emits `null` and emits only corpus tokens |
| ChainWalker.HonestWalkNeverFails | JSFrameworkGenerator/Services/MarkovGenerator.cs:129-138 | with honest draws, `First()` never throws anywhere in a walk over a weighted table (every built table is one, `BuiltTable`) |
| ChainWalker.Generate | JSFrameworkGenerator/Services/MarkovGenerator.cs:44-49 | pick the start with call 0, then walk from it with the later calls; what a started generation emits and that it fails without a start are stated by `GenerateSpec`, `GenerateFrom`, `NoStartIsAnError` and `ShortCorpusCannotGenerate` |
| ChainWalker.NoStartIsAnError | JSFrameworkGenerator/Services/MarkovGenerator.cs:44-49 | without a key starting upper-case, `Generate` throws instead of returning an empty walk |
| ChainWalker.ShortCorpusCannotGenerate | JSFrameworkGenerator/Services/MarkovGenerator.cs:34-49 | a corpus of at most `ngramSize` tokens makes `Generate` throw |
| ChainWalker.GenerateSpec | JSFrameworkGenerator/Services/MarkovGenerator.cs:34-49 | over a table built from a null-free corpus, a started generation first emits a token beginning upper-case, then only non-null corpus tokens, and with honest draws never throws |
| ChainWalker.GenerateFrom | JSFrameworkGenerator/Services/MarkovGenerator.cs:34-49 | the same for any weighted table drawn from a null-free corpus |
| DocumentedCases.DocCommentTable | JSFrameworkGenerator/Services/MarkovGenerator.cs:55-61 | for any four distinct tokens, `[a b c a b x]` with n = 2 gives exactly `{[a b]: [c:1, x:1], [b c]: [a:1], [c a]: [b:1]}` |
| DocumentedCases.TwoToOneChoice | JSFrameworkGenerator/Services/MarkovGenerator.cs:129-138 | over `{A:2, B:1}` every honest draw (0, 1, 2) selects A; B needs the draw 3 |
| DocumentedCases.AlphaBetaKeys | JSFrameworkGenerator/Services/MarkovGenerator.cs:63-75 | `[Alpha one two Beta three]` with n = 2 has the keys `[Alpha one]`, `[one two]`, `[two Beta]` |
| DocumentedCases.AlphaBetaCandidates | JSFrameworkGenerator/Services/MarkovGenerator.cs:86-90 | any table with the keys `[Alpha one]`, `[one two]`, `[two Beta]`, listed in any order, has `[Alpha one]` as its only start candidate |
| DocumentedCases.AlphaBetaStart | JSFrameworkGenerator/Services/MarkovGenerator.cs:86-90 | whatever order the table of `[Alpha one two Beta three]` lists its keys in, its only start candidate is `[Alpha one]` |
| DocumentedCases.DocStep | JSFrameworkGenerator/Services/MarkovGenerator.cs:106-112 | over the doc-comment table, an honest step always moves `[a b]` to `[b c]`, `[b c]` to `[c a]` and `[c a]` to `[a b]` |
| DocumentedCases.DocWalkCycles | JSFrameworkGenerator/Services/MarkovGenerator.cs:101-115 | over the doc-comment table, an honest walk from any window of the cycle emits the cycle `a b c` and keeps running for any number of pulls |
| DocumentedCases.DocWalkNeverEnds | JSFrameworkGenerator/Services/MarkovGenerator.cs:96-115 | the honest walk over the built doc-comment table from `[a b]` never ends, repeats `a b c`, and never emits `x` |

## Left out

- Generate (lines 44-49): each generation is modelled from its own call index 0 of `rng`. In the source one `Random` is shared by repeated `Generate()` calls and by each re-enumeration of the returned lazy walk, which starts again from the same prefix with fresh draws. Every property holds for every `rng`, so none depends on where the call count starts.
- `System.Random` (line 37): it is replaced by the call-indexed `rng` parameter. Honest bounds are a hypothesis (`InRange`), not a property of a generator.
- Laziness of `EnumerableEx.Generate` (lines 103-114): a walk is observed for a finite number of pulls. An infinite enumerable is described by every finite number of pulls (`DocWalkCycles`), not as a single stream.
- `MarkovGenerator` as a class (lines 14-38): both fields are `readonly` and set once in the constructor. `Generate` therefore takes the built table and `rng` as arguments. The only mutable state, inside `Random`, is the call counter.
- ChainWalker.PickRandomKey: the order in which the dictionary lists its keys is unspecified. It is a parameter that lists each key once. Which candidate a given draw picks therefore depends on that parameter.
- ChainWalker.StartsUpper: `char.IsUpper` is modelled for the ASCII letters `A`-`Z` only, not for the whole of Unicode.
- TableBuilder.BuildMarkovTable: `ngramSize` is a natural number. A negative size makes `Buffer` throw, which is not modelled. Nor is `ngramSize = int.MaxValue`: the unchecked `ngramSize + 1` (lines 67 and 69) wraps to `int.MinValue`, which also makes `Buffer` throw, while the model returns the empty table.
- MarkovTypes.Total: integers are unbounded. LINQ's `Sum` throws `OverflowException` past `int.MaxValue`, which is not modelled.
- TableBuilder.Tally: the entries are built in order of first occurrence, as LINQ's `GroupBy` yields them. No lemma states that order beyond the doc-comment case (`DocCommentTable`).
- The files defining `Prefix` and `SuffixFrequency` are not part of this model. A prefix is modelled as its sequence of tokens, compared by value, since the table is a dictionary keyed by prefixes. The type of `Prefix.Elements` is not visible either: an empty prefix is assumed to throw `IndexOutOfRange` on `Elements[0]`, as an array does (line 89); an `IList` indexer would throw `ArgumentOutOfRange` instead.
- `FrameworkData.cs` is a literal list of corpus strings, and the tokenisation that feeds the generator is not part of this model.
