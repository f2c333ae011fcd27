/**
 * The values shared by the table builder and the chain walker of the Markov
 * text generator: tokens, prefixes, suffix frequencies, the frequency table,
 * and the exceptions the generator can raise.
 */
module MarkovTypes {

  /** A token: a string, or the `null` that the walk appends once it has run off the table. */
  datatype Token = Null | Str(text: string)

  /** A prefix is compared by its elements, so a plain sequence of tokens serves as the map key. */
  type Prefix = seq<Token>

  /** One observed successor of a prefix and the number of times it was observed. */
  datatype SuffixFrequency = SuffixFrequency(suffix: Token, frequency: nat)

  /** The frequency table: each prefix with its observed successors. */
  type MarkovTable = map<Prefix, seq<SuffixFrequency>>

  /** The .NET exceptions the generator can throw. */
  datatype Error =
    | IndexOutOfRange     // `Elements[0]` of an empty prefix, or `[0]` of an empty string
    | NullReference       // `[0]` of a null first token
    | ArgumentOutOfRange  // `ElementAt` with an index outside the candidate list
    | InvalidOperation    // `First()` of an empty sequence

  datatype Result<T> = Ok(value: T) | Err(error: Error)

  /** The sum of the frequencies, in entry order (LINQ `Sum`). */
  function Total(fs: seq<SuffixFrequency>): nat
  {
    if fs == [] then 0 else fs[0].frequency + Total(fs[1..])
  }

  /** The cumulative frequency of the first `j` entries. */
  function Cum(fs: seq<SuffixFrequency>, j: nat): nat
    requires j <= |fs|
  {
    Total(fs[..j])
  }

  lemma {:induction false} TotalAppend(a: seq<SuffixFrequency>, b: seq<SuffixFrequency>)
    ensures Total(a + b) == Total(a) + Total(b)
  {
    if a != [] {
      assert (a + b)[1..] == a[1..] + b;
      TotalAppend(a[1..], b);
    } else {
      assert a + b == b;
    }
  }

  /** Adding one entry adds its frequency to the running sum. */
  lemma CumStep(fs: seq<SuffixFrequency>, j: nat)
    requires j < |fs|
    ensures Cum(fs, j + 1) == Cum(fs, j) + fs[j].frequency
  {
    assert fs[..j + 1] == fs[..j] + [fs[j]];
    TotalAppend(fs[..j], [fs[j]]);
  }

  /** Cumulative sums never decrease along the entries. */
  lemma {:induction false} CumMonotone(fs: seq<SuffixFrequency>, i: nat, j: nat)
    requires i <= j <= |fs|
    ensures Cum(fs, i) <= Cum(fs, j)
  {
    if i < j {
      CumStep(fs, j - 1);
      CumMonotone(fs, i, j - 1);
    }
  }

  lemma CumAll(fs: seq<SuffixFrequency>)
    ensures Cum(fs, |fs|) == Total(fs)
  {
    assert fs[..|fs|] == fs;
  }
}
