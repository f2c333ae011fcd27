/**
 * The frequency-weighted choice of `ChooseRandomSuffix`: with a draw `r`, the
 * `SkipWhile` lambda subtracts each entry's frequency from a captured running
 * value and keeps skipping while that value stays positive; `First()` then
 * takes the entry at which it stopped.  This is modelled exactly as written, so
 * a draw that lands on a cumulative boundary selects the EARLIER entry.
 */
module WeightedChoice {
  import opened MarkovTypes

  /** Where `SkipWhile` stops when it reaches entry `i` with running value `random`. */
  function SkipFrom(fs: seq<SuffixFrequency>, i: nat, random: int): (k: nat)
    requires i <= |fs|
    ensures i <= k <= |fs|
    decreases |fs| - i
  {
    if i == |fs| then i
    else if random - fs[i].frequency > 0 then SkipFrom(fs, i + 1, random - fs[i].frequency)
    else i
  }

  /** `SkipWhile(...).First().Suffix`; `First()` of nothing throws. */
  function SelectSuffix(fs: seq<SuffixFrequency>, draw: int): Result<Token>
  {
    var k := SkipFrom(fs, 0, draw);
    if k < |fs| then Ok(fs[k].suffix) else Err(InvalidOperation)
  }

  /**
   * The skip as the loop it is: the running value is decremented entry by entry
   * until it drops to zero or below.  It computes the chosen suffix, and it
   * fails exactly when there is no entry or the draw exceeds the total.
   */
  method WeightedSelect(fs: seq<SuffixFrequency>, draw: int) returns (r: Result<Token>)
    ensures r == SelectSuffix(fs, draw)
    ensures r.Ok? <==> fs != [] && draw <= Total(fs)
  {
    var random := draw;
    var i := 0;
    while i < |fs|
      invariant 0 <= i <= |fs|
      invariant SkipFrom(fs, i, random) == SkipFrom(fs, 0, draw)
    {
      random := random - fs[i].frequency;
      if random <= 0 {
        break;  // the lambda returned false: SkipWhile yields from entry i on
      }
      i := i + 1;
    }
    if i < |fs| {
      r := Ok(fs[i].suffix);
    } else {
      r := Err(InvalidOperation);
    }
    SelectSucceeds(fs, draw);
  }

  lemma {:induction false} SkipFromFirstReaching(fs: seq<SuffixFrequency>, i: nat, draw: int)
    requires i <= |fs|
    ensures var k := SkipFrom(fs, i, draw - Cum(fs, i));
      && (forall j :: i < j <= k ==> Cum(fs, j) < draw)
      && (k < |fs| ==> draw <= Cum(fs, k + 1))
    decreases |fs| - i
  {
    if i < |fs| {
      CumStep(fs, i);
      if draw - Cum(fs, i) - fs[i].frequency > 0 {
        SkipFromFirstReaching(fs, i + 1, draw);
      }
    }
  }

  /** The chosen entry is the first whose cumulative frequency reaches the draw. */
  lemma SelectedIndex(fs: seq<SuffixFrequency>, draw: int)
    ensures var k := SkipFrom(fs, 0, draw);
      && (forall j :: 0 < j <= k ==> Cum(fs, j) < draw)
      && (k < |fs| ==> draw <= Cum(fs, k + 1))
  {
    assert Cum(fs, 0) == 0;
    SkipFromFirstReaching(fs, 0, draw);
  }

  /**
   * Entry 0 is chosen by every draw up to its frequency; entry `k > 0` by exactly
   * the draws in `(Cum(k), Cum(k + 1)]`.
   */
  lemma SelectsExactly(fs: seq<SuffixFrequency>, draw: int, k: nat)
    requires k < |fs|
    ensures SkipFrom(fs, 0, draw) == k <==> (k == 0 || Cum(fs, k) < draw) && draw <= Cum(fs, k + 1)
  {
    var k0 := SkipFrom(fs, 0, draw);
    SelectedIndex(fs, draw);
    if k0 < k {
      CumMonotone(fs, k0 + 1, k);
    } else if k0 > k {
      assert Cum(fs, k + 1) < draw;
    }
  }

  /** `First()` fails exactly when there is no entry or the draw exceeds the total. */
  lemma SelectSucceeds(fs: seq<SuffixFrequency>, draw: int)
    ensures SelectSuffix(fs, draw).Ok? <==> fs != [] && draw <= Total(fs)
  {
    var k0 := SkipFrom(fs, 0, draw);
    SelectedIndex(fs, draw);
    CumAll(fs);
    if fs != [] && k0 == |fs| {
      assert Cum(fs, |fs|) < draw;
    } else if k0 < |fs| {
      CumMonotone(fs, k0 + 1, |fs|);
    }
  }

  /** A draw of zero, or any draw up to the first frequency, selects the first entry. */
  lemma LowDrawSelectsFirst(fs: seq<SuffixFrequency>, draw: int)
    requires fs != [] && draw <= fs[0].frequency
    ensures SelectSuffix(fs, draw) == Ok(fs[0].suffix)
  {
    assert fs[..1] == [fs[0]];
    SelectsExactly(fs, draw, 0);
  }

  /**
   * A last entry of frequency 1 after at least one other entry is never chosen by
   * a draw below the total: it would need the draw to equal the total.
   */
  lemma LastSingletonNeverChosen(fs: seq<SuffixFrequency>, draw: int)
    requires |fs| >= 2 && fs[|fs| - 1].frequency == 1
    requires draw < Total(fs)
    ensures SkipFrom(fs, 0, draw) != |fs| - 1
  {
    var m := |fs|;
    SelectsExactly(fs, draw, m - 1);
    CumStep(fs, m - 1);
    CumAll(fs);
  }
}
