/**
 * The forgetting model: the probability that a user has forgotten a word,
 * from the word's difficulty and its review records, each weighted by its
 * recency.
 */
module ForgettingModel {
  import opened Records

  /**
   * The recency weight of a record that is `age` seconds old. The plugin uses
   * exp(-0.1 * age / 86400); the model keeps only that the weight is positive.
   */
  type Decay = f: int -> real | forall age :: f(age) > 0.0 witness (age: int) => 1.0

  /** Difficulty of a word missing from the difficulty table. */
  const DefaultDifficulty: int := 3

  /** A table whose difficulties all lie in 1..10, as the dataset's tiers do. */
  ghost predicate ValidDifficultyTable(table: map<Word, int>)
  {
    forall w :: w in table ==> 1 <= table[w] <= 10
  }

  function Difficulty(table: map<Word, int>, word: Word): int
  {
    if word in table then table[word] else DefaultDifficulty
  }

  /** `difficulty /= 10`, a true division. */
  function Normalize(difficulty: int): real
  {
    difficulty as real / 10.0
  }

  /** 1.0 for a record whose response is Forgotten, 0.5 for any other code. */
  function Adjustment(r: Record): real
  {
    if r.response == Forgotten.Value() then 1.0 else 0.5
  }

  function Influence(r: Record, now: int, decay: Decay): real
  {
    decay(now - r.time)
  }

  /** The sum of the influences of `rs`, accumulated from the first record on. */
  function InfluenceSum(rs: seq<Record>, now: int, decay: Decay): real
  {
    if rs == [] then 0.0
    else InfluenceSum(rs[..|rs| - 1], now, decay) + Influence(rs[|rs| - 1], now, decay)
  }

  /** The sum of influence times adjustment over `rs`. */
  function WeightedSum(rs: seq<Record>, now: int, decay: Decay): real
  {
    if rs == [] then 0.0
    else WeightedSum(rs[..|rs| - 1], now, decay)
         + Influence(rs[|rs| - 1], now, decay) * Adjustment(rs[|rs| - 1])
  }

  /** The forgetting probability of one word with records `rs`. */
  function ForgetProbability(rs: seq<Record>, difficulty: int, now: int, decay: Decay): real
  {
    var influence := InfluenceSum(rs, now, decay);
    if influence > 0.0 then (WeightedSum(rs, now, decay) / influence) * Normalize(difficulty)
    else Normalize(difficulty)
  }

  /** The forgetting probability of every word a user has recorded. */
  function ForgetProbabilities(histories: map<Word, seq<Record>>, table: map<Word, int>,
                               now: int, decay: Decay): (m: map<Word, real>)
    ensures m.Keys == histories.Keys
  {
    map w | w in histories :: ForgetProbability(histories[w], Difficulty(table, w), now, decay)
  }

  predicate AllForgotten(rs: seq<Record>)
  {
    forall i :: 0 <= i < |rs| ==> rs[i].response == Forgotten.Value()
  }

  /** The influences sum to zero exactly for no records, and to a positive value otherwise. */
  lemma {:induction false} InfluenceSumSign(rs: seq<Record>, now: int, decay: Decay)
    ensures rs == [] <==> InfluenceSum(rs, now, decay) == 0.0
    ensures rs != [] <==> InfluenceSum(rs, now, decay) > 0.0
  {
    if rs != [] {
      var init := rs[..|rs| - 1];
      InfluenceSumSign(init, now, decay);
      assert Influence(rs[|rs| - 1], now, decay) > 0.0;
    }
  }

  /** Every adjustment lies in [0.5, 1], so the weighted sum lies between half the influence sum and all of it. */
  lemma {:induction false} WeightedSumBetween(rs: seq<Record>, now: int, decay: Decay)
    ensures 0.5 * InfluenceSum(rs, now, decay) <= WeightedSum(rs, now, decay) <= InfluenceSum(rs, now, decay)
  {
    if rs != [] {
      var init, last := rs[..|rs| - 1], rs[|rs| - 1];
      WeightedSumBetween(init, now, decay);
      var i := Influence(last, now, decay);
      assert i > 0.0;
      assert 0.5 * i <= i * Adjustment(last) <= i;
    }
  }

  /** When every record says Forgotten the weighted sum is the influence sum. */
  lemma {:induction false} WeightedSumAllForgotten(rs: seq<Record>, now: int, decay: Decay)
    requires AllForgotten(rs)
    ensures WeightedSum(rs, now, decay) == InfluenceSum(rs, now, decay)
  {
    if rs != [] {
      var init := rs[..|rs| - 1];
      assert AllForgotten(init) by {
        forall i | 0 <= i < |init| ensures init[i].response == Forgotten.Value() {
          assert init[i] == rs[i];
        }
      }
      WeightedSumAllForgotten(init, now, decay);
    }
  }

  lemma RatioBetween(w: real, i: real)
    requires i > 0.0 && 0.5 * i <= w <= i
    ensures 0.5 <= w / i <= 1.0
  {
    DivMonotone(0.5 * i, w, i);
    DivMonotone(w, i, i);
    assert (0.5 * i) / i == 0.5;
  }

  lemma DivMonotone(a: real, b: real, i: real)
    requires i > 0.0 && a <= b
    ensures a / i <= b / i
  {
    assert b / i - a / i == (b - a) / i;
  }

  /**
   * A word without records keeps its cold-start estimate: its difficulty / 10,
   * with difficulty 3 for a word missing from the table.
   */
  lemma ProbabilityWithoutRecords(table: map<Word, int>, word: Word, now: int, decay: Decay)
    ensures word in table ==> ForgetProbability([], Difficulty(table, word), now, decay) == table[word] as real / 10.0
    ensures word !in table ==> ForgetProbability([], Difficulty(table, word), now, decay) == 0.3
  {
  }

  /** With records, the probability is the difficulty scaled by a weighted average of adjustments in [0.5, 1]. */
  lemma ProbabilityBounds(rs: seq<Record>, difficulty: int, now: int, decay: Decay)
    requires rs != []
    requires difficulty >= 0
    ensures 0.5 * Normalize(difficulty) <= ForgetProbability(rs, difficulty, now, decay) <= Normalize(difficulty)
  {
    var influence, weighted := InfluenceSum(rs, now, decay), WeightedSum(rs, now, decay);
    InfluenceSumSign(rs, now, decay);
    WeightedSumBetween(rs, now, decay);
    var ratio := weighted / influence;
    RatioBetween(weighted, influence);
    var d := Normalize(difficulty);
    assert ForgetProbability(rs, difficulty, now, decay) == ratio * d;
    assert d >= 0.0;
    assert ratio * d <= 1.0 * d == d;
    assert 0.5 * d <= ratio * d;
    assert ForgetProbability(rs, difficulty, now, decay) <= Normalize(difficulty);
  }

  /** When every record says Forgotten, the probability is exactly difficulty / 10. */
  lemma ProbabilityAllForgotten(rs: seq<Record>, difficulty: int, now: int, decay: Decay)
    requires AllForgotten(rs)
    ensures ForgetProbability(rs, difficulty, now, decay) == Normalize(difficulty)
  {
    InfluenceSumSign(rs, now, decay);
    WeightedSumAllForgotten(rs, now, decay);
  }

  /** For a difficulty in 0..10, the probability lies in [0, 1]. */
  lemma ProbabilityInUnitInterval(rs: seq<Record>, difficulty: int, now: int, decay: Decay)
    requires 0 <= difficulty <= 10
    ensures 0.0 <= ForgetProbability(rs, difficulty, now, decay) <= 1.0
  {
    if rs != [] {
      ProbabilityBounds(rs, difficulty, now, decay);
    }
  }

  /** For a positive difficulty every word has a positive probability. */
  lemma ProbabilityPositive(rs: seq<Record>, difficulty: int, now: int, decay: Decay)
    requires difficulty >= 1
    ensures ForgetProbability(rs, difficulty, now, decay) > 0.0
  {
    if rs != [] {
      ProbabilityBounds(rs, difficulty, now, decay);
    }
  }

  /** Under a valid table every probability the plugin computes lies in (0, 1]. */
  lemma ProbabilitiesInRange(histories: map<Word, seq<Record>>, table: map<Word, int>, now: int, decay: Decay)
    requires ValidDifficultyTable(table)
    ensures forall w :: w in histories ==>
              0.0 < ForgetProbabilities(histories, table, now, decay)[w] <= 1.0
  {
    forall w | w in histories
      ensures 0.0 < ForgetProbabilities(histories, table, now, decay)[w] <= 1.0
    {
      var d := Difficulty(table, w);
      ProbabilityPositive(histories[w], d, now, decay);
      ProbabilityInUnitInterval(histories[w], d, now, decay);
    }
  }

  /** The same records with record `k` answered Forgotten. */
  function MarkForgotten(rs: seq<Record>, k: nat): (r: seq<Record>)
    requires k < |rs|
  {
    rs[k := rs[k].(response := Forgotten.Value())]
  }

  lemma {:induction false} MarkForgottenSums(rs: seq<Record>, k: nat, now: int, decay: Decay)
    requires k < |rs|
    ensures InfluenceSum(MarkForgotten(rs, k), now, decay) == InfluenceSum(rs, now, decay)
    ensures WeightedSum(MarkForgotten(rs, k), now, decay) >= WeightedSum(rs, now, decay)
  {
    var marked := MarkForgotten(rs, k);
    var n := |rs|;
    var last := rs[n - 1];
    if k == n - 1 {
      assert marked[..n - 1] == rs[..n - 1];
      assert Influence(marked[n - 1], now, decay) == Influence(last, now, decay);
      assert Influence(last, now, decay) > 0.0;
      assert Adjustment(marked[n - 1]) == 1.0 >= Adjustment(last);
    } else {
      assert marked[..n - 1] == MarkForgotten(rs[..n - 1], k);
      assert marked[n - 1] == last;
      MarkForgottenSums(rs[..n - 1], k, now, decay);
    }
  }

  /**
   * Holding every age fixed, turning one response into Forgotten never lowers
   * the probability: it grows with the share of Forgotten records.
   */
  lemma ProbabilityMonotoneInForgotten(rs: seq<Record>, k: nat, difficulty: int, now: int, decay: Decay)
    requires k < |rs|
    requires difficulty >= 0
    ensures ForgetProbability(rs, difficulty, now, decay)
            <= ForgetProbability(MarkForgotten(rs, k), difficulty, now, decay)
  {
    var marked := MarkForgotten(rs, k);
    MarkForgottenSums(rs, k, now, decay);
    InfluenceSumSign(rs, now, decay);
    var influence := InfluenceSum(rs, now, decay);
    var w, w' := WeightedSum(rs, now, decay), WeightedSum(marked, now, decay);
    DivMonotone(w, w', influence);
    var d := Normalize(difficulty);
    assert (w / influence) * d <= (w' / influence) * d;
  }

  /**
   * The loop of `compute_forget_probability` for one word: the difficulty is
   * normalised, then influence and weighted sums are accumulated record by
   * record.
   */
  method WordForgetProbability(records: seq<Record>, difficulty: int, now: int, decay: Decay)
    returns (p: real)
    ensures p == ForgetProbability(records, difficulty, now, decay)
  {
    var d := Normalize(difficulty);
    var influenceSum, weightedSum := 0.0, 0.0;
    for i := 0 to |records|
      invariant influenceSum == InfluenceSum(records[..i], now, decay)
      invariant weightedSum == WeightedSum(records[..i], now, decay)
    {
      var record := records[i];
      var adjustment := if record.response == Forgotten.Value() then 1.0 else 0.5;
      var influence := decay(now - record.time);
      assert records[..i + 1][..i] == records[..i];
      weightedSum := weightedSum + influence * adjustment;
      influenceSum := influenceSum + influence;
    }
    assert records[..|records|] == records;
    if influenceSum > 0.0 {
      p := (weightedSum / influenceSum) * d;
    } else {
      p := d;
    }
  }
}
