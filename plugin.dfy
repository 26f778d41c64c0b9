/**
 * The plugin object: the vocabulary data it keeps per user, the review
 * session it keeps per user, and its three commands — record a word, draw
 * words to review (`memo`), confirm forgotten words (`forget`).
 */
module Plugin {
  import opened Wrappers
  import opened Records
  import opened ForgettingModel
  import opened History

  /** Words drawn per review. */
  const DrawSize: int := 10

  /** The last draw for a user and the time it was made. */
  datatype Session = Session(selectedWords: seq<Word>, ts: int)

  datatype MemoError = NoWordsRecorded | ZeroTotalWeight

  datatype ForgetError = NoSession | BadIndex(reason: IndexError)

  ghost predicate DrawnFrom(words: seq<Word>, histories: Histories)
  {
    forall i :: 0 <= i < |words| ==> words[i] in histories
  }

  function Sum(xs: seq<real>): real
  {
    if xs == [] then 0.0 else xs[0] + Sum(xs[1..])
  }

  lemma {:induction false} SumPositive(xs: seq<real>)
    requires xs != []
    requires forall i :: 0 <= i < |xs| ==> xs[i] > 0.0
    ensures Sum(xs) > 0.0
  {
    if |xs| > 1 {
      SumPositive(xs[1..]);
    }
  }

  /**
   * Weighted sampling with replacement (`random.choices`): `k` draws from
   * `population`. Only the length of the draw and the membership of its
   * elements are modelled, not the distribution the weights define.
   */
  method Choices(population: seq<Word>, weights: seq<real>, k: nat) returns (selected: seq<Word>)
    requires population != []
    ensures |selected| == k
    ensures forall i :: 0 <= i < k ==> selected[i] in population
  {
    var some := seq(k, _ => population[0]);
    assert |some| == k && forall i :: 0 <= i < k ==> some[i] in population;
    selected :| |selected| == k && forall i :: 0 <= i < k ==> selected[i] in population;
  }

  /** The entries of `m` as two parallel lists, words and their values. */
  method Items(m: map<Word, real>) returns (words: seq<Word>, values: seq<real>)
    ensures |words| == |values| == |m|
    ensures forall i :: 0 <= i < |words| ==> words[i] in m && values[i] == m[words[i]]
    ensures forall w :: w in m ==> w in words
  {
    words, values := [], [];
    ghost var listed: set<Word> := {};
    var remaining := m.Keys;
    while remaining != {}
      invariant remaining <= m.Keys
      invariant listed == m.Keys - remaining
      invariant |words| == |values| == |listed|
      invariant forall i :: 0 <= i < |words| ==> words[i] in listed && values[i] == m[words[i]]
      invariant forall w :: w in listed ==> w in words
      decreases remaining
    {
      var word :| word in remaining;
      words := words + [word];
      values := values + [m[word]];
      listed := listed + {word};
      remaining := remaining - {word};
    }
  }

  class VocabPlugin {
    /** The difficulty table, read once when the plugin starts. */
    const difficultyData: map<Word, int>
    /** user -> word -> review records. */
    var vocabData: VocabData
    /** user -> the session of the user's last draw. */
    var interactiveCache: map<UserId, Session>

    /** Every session belongs to a user with a history and names only words of that history. */
    ghost predicate Valid()
      reads this
    {
      forall u :: u in interactiveCache ==>
        u in vocabData && DrawnFrom(interactiveCache[u].selectedWords, vocabData[u])
    }

    /** Starts from the stored vocabulary data and no sessions. */
    constructor (difficulty: map<Word, int>, stored: VocabData)
      ensures Valid()
      ensures difficultyData == difficulty && vocabData == stored && interactiveCache == map[]
    {
      difficultyData := difficulty;
      vocabData := stored;
      interactiveCache := map[];
    }

    /** `vocab_record`: a new word is recorded as forgotten, with cost 0. */
    method VocabRecord(user: UserId, word: Word, now: int)
      requires Valid()
      modifies this
      ensures Valid()
      ensures vocabData == AppendRecord(old(vocabData), user, word, ForgottenAt(now, 0))
      ensures interactiveCache == old(interactiveCache)
    {
      // the user's and the word's entries start empty when missing
      var words: Histories := map[];
      if user in vocabData {
        words := vocabData[user];
      }
      var records: seq<Record> := [];
      if word in words {
        records := words[word];
      }
      vocabData := vocabData[user := words[word := records + [Record(now, Forgotten.Value(), 0)]]];
    }

    /** `compute_forget_probability`: one probability per word the user has recorded. */
    method ComputeForgetProbability(user: UserId, now: int, decay: Decay) returns (probs: map<Word, real>)
      requires user in vocabData
      ensures probs == ForgetProbabilities(vocabData[user], difficultyData, now, decay)
    {
      var histories := vocabData[user];
      probs := map[];
      var remaining := histories.Keys;
      while remaining != {}
        invariant remaining <= histories.Keys
        invariant probs.Keys == histories.Keys - remaining
        invariant forall w :: w in probs ==>
                    probs[w] == ForgetProbability(histories[w], Difficulty(difficultyData, w), now, decay)
        decreases remaining
      {
        var word :| word in remaining;
        var difficulty := if word !in difficultyData then 3 else difficultyData[word];
        var p := WordForgetProbability(histories[word], difficulty, now, decay);
        probs := probs[word := p];
        remaining := remaining - {word};
      }
    }

    /**
     * `memo`: draws min(10, N) of the user's N words, weighted by their
     * forgetting probabilities, and makes the draw the user's session.
     */
    method Memo(user: UserId, now: int, decay: Decay) returns (r: Result<seq<Word>, MemoError>)
      requires Valid()
      modifies this
      ensures Valid()
      ensures vocabData == old(vocabData)
      ensures r == Err(NoWordsRecorded) <==> user !in vocabData || vocabData[user] == map[]
      ensures r.Err? ==> interactiveCache == old(interactiveCache)
      ensures r.Ok? ==> user in vocabData
                        && |r.value| == Min(DrawSize, |vocabData[user]|)
                        && DrawnFrom(r.value, vocabData[user])
                        && interactiveCache == old(interactiveCache)[user := Session(r.value, now)]
      ensures ValidDifficultyTable(difficultyData) && user in vocabData && vocabData[user] != map[] ==> r.Ok?
    {
      if user !in vocabData {
        return Err(NoWordsRecorded);
      }
      var forgetProbabilities := ComputeForgetProbability(user, now, decay);
      if |forgetProbabilities| == 0 {
        assert vocabData[user] == map[];
        return Err(NoWordsRecorded);
      }
      var words, probs := Items(forgetProbabilities);
      var k := Min(DrawSize, |words|);
      var total := Sum(probs);
      if total == 0.0 {
        if ValidDifficultyTable(difficultyData) {
          ProbabilitiesInRange(vocabData[user], difficultyData, now, decay);
          SumPositive(probs);
        }
        return Err(ZeroTotalWeight);
      }
      var weights := seq(|probs|, i requires 0 <= i < |probs| => probs[i] / total);
      var selectedWords := Choices(words, weights, k);
      interactiveCache := interactiveCache[user := Session(selectedWords, now)];
      r := Ok(selectedWords);
    }

    /** The appending loop of `forget`. */
    method AppendForgotten(user: UserId, forgetWords: seq<Word>, now: int)
      requires Valid() && user in interactiveCache
      modifies this`vocabData
      ensures Valid()
      ensures interactiveCache == old(interactiveCache)
      ensures vocabData == ApplyForget(old(vocabData), user, forgetWords,
                                       ForgottenAt(now, now - interactiveCache[user].ts))
    {
      ghost var rec := ForgottenAt(now, now - interactiveCache[user].ts);
      for i := 0 to |forgetWords|
        invariant user in vocabData
        invariant vocabData == ApplyForget(old(vocabData), user, forgetWords[..i], rec)
      {
        var word := forgetWords[i];
        assert forgetWords[..i + 1] == forgetWords[..i] + [word];
        ApplyForgetSnoc(old(vocabData), user, forgetWords[..i], word, rec);
        if word in vocabData[user] {
          var interval := now - interactiveCache[user].ts;
          vocabData := vocabData[user := vocabData[user][word := vocabData[user][word] + [Record(now, Forgotten.Value(), interval)]]];
        }
      }
      assert forgetWords[..|forgetWords|] == forgetWords;
      assert vocabData.Keys == old(vocabData).Keys && vocabData[user].Keys == old(vocabData)[user].Keys;
    }

    /**
     * `forget`: resolves the 1-based indices against the user's session and
     * appends a forgotten record, whose cost is the time since the draw, to
     * each resolved word still in the user's history. The session is kept.
     */
    method Forget(user: UserId, indices: seq<int>, now: int) returns (r: Result<seq<Word>, ForgetError>)
      requires Valid()
      requires forall j :: 0 <= j < |indices| ==> indices[j] >= 1
      modifies this
      ensures Valid()
      ensures interactiveCache == old(interactiveCache)
      ensures user !in interactiveCache ==> r == Err(NoSession)
      ensures user in interactiveCache ==>
                var resolved := ResolveIndices(interactiveCache[user].selectedWords, indices);
                if resolved.Ok? then r == Ok(resolved.value) else r == Err(BadIndex(resolved.error))
      ensures r.Err? ==> vocabData == old(vocabData)
      ensures r.Ok? ==> user in old(interactiveCache) && user in old(vocabData)
                        && vocabData == ApplyForget(old(vocabData), user, r.value,
                                                    ForgottenAt(now, now - old(interactiveCache)[user].ts))
    {
      if user !in interactiveCache {
        return Err(NoSession);
      }
      var selectedWords := interactiveCache[user].selectedWords;
      var resolved := ResolveIndices(selectedWords, indices);
      if resolved.Err? {
        return Err(BadIndex(resolved.error));
      }
      var forgetWords := resolved.value;
      ghost var rec := ForgottenAt(now, now - interactiveCache[user].ts);
      AppendForgotten(user, forgetWords, now);
      r := Ok(forgetWords);
    }
  }
}
