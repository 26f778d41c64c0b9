/**
 * The plugin's review history as a value: user -> word -> records, and the
 * pure transitions that recording a word and confirming forgotten words
 * make to it.
 */
module History {
  import opened Wrappers
  import opened Records

  type Histories = map<Word, seq<Record>>

  type VocabData = map<UserId, Histories>

  /** The records of `word` for `user`, empty when either entry is missing. */
  function HistoryOf(data: VocabData, user: UserId, word: Word): seq<Record>
  {
    if user in data && word in data[user] then data[user][word] else []
  }

  /** Every history of `before` is still present in `after` and is a prefix of its new value. */
  ghost predicate Extends(before: VocabData, after: VocabData)
  {
    forall u :: u in before ==>
      u in after && forall w :: w in before[u] ==> w in after[u] && before[u][w] <= after[u][w]
  }

  /** `n` copies of `rec`. */
  function Repeat(rec: Record, n: nat): (r: seq<Record>)
    ensures |r| == n && forall i :: 0 <= i < n ==> r[i] == rec
  {
    seq(n, _ => rec)
  }

  /**
   * Appends `rec` to the records of `word` for `user`, creating the user's
   * and the word's entries when missing (`vocab_record`).
   */
  function AppendRecord(data: VocabData, user: UserId, word: Word, rec: Record): (r: VocabData)
    ensures r.Keys == data.Keys + {user}
    ensures user in data ==> r[user].Keys == data[user].Keys + {word}
    ensures user !in data ==> r[user].Keys == {word}
    ensures r[user][word] == HistoryOf(data, user, word) + [rec]
    ensures forall u :: u in data && u != user ==> r[u] == data[u]
    ensures forall w :: user in data && w in data[user] && w != word ==> r[user][w] == data[user][w]
  {
    var words := if user in data then data[user] else map[];
    var records := if word in words then words[word] else [];
    data[user := words[word := records + [rec]]]
  }

  lemma AppendRecordExtends(data: VocabData, user: UserId, word: Word, rec: Record)
    ensures Extends(data, AppendRecord(data, user, word, rec))
  {
  }

  /**
   * The appends of one confirmation: for each word of `words` in order, `rec`
   * is appended to its records when the word is in the user's history, and
   * the word is skipped otherwise.
   */
  function ApplyForget(data: VocabData, user: UserId, words: seq<Word>, rec: Record): (r: VocabData)
    requires user in data
    ensures r.Keys == data.Keys && r[user].Keys == data[user].Keys
    ensures forall u :: u in data && u != user ==> r[u] == data[u]
  {
    if words == [] then data
    else
      var prev := ApplyForget(data, user, words[..|words| - 1], rec);
      var word := words[|words| - 1];
      if word in prev[user] then prev[user := prev[user][word := prev[user][word] + [rec]]]
      else prev
  }

  /** Unfolds `ApplyForget` for one more confirmed word. */
  lemma ApplyForgetSnoc(data: VocabData, user: UserId, words: seq<Word>, word: Word, rec: Record)
    requires user in data
    ensures var prev := ApplyForget(data, user, words, rec);
            ApplyForget(data, user, words + [word], rec)
            == if word in prev[user] then prev[user := prev[user][word := prev[user][word] + [rec]]] else prev
  {
    assert (words + [word])[..|words|] == words;
  }

  /** Each word present in the history gains one `rec` per occurrence in `words`, duplicates included. */
  lemma {:induction false} ApplyForgetAppends(data: VocabData, user: UserId, words: seq<Word>, rec: Record, w: Word)
    requires user in data && w in data[user]
    ensures ApplyForget(data, user, words, rec)[user][w] == data[user][w] + Repeat(rec, multiset(words)[w])
  {
    if words != [] {
      var init, last := words[..|words| - 1], words[|words| - 1];
      assert words == init + [last];
      ApplyForgetAppends(data, user, init, rec, w);
      var before := data[user][w] + Repeat(rec, multiset(init)[w]);
      if last == w {
        assert multiset(words)[w] == multiset(init)[w] + 1;
        assert before + [rec] == data[user][w] + Repeat(rec, multiset(words)[w]);
      } else {
        assert multiset(words)[w] == multiset(init)[w];
      }
    }
  }

  /** A word missing from the user's history is skipped: it stays missing. */
  lemma ApplyForgetSkipsAbsent(data: VocabData, user: UserId, words: seq<Word>, rec: Record, w: Word)
    requires user in data && w !in data[user]
    ensures w !in ApplyForget(data, user, words, rec)[user]
  {
  }

  /** A confirmation only appends: no record is removed or rewritten. */
  lemma {:induction false} ApplyForgetExtends(data: VocabData, user: UserId, words: seq<Word>, rec: Record)
    requires user in data
    ensures Extends(data, ApplyForget(data, user, words, rec))
  {
    var r := ApplyForget(data, user, words, rec);
    forall w | w in data[user] ensures data[user][w] <= r[user][w] {
      ApplyForgetAppends(data, user, words, rec, w);
    }
  }

  /** Confirming words none of which is in the history changes nothing. */
  lemma {:induction false} ApplyForgetNonepresent(data: VocabData, user: UserId, words: seq<Word>, rec: Record)
    requires user in data
    requires forall i :: 0 <= i < |words| ==> words[i] !in data[user]
    ensures ApplyForget(data, user, words, rec) == data
  {
    var r := ApplyForget(data, user, words, rec);
    forall w | w in data[user] ensures r[user][w] == data[user][w] {
      ApplyForgetAppends(data, user, words, rec, w);
      assert multiset(words)[w] == 0;
    }
    assert r[user] == data[user];
  }

  /** Why the indices of a confirmation could not be resolved. */
  datatype IndexError = IndexOutOfRange | MissingIndex

  /**
   * Resolves 1-based indices against the drawn words, all or nothing: the
   * first index beyond the draw rejects the whole request.
   */
  function ResolveIndices(selected: seq<Word>, indices: seq<int>): (r: Result<seq<Word>, IndexError>)
    requires forall j :: 0 <= j < |indices| ==> indices[j] >= 1
    ensures r.Ok? <==> forall j :: 0 <= j < |indices| ==> indices[j] <= |selected|
    ensures r.Ok? ==> |r.value| == |indices|
    ensures r.Err? ==> r.error == IndexOutOfRange
  {
    if indices == [] then Ok([])
    else if indices[0] > |selected| then Err(IndexOutOfRange)
    else
      var rest := ResolveIndices(selected, indices[1..]);
      if rest.Err? then rest else Ok([selected[indices[0] - 1]] + rest.value)
  }

  /** Index `i` resolves to the `i`-th drawn word, counting from 1. */
  lemma {:induction false} ResolveIndicesElements(selected: seq<Word>, indices: seq<int>)
    requires forall j :: 0 <= j < |indices| ==> 1 <= indices[j] <= |selected|
    ensures ResolveIndices(selected, indices).Ok?
    ensures forall j :: 0 <= j < |indices| ==>
              ResolveIndices(selected, indices).value[j] == selected[indices[j] - 1]
  {
    if indices != [] {
      ResolveIndicesElements(selected, indices[1..]);
    }
  }

  /**
   * The capture groups of the confirmation pattern for the typed indices, as
   * the source's regular expression yields them: the first index, then only
   * the last repetition of the second group, or no value when a single index
   * was typed.
   */
  function CapturedGroups(typed: seq<int>): (g: seq<Option<int>>)
    requires |typed| >= 1
  {
    [Some(typed[0]), if |typed| == 1 then None else Some(typed[|typed| - 1])]
  }

  /**
   * Index resolution of the source as written: each captured group is
   * converted to an integer (a group with no value fails) and looked up.
   */
  function ResolveCaptured(selected: seq<Word>, groups: seq<Option<int>>): (r: Result<seq<Word>, IndexError>)
    requires forall j :: 0 <= j < |groups| && groups[j].Some? ==> groups[j].value >= 1
    ensures r.Ok? <==> forall j :: 0 <= j < |groups| ==> groups[j].Some? && groups[j].value <= |selected|
    ensures r.Ok? ==> |r.value| == |groups|
                      && forall j :: 0 <= j < |groups| ==> r.value[j] == selected[groups[j].value - 1]
  {
    if groups == [] then Ok([])
    else if groups[0].None? then Err(MissingIndex)
    else if groups[0].value > |selected| then Err(IndexOutOfRange)
    else
      var rest := ResolveCaptured(selected, groups[1..]);
      if rest.Err? then rest else Ok([selected[groups[0].value - 1]] + rest.value)
  }

  function ResolveTypedAsWritten(selected: seq<Word>, typed: seq<int>): Result<seq<Word>, IndexError>
    requires |typed| >= 1 && forall j :: 0 <= j < |typed| ==> typed[j] >= 1
  {
    ResolveCaptured(selected, CapturedGroups(typed))
  }

  /** As written, a confirmation of one valid index is rejected; resolving the typed indices accepts it. */
  lemma SingleIndexRejectedAsWritten(selected: seq<Word>, i: int)
    requires 1 <= i <= |selected|
    ensures ResolveTypedAsWritten(selected, [i]) == Err(MissingIndex)
    ensures ResolveIndices(selected, [i]) == Ok([selected[i - 1]])
  {
    var groups := CapturedGroups([i]);
    assert groups == [Some(i), None];
    assert groups[1..] == [None];
    assert ResolveCaptured(selected, groups[1..]) == Err(MissingIndex);
    var resolved := ResolveIndices(selected, [i]);
    ResolveIndicesElements(selected, [i]);
    assert |resolved.value| == 1 && resolved.value[0] == selected[i - 1];
    assert resolved.value == [selected[i - 1]];
  }

  /** As written, only the first and the last of several typed indices are resolved. */
  lemma MiddleIndicesDroppedAsWritten(selected: seq<Word>, typed: seq<int>)
    requires |typed| >= 2 && forall j :: 0 <= j < |typed| ==> 1 <= typed[j] <= |selected|
    ensures ResolveTypedAsWritten(selected, typed) == Ok([selected[typed[0] - 1], selected[typed[|typed| - 1] - 1]])
    ensures ResolveIndices(selected, typed).Ok? && |ResolveIndices(selected, typed).value| == |typed|
  {
    var groups := CapturedGroups(typed);
    var r := ResolveCaptured(selected, groups);
    assert r.Ok?;
    assert |r.value| == 2 && r.value[0] == selected[typed[0] - 1] && r.value[1] == selected[typed[|typed| - 1] - 1];
    assert r.value == [selected[typed[0] - 1], selected[typed[|typed| - 1] - 1]];
  }
}
