/** Review sessions driven through the plugin's commands, checked against their contracts. */
module Scenario {
  import opened Wrappers
  import opened Records
  import opened ForgettingModel
  import opened History
  import opened Plugin

  /** A new user: no session, no words; then two words, a draw, and a rejected index. */
  method FirstReview(decay: Decay)
  {
    var plugin := new VocabPlugin(map[], map[]);
    var confirmed := plugin.Forget("u", [1], 5);
    assert confirmed == Err(NoSession);
    var drawn := plugin.Memo("u", 5, decay);
    assert drawn == Err(NoWordsRecorded);

    plugin.VocabRecord("u", "apple", 10);
    plugin.VocabRecord("u", "banana", 20);
    assert plugin.vocabData["u"].Keys == {"apple", "banana"};
    assert plugin.vocabData["u"]["apple"] == [Record(10, 1, 0)];
    drawn := plugin.Memo("u", 100, decay);
    assert drawn.Ok? && |drawn.value| == 2;
    assert plugin.interactiveCache["u"] == Session(drawn.value, 100);

    confirmed := plugin.Forget("u", [5], 160);
    assert confirmed == Err(BadIndex(IndexOutOfRange));
  }

  /** Confirming index 1 of a live session appends one forgotten record to the first drawn word, and keeps the session. */
  method ConfirmFirst(plugin: VocabPlugin, user: UserId, now: int)
    requires plugin.Valid() && user in plugin.interactiveCache
    requires plugin.interactiveCache[user].selectedWords != []
    modifies plugin
  {
    var session := plugin.interactiveCache[user];
    var first := session.selectedWords[0];
    ghost var before := plugin.vocabData;
    var confirmed := plugin.Forget(user, [1], now);
    ResolveIndicesElements(session.selectedWords, [1]);
    assert confirmed.Ok? && |confirmed.value| == 1 && confirmed.value[0] == first;
    assert confirmed.value == [first];
    ApplyForgetAppends(before, user, confirmed.value, ForgottenAt(now, now - session.ts), first);
    assert multiset(confirmed.value)[first] == 1;
    assert plugin.vocabData[user][first] == before[user][first] + [Record(now, 1, now - session.ts)];
    assert plugin.interactiveCache[user] == session;
  }
}
