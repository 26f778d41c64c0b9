# Spaced-repetition engine of the English vocabulary plugin

This project models the review engine of the chat-bot plugin's class `Main`. It is written in Dafny and verified.

The plugin keeps a history for each user, mapping every recorded word to a list of review records `[time, response, cost]`. Its parts are:

- **Recording.** Recording a word appends a "forgotten" record to that word's list.
- **Forgetting probability.** Each recorded word gets a probability. It is the word's difficulty / 10, scaled by a recency-weighted average of the records' responses.
- **Draw (`memo`).** `memo` draws min(10, N) of the user's N words, with replacement and weighted by those probabilities. The draw becomes the user's one session, replacing any earlier session.
- **Confirmation (`forget`).** `forget` resolves 1-based indices against the session's draw. It appends a forgotten record, whose cost is the time since the draw, to every resolved word that is still in the history. It never clears the session.

Layout:

- `wrappers.dfy`: the `Option` and `Result` types, and `Min`.
- `records.dfy`: the `MemoryResponse` enumeration with its integer codes, and the review record.
- `forgetting.dfy`: the forgetting model as functions, with lemmas about its bounds. It also has `WordForgetProbability`, the accumulation loop for one word, proved equal to the model.
- `history.dfy`: the history as a value. It holds the pure transitions made by recording a word (`AppendRecord`) and by confirming words (`ApplyForget`), all-or-nothing index resolution (`ResolveIndices`), and the source's regular-expression capture of the indices as written.
- `plugin.dfy`: the class `VocabPlugin`, which stands for class `Main`. It has the fields `vocabData`, `interactiveCache` and `difficultyData`, and one method per command. Each method is proved against the transitions of `history.dfy` and the model of `forgetting.dfy`. `Valid()` states that every session belongs to a user with a history and names only words of that history. Every method preserves it.
- `scenario.dfy`: two client methods that drive the commands and rely only on their contracts.

Abstractions:

- **Clock.** `time.time()` becomes a `now` parameter, in whole seconds.
- **Recency weight.** `exp(-0.1 * days)` becomes a `Decay`. A `Decay` is any function from a record's age in seconds to a strictly positive real.
- **Arithmetic.** Float arithmetic becomes exact `real` arithmetic.
- **Random draw.** `random.choices` becomes `Choices`. It returns any sequence of the requested length whose elements come from the population.

## Model

| member | source | states |
|---|---|---|
| `Records.MemoryResponse.Value` | main.py:14-17 | The codes are 3, 2 and 1. Code 1 belongs to Forgotten and to no other response. |
| `Records.ResponseOf` | main.py:14-17 | Looking up a response by its value succeeds exactly for 1..3, and it inverts `Value`. |
| `ForgettingModel.ForgetProbabilities` | main.py:107-135 | The result has exactly one entry for each word the user has recorded. |
| `ForgettingModel.WordForgetProbability` | main.py:113-133 | The per-word loop returns the model's probability. It normalises the difficulty, sums the influences and the influence × adjustment products record by record, and divides when the influence sum is positive. |
| `ForgettingModel.ProbabilityWithoutRecords` | main.py:113-116 | A word without records gets its difficulty / 10. A word missing from the table gets 0.3. |
| `ForgettingModel.InfluenceSumSign` | main.py:118-131 | The influence sum is 0 for no records and positive otherwise. So the `else` branch at line 131 applies exactly to empty record lists. |
| `ForgettingModel.WeightedSumBetween` | main.py:121-126 | Adjustments are 1.0 or 0.5, so the weighted sum lies between half the influence sum and the whole of it. |
| `ForgettingModel.ProbabilityBounds` | main.py:121-129 | With at least one record and a non-negative difficulty, the probability lies in [0.5·d, d]. |
| `ForgettingModel.ProbabilityAllForgotten` | main.py:123-129 | When every record's response is 1 (Forgotten), the probability is exactly d. |
| `ForgettingModel.ProbabilityInUnitInterval` | main.py:113-133 | A difficulty in 0..10 gives a probability in [0, 1]. |
| `ForgettingModel.ProbabilityPositive` | main.py:113-133 | A difficulty of at least 1 gives a strictly positive probability. |
| `ForgettingModel.ProbabilitiesInRange` | main.py:112-135 | With a table whose values all lie in 1..10, every word's probability lies in (0, 1]. |
| `ForgettingModel.MarkForgottenSums` | main.py:121-126 | Turning one record into Forgotten leaves the influence sum unchanged and does not lower the weighted sum. |
| `ForgettingModel.ProbabilityMonotoneInForgotten` | main.py:121-129 | With every age held fixed, turning one response into Forgotten never lowers the probability. |
| `History.AppendRecord` | main.py:84-90 | Exactly one record is appended at the end of the word's list. The user and word entries are created when missing, with no deduplication. Every other user and every other word keeps its records. |
| `History.AppendRecordExtends` | main.py:84-90 | Recording removes or rewrites no earlier record. |
| `History.ApplyForget` | main.py:179-182 | The confirmation appends change no key set and no other user's history. |
| `History.ApplyForgetAppends` | main.py:179-182 | A word present in the history gains one record per occurrence among the resolved words, so duplicates append repeatedly. |
| `History.ApplyForgetSkipsAbsent` | main.py:180 | A resolved word missing from the history is skipped and stays missing. |
| `History.ApplyForgetExtends` | main.py:179-182 | A confirmation only appends. Every earlier history is a prefix of the new one. |
| `History.ApplyForgetNonepresent` | main.py:179-182 | When no resolved word is in the history, nothing changes. |
| `History.ResolveIndices` | main.py:177 | Resolution succeeds exactly when every index is at most the draw's length, and then yields one word per index. Otherwise it fails as a whole with IndexOutOfRange. |
| `History.ResolveIndicesElements` | main.py:177 | Index i resolves to the i-th drawn word, counting from 1. |
| `History.ResolveCaptured` | main.py:176-177 | The as-written resolution of the captured groups succeeds exactly when every group has a value within the draw, and then yields the words at those positions. |
| `History.SingleIndexRejectedAsWritten` | main.py:176-177 | As written, confirming a single valid index fails, while resolving the typed index succeeds. |
| `History.MiddleIndicesDroppedAsWritten` | main.py:176-177 | As written, only the first and the last typed indices are resolved. |
| `Plugin.Items` | main.py:148-152 | The two parallel lists have one position per entry of the map, hold every word, and pair each word with its probability. |
| `Plugin.SumPositive` | main.py:154 | A non-empty list of positive weights has a positive sum, so the normalisation does not divide by zero. |
| `Plugin.Choices` | main.py:155 | The draw has exactly k elements, each from the population. |
| `Plugin.VocabPlugin.constructor` | main.py:72-78 | The plugin starts from the stored vocabulary data, the given difficulty table and no sessions. |
| `Plugin.VocabPlugin.VocabRecord` | main.py:80-90 | The new history is `AppendRecord` of the old one with the record `[now, 1, 0]`. Sessions are unchanged. |
| `Plugin.VocabPlugin.ComputeForgetProbability` | main.py:107-135 | The loop over the user's words returns `ForgetProbabilities` of the user's history. |
| `Plugin.VocabPlugin.Memo` | main.py:137-161 | See the notes below the table. |
| `Plugin.VocabPlugin.AppendForgotten` | main.py:179-182 | The appending loop yields `ApplyForget` of the old history with the record `[now, 1, now - ts]`, and keeps `Valid()`. |
| `Plugin.VocabPlugin.Forget` | main.py:170-182 | See the notes below the table. |

`Plugin.VocabPlugin.Memo`:

- The result is the "no words recorded" error exactly when the user has no entry or an empty word map. On any error, the sessions are unchanged.
- On success, the draw has length min(10, N), and every drawn word is a key of the user's history. The user's session becomes `(draw, now)`.
- The history is never modified.
- Under a table with values in 1..10, every user with words gets a draw.

`Plugin.VocabPlugin.Forget`:

- Without a session, the result is the "use .memo first" error.
- With a session, the result is `ResolveIndices` of the session's draw. An index beyond the draw fails with no partial update.
- On success, the history becomes `ApplyForget` with the record `[now, 1, now - ts]`.
- The session is never cleared.

## Findings

| source | as written | input that shows it | evidently intended | confidence | as-written member | corrected member |
|---|---|---|---|---|---|---|
| main.py:176-177 | `re.match(...).groups()` yields `(first index, None)` for one typed index, and `int(None)` raises `TypeError`. | `.1` after any draw: the confirmation fails, and nothing is recorded. | Every typed index is resolved. | high; not executed | `History.SingleIndexRejectedAsWritten` | `History.ResolveIndices` |
| main.py:176-177 | A repeated capture group keeps only its last repetition, so the middle indices of `.1 2 3` are lost. | `.1 2 3` after a draw of three words: only words 1 and 3 are confirmed. | Words 1, 2 and 3 are confirmed. | high; not executed | `History.MiddleIndicesDroppedAsWritten` | `History.ResolveIndices` |

`Plugin.VocabPlugin.Forget` uses the corrected resolution. It takes the typed indices as a sequence of integers ≥ 1, which the command's pattern `[1-9][0-9]*` guarantees.

## Left out

- LLM calls and replies: the definition lookup and the reply formatting (main.py:95-105, and the reply text of `memo`) are foreign asynchronous calls and message transport.
- File I/O: JSON persistence of the vocabulary data (main.py:68-76, main.py:92-93, main.py:184-185) and loading the TSV difficulty table (main.py:60-66) are not modelled. The constructor takes the loaded table and the loaded data as values.
- Command registration (main.py:54-56), the extraction of the word from the message (main.py:82), and the bot framework's `Context` and `CommandResult` types are not modelled. `async` is dropped, because the commands never suspend between their reads and writes of the plugin's state.
- `math.exp` and float division: weights are abstracted to any positive `Decay`, and arithmetic is exact over `real`. So float underflow of very old records (weight 0.0) and float overflow for far-future timestamps are not modelled.
- `Plugin.Choices`: models `random.choices` only by the length of the draw and the membership of its elements. The weighted distribution (main.py:154-155) is randomness and is not captured.
- `Plugin.VocabPlugin.Memo`: reads one `now` both for the probabilities (main.py:110) and for the session's timestamp (main.py:161). The source reads the clock twice.
- `Plugin.VocabPlugin.Forget`: reads one `now` for every appended record. The source reads the clock again for each word (main.py:181-182).
- `Plugin.VocabPlugin.Forget`: requires the class invariant `Valid()`, which every method keeps. Under it, a session's user always has a history, so the source's unguarded `self.vocab_data[unified_id]` lookup cannot fail. The skip of absent words is stated on `History.ApplyForget` for any history.
- Python dict order: `Items` and `ComputeForgetProbability` visit the words in an unspecified order. The source visits them in insertion order, which only affects how the random draw maps to words.
- `Plugin.VocabPlugin.Forget`: returns the resolved words on success. The source only replies with a fixed confirmation text.
- `RETRIEVE_NUM = 20` (main.py:12) is never used by the source. The draw size is the literal 10 at main.py:153, which is `Plugin.DrawSize`.
