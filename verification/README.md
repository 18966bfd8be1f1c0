# Chat moderator: batch toxicity decisions

A Dafny model of the moderation step of a serverless chat moderator. The
program's `run` function receives a batch of messages, each `{id, text}`. It
resolves a toxicity threshold from the `TOXICITY_THRESHOLD` setting, using
0.1 when the setting is absent. It hands the texts of all messages to a
pretrained toxicity classifier in one call. It then pairs each message with
one row of class probabilities and reads the toxicity score from column 1.
A message whose score is below the threshold is allowed; any other message
is deleted. The result is `{"moderation": [{id, action, score}, ...]}`.

The classifier is the tokenizer, the model forward pass and the sigmoid
taken together. It is not modelled. `Moderation.RunPipeline` takes it as a
function parameter `classify` from texts to probability rows, where `None`
means it raised. The pure decision step `Moderation.Run` takes the rows
directly as `probs`. Scores and thresholds are `real`; the only operation
on them is a comparison.

Files:
- `wrappers.dfy`: `Option` and `Result`.
- `moderation.dfy`: the data model (`Message`, `Action`, `Decision`,
  `Report`, `Error`) and the operations: threshold resolution, text
  projection, the decision rule, the `zip` loop (as a function and as the
  source's append loop), and the whole of `run`.
- `properties.dfy`: lemmas over whole batches and several calls.

### Row-count mismatch
`run` pairs messages and rows with Python's `zip` (main.py:25), which stops
at the shorter input without raising. `Run` therefore yields
`min(|messages|, |probs|)` decisions, and `RunIgnoresExtraRows` and
`RunDropsUnscoredMessages` state that the surplus on either side is dropped
silently.

## Model

| member | source | states |
|---|---|---|
| Moderation.ResolveThreshold | main.py:11 | An unset setting gives 0.1. A set value that the float parser accepts is the threshold. A value it rejects aborts with `InvalidThreshold`, and only then. |
| Moderation.Texts | main.py:15 | The classifier input has one text per message, in input order, with `texts[i] == messages[i].text`. Empty texts are kept and nothing is filtered. |
| Moderation.Decide | main.py:27 | `Delete` exactly when `score >= threshold` and `Allow` exactly when `score < threshold`. A score equal to the threshold is deleted. |
| Moderation.Run | main.py:24-34 | Requires every paired row to have a column 1. The report has `min(|messages|, |probs|)` entries. Entry i carries `messages[i].id` and score `probs[i][1]`, and is `Delete` iff that score is `>= threshold`. |
| Moderation.BuildResults | main.py:24-32 | The append loop over the zipped pairs returns exactly the decision list `Run` specifies. |
| Moderation.RunPipeline | main.py:9-34 | The call fails with `InvalidThreshold` iff the setting is present and unparseable. It fails with `ClassifierFailed` iff the threshold resolved and the classifier raised on `Texts(messages)`. It succeeds iff additionally every paired row has a column 1. On success the report pairs `messages[i]` with row i of the classifier output under the resolved threshold, truncated to the shorter side. |
| ModerationProperties.RunPreservesIds | main.py:25-29 | The report's id list equals the id list of the first `min(|messages|, |probs|)` messages, in order. No id is invented, merged or deduplicated; a repeated id keeps every occurrence. |
| ModerationProperties.RunTruncatesToShorter | main.py:25 | The report for the full inputs equals the report for both inputs cut to their common length. |
| ModerationProperties.RunIgnoresExtraRows | main.py:25 | Rows appended past the end of the batch change nothing and raise nothing. |
| ModerationProperties.RunDropsUnscoredMessages | main.py:25 | Messages appended past the last row get no decision and raise nothing. |
| ModerationProperties.RunSplitsOverBatches | main.py:24-32 | Deciding two aligned batches together gives the concatenation of their separate reports. |
| ModerationProperties.RunDecidesEachMessageAlone | main.py:25-32 | Entry i of the report is what message i with row i gets as a batch of one. |
| ModerationProperties.RunReadsOnlyToxicColumn | main.py:26 | Two classifier outputs that agree on column 1 of every paired row give the same report. Column 0 and any further column are ignored. |
| ModerationProperties.RaisingThresholdOnlyAllowsMore | main.py:27 | With `low <= high`, an entry allowed at `low` is allowed at `high`, and an entry deleted at `high` is deleted at `low`. |
| ModerationProperties.NonPositiveThresholdDeletesAll | main.py:22-27 | With threshold `<= 0` and non-negative scores, as sigmoid outputs are, every entry is `Delete`. |
| ModerationProperties.UnitThresholdDeletesOnlyCertain | main.py:22-27 | With threshold 1 and scores at most 1, an entry is deleted iff its score is exactly 1. |
| ModerationProperties.EmptyBatchGivesEmptyReport | main.py:9-34 | An empty batch yields `{"moderation": []}` whenever the threshold resolves and the classifier returns, whatever rows it returns. |
| ModerationProperties.DefaultThresholdDecisions | main.py:11-27 | Under the default threshold, 0.05 is allowed, while 0.15 and 0.1 itself are deleted. |

## Left out

- Loading the tokenizer and model from `unitary/toxic-bert` (main.py:6-7). This is a foreign library plus disk and network I/O. The loaded handle is shared process-wide, and no concurrency around it is modelled.
- Tokenization, padding, truncation, the forward pass and the sigmoid (main.py:14-22). These are opaque numerical code. They appear only as the `classify` parameter, or as the `probs` rows given to `Run`. Whether the pretrained weights put the toxicity label at index 1 is a property of those weights; the model takes index 1 as the source does.
- Floating point: scores and thresholds are exact reals. NaN, which the comparison at main.py:27 would send to `Delete`, and rounding are not modelled.
- Reading the environment and Python's `float()` on the setting (main.py:11). The setting is an `Option<string>`, and parsing is an abstract `parseFloat` parameter whose `None` stands for `ValueError`.
- Malformed messages: a message is a typed `{id, text}` record, so the `KeyError` that `m["text"]` raises for a message without a text (main.py:15, before the classifier runs), the `KeyError` that `m["id"]` raises for a message without an id inside the `zip` range (main.py:29), and the tokenizer's failure on a non-string text are not modelled.
- Ids: the source echoes any Python value as an id; the model takes ids to be strings (`Moderation.Id`). `run` never compares or inspects an id; it only copies it into the decision.
- `run_id` (main.py:9). It is accepted and never used, so it has no counterpart.
- Idempotence of `run` is not stated as a lemma. Every operation here is a pure function, so equal inputs give equal outputs by construction.
