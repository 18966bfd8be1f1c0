/** Properties of the batch moderation step that relate several calls or
    whole batches: truncation by `zip`, independence of the per-message
    decisions, identity preservation, the column used, and how the decisions
    move with the threshold. */
module ModerationProperties {
  import opened Wrappers
  import opened Moderation

  /** The ids of a list of messages, in order. */
  function MessageIds(messages: seq<Message>): seq<Id> {
    if messages == [] then [] else [messages[0].id] + MessageIds(messages[1..])
  }

  /** The ids of a list of decisions, in order. */
  function DecisionIds(decisions: seq<Decision>): seq<Id> {
    if decisions == [] then [] else [decisions[0].id] + DecisionIds(decisions[1..])
  }

  /** The id list of the report is the id list of the messages that `zip`
      reached, in order: nothing is invented, merged, dropped or deduplicated, and a
      repeated id appears as often as in the input. */
  lemma {:induction false} RunPreservesIds(messages: seq<Message>, probs: seq<seq<real>>, threshold: real)
    requires ToxicColumnPresent(messages, probs)
    ensures DecisionIds(Run(messages, probs, threshold)) == MessageIds(messages[..Min(|messages|, |probs|)])
  {
    if |messages| == 0 || |probs| == 0 {
    } else {
      var n := Min(|messages|, |probs|);
      assert messages[..n][1..] == messages[1..][..Min(|messages[1..]|, |probs[1..]|)];
      assert ToxicColumnPresent(messages[1..], probs[1..]) by {
        forall i | 0 <= i < |messages[1..]| && i < |probs[1..]|
          ensures ToxicLabel < |probs[1..][i]|
        {
          assert probs[1..][i] == probs[i + 1];
        }
      }
      RunPreservesIds(messages[1..], probs[1..], threshold);
    }
  }

  /** `zip` silently drops whatever lies past the shorter input: the report
      for the whole inputs equals the report for both inputs cut to the
      common length. */
  lemma RunTruncatesToShorter(messages: seq<Message>, probs: seq<seq<real>>, threshold: real)
    requires ToxicColumnPresent(messages, probs)
    ensures var n := Min(|messages|, |probs|);
      ToxicColumnPresent(messages[..n], probs[..n])
      && Run(messages, probs, threshold) == Run(messages[..n], probs[..n], threshold)
  {
  }

  /** Extra probability rows beyond the batch are ignored, with no error. */
  lemma RunIgnoresExtraRows(messages: seq<Message>, probs: seq<seq<real>>, extra: seq<seq<real>>, threshold: real)
    requires |probs| == |messages|
    requires ToxicColumnPresent(messages, probs)
    ensures ToxicColumnPresent(messages, probs + extra)
    ensures Run(messages, probs + extra, threshold) == Run(messages, probs, threshold)
  {
  }

  /** Messages beyond the last probability row get no decision, with no error. */
  lemma RunDropsUnscoredMessages(messages: seq<Message>, more: seq<Message>, probs: seq<seq<real>>, threshold: real)
    requires |probs| == |messages|
    requires ToxicColumnPresent(messages, probs)
    ensures ToxicColumnPresent(messages + more, probs)
    ensures Run(messages + more, probs, threshold) == Run(messages, probs, threshold)
  {
  }

  /** Decisions are made one message at a time: deciding two aligned
      batches together gives the two reports one after the other. */
  lemma RunSplitsOverBatches(m1: seq<Message>, p1: seq<seq<real>>, m2: seq<Message>, p2: seq<seq<real>>, threshold: real)
    requires |m1| == |p1|
    requires ToxicColumnPresent(m1, p1) && ToxicColumnPresent(m2, p2)
    ensures ToxicColumnPresent(m1 + m2, p1 + p2)
    ensures Run(m1 + m2, p1 + p2, threshold) == Run(m1, p1, threshold) + Run(m2, p2, threshold)
  {
  }

  /** The decision for message i is the decision that message would get on
      its own in a batch of one: no other message or score influences it. */
  lemma RunDecidesEachMessageAlone(messages: seq<Message>, probs: seq<seq<real>>, threshold: real, i: nat)
    requires ToxicColumnPresent(messages, probs)
    requires i < |messages| && i < |probs|
    ensures ToxicColumnPresent([messages[i]], [probs[i]])
    ensures Run([messages[i]], [probs[i]], threshold) == [Run(messages, probs, threshold)[i]]
  {
  }

  /** Only column 1 of a row matters: two classifier outputs that agree on
      the toxicity column of every paired row give the same report,
      whatever column 0 or any further column holds. */
  lemma RunReadsOnlyToxicColumn(messages: seq<Message>, probs: seq<seq<real>>, probs': seq<seq<real>>, threshold: real)
    requires |probs| == |probs'|
    requires ToxicColumnPresent(messages, probs) && ToxicColumnPresent(messages, probs')
    requires forall i :: 0 <= i < |messages| && i < |probs| ==> probs[i][ToxicLabel] == probs'[i][ToxicLabel]
    ensures Run(messages, probs, threshold) == Run(messages, probs', threshold)
  {
  }

  /** Raising the threshold never turns an allowed message into a deleted
      one, and lowering it never turns a deleted one into an allowed one. */
  lemma RaisingThresholdOnlyAllowsMore(messages: seq<Message>, probs: seq<seq<real>>, low: real, high: real, i: nat)
    requires ToxicColumnPresent(messages, probs)
    requires low <= high
    requires i < |messages| && i < |probs|
    ensures Run(messages, probs, low)[i].action == Allow ==> Run(messages, probs, high)[i].action == Allow
    ensures Run(messages, probs, high)[i].action == Delete ==> Run(messages, probs, low)[i].action == Delete
  {
  }

  /** Sigmoid outputs are never negative, so a threshold at or below zero
      deletes every message that gets a decision. */
  lemma NonPositiveThresholdDeletesAll(messages: seq<Message>, probs: seq<seq<real>>, threshold: real)
    requires ToxicColumnPresent(messages, probs)
    requires threshold <= 0.0
    requires forall i :: 0 <= i < |messages| && i < |probs| ==> probs[i][ToxicLabel] >= 0.0
    ensures forall d :: d in Run(messages, probs, threshold) ==> d.action == Delete
  {
  }

  /** With the threshold at 1 and scores in [0, 1], only a score of exactly
      1 is deleted. */
  lemma UnitThresholdDeletesOnlyCertain(messages: seq<Message>, probs: seq<seq<real>>)
    requires ToxicColumnPresent(messages, probs)
    requires forall i :: 0 <= i < |messages| && i < |probs| ==> probs[i][ToxicLabel] <= 1.0
    ensures forall d :: d in Run(messages, probs, 1.0) ==> (d.action == Delete <==> d.score == 1.0)
  {
  }

  /** The whole of `run` (main.py:9-34) on an empty batch yields an empty
      report whenever the threshold resolves and the classifier returns,
      whatever rows it returned. */
  lemma EmptyBatchGivesEmptyReport(
    setting: Option<string>,
    parseFloat: string -> Option<real>,
    classify: seq<string> -> Option<seq<seq<real>>>
  )
    requires ResolveThreshold(setting, parseFloat).Success?
    requires classify([]).Some?
    ensures RunPipeline([], setting, parseFloat, classify) == Success(Report([]))
  {
  }

  /** With the setting unset, the default threshold 0.1 applies: a score of
      0.05 is allowed, 0.15 deleted, and 0.1 itself deleted. */
  lemma DefaultThresholdDecisions()
    ensures Decide(0.05, ResolveThreshold(None, _ => None).value) == Allow
    ensures Decide(0.15, ResolveThreshold(None, _ => None).value) == Delete
    ensures Decide(0.1, ResolveThreshold(None, _ => None).value) == Delete
  {
  }
}
