/** The batch moderation step of the chat moderator (main.py, `run`).

    A batch of messages is projected onto its texts, the texts go to a
    toxicity classifier in one call, and each message is paired, in order,
    with one row of class probabilities. Column 1 of a row is the toxicity
    score; a message whose score is below the threshold is allowed, any other
    is deleted. The classifier and the configuration lookup are parameters:
    the model sees only what they return. */
module Moderation {
  import opened Wrappers

  /** Caller-supplied identifier, taken to be a string; echoed back, never
      compared or interpreted. */
  type Id = string

  datatype Message = Message(id: Id, text: string)

  datatype Action = Allow | Delete

  datatype Decision = Decision(id: Id, action: Action, score: real)

  /** The value `run` returns: `{"moderation": [...]}`. */
  datatype Report = Report(moderation: seq<Decision>)

  /** Why a call to `run` aborts without a report. */
  datatype Error =
    | InvalidThreshold(setting: string)  // float() rejected the configured threshold
    | ClassifierFailed                   // tokenizer or model raised
    | MissingToxicColumn                 // a probability row has no index 1 (IndexError)

  /** Threshold used when the setting is absent (main.py:11). */
  const DefaultThreshold: real := 0.1

  /** Index of the toxicity probability in each classifier row (main.py:26). */
  const ToxicLabel: nat := 1

  function Min(a: int, b: int): int {
    if a <= b then a else b
  }

  /** The texts handed to the classifier: one per message, in input order,
      empty texts included (main.py:15). */
  function Texts(messages: seq<Message>): (texts: seq<string>)
    ensures |texts| == |messages|
    ensures forall i :: 0 <= i < |messages| ==> texts[i] == messages[i].text
  {
    if messages == [] then [] else [messages[0].text] + Texts(messages[1..])
  }

  /** Resolves the threshold setting: absent gives the default, present is
      parsed as a float, and a value the parser rejects aborts the call
      (main.py:11). `parseFloat` stands for Python's `float()` on a string. */
  function ResolveThreshold(setting: Option<string>, parseFloat: string -> Option<real>): (r: Result<real, Error>)
    ensures setting.None? ==> r == Success(DefaultThreshold)
    ensures setting.Some? ==> (r.Success? <==> parseFloat(setting.value).Some?)
    ensures setting.Some? && r.Success? ==> r.value == parseFloat(setting.value).value
    ensures r.Failure? ==> setting.Some? && r.error == InvalidThreshold(setting.value)
  {
    match setting
    case None => Success(DefaultThreshold)
    case Some(s) =>
      match parseFloat(s)
      case None => Failure(InvalidThreshold(s))
      case Some(t) => Success(t)
  }

  /** The decision rule of main.py:27. */
  function Decide(score: real, threshold: real): (a: Action)
    ensures a == Delete <==> score >= threshold
    ensures a == Allow <==> score < threshold
  {
    if score < threshold then Allow else Delete
  }

  /** Every row that `zip` pairs with a message has a toxicity column, so
      `p[1]` does not raise. Rows past the end of the batch are never read. */
  predicate ToxicColumnPresent(messages: seq<Message>, probs: seq<seq<real>>) {
    forall i :: 0 <= i < |messages| && i < |probs| ==> ToxicLabel < |probs[i]|
  }

  /** The decision loop of main.py:24-34 over `zip(messages, probs)`: the
      shorter input decides the length, and each pair yields the message id,
      the toxicity score and the action the threshold gives it. */
  function Run(messages: seq<Message>, probs: seq<seq<real>>, threshold: real): (r: seq<Decision>)
    requires ToxicColumnPresent(messages, probs)
    ensures |r| == Min(|messages|, |probs|)
    ensures forall i :: 0 <= i < |r| ==>
      && r[i].id == messages[i].id
      && r[i].score == probs[i][ToxicLabel]
      && (r[i].action == Delete <==> probs[i][ToxicLabel] >= threshold)
  {
    if |messages| == 0 || |probs| == 0 then []
    else
      var score := probs[0][ToxicLabel];
      [Decision(messages[0].id, Decide(score, threshold), score)]
        + Run(messages[1..], probs[1..], threshold)
  }

  /** The same loop written as the source writes it: walk the zipped pairs
      and append one decision per pair. */
  method BuildResults(messages: seq<Message>, probs: seq<seq<real>>, threshold: real)
    returns (results: seq<Decision>)
    requires ToxicColumnPresent(messages, probs)
    ensures results == Run(messages, probs, threshold)
  {
    results := [];
    var n := Min(|messages|, |probs|);
    var k := 0;
    while k < n
      invariant 0 <= k <= n
      invariant |results| == k
      invariant forall i :: 0 <= i < k ==>
        results[i] == Decision(messages[i].id, Decide(probs[i][ToxicLabel], threshold), probs[i][ToxicLabel])
    {
      var m, p := messages[k], probs[k];
      var toxicScore := p[ToxicLabel];
      var action := if toxicScore < threshold then Allow else Delete;
      results := results + [Decision(m.id, action, toxicScore)];
      k := k + 1;
    }
  }

  /** The whole of `run`: resolve the threshold, classify every text in one
      call, then decide each zipped pair. `classify` stands for tokenizer,
      model and sigmoid together; `None` means it raised. Any error aborts
      the call with no partial report. */
  function RunPipeline(
    messages: seq<Message>,
    setting: Option<string>,
    parseFloat: string -> Option<real>,
    classify: seq<string> -> Option<seq<seq<real>>>
  ): (r: Result<Report, Error>)
    ensures r.Failure? && r.error.InvalidThreshold? <==> setting.Some? && parseFloat(setting.value).None?
    ensures r.Failure? && r.error == ClassifierFailed <==>
      ResolveThreshold(setting, parseFloat).Success? && classify(Texts(messages)).None?
    ensures r.Success? <==>
      && ResolveThreshold(setting, parseFloat).Success?
      && classify(Texts(messages)).Some?
      && ToxicColumnPresent(messages, classify(Texts(messages)).value)
    ensures r.Success? ==>
      var probs := classify(Texts(messages)).value;
      var threshold := ResolveThreshold(setting, parseFloat).value;
      && |r.value.moderation| == Min(|messages|, |probs|)
      && forall i :: 0 <= i < |r.value.moderation| ==>
        r.value.moderation[i] == Decision(messages[i].id, Decide(probs[i][ToxicLabel], threshold), probs[i][ToxicLabel])
  {
    match ResolveThreshold(setting, parseFloat)
    case Failure(e) => Failure(e)
    case Success(threshold) =>
      match classify(Texts(messages))
      case None => Failure(ClassifierFailed)
      case Some(probs) =>
        if ToxicColumnPresent(messages, probs) then Success(Report(Run(messages, probs, threshold)))
        else Failure(MissingToxicColumn)
  }
}
