/**
 * SentimentAnalyzer.get_huggingface_sentiment: the payload is the first 512
 * characters, the reply's best-scoring candidate is mapped to a label by
 * substring tests, and every failure falls back to the rule-based label of
 * the whole text.
 */
module Remote {
  import opened Wrappers
  import opened Seqs
  import opened Chars
  import opened RuleBased

  /** The service's input limit: text[:512]. */
  const MaxPayloadChars := 512

  /** text[:512] */
  function Truncate(text: string): (p: string)
    ensures |p| == if |text| < MaxPayloadChars then |text| else MaxPayloadChars
    ensures p == text[..|p|]
  {
    if |text| <= MaxPayloadChars then text else text[..MaxPayloadChars]
  }

  /** Truncating twice is truncating once, and short texts are sent whole. */
  lemma TruncateIdempotent(text: string)
    ensures Truncate(Truncate(text)) == Truncate(text)
    ensures Truncate(text) == text <==> |text| <= MaxPayloadChars
  {
  }

  /** One element of result[0]: a label (None when absent or not a string) and a numeric score. */
  datatype Candidate = Candidate(labelText: Option<string>, score: real)

  /** result[0]: a list of candidates, or anything else (max(...) over it raises). */
  datatype Entry = Candidates(candidates: seq<Candidate>) | OtherEntry

  /** What response.json() gives: a decoding error, a value that is not a list, or a list. */
  datatype Body = Undecodable | NotAList | JsonList(entries: seq<Entry>)

  /** The outcome of requests.post: an exception, or a reply with its status code and body. */
  datatype Response = PostRaised | Reply(status: int, body: Body)

  function Scores(cs: seq<Candidate>): seq<real>
  {
    seq(|cs|, i requires 0 <= i < |cs| => cs[i].score)
  }

  /** best_result['label'].lower() is tested for "positive" first, then "negative". */
  function LabelSentiment(text: string): (s: Sentiment)
    ensures s == Positive <==> Contains(Lower(text), "positive")
    ensures s == Negative <==> !Contains(Lower(text), "positive") && Contains(Lower(text), "negative")
    ensures s == Neutral <==> !Contains(Lower(text), "positive") && !Contains(Lower(text), "negative")
  {
    var l := Lower(text);
    if Contains(l, "positive") then Positive
    else if Contains(l, "negative") then Negative
    else Neutral
  }

  /** The reply is a 200 whose body is a non-empty list whose first entry is a non-empty candidate list. */
  predicate HasCandidates(response: Response)
  {
    && response.Reply?
    && response.status == 200
    && response.body.JsonList?
    && |response.body.entries| > 0
    && response.body.entries[0].Candidates?
    && |response.body.entries[0].candidates| > 0
  }

  /**
   * The label read from the reply, or None on every route that reaches the
   * fallback: an exception from post, a non-200 status, an undecodable body,
   * a non-list or empty list, a first entry max() cannot run over (including an
   * empty one), or a best candidate whose label cannot be read.
   */
  function Interpret(response: Response): (r: Option<Sentiment>)
    ensures r.Some? ==> HasCandidates(response)
    ensures HasCandidates(response) ==>
      var cs := response.body.entries[0].candidates;
      exists k :: IsFirstMax(Scores(cs), k) &&
        (r.Some? <==> cs[k].labelText.Some?) &&
        (r.Some? ==> r.value == LabelSentiment(cs[k].labelText.value))
  {
    if !HasCandidates(response) then None
    else
      var cs := response.body.entries[0].candidates;
      var k := ArgMax(Scores(cs));
      match cs[k].labelText
      case None => None
      case Some(l) => Some(LabelSentiment(l))
  }

  /** get_huggingface_sentiment(text); post is the remote call, polarity the rule-based scorer. */
  function RemoteSentiment(post: string -> Response, polarity: string -> real, text: string): (s: Sentiment)
    ensures Interpret(post(Truncate(text))).Some? ==> s == Interpret(post(Truncate(text))).value
    ensures Interpret(post(Truncate(text))).None? ==> s == RuleBasedSentiment(polarity, text)
  {
    match Interpret(post(Truncate(text)))
    case Some(s) => s
    case None => RuleBasedSentiment(polarity, text)
  }

  /** A failed call, a non-200 status or a malformed body yields the rule-based label of the untruncated text. */
  lemma RemoteFallback(post: string -> Response, polarity: string -> real, text: string)
    requires !HasCandidates(post(Truncate(text)))
    ensures RemoteSentiment(post, polarity, text) == RuleBasedSentiment(polarity, text)
  {
  }

  /** Only the first 512 characters reach the service: texts that share them get the same remote verdict. */
  lemma RemoteSeesOnlyPayload(post: string -> Response, polarity: string -> real, a: string, b: string)
    requires |a| >= MaxPayloadChars && |b| >= MaxPayloadChars && a[..MaxPayloadChars] == b[..MaxPayloadChars]
    requires Interpret(post(Truncate(a))).Some?
    ensures RemoteSentiment(post, polarity, a) == RemoteSentiment(post, polarity, b)
  {
  }

  /** A label containing both words counts as positive: "positive" is tested first. */
  lemma PositiveWinsOverNegative(text: string)
    requires Contains(Lower(text), "positive") && Contains(Lower(text), "negative")
    ensures LabelSentiment(text) == Positive
  {
  }

  /** The label strings the service uses map to their own sentiment, whatever their case. */
  lemma ServiceLabels()
    ensures LabelSentiment("positive") == Positive
    ensures LabelSentiment("Negative") == Negative
    ensures LabelSentiment("NEUTRAL") == Neutral
  {
    assert Lower("positive") == "positive";
    assert Lower("Negative") == "negative";
    assert "negative"[0] != "positive"[0];
    assert !Contains("negative", "positive");
    assert Lower("NEUTRAL") == "neutral";
  }
}
