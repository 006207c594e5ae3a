/**
 * The sentiment labels and SentimentAnalyzer.get_textblob_sentiment: a polarity
 * score, supplied by the lexicon scorer, is cut into three labels at +/-0.1.
 */
module RuleBased {

  datatype Sentiment = Positive | Negative | Neutral
  {
    /** The label string the analyzer returns. */
    function Name(): string
    {
      match this
      case Positive => "positive"
      case Negative => "negative"
      case Neutral => "neutral"
    }

    /** Order of the labels along the polarity axis. */
    function Rank(): int
    {
      match this
      case Negative => -1
      case Neutral => 0
      case Positive => 1
    }

    /** The label on the other side of neutral. */
    function Mirror(): Sentiment
    {
      match this
      case Positive => Negative
      case Negative => Positive
      case Neutral => Neutral
    }
  }

  /** One of the three label strings. */
  predicate IsSentimentName(s: string)
  {
    s == "positive" || s == "negative" || s == "neutral"
  }

  /** Distinct labels have distinct names, and every name is a label string. */
  lemma NameInjective(a: Sentiment, b: Sentiment)
    ensures IsSentimentName(a.Name())
    ensures a.Name() == b.Name() ==> a == b
  {
    if a != b {
      assert a.Name()[2] != b.Name()[2];
    }
  }

  /**
   * The literal 0.1 of the comparisons, as the double Python compares against:
   * 3602879701896397 / 2^55, slightly above one tenth.
   */
  const Threshold: real := 0.1000000000000000055511151231257827021181583404541015625

  /** The decision of get_textblob_sentiment for a polarity score. */
  function FromPolarity(polarity: real): (s: Sentiment)
    ensures s == Positive <==> polarity > Threshold
    ensures s == Negative <==> polarity < -Threshold
    ensures s == Neutral <==> -Threshold <= polarity <= Threshold
  {
    if polarity > Threshold then Positive
    else if polarity < -Threshold then Negative
    else Neutral
  }

  /** A higher polarity never gives a label lower on the axis. */
  lemma FromPolarityMonotone(p: real, q: real)
    requires p <= q
    ensures FromPolarity(p).Rank() <= FromPolarity(q).Rank()
  {
  }

  /** The two thresholds are symmetric: negating the score mirrors the label. */
  lemma FromPolarityMirror(p: real)
    ensures FromPolarity(-p) == FromPolarity(p).Mirror()
  {
  }

  /** Exactly 0.1 and exactly -0.1 are neutral; zero (the empty text's score) is neutral. */
  lemma FromPolarityBoundaries()
    ensures FromPolarity(Threshold) == Neutral && FromPolarity(-Threshold) == Neutral
    ensures FromPolarity(0.1) == Neutral && FromPolarity(-0.1) == Neutral
    ensures FromPolarity(0.0) == Neutral
  {
  }

  /** get_textblob_sentiment(text), with the lexicon scorer as a parameter. */
  function RuleBasedSentiment(polarity: string -> real, text: string): (s: Sentiment)
    ensures s == Positive <==> polarity(text) > Threshold
    ensures s == Negative <==> polarity(text) < -Threshold
    ensures IsSentimentName(s.Name())
  {
    FromPolarity(polarity(text))
  }
}
