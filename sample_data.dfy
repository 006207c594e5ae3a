/** create_sample_data: the fifteen labelled sentences the analyzer is trained on at start-up. */
module SampleData {
  import opened RuleBased

  /**
   * The (texts, labels) pair: aligned lists of fifteen entries whose labels are
   * sentiment names, with all three classes present (6, 5 and 4 times).
   */
  function CreateSampleData(): (data: (seq<string>, seq<string>))
    ensures |data.0| == |data.1| == 15
    ensures forall l :: l in data.1 ==> IsSentimentName(l)
    ensures multiset(data.1)["positive"] == 6
    ensures multiset(data.1)["negative"] == 5
    ensures multiset(data.1)["neutral"] == 4
  {
    var texts := [
      "I love this product! It's amazing!",
      "This is the worst experience ever.",
      "The product is okay, nothing special.",
      "Fantastic service and great quality!",
      "Terrible customer support, very disappointed.",
      "It's fine, works as expected.",
      "Outstanding performance and excellent value!",
      "Poor quality and bad packaging.",
      "Average product, meets basic needs.",
      "Brilliant features and wonderful design!",
      "Absolutely hate this, waste of money!",
      "Good value for the price paid.",
      "Not bad but could be better.",
      "Excellent product highly recommended!",
      "Very poor quality do not buy!"
    ];
    var labels := [
      "positive", "negative", "neutral", "positive", "negative",
      "neutral", "positive", "negative", "neutral", "positive",
      "negative", "positive", "neutral", "positive", "negative"
    ];
    (texts, labels)
  }
}
