/**
 * The fitted state behind the 'ml' strategy: a TF-IDF vectorizer and a
 * multinomial naive Bayes model. The numerics are not modelled: the vectorizer
 * is known by the documents it was fitted on, the model by its training data,
 * and the model's joint log-likelihood is a function supplied by the caller.
 */
module Classifier {
  import opened Seqs
  import opened Chars

  /** TfidfVectorizer(max_features=5000) after fit_transform on these preprocessed documents. */
  datatype Vectorizer = Vectorizer(documents: seq<string>)

  /** MultinomialNB after fit on the vectorized documents and these labels. */
  datatype NaiveBayes = NaiveBayes(documents: seq<string>, labels: seq<string>)

  /** The joint log-likelihood of a class for a document, under a fitted vectorizer and model. */
  type LogLikelihood = (Vectorizer, NaiveBayes, string, string) -> real

  /** The default token pattern `\b\w\w+\b` finds a term in doc: two adjacent word characters. */
  predicate HasTerm(doc: string)
  {
    exists i :: 0 <= i < |doc| - 1 && IsWordChar(doc[i]) && IsWordChar(doc[i + 1])
  }

  /** fit_transform raises "empty vocabulary" unless some document has a term. */
  predicate HasVocabulary(docs: seq<string>)
  {
    exists k :: 0 <= k < |docs| && HasTerm(docs[k])
  }

  /** No value occurs twice. */
  predicate NoDuplicates(s: seq<string>)
  {
    forall i, j :: 0 <= i < j < |s| ==> s[i] != s[j]
  }

  /** The model's classes: the distinct labels, in order of first occurrence. */
  function Classes(labels: seq<string>): (cs: seq<string>)
    ensures forall l :: l in cs <==> l in labels
    ensures NoDuplicates(cs)
  {
    if labels == [] then []
    else
      var init, last := labels[..|labels| - 1], labels[|labels| - 1];
      var cs := Classes(init);
      assert labels == init + [last];
      if last in cs then cs else cs + [last]
  }

  /**
   * model.predict(vectorizer.transform([doc]))[0]: the class with the largest
   * joint log-likelihood, the earliest class on ties (numpy's argmax).
   */
  function Predict(vectorizer: Vectorizer, model: NaiveBayes, doc: string, jll: LogLikelihood): (predicted: string)
    requires model.labels != []
    ensures predicted in model.labels
    ensures forall c :: c in model.labels ==> jll(vectorizer, model, doc, c) <= jll(vectorizer, model, doc, predicted)
  {
    var cs := Classes(model.labels);
    var scores := seq(|cs|, i requires 0 <= i < |cs| => jll(vectorizer, model, doc, cs[i]));
    var k := ArgMax(scores);
    assert forall c :: c in model.labels ==> jll(vectorizer, model, doc, c) <= scores[k] by {
      forall c | c in model.labels
        ensures jll(vectorizer, model, doc, c) <= scores[k]
      {
        var i :| 0 <= i < |cs| && cs[i] == c;
        assert scores[i] == jll(vectorizer, model, doc, c);
      }
    }
    cs[k]
  }
}
