/**
 * The SentimentAnalyzer object: its fitted vectorizer and model, the is_trained
 * flag, train_ml_model and predict_sentiment's dispatch between the three
 * strategies.
 */
module Analyzer {
  import opened Wrappers
  import opened RuleBased
  import opened Remote
  import opened Preprocessing
  import opened Classifier
  import opened SampleData

  /**
   * The collaborators the analyzer calls but whose code is not modelled: the
   * outcome of loading the stopword list (None when it raises), the lexicon
   * polarity scorer, the HTTP call to the hosted model, and the naive Bayes
   * joint log-likelihood.
   */
  datatype Env = Env(
    stopwords: Option<set<string>>,
    polarity: string -> real,
    post: string -> Response,
    jointLogLikelihood: LogLikelihood)

  /** The three prediction strategies. */
  datatype Strategy = Lexicon | HostedModel | TrainedModel

  /** predict_sentiment's if/elif chain: which strategy a method name selects. */
  function Route(methodName: string, trained: bool): (s: Strategy)
    ensures s == HostedModel <==> methodName == "huggingface"
    ensures s == TrainedModel <==> methodName == "ml" && trained
    ensures s == Lexicon <==> methodName != "huggingface" && !(methodName == "ml" && trained)
  {
    if methodName == "textblob" then Lexicon
    else if methodName == "huggingface" then HostedModel
    else if methodName == "ml" && trained then TrainedModel
    else Lexicon
  }

  /** Any method name other than the three known ones falls back to the lexicon rule. */
  lemma UnknownMethodFallsBack(methodName: string, trained: bool)
    requires methodName != "textblob" && methodName != "huggingface" && methodName != "ml"
    ensures Route(methodName, trained) == Lexicon
  {
  }

  /** 'ml' before training falls back to the lexicon rule; the web layer's default 'bert' always does. */
  lemma FallbackCases(trained: bool)
    ensures Route("ml", false) == Lexicon
    ensures Route("bert", trained) == Lexicon
  {
    assert "bert"[0] != "huggingface"[0] && "bert"[0] != "ml"[0];
  }

  /** The preprocessed training corpus: [preprocess_text(t) for t in texts]. */
  function PreprocessAll(texts: seq<string>, stopwords: Option<set<string>>): (docs: seq<string>)
    ensures |docs| == |texts|
    ensures forall i :: 0 <= i < |texts| ==> docs[i] == Preprocess(Text(texts[i]), stopwords)
    ensures forall i :: 0 <= i < |docs| ==> IsCleanText(docs[i])
  {
    assert forall i :: 0 <= i < |texts| ==> IsCleanText(Preprocess(Text(texts[i]), stopwords)) by {
      forall i | 0 <= i < |texts| {
        PreprocessContract(Text(texts[i]), stopwords);
      }
    }
    seq(|texts|, i requires 0 <= i < |texts| => Preprocess(Text(texts[i]), stopwords))
  }

  /** Where train_ml_model stops: fit_transform, model.fit, or the hold-out evaluation. */
  datatype TrainStep = Vectorizing | Fitting | Evaluating

  /** train_ml_model returned normally, or raised during a step. */
  datatype TrainOutcome = Completed | Raised(step: TrainStep)

  class SentimentAnalyzer {
    var vectorizer: Option<Vectorizer>
    var model: Option<NaiveBayes>
    var isTrained: bool

    /** The 'ml' route is only taken with a fitted vectorizer and a model that has seen a label. */
    ghost predicate Valid()
      reads this
    {
      isTrained ==> vectorizer.Some? && model.Some? && model.value.labels != []
    }

    /** __init__: an unfitted vectorizer and model, not trained. */
    constructor ()
      ensures Valid()
      ensures vectorizer == None && model == None && !isTrained
    {
      vectorizer := None;
      model := None;
      isTrained := false;
    }

    /**
     * train_ml_model(texts, labels). fit_transform raises when no preprocessed
     * document has a term; model.fit raises when the lists differ in length,
     * after the vectorizer has been refitted. is_trained is set right after the
     * fit, before the evaluation, whose train_test_split(test_size=0.2) raises
     * for a single sample, so the flag stays set although the call raises.
     */
    method TrainMlModel(texts: seq<string>, labels: seq<string>, env: Env) returns (outcome: TrainOutcome)
      requires Valid()
      modifies this
      ensures Valid()
      ensures var docs := PreprocessAll(texts, env.stopwords);
        if !HasVocabulary(docs) then
          outcome == Raised(Vectorizing)
          && vectorizer == old(vectorizer) && model == old(model) && isTrained == old(isTrained)
        else if |labels| != |texts| then
          outcome == Raised(Fitting)
          && vectorizer == Some(Vectorizer(docs)) && model == old(model) && isTrained == old(isTrained)
        else
          && vectorizer == Some(Vectorizer(docs))
          && model == Some(NaiveBayes(docs, labels))
          && isTrained
          && outcome == (if |texts| == 1 then Raised(Evaluating) else Completed)
    {
      var docs := PreprocessAll(texts, env.stopwords);
      if !HasVocabulary(docs) {
        return Raised(Vectorizing);
      }
      vectorizer := Some(Vectorizer(docs));
      if |labels| != |texts| {
        return Raised(Fitting);
      }
      model := Some(NaiveBayes(docs, labels));
      isTrained := true;
      if |texts| == 1 {
        return Raised(Evaluating);
      }
      return Completed;
    }

    /** Every label the model was fitted on is a sentiment name. */
    ghost predicate LabelsAreSentimentNames()
      reads this
    {
      model.Some? ==> forall l :: l in model.value.labels ==> IsSentimentName(l)
    }

    /**
     * predict_sentiment(text, method): the lexicon rule for 'textblob', the hosted
     * model for 'huggingface', the fitted classifier on the preprocessed text for
     * 'ml' once trained, and the lexicon rule for everything else. The text may
     * be any value: one that is not a string reaches the lexicon on every route
     * but the trained one, and the lexicon raises TypeError on it (None here);
     * the trained route preprocesses it to the empty document and predicts.
     */
    function PredictSentiment(text: Arg, methodName: string, env: Env): (r: Option<string>)
      reads this
      requires Valid()
      ensures Route(methodName, isTrained) != TrainedModel ==> (r.None? <==> text.NotText?)
      ensures Route(methodName, isTrained) == TrainedModel ==> r.Some? && r.value in model.value.labels
      ensures text.Text? && Route(methodName, isTrained) == Lexicon ==>
        r == Some(RuleBasedSentiment(env.polarity, text.s).Name())
      ensures text.Text? && Route(methodName, isTrained) == HostedModel ==>
        r == Some(RemoteSentiment(env.post, env.polarity, text.s).Name())
      ensures Route(methodName, isTrained) == TrainedModel ==>
        r == Some(Predict(vectorizer.value, model.value, Preprocess(text, env.stopwords), env.jointLogLikelihood))
      ensures text.NotText? && Route(methodName, isTrained) == TrainedModel ==>
        r == Some(Predict(vectorizer.value, model.value, "", env.jointLogLikelihood))
      ensures r.Some? && LabelsAreSentimentNames() ==> IsSentimentName(r.value)
    {
      match Route(methodName, isTrained)
      case Lexicon =>
        if text.NotText? then None
        else
          NameInjective(RuleBasedSentiment(env.polarity, text.s), Neutral);
          Some(RuleBasedSentiment(env.polarity, text.s).Name())
      case HostedModel =>
        if text.NotText? then None
        else
          NameInjective(RemoteSentiment(env.post, env.polarity, text.s), Neutral);
          Some(RemoteSentiment(env.post, env.polarity, text.s).Name())
      case TrainedModel =>
        var doc := Preprocess(text, env.stopwords);
        Some(Predict(vectorizer.value, model.value, doc, env.jointLogLikelihood))
    }
  }

  /**
   * Start-up: construct the analyzer and train it on the sample data. When
   * training succeeds the 'ml' route is open and, since every sample label is
   * a sentiment name, every prediction is one of the three names.
   */
  method Bootstrap(env: Env) returns (analyzer: SentimentAnalyzer, outcome: TrainOutcome)
    ensures fresh(analyzer) && analyzer.Valid()
    ensures analyzer.isTrained <==> HasVocabulary(PreprocessAll(CreateSampleData().0, env.stopwords))
    ensures analyzer.isTrained <==> outcome == Completed
    ensures analyzer.LabelsAreSentimentNames()
  {
    analyzer := new SentimentAnalyzer();
    var (texts, labels) := CreateSampleData();
    outcome := analyzer.TrainMlModel(texts, labels, env);
  }
}
