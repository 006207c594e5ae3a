# Sentiment analyzer model

This project models the core of the tweet sentiment service: the
`SentimentAnalyzer` class in `sentiment_model.py` and its training data, in Dafny.

- **Preprocessing** (`preprocess_text`). Text is cleaned in five steps:
  - drop URLs (`http` followed by non-space characters);
  - drop `@mentions` and `#hashtags`;
  - drop every character that is neither a word character nor whitespace;
  - lower-case the result;
  - split on whitespace and keep the tokens longer than two characters that are not stopwords, joined by single spaces.

  If the stopword list cannot be loaded, the lower-cased text is returned as it is. A non-string argument gives the empty string.
- **Rule-based strategy** (`get_textblob_sentiment`). A polarity score becomes `positive` above 0.1, `negative` below -0.1, and `neutral` otherwise.
- **Hosted-model strategy** (`get_huggingface_sentiment`).
  - The first 512 characters are posted.
  - On a 200 reply with a non-empty list, the best-scoring candidate of the first entry is mapped by substring tests on its lower-cased label: "positive" is tested first, then "negative".
  - Every other outcome falls back to the rule-based label of the full text.
- **Trained strategy** (`train_ml_model`, `predict_sentiment` with `'ml'`). A TF-IDF vectorizer and a multinomial naive Bayes model are fitted on the preprocessed texts. Prediction returns the class with the largest joint log-likelihood, taking the first such class.
- **Dispatch** (`predict_sentiment`). The method name selects the strategy. `'ml'` before training, and any unknown name, fall back to the rule-based strategy. The text may be any value: a non-string raises TypeError on every route but the trained one, which preprocesses it to the empty document.
- **Sample data** (`create_sample_data`), and start-up training on it.

Calls into libraries are parameters of the model, gathered in `Analyzer.Env`:
- the stopword list: `None` when loading it raises;
- the lexicon polarity scorer;
- the HTTP post;
- the naive Bayes joint log-likelihood.

Modules:
- `Wrappers`: `Option`.
- `Seqs`: subsequences, substring search, first arg-max.
- `Chars`: Python's `\w`, `\s` and `lower()` on characters.
- `Preprocessing`, `RuleBased`, `Remote`, `Classifier`, `SampleData`, `Analyzer`.

`preprocess_text` is not idempotent. `"htt.pfoo"` gives `"httpfoo"`, which
matches the URL pattern, so a second pass deletes it and yields `""`. See
`Preprocessing.PreprocessNotIdempotent`.

## Model

| member | source | states |
|---|---|---|
| Preprocessing.NonSpaceRun | sentiment_model.py:37 | the length of the maximal run of non-whitespace characters at the head, which is what `\S+` consumes greedily |
| Preprocessing.WordRun | sentiment_model.py:38-39 | the length of the maximal run of word characters at the head, which is what `\w+` consumes greedily |
| Preprocessing.RemoveUrls | sentiment_model.py:37 | deleting the URL matches never lengthens the text; what it deletes and keeps is fixed by `NoUrlIdentity`, `RemoveUrlsCutsAtFirstMatch` and `RemoveUrlsSplitsAtSpace` |
| Preprocessing.RemoveUrlsHead | sentiment_model.py:37 | the first surviving character is whitespace, or is the original first character at a position where no URL starts |
| Preprocessing.RemoveUrlsKeepsSolidPrefix | sentiment_model.py:37 | a whitespace-free prefix of the output is also a prefix of the input, and no URL started there |
| Preprocessing.NoUrlAtStart | sentiment_model.py:37 | the output does not begin with a URL |
| Preprocessing.NoUrlAfterRemoval | sentiment_model.py:37 | no URL match starts anywhere in the output: `re.sub` leaves no URL behind |
| Preprocessing.NoUrlIdentity | sentiment_model.py:37 | text in which no URL match starts is returned unchanged |
| Preprocessing.UrlAtShift | sentiment_model.py:37 | a match at position i of the text without its first character is a match at i + 1 of the text |
| Preprocessing.NonSpaceRunStops | sentiment_model.py:37 | `\S+` stops at the first whitespace character, whatever follows it |
| Preprocessing.UrlAtFrontOfSplit | sentiment_model.py:37 | what follows a whitespace character does not change whether a URL starts the text |
| Preprocessing.RemoveUrlsSplitsAtSpace | sentiment_model.py:37 | the URL step handles the text before a whitespace character and the text from it on separately, and concatenates the results |
| Preprocessing.NonSpaceRunOfToken | sentiment_model.py:37 | `\S+` over whitespace-free text followed by whitespace or the end takes exactly that text |
| Preprocessing.RemoveUrlsOfMatch | sentiment_model.py:37 | a whole greedy URL match at the front is deleted, and the step goes on after it |
| Preprocessing.NoUrlInTail | sentiment_model.py:37 | a prefix in which no match starts keeps that property without its first character |
| Preprocessing.RemoveUrlsKeepsUnmatchedPrefix | sentiment_model.py:37 | a prefix in which no match starts is copied unchanged, whatever follows it |
| Preprocessing.RemoveUrlsCutsAtFirstMatch | sentiment_model.py:37 | the text before the leftmost match stays, the whole greedy match goes, and the step goes on after it |
| Preprocessing.RemoveTags | sentiment_model.py:38-39 | deleting mentions or hashtags never lengthens the text; what it deletes and keeps is fixed by `NoTagIdentity`, `RemoveTagsCutsAtFirstMatch` and `RemoveTagsSplits` |
| Preprocessing.RemoveTagsHead | sentiment_model.py:38-39 | the first surviving character is a non-word character, or is the original first character where no tag starts |
| Preprocessing.NoTagAfterRemoval | sentiment_model.py:38-39 | no `@word` or `#word` match remains anywhere in the output |
| Preprocessing.NoTagIdentity | sentiment_model.py:38-39 | text in which no tag match starts is returned unchanged |
| Preprocessing.TagAtShift | sentiment_model.py:38-39 | a tag at position i of the text without its first character is a tag at i + 1 of the text |
| Preprocessing.WordRunStops | sentiment_model.py:38-39 | `\w+` stops at the first non-word character, whatever follows it |
| Preprocessing.TagAtFrontOfSplit | sentiment_model.py:38-39 | what follows a character that is neither a word character nor the marker does not change whether a tag starts the text |
| Preprocessing.RemoveTagsSplits | sentiment_model.py:38-39 | a tag step handles the text before a character that is neither a word character nor the marker and the text from it on separately, and concatenates the results |
| Preprocessing.WordRunOfWord | sentiment_model.py:38-39 | `\w+` over word characters followed by a non-word character or the end takes exactly those characters |
| Preprocessing.RemoveTagsOfMatch | sentiment_model.py:38-39 | a marker with its whole word run at the front is deleted, and the step goes on after it |
| Preprocessing.NoTagInTail | sentiment_model.py:38-39 | a prefix in which no tag starts keeps that property without its first character |
| Preprocessing.RemoveTagsKeepsUnmatchedPrefix | sentiment_model.py:38-39 | a prefix in which no tag starts is copied unchanged, whatever follows it |
| Preprocessing.RemoveTagsCutsAtFirstMatch | sentiment_model.py:38-39 | the text before the leftmost tag stays, the marker and its whole word run go, and the step goes on after it |
| Preprocessing.KeepWordAndSpace | sentiment_model.py:42 | every surviving character is a word character or whitespace; `KeepWordAndSpaceSingle` and `KeepWordAndSpaceAppend` fix the output exactly |
| Preprocessing.KeepWordAndSpaceIdentity | sentiment_model.py:42 | text made only of word characters and whitespace is unchanged |
| Preprocessing.KeepWordAndSpaceAppend | sentiment_model.py:42 | the character filter distributes over concatenation |
| Preprocessing.KeepWordAndSpaceSubsequence | sentiment_model.py:42 | the symbol step only deletes: its output appears in its input, in order |
| Preprocessing.KeepWordAndSpaceSingle | sentiment_model.py:42 | a single character is kept exactly when it is a word character or whitespace, and deleted otherwise |
| Preprocessing.KeepWordAndSpaceDropsSymbol | sentiment_model.py:42 | a symbol between two pieces of word characters and whitespace is deleted and the pieces are joined |
| Preprocessing.Clean | sentiment_model.py:37-45 | the four substitutions in order, then `lower()`; its contract is `CleanIsClean` |
| Preprocessing.CleanIsClean | sentiment_model.py:37-45 | after the four substitutions and `lower()`, the text holds only lower-case word characters and whitespace |
| Preprocessing.Words | sentiment_model.py:50 | `split()` yields only non-empty tokens free of whitespace; `WordsSkipsSpace`, `WordsAfterToken` and `WordsJoin` applied to the empty list fix the output exactly |
| Preprocessing.WordsOfCleanText | sentiment_model.py:45-50 | the tokens of cleaned text are made of lower-case word characters |
| Preprocessing.WordsAfterToken | sentiment_model.py:50-52 | splitting a token followed by text that starts with whitespace gives the token, then the split of the rest |
| Preprocessing.WordsSkipsSpace | sentiment_model.py:50 | `split()` ignores any run of leading whitespace, of any length |
| Preprocessing.WordsJoin | sentiment_model.py:50-52 | splitting a `' '.join` of tokens gives back exactly the tokens |
| Preprocessing.Join | sentiment_model.py:52 | `' '.join`; the round trip `WordsJoin` and the normal form `JoinNormalized` are its contract |
| Preprocessing.NormalizedCons | sentiment_model.py:52 | a lower-case word, one space and normalised non-empty text make normalised text |
| Preprocessing.JoinNormalized | sentiment_model.py:52 | joined lower-case tokens have no leading, trailing or doubled space, and are non-empty when there is a token |
| Preprocessing.FilterTokens | sentiment_model.py:51 | every kept token is longer than two characters and not a stopword; the kept tokens appear in their original order; each such word keeps all of its occurrences |
| Preprocessing.Preprocess | sentiment_model.py:31-54 | `preprocess_text` with the stopword lookup as a parameter; its contract is `PreprocessContract` |
| Preprocessing.PreprocessContract | sentiment_model.py:31-54 | a non-string gives `""`; without stopwords the result is the cleaned text; the result is always clean text; with stopwords it is normalised, holds only kept tokens in order, and keeps every occurrence of each one |
| Preprocessing.SubsequenceMembers | sentiment_model.py:51 | every element of a filtered list comes from the original list |
| Preprocessing.RemoveUrlsWithoutH | sentiment_model.py:37 | text without an `h` is not changed by URL removal (an instance of `NoUrlIdentity`) |
| Preprocessing.RemoveTagsWithoutMarker | sentiment_model.py:38-39 | text without the marker is not changed by tag removal (an instance of `NoTagIdentity`) |
| Preprocessing.LowerOfLowercase | sentiment_model.py:45 | `lower()` leaves text without capitals unchanged |
| Preprocessing.PreprocessNotIdempotent | sentiment_model.py:31-54 | preprocessing `"htt.pfoo"` gives `"httpfoo"`, and preprocessing that gives `""`: the operation is not idempotent |
| Preprocessing.CleanOfDottedHttp | sentiment_model.py:37-45 | the cleaning steps turn `"htt.pfoo"` into `"httpfoo"` |
| Preprocessing.DottedHttpKeepsUrlsAndTags | sentiment_model.py:37-39 | `"htt.pfoo"` contains no URL, mention or hashtag |
| Preprocessing.CleanOfAssembledUrl | sentiment_model.py:37 | `"httpfoo"` is a URL match as a whole, and cleaning it leaves nothing |
| Chars.ToLower | sentiment_model.py:45 | lower-casing keeps word characters as word characters and whitespace as whitespace, and changes only capitals |
| Chars.Lower | sentiment_model.py:45 | `lower()` keeps the length, turns word characters into lower-case word characters and keeps whitespace as whitespace, position by position |
| Seqs.ContainsIffOccurrence | sentiment_model.py:85-87 | the `in` test on strings holds exactly when the substring occurs at some index |
| Seqs.Contains | sentiment_model.py:85-87 | the `in` test on strings; its contract is `ContainsIffOccurrence` |
| Seqs.ArgMax | sentiment_model.py:82 | the index of the first maximum, as Python's `max` chooses it |
| RuleBased.NameInjective | sentiment_model.py:61-66 | the three labels have distinct names, each one of the label strings |
| RuleBased.FromPolarity | sentiment_model.py:56-66 | `positive` iff the polarity exceeds the double 0.1; `negative` iff it is below -0.1; `neutral` iff it lies in between, bounds included |
| RuleBased.FromPolarityMonotone | sentiment_model.py:61-66 | a higher polarity never gives a lower label |
| RuleBased.FromPolarityMirror | sentiment_model.py:61-66 | negating the polarity swaps `positive` and `negative` |
| RuleBased.FromPolarityBoundaries | sentiment_model.py:61-66 | exactly +/-0.1 and 0 are neutral |
| RuleBased.RuleBasedSentiment | sentiment_model.py:56-66 | `get_textblob_sentiment` with the polarity scorer as a parameter: `positive` iff the score exceeds the double 0.1, `negative` iff it is below -0.1, and always one of the label names |
| Remote.Truncate | sentiment_model.py:74 | the payload is the prefix of the text of length min(len, 512) |
| Remote.TruncateIdempotent | sentiment_model.py:74 | truncating twice equals truncating once; texts of at most 512 characters are sent whole |
| Remote.LabelSentiment | sentiment_model.py:83-90 | `positive` iff the lower-cased label contains "positive"; `negative` iff it contains "negative" and not "positive"; `neutral` otherwise |
| Remote.Interpret | sentiment_model.py:76-92 | a label is read only from a 200 reply with a non-empty list whose first entry has candidates; it is the label of the first best-scoring candidate, and there is no label exactly when that candidate's label is missing |
| Remote.RemoteSentiment | sentiment_model.py:68-95 | the service's label when the reply yields one, and otherwise the rule-based label of the untruncated text |
| Remote.RemoteFallback | sentiment_model.py:91-95 | an exception, a non-200 status or a malformed body gives the rule-based label |
| Remote.RemoteSeesOnlyPayload | sentiment_model.py:74-76 | texts that agree on their first 512 characters get the same answer from the service |
| Remote.PositiveWinsOverNegative | sentiment_model.py:85-88 | a label containing both words is positive |
| Remote.ServiceLabels | sentiment_model.py:83-90 | "positive", "Negative" and "NEUTRAL" map to their own sentiment |
| Classifier.Classes | sentiment_model.py:106 | the classes are the distinct training labels, without duplicates |
| Classifier.HasTerm | sentiment_model.py:103 | the default token pattern finds a term: two adjacent word characters; used by `TrainMlModel` |
| Classifier.HasVocabulary | sentiment_model.py:103 | `fit_transform` raises on an empty vocabulary unless some document has a term; `TrainMlModel` raises at the vectorizing step exactly when this fails |
| Classifier.Predict | sentiment_model.py:128-129 | the prediction is a training label of maximal joint log-likelihood |
| SampleData.CreateSampleData | sentiment_model.py:137-160 | fifteen texts aligned with fifteen labels, all sentiment names: 6 positive, 5 negative, 4 neutral |
| Analyzer.Route | sentiment_model.py:120-131 | `huggingface` iff the hosted model; `ml` while trained iff the trained model; the rule-based strategy in every other case |
| Analyzer.UnknownMethodFallsBack | sentiment_model.py:130-131 | an unknown method name uses the rule-based strategy |
| Analyzer.FallbackCases | sentiment_model.py:126-131 | `ml` before training, and `bert` always, use the rule-based strategy |
| Analyzer.PreprocessAll | sentiment_model.py:100 | the training corpus is the preprocessed text, position by position, and every document is clean text |
| Analyzer.SentimentAnalyzer.constructor | sentiment_model.py:26-29 | a new analyzer is untrained, with nothing fitted |
| Analyzer.SentimentAnalyzer.TrainMlModel | sentiment_model.py:97-118 | with no term in any document, it raises and nothing changes; with a length mismatch, it raises after refitting only the vectorizer; otherwise both are fitted and the flag is set, and the call still raises for a single sample |
| Analyzer.SentimentAnalyzer.PredictSentiment | sentiment_model.py:120-131 | the routed strategy's label for string text; for any other value, TypeError (no label) on every route but the trained `ml` one, which preprocesses it to the empty document and still returns a training label of maximal likelihood; always a sentiment name when every training label is one |
| Analyzer.Bootstrap | sentiment_model.py:133-165 | training on the sample data succeeds exactly when its preprocessed texts have a term; the analyzer is then trained, and its labels are sentiment names |

## Left out

- **Polarity scores.** TextBlob's lexicon and its averaging are not modelled. The score is a function parameter, taken as an exact real.
- **Network and JSON.** The HTTP request, its headers and URL, and JSON decoding are not modelled. The post is a function from payload to response, with the JSON already decoded.
- Remote.Candidate: a score is always present and numeric. Other scores are not modelled. `max` with a key reads the score of every candidate, the first included, so a missing score raises KeyError for any candidate, even a lone one, and leads to the fallback. A present but non-numeric score is compared only from the second candidate on. On a lone candidate it is never compared, and that candidate's label is used. Among several candidates, scores that cannot be compared make `max` raise and lead to the fallback. Strings that compare with each other do not raise; the model does not capture that.
- **TF-IDF and naive Bayes arithmetic.** Neither is modelled. `max_features=5000`, `random_state` and the evaluation split are not modelled either.
- **Reports.** The F1 score, the classification report and the confusion matrix are only printed, so the model omits them. Only the exception for a single sample is kept.
- Classifier.Classes: classes are kept in first-occurrence order, whereas scikit-learn sorts them. The order matters only for ties in likelihood, where the model returns the first tied class in that order.
- Analyzer.SentimentAnalyzer.TrainMlModel: retraining that raises at `fit` after an earlier success leaves a new vectorizer beside the old model. The resulting feature-count mismatch in later `ml` predictions is not modelled.
- Analyzer.SentimentAnalyzer.PredictSentiment: a non-string value is modelled as raising on the `huggingface` route. A JSON list can be sliced and posted there and may come back with a label; that outcome is not modelled.
- **Character classes.** Unicode `\w` and Unicode `lower()` are not modelled: word characters are ASCII letters, digits and `_`, and lower-casing maps only `A`-`Z`. Whitespace covers every character Python's `str.isspace()` accepts.
- **Start-up side effects.** The NLTK data download, the module-level `analyzer` instance and the console messages are not modelled. Start-up training is `Analyzer.Bootstrap`.
- **Other files.** `app.py`, `twitter_client.py`, `config.py` and the frontend are not part of this model.
