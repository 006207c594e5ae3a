/**
 * SentimentAnalyzer.preprocess_text: remove URLs, @mentions and #hashtags,
 * drop every character that is neither a word character nor whitespace,
 * lowercase, split on whitespace and keep the tokens longer than two
 * characters that are not stopwords, joined by single spaces.
 */
module Preprocessing {
  import opened Wrappers
  import opened Seqs
  import opened Chars

  /** The argument of preprocess_text: a Python str, or an object of any other type. */
  datatype Arg = Text(s: string) | NotText

  // ---------------------------------------------------------------------------
  // Greedy runs (`\S+` and `\w+`)

  /** Length of the longest prefix of s made of non-whitespace characters. */
  function NonSpaceRun(s: string): (n: nat)
    ensures n <= |s|
    ensures forall j :: 0 <= j < n ==> !IsSpace(s[j])
    ensures n == |s| || IsSpace(s[n])
  {
    if s == [] || IsSpace(s[0]) then 0 else 1 + NonSpaceRun(s[1..])
  }

  /** Length of the longest prefix of s made of word characters. */
  function WordRun(s: string): (n: nat)
    ensures n <= |s|
    ensures forall j :: 0 <= j < n ==> IsWordChar(s[j])
    ensures n == |s| || !IsWordChar(s[n])
  {
    if s == [] || !IsWordChar(s[0]) then 0 else 1 + WordRun(s[1..])
  }

  // ---------------------------------------------------------------------------
  // re.sub(r'http\S+', '', text)

  /** A match of `http\S+` starts at position i of s. */
  predicate UrlAt(s: string, i: int)
  {
    0 <= i && i + 4 < |s| && s[i..i + 4] == "http" && !IsSpace(s[i + 4])
  }

  /** Replaces every leftmost, non-overlapping, greedy match of `http\S+` by nothing. */
  function RemoveUrls(s: string): (r: string)
    ensures |r| <= |s|
    decreases |s|
  {
    if s == [] then []
    else if UrlAt(s, 0) then RemoveUrls(s[4 + NonSpaceRun(s[4..])..])
    else [s[0]] + RemoveUrls(s[1..])
  }

  /** The first character left by the URL step is whitespace or the unmatched first character. */
  lemma RemoveUrlsHead(s: string)
    requires RemoveUrls(s) != []
    ensures IsSpace(RemoveUrls(s)[0]) || (RemoveUrls(s)[0] == s[0] && !UrlAt(s, 0))
  {
    if UrlAt(s, 0) {
      var rest := s[4 + NonSpaceRun(s[4..])..];
      assert rest != [] && IsSpace(rest[0]);
      assert rest[0] != 'h';
      assert !UrlAt(rest, 0);
    }
  }

  /** A prefix of the URL step's output without whitespace was copied unchanged from the input. */
  lemma {:induction false} RemoveUrlsKeepsSolidPrefix(s: string, k: nat)
    requires k <= |RemoveUrls(s)|
    requires forall j :: 0 <= j < k ==> !IsSpace(RemoveUrls(s)[j])
    ensures k <= |s| && s[..k] == RemoveUrls(s)[..k]
    ensures k > 0 ==> !UrlAt(s, 0)
    decreases k
  {
    if k > 0 {
      RemoveUrlsHead(s);
      var r := RemoveUrls(s);
      assert !UrlAt(s, 0);
      assert r == [s[0]] + RemoveUrls(s[1..]);
      assert forall j :: 0 <= j < k - 1 ==> RemoveUrls(s[1..])[j] == r[j + 1];
      RemoveUrlsKeepsSolidPrefix(s[1..], k - 1);
    }
  }

  /** The URL step's output does not begin with a URL. */
  lemma NoUrlAtStart(s: string)
    ensures !UrlAt(RemoveUrls(s), 0)
  {
    if UrlAt(RemoveUrls(s), 0) {
      RemoveUrlsKeepsSolidPrefix(s, 5);
      assert false;
    }
  }

  /** After the URL step no `http` followed by a non-whitespace character is left. */
  lemma {:induction false} NoUrlAfterRemoval(s: string)
    ensures forall i :: !UrlAt(RemoveUrls(s), i)
    decreases |s|
  {
    if s == [] {
    } else if UrlAt(s, 0) {
      NoUrlAfterRemoval(s[4 + NonSpaceRun(s[4..])..]);
    } else {
      var t := RemoveUrls(s[1..]);
      NoUrlAfterRemoval(s[1..]);
      var r := RemoveUrls(s);
      assert r == [s[0]] + t;
      forall i | 0 <= i
        ensures !UrlAt(r, i)
      {
        if i > 0 {
          assert !UrlAt(t, i - 1);
          if i + 4 < |r| {
            assert r[i..i + 4] == t[i - 1..i + 3] && r[i + 4] == t[i + 3];
          }
        } else {
          NoUrlAtStart(s);
        }
      }
    }
  }

  /** A URL match at position i of s[1..] is one at position i + 1 of s. */
  lemma {:induction false} UrlAtShift(s: string, i: nat)
    requires s != []
    ensures UrlAt(s[1..], i) <==> UrlAt(s, i + 1)
  {
    if i + 5 < |s| {
      assert s[1..][i..i + 4] == s[i + 1..i + 5];
    }
  }

  /** `\S+` stops at the first whitespace character. */
  lemma {:induction false} NonSpaceRunStops(x: string, t: string)
    requires t != [] && IsSpace(t[0])
    ensures NonSpaceRun(x + t) == NonSpaceRun(x)
  {
    var s := x + t;
    if x == [] {
      assert s == t;
    } else {
      assert s[0] == x[0] && s[1..] == x[1..] + t;
      NonSpaceRunStops(x[1..], t);
    }
  }

  /** Appending text that starts with whitespace does not change whether a URL starts the text. */
  lemma {:induction false} UrlAtFrontOfSplit(a: string, t: string)
    requires t != [] && IsSpace(t[0])
    ensures UrlAt(a + t, 0) <==> UrlAt(a, 0)
  {
    var s := a + t;
    if |a| > 4 {
      assert s[..4] == a[..4] && s[4] == a[4];
    } else if |a| == 4 {
      assert s[4] == t[0];
    } else if |s| > 4 {
      assert s[..4][|a|] == t[0];
    }
  }

  /** The URL step works on the whitespace-separated chunks of the text one by one. */
  lemma {:induction false} RemoveUrlsSplitsAtSpace(a: string, t: string)
    requires t != [] && IsSpace(t[0])
    ensures RemoveUrls(a + t) == RemoveUrls(a) + RemoveUrls(t)
    decreases |a|
  {
    var s := a + t;
    UrlAtFrontOfSplit(a, t);
    if a == [] {
      assert s == t;
    } else if UrlAt(a, 0) {
      var n := NonSpaceRun(a[4..]);
      assert s[4..] == a[4..] + t;
      NonSpaceRunStops(a[4..], t);
      assert s[4 + n..] == a[4 + n..] + t;
      RemoveUrlsSplitsAtSpace(a[4 + n..], t);
    } else {
      assert s[0] == a[0] && s[1..] == a[1..] + t;
      RemoveUrlsSplitsAtSpace(a[1..], t);
    }
  }

  /** `\S+` over a whitespace-free w followed by whitespace or the end takes exactly w. */
  lemma {:induction false} NonSpaceRunOfToken(w: string, t: string)
    requires forall j :: 0 <= j < |w| ==> !IsSpace(w[j])
    requires t == [] || IsSpace(t[0])
    ensures NonSpaceRun(w + t) == |w|
  {
    var s := w + t;
    assert forall j :: 0 <= j < |w| ==> s[j] == w[j];
    if t != [] {
      assert s[|w|] == t[0];
    }
  }

  /** A whole greedy URL match at the front goes, and the step goes on after it. */
  lemma {:induction false} RemoveUrlsOfMatch(u: string, t: string)
    requires UrlAt(u, 0) && forall j :: 0 <= j < |u| ==> !IsSpace(u[j])
    requires t == [] || IsSpace(t[0])
    ensures RemoveUrls(u + t) == RemoveUrls(t)
  {
    var s := u + t;
    assert s[..4] == u[..4] && s[4] == u[4];
    assert s[4..] == u[4..] + t;
    NonSpaceRunOfToken(u[4..], t);
    assert s[4 + (|u| - 4)..] == t;
  }

  /** No match starting inside p stays so once p loses its first character. */
  lemma {:induction false} NoUrlInTail(p: string, x: string)
    requires p != []
    requires forall i :: 0 <= i < |p| ==> !UrlAt(p + x, i)
    ensures forall i :: 0 <= i < |p| - 1 ==> !UrlAt(p[1..] + x, i)
  {
    var s := p + x;
    assert s[1..] == p[1..] + x;
    forall i | 0 <= i < |p| - 1
      ensures !UrlAt(p[1..] + x, i)
    {
      UrlAtShift(s, i);
    }
  }

  /** A prefix in which no match starts is copied unchanged. */
  lemma {:induction false} RemoveUrlsKeepsUnmatchedPrefix(p: string, x: string)
    requires forall i :: 0 <= i < |p| ==> !UrlAt(p + x, i)
    ensures RemoveUrls(p + x) == p + RemoveUrls(x)
    decreases |p|
  {
    var s := p + x;
    if p == [] {
      assert s == x;
    } else {
      assert !UrlAt(s, 0);
      assert s[0] == p[0] && s[1..] == p[1..] + x;
      assert RemoveUrls(s) == [p[0]] + RemoveUrls(p[1..] + x);
      NoUrlInTail(p, x);
      RemoveUrlsKeepsUnmatchedPrefix(p[1..], x);
      assert [p[0]] + (p[1..] + RemoveUrls(x)) == p + RemoveUrls(x);
    }
  }

  /**
   * The leftmost match goes and the text before it stays: when no match
   * starts inside p and a maximal match u follows it, the URL step keeps p,
   * drops u and goes on with the rest.
   */
  lemma {:induction false} RemoveUrlsCutsAtFirstMatch(p: string, u: string, t: string)
    requires forall i :: 0 <= i < |p| ==> !UrlAt(p + u + t, i)
    requires UrlAt(u, 0) && forall j :: 0 <= j < |u| ==> !IsSpace(u[j])
    requires t == [] || IsSpace(t[0])
    ensures RemoveUrls(p + u + t) == p + RemoveUrls(t)
  {
    assert p + u + t == p + (u + t);
    RemoveUrlsKeepsUnmatchedPrefix(p, u + t);
    RemoveUrlsOfMatch(u, t);
  }

  // ---------------------------------------------------------------------------
  // re.sub(r'@\w+', '', text) and re.sub(r'#\w+', '', text)

  /** A match of `m\w+` (m is '@' or '#') starts at position i of s. */
  predicate TagAt(s: string, m: char, i: int)
  {
    0 <= i && i + 1 < |s| && s[i] == m && IsWordChar(s[i + 1])
  }

  /** Replaces every leftmost, non-overlapping, greedy match of `m\w+` by nothing. */
  function RemoveTags(s: string, m: char): (r: string)
    ensures |r| <= |s|
    decreases |s|
  {
    if s == [] then []
    else if TagAt(s, m, 0) then RemoveTags(s[1 + WordRun(s[1..])..], m)
    else [s[0]] + RemoveTags(s[1..], m)
  }

  /** The first character left by a tag step is a non-word character or the unmatched first character. */
  lemma {:induction false} RemoveTagsHead(s: string, m: char)
    requires RemoveTags(s, m) != []
    ensures !IsWordChar(RemoveTags(s, m)[0]) || (RemoveTags(s, m)[0] == s[0] && !TagAt(s, m, 0))
    decreases |s|
  {
    if TagAt(s, m, 0) {
      var rest := s[1 + WordRun(s[1..])..];
      RemoveTagsHead(rest, m);
    }
  }

  /** After a tag step no marker followed by a word character is left. */
  lemma {:induction false} NoTagAfterRemoval(s: string, m: char)
    ensures forall i :: !TagAt(RemoveTags(s, m), m, i)
    decreases |s|
  {
    if s == [] {
    } else if TagAt(s, m, 0) {
      NoTagAfterRemoval(s[1 + WordRun(s[1..])..], m);
    } else {
      var t := RemoveTags(s[1..], m);
      NoTagAfterRemoval(s[1..], m);
      var r := RemoveTags(s, m);
      assert r == [s[0]] + t;
      forall i | 0 <= i
        ensures !TagAt(r, m, i)
      {
        if i > 0 && TagAt(r, m, i) {
          assert TagAt(t, m, i - 1);
        } else if i == 0 && TagAt(r, m, 0) {
          RemoveTagsHead(s[1..], m);
          assert false;
        }
      }
    }
  }

  /** A tag match at position i of s[1..] is one at position i + 1 of s. */
  lemma {:induction false} TagAtShift(s: string, m: char, i: nat)
    requires s != []
    ensures TagAt(s[1..], m, i) <==> TagAt(s, m, i + 1)
  {
  }

  /** `\w+` stops at the first non-word character. */
  lemma {:induction false} WordRunStops(x: string, t: string)
    requires t != [] && !IsWordChar(t[0])
    ensures WordRun(x + t) == WordRun(x)
  {
    var s := x + t;
    if x == [] {
      assert s == t;
    } else {
      assert s[0] == x[0] && s[1..] == x[1..] + t;
      WordRunStops(x[1..], t);
    }
  }

  /** Appending text that starts with neither a word character nor the marker does not change whether a tag starts the text. */
  lemma {:induction false} TagAtFrontOfSplit(a: string, t: string, m: char)
    requires t != [] && !IsWordChar(t[0]) && t[0] != m
    ensures TagAt(a + t, m, 0) <==> TagAt(a, m, 0)
  {
    var s := a + t;
    if |a| > 1 {
      assert s[0] == a[0] && s[1] == a[1];
    } else if |a| == 1 {
      assert s[1] == t[0];
    } else {
      assert s[0] == t[0];
    }
  }

  /** A tag step works on the pieces between characters that are neither word characters nor the marker. */
  lemma {:induction false} RemoveTagsSplits(a: string, t: string, m: char)
    requires t != [] && !IsWordChar(t[0]) && t[0] != m
    ensures RemoveTags(a + t, m) == RemoveTags(a, m) + RemoveTags(t, m)
    decreases |a|
  {
    var s := a + t;
    TagAtFrontOfSplit(a, t, m);
    if a == [] {
      assert s == t;
    } else if TagAt(a, m, 0) {
      var n := WordRun(a[1..]);
      assert s[1..] == a[1..] + t;
      WordRunStops(a[1..], t);
      assert s[1 + n..] == a[1 + n..] + t;
      RemoveTagsSplits(a[1 + n..], t, m);
    } else {
      assert s[0] == a[0] && s[1..] == a[1..] + t;
      RemoveTagsSplits(a[1..], t, m);
    }
  }

  /** `\w+` over a word w followed by a non-word character or the end takes exactly w. */
  lemma {:induction false} WordRunOfWord(w: string, t: string)
    requires forall j :: 0 <= j < |w| ==> IsWordChar(w[j])
    requires t == [] || !IsWordChar(t[0])
    ensures WordRun(w + t) == |w|
  {
    var s := w + t;
    assert forall j :: 0 <= j < |w| ==> s[j] == w[j];
    if t != [] {
      assert s[|w|] == t[0];
    }
  }

  /** A whole greedy tag at the front goes, and the step goes on after it. */
  lemma {:induction false} RemoveTagsOfMatch(m: char, w: string, t: string)
    requires w != [] && forall j :: 0 <= j < |w| ==> IsWordChar(w[j])
    requires t == [] || !IsWordChar(t[0])
    ensures RemoveTags([m] + w + t, m) == RemoveTags(t, m)
  {
    var s := [m] + w + t;
    assert s[0] == m && s[1] == w[0];
    assert s[1..] == w + t;
    WordRunOfWord(w, t);
    assert s[1 + |w|..] == t;
  }

  /** No tag starting inside p stays so once p loses its first character. */
  lemma {:induction false} NoTagInTail(p: string, x: string, m: char)
    requires p != []
    requires forall i :: 0 <= i < |p| ==> !TagAt(p + x, m, i)
    ensures forall i :: 0 <= i < |p| - 1 ==> !TagAt(p[1..] + x, m, i)
  {
    var s := p + x;
    assert s[1..] == p[1..] + x;
    forall i | 0 <= i < |p| - 1
      ensures !TagAt(p[1..] + x, m, i)
    {
      TagAtShift(s, m, i);
    }
  }

  /** A prefix in which no tag starts is copied unchanged. */
  lemma {:induction false} RemoveTagsKeepsUnmatchedPrefix(p: string, x: string, m: char)
    requires forall i :: 0 <= i < |p| ==> !TagAt(p + x, m, i)
    ensures RemoveTags(p + x, m) == p + RemoveTags(x, m)
    decreases |p|
  {
    var s := p + x;
    if p == [] {
      assert s == x;
    } else {
      assert !TagAt(s, m, 0);
      assert s[0] == p[0] && s[1..] == p[1..] + x;
      assert RemoveTags(s, m) == [p[0]] + RemoveTags(p[1..] + x, m);
      NoTagInTail(p, x, m);
      RemoveTagsKeepsUnmatchedPrefix(p[1..], x, m);
      assert [p[0]] + (p[1..] + RemoveTags(x, m)) == p + RemoveTags(x, m);
    }
  }

  /**
   * The leftmost tag goes and the text before it stays: when no tag starts
   * inside p and the marker with a maximal word run w follows it, the tag step
   * keeps p, drops the tag and goes on with the rest.
   */
  lemma {:induction false} RemoveTagsCutsAtFirstMatch(p: string, m: char, w: string, t: string)
    requires forall i :: 0 <= i < |p| ==> !TagAt(p + [m] + w + t, m, i)
    requires w != [] && forall j :: 0 <= j < |w| ==> IsWordChar(w[j])
    requires t == [] || !IsWordChar(t[0])
    ensures RemoveTags(p + [m] + w + t, m) == p + RemoveTags(t, m)
  {
    assert p + [m] + w + t == p + ([m] + w + t);
    RemoveTagsKeepsUnmatchedPrefix(p, [m] + w + t, m);
    RemoveTagsOfMatch(m, w, t);
  }

  // ---------------------------------------------------------------------------
  // re.sub(r'[^\w\s]', '', text)

  /** Deletes every character that is neither a word character nor whitespace. */
  function KeepWordAndSpace(s: string): (r: string)
    ensures forall i :: 0 <= i < |r| ==> IsWordChar(r[i]) || IsSpace(r[i])
  {
    if s == [] then []
    else if IsWordChar(s[0]) || IsSpace(s[0]) then [s[0]] + KeepWordAndSpace(s[1..])
    else KeepWordAndSpace(s[1..])
  }

  /** The symbol step leaves text that has only word characters and whitespace unchanged. */
  lemma {:induction false} KeepWordAndSpaceIdentity(s: string)
    requires forall i :: 0 <= i < |s| ==> IsWordChar(s[i]) || IsSpace(s[i])
    ensures KeepWordAndSpace(s) == s
  {
    if s != [] {
      KeepWordAndSpaceIdentity(s[1..]);
    }
  }

  /** The symbol step only deletes: what it keeps appears in the input, in order. */
  lemma {:induction false} KeepWordAndSpaceSubsequence(s: string)
    ensures IsSubsequence(KeepWordAndSpace(s), s)
  {
    if s != [] {
      KeepWordAndSpaceSubsequence(s[1..]);
    }
  }

  /** On one character the symbol step keeps it exactly when it is a word character or whitespace. */
  lemma {:induction false} KeepWordAndSpaceSingle(c: char)
    ensures KeepWordAndSpace([c]) == if IsWordChar(c) || IsSpace(c) then [c] else []
  {
    assert [c][1..] == [];
  }

  /** A symbol between two pieces of word characters and whitespace is deleted and the pieces are joined. */
  lemma {:induction false} KeepWordAndSpaceDropsSymbol(a: string, c: char, b: string)
    requires forall i :: 0 <= i < |a| ==> IsWordChar(a[i]) || IsSpace(a[i])
    requires forall i :: 0 <= i < |b| ==> IsWordChar(b[i]) || IsSpace(b[i])
    requires !IsWordChar(c) && !IsSpace(c)
    ensures KeepWordAndSpace(a + [c] + b) == a + b
  {
    KeepWordAndSpaceAppend(a + [c], b);
    KeepWordAndSpaceAppend(a, [c]);
    KeepWordAndSpaceSingle(c);
    KeepWordAndSpaceIdentity(a);
    KeepWordAndSpaceIdentity(b);
    assert KeepWordAndSpace(a + [c]) == a + [];
    assert a + [] == a;
  }

  // ---------------------------------------------------------------------------
  // The cleaned, lowercased text

  /** Only lowercase word characters and whitespace. */
  predicate IsCleanText(s: string)
  {
    forall i :: 0 <= i < |s| ==> IsLowerWordChar(s[i]) || IsSpace(s[i])
  }

  /** The text after the three removals, the symbol filter and lower(). */
  function Clean(s: string): string
  {
    Lower(KeepWordAndSpace(RemoveTags(RemoveTags(RemoveUrls(s), '@'), '#')))
  }

  /** The cleaned text consists only of lowercase word characters and whitespace. */
  lemma CleanIsClean(s: string)
    ensures IsCleanText(Clean(s))
  {
    var k := KeepWordAndSpace(RemoveTags(RemoveTags(RemoveUrls(s), '@'), '#'));
    assert forall i :: 0 <= i < |k| ==> Clean(s)[i] == ToLower(k[i]);
  }

  // ---------------------------------------------------------------------------
  // text.split(), the stopword filter and ' '.join(...)

  /** A token: non-empty and free of whitespace. */
  predicate IsToken(w: string)
  {
    w != [] && forall i :: 0 <= i < |w| ==> !IsSpace(w[i])
  }

  /** str.split() with no argument: the maximal runs of non-whitespace characters. */
  function Words(s: string): (ws: seq<string>)
    ensures forall k :: 0 <= k < |ws| ==> IsToken(ws[k])
    decreases |s|
  {
    if s == [] then []
    else if IsSpace(s[0]) then Words(s[1..])
    else
      var n := NonSpaceRun(s);
      [s[..n]] + Words(s[n..])
  }

  /** Tokens of clean text are made of lowercase word characters. */
  lemma {:induction false} WordsOfCleanText(s: string)
    requires IsCleanText(s)
    ensures forall k, i :: 0 <= k < |Words(s)| && 0 <= i < |Words(s)[k]| ==> IsLowerWordChar(Words(s)[k][i])
    decreases |s|
  {
    if s == [] {
    } else if IsSpace(s[0]) {
      WordsOfCleanText(s[1..]);
    } else {
      var n := NonSpaceRun(s);
      WordsOfCleanText(s[n..]);
      assert Words(s) == [s[..n]] + Words(s[n..]);
    }
  }

  /** ' '.join(ws). */
  function Join(ws: seq<string>): string
  {
    if ws == [] then []
    else if |ws| == 1 then ws[0]
    else ws[0] + " " + Join(ws[1..])
  }

  /** Splitting a token followed by nothing or by whitespace yields that token first. */
  lemma WordsAfterToken(w: string, t: string)
    requires IsToken(w)
    requires t == [] || IsSpace(t[0])
    ensures Words(w + t) == [w] + Words(t)
  {
    var s := w + t;
    var n := NonSpaceRun(s);
    if t != [] { assert s[|w|] == t[0]; }
    assert forall j :: 0 <= j < |w| ==> s[j] == w[j];
    assert |w| == |s| || IsSpace(s[|w|]);
    assert n == |w|;
    assert s[..n] == w;
    assert s[n..] == t;
  }

  /** split() skips leading whitespace. */
  lemma {:induction false} WordsSkipsSpace(g: string, t: string)
    requires forall i :: 0 <= i < |g| ==> IsSpace(g[i])
    ensures Words(g + t) == Words(t)
  {
    if g == [] {
      assert g + t == t;
    } else {
      assert (g + t)[0] == g[0] && (g + t)[1..] == g[1..] + t;
      WordsSkipsSpace(g[1..], t);
    }
  }

  /** Splitting joined tokens gives the tokens back: split is the inverse of join. */
  lemma {:induction false} WordsJoin(ws: seq<string>)
    requires forall k :: 0 <= k < |ws| ==> IsToken(ws[k])
    ensures Words(Join(ws)) == ws
  {
    if |ws| == 1 {
      WordsAfterToken(ws[0], []);
      assert ws[0] + [] == ws[0];
    } else if |ws| > 1 {
      var rest := Join(ws[1..]);
      WordsJoin(ws[1..]);
      assert ws[0] + " " + rest == ws[0] + (" " + rest);
      WordsAfterToken(ws[0], " " + rest);
      assert (" " + rest)[1..] == rest;
    }
  }

  /** Only lowercase word characters and single spaces, no leading, trailing or doubled space. */
  predicate IsNormalized(r: string)
  {
    (forall i :: 0 <= i < |r| ==> r[i] == ' ' || IsLowerWordChar(r[i]))
    && (r != [] ==> r[0] != ' ' && r[|r| - 1] != ' ')
    && (forall i :: 0 <= i < |r| - 1 ==> !(r[i] == ' ' && r[i + 1] == ' '))
  }

  /** A lowercase word, one space and normalized non-empty text make normalized text. */
  lemma {:induction false} NormalizedCons(w: string, rest: string)
    requires w != [] && forall i :: 0 <= i < |w| ==> IsLowerWordChar(w[i])
    requires rest != [] && IsNormalized(rest)
    ensures IsNormalized(w + " " + rest)
  {
    var r := w + " " + rest;
    assert forall i :: 0 <= i < |w| ==> r[i] == w[i];
    assert r[|w|] == ' ';
    assert forall i :: 0 <= i < |rest| ==> r[|w| + 1 + i] == rest[i];
    assert r[|r| - 1] == rest[|rest| - 1];
    forall i | 0 <= i < |r| - 1
      ensures !(r[i] == ' ' && r[i + 1] == ' ')
    {
      if i + 1 < |w| {
        assert IsLowerWordChar(r[i + 1]);
      } else if i + 1 == |w| {
        assert IsLowerWordChar(r[i]);
      } else if i == |w| {
        assert r[i + 1] == rest[0];
      } else {
        assert r[i] == rest[i - |w| - 1] && r[i + 1] == rest[i - |w|];
      }
    }
  }

  /** Joining non-empty lowercase-word tokens gives normalized text. */
  lemma {:induction false} JoinNormalized(ws: seq<string>)
    requires forall k, i :: 0 <= k < |ws| && 0 <= i < |ws[k]| ==> IsLowerWordChar(ws[k][i])
    requires forall k :: 0 <= k < |ws| ==> ws[k] != []
    ensures IsNormalized(Join(ws))
    ensures ws != [] ==> Join(ws) != []
  {
    if |ws| == 1 {
      assert forall i :: 0 <= i < |ws[0]| ==> IsLowerWordChar(ws[0][i]);
    } else if |ws| > 1 {
      JoinNormalized(ws[1..]);
      assert forall i :: 0 <= i < |ws[0]| ==> IsLowerWordChar(ws[0][i]);
      NormalizedCons(ws[0], Join(ws[1..]));
    }
  }

  /** The list comprehension's condition: not a stopword and longer than two characters. */
  predicate Kept(w: string, stopwords: set<string>)
  {
    w !in stopwords && |w| > 2
  }

  /** [w for w in ws if w not in stopwords and len(w) > 2] */
  function FilterTokens(ws: seq<string>, stopwords: set<string>): (r: seq<string>)
    ensures forall k :: 0 <= k < |r| ==> Kept(r[k], stopwords)
    ensures IsSubsequence(r, ws)
    ensures forall w :: Kept(w, stopwords) ==> multiset(r)[w] == multiset(ws)[w]
  {
    if ws == [] then []
    else
      assert ws == [ws[0]] + ws[1..];
      if Kept(ws[0], stopwords) then [ws[0]] + FilterTokens(ws[1..], stopwords)
      else FilterTokens(ws[1..], stopwords)
  }

  // ---------------------------------------------------------------------------
  // preprocess_text

  /**
   * preprocess_text(text). `stopwords` is the outcome of loading NLTK's English
   * stopword list: None when the lookup raised, in which case the cleaned,
   * lowercased text is returned unfiltered.
   */
  function Preprocess(arg: Arg, stopwords: Option<set<string>>): string
  {
    match arg
    case NotText => ""
    case Text(s) =>
      match stopwords
      case None => Clean(s)
      case Some(stop) => Join(FilterTokens(Words(Clean(s)), stop))
  }

  /** What preprocess_text promises for each kind of argument and each outcome of the stopword lookup. */
  lemma PreprocessContract(arg: Arg, stopwords: Option<set<string>>)
    ensures arg.NotText? ==> Preprocess(arg, stopwords) == ""
    ensures arg.Text? && stopwords.None? ==> Preprocess(arg, stopwords) == Clean(arg.s)
    ensures arg.Text? ==> IsCleanText(Preprocess(arg, stopwords))
    ensures arg.Text? && stopwords.Some? ==>
      var r, source := Preprocess(arg, stopwords), Words(Clean(arg.s));
      && IsNormalized(r)
      && (forall k :: 0 <= k < |Words(r)| ==> Kept(Words(r)[k], stopwords.value))
      && IsSubsequence(Words(r), source)
      && (forall w :: Kept(w, stopwords.value) ==> multiset(Words(r))[w] == multiset(source)[w])
  {
    if arg.Text? {
      CleanIsClean(arg.s);
      if stopwords.Some? {
        var source := Words(Clean(arg.s));
        var kept := FilterTokens(source, stopwords.value);
        WordsOfCleanText(Clean(arg.s));
        assert forall k :: 0 <= k < |kept| ==> kept[k] in source by {
          SubsequenceMembers(kept, source);
        }
        JoinNormalized(kept);
        WordsJoin(kept);
        var r := Join(kept);
        assert forall i :: 0 <= i < |r| ==> r[i] == ' ' || IsLowerWordChar(r[i]);
      }
    }
  }

  /** Every element of a subsequence is an element of the sequence. */
  lemma {:induction false} SubsequenceMembers<T>(a: seq<T>, b: seq<T>)
    requires IsSubsequence(a, b)
    ensures forall k :: 0 <= k < |a| ==> a[k] in b
    decreases |b|
  {
    if a != [] {
      if a[0] == b[0] && IsSubsequence(a[1..], b[1..]) {
        SubsequenceMembers(a[1..], b[1..]);
        assert forall k :: 1 <= k < |a| ==> a[k] == a[1..][k - 1];
      } else {
        SubsequenceMembers(a, b[1..]);
      }
    }
  }

  // ---------------------------------------------------------------------------
  // Steps that leave their input alone

  /** Text in which no URL match starts is returned unchanged by the URL step. */
  lemma {:induction false} NoUrlIdentity(s: string)
    requires forall i :: !UrlAt(s, i)
    ensures RemoveUrls(s) == s
  {
    if s != [] {
      assert !UrlAt(s, 0);
      forall i
        ensures !UrlAt(s[1..], i)
      {
        assert !UrlAt(s, i + 1);
        if 0 <= i && i + 4 < |s| - 1 {
          assert s[1..][i..i + 4] == s[i + 1..i + 5];
        }
      }
      NoUrlIdentity(s[1..]);
    }
  }

  /** Without an 'h' there is no URL to remove. */
  lemma RemoveUrlsWithoutH(s: string)
    requires forall i :: 0 <= i < |s| ==> s[i] != 'h'
    ensures RemoveUrls(s) == s
  {
    forall i
      ensures !UrlAt(s, i)
    {
      if 0 <= i && i + 4 < |s| {
        assert s[i..i + 4][0] == s[i];
      }
    }
    NoUrlIdentity(s);
  }

  /** Text in which no tag match starts is returned unchanged by a tag step. */
  lemma {:induction false} NoTagIdentity(s: string, m: char)
    requires forall i :: !TagAt(s, m, i)
    ensures RemoveTags(s, m) == s
  {
    if s != [] {
      assert !TagAt(s, m, 0);
      forall i
        ensures !TagAt(s[1..], m, i)
      {
        assert !TagAt(s, m, i + 1);
      }
      NoTagIdentity(s[1..], m);
    }
  }

  /** Without the marker there is no tag to remove. */
  lemma RemoveTagsWithoutMarker(s: string, m: char)
    requires forall i :: 0 <= i < |s| ==> s[i] != m
    ensures RemoveTags(s, m) == s
  {
    NoTagIdentity(s, m);
  }

  /** The symbol step works character by character. */
  lemma {:induction false} KeepWordAndSpaceAppend(a: string, b: string)
    ensures KeepWordAndSpace(a + b) == KeepWordAndSpace(a) + KeepWordAndSpace(b)
  {
    if a != [] {
      var ab := a + b;
      assert ab[0] == a[0] && ab[1..] == a[1..] + b;
      KeepWordAndSpaceAppend(a[1..], b);
      if IsWordChar(a[0]) || IsSpace(a[0]) {
        assert KeepWordAndSpace(ab) == [a[0]] + KeepWordAndSpace(a[1..] + b);
      } else {
        assert KeepWordAndSpace(ab) == KeepWordAndSpace(a[1..] + b);
      }
    } else {
      assert a + b == b;
    }
  }

  /** lower() leaves text without upper-case letters unchanged. */
  lemma LowerOfLowercase(s: string)
    requires forall i :: 0 <= i < |s| ==> !('A' <= s[i] <= 'Z')
    ensures Lower(s) == s
  {
  }

  // ---------------------------------------------------------------------------
  // Worked inputs

  /**
   * preprocess_text is not idempotent: the symbol step can assemble a URL
   * ("htt.pfoo" becomes "httpfoo"), which a second pass then deletes.
   */
  lemma {:induction false} PreprocessNotIdempotent(s: string)
    requires s == "htt.pfoo"
    ensures Preprocess(Text(s), Some({})) == "httpfoo"
    ensures Preprocess(Text(Preprocess(Text(s), Some({}))), Some({})) == ""
  {
    CleanOfDottedHttp(s);
    WordsAfterToken("httpfoo", []);
    assert "httpfoo" + [] == "httpfoo";
    CleanOfAssembledUrl();
  }

  /** Cleaning "htt.pfoo": only the dot goes, and the result reads like a URL. */
  lemma {:induction false} CleanOfDottedHttp(s: string)
    requires s == "htt.pfoo"
    ensures Clean(s) == "httpfoo"
  {
    DottedHttpKeepsUrlsAndTags(s);
    var a, b := s[..3], s[4..];
    assert s == a + [s[3]] + b;
    KeepWordAndSpaceDropsSymbol(a, s[3], b);
    assert a + b == "httpfoo";
    LowerOfLowercase(a + b);
  }

  /** "htt.pfoo" holds no URL, mention or hashtag. */
  lemma {:induction false} DottedHttpKeepsUrlsAndTags(s: string)
    requires s == "htt.pfoo"
    ensures RemoveTags(RemoveTags(RemoveUrls(s), '@'), '#') == s
  {
    assert s[..4] == "htt.";
    assert !UrlAt(s, 0);
    RemoveUrlsWithoutH(s[1..]);
    assert s == [s[0]] + s[1..];
    RemoveTagsWithoutMarker(s, '@');
    RemoveTagsWithoutMarker(s, '#');
  }

  /** Cleaning "httpfoo": the whole text is one URL. */
  lemma CleanOfAssembledUrl()
    ensures Clean("httpfoo") == []
  {
    var s := "httpfoo";
    assert s[..4] == "http" && s[4..] == "foo";
    assert NonSpaceRun("foo") == 3;
    assert UrlAt(s, 0);
    assert RemoveUrls(s) == RemoveUrls([]);
  }
}
