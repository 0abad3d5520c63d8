/**
  The mock text-analysis logic of ai-service/main.py and the three endpoint
  bodies that dispatch to it. Floating-point outputs (confidences, scores,
  ratios, processing times), request ids, sleeps and logging are not part of
  this model; what is kept is every integer and string the endpoints compute.
*/
module Analysis {
  import opened Wrappers
  import opened PyText

  // ---------------------------------------------------------------------
  // analyze_sentiment
  // ---------------------------------------------------------------------

  const PositiveWords: seq<string> := ["good", "great", "excellent", "amazing", "wonderful", "love"]
  const NegativeWords: seq<string> := ["bad", "terrible", "awful", "hate", "worst", "poor"]

  datatype Sentiment = Positive | Negative | Neutral

  /** The label and the two counts; confidence and scores are floats and are left out. */
  datatype SentimentResult = SentimentResult(sentiment: Sentiment, positiveCount: nat, negativeCount: nat)

  /** `sum(1 for word in lexicon if word in text)`. */
  function CountPresent(lexicon: seq<string>, text: string): (n: nat)
    ensures n <= |lexicon|
  {
    if lexicon == [] then 0
    else (if IsInfix(lexicon[0], text) then 1 else 0) + CountPresent(lexicon[1..], text)
  }

  function AnalyzeSentiment(text: string): SentimentResult {
    var lowered := Lower(text);
    var positive := CountPresent(PositiveWords, lowered);
    var negative := CountPresent(NegativeWords, lowered);
    var verdict :=
      if positive > negative then Positive
      else if negative > positive then Negative
      else Neutral;
    SentimentResult(verdict, positive, negative)
  }

  /** The lexicon words that occur somewhere in `text`, each counted once. */
  function Present(lexicon: seq<string>, text: string): set<string> {
    set w | w in lexicon && IsInfix(w, text)
  }

  ghost predicate NoDuplicates(xs: seq<string>) {
    forall i, j :: 0 <= i < j < |xs| ==> xs[i] != xs[j]
  }

  /** Counting down a lexicon without repeats counts the set of its words that occur. */
  lemma {:induction false} CountPresentIsSetSize(lexicon: seq<string>, text: string)
    requires NoDuplicates(lexicon)
    ensures CountPresent(lexicon, text) == |Present(lexicon, text)|
  {
    if lexicon != [] {
      var rest := lexicon[1..];
      HeadNotInTail(lexicon);
      CountPresentIsSetSize(rest, text);
      PresentCons(lexicon, text);
    }
  }

  lemma HeadNotInTail(xs: seq<string>)
    requires xs != [] && NoDuplicates(xs)
    ensures xs[0] !in xs[1..] && NoDuplicates(xs[1..])
  {
    forall i | 0 <= i < |xs| - 1 ensures xs[1..][i] != xs[0] {
      assert xs[1..][i] == xs[i + 1];
    }
  }

  lemma PresentCons(lexicon: seq<string>, text: string)
    requires lexicon != [] && lexicon[0] !in lexicon[1..]
    ensures Present(lexicon, text) ==
      (if IsInfix(lexicon[0], text) then {lexicon[0]} else {}) + Present(lexicon[1..], text)
    ensures lexicon[0] !in Present(lexicon[1..], text)
  {
    assert forall w :: w in lexicon <==> w == lexicon[0] || w in lexicon[1..] by {
      assert lexicon == [lexicon[0]] + lexicon[1..];
    }
  }

  /** The label compares how many distinct positive and negative lexicon words occur
      as substrings of the lowered text; each count is at most six. */
  lemma SentimentLabel(text: string)
    ensures var r := AnalyzeSentiment(text);
      var positive := |Present(PositiveWords, Lower(text))|;
      var negative := |Present(NegativeWords, Lower(text))|;
      && r.positiveCount == positive <= 6
      && r.negativeCount == negative <= 6
      && (r.sentiment == Positive <==> positive > negative)
      && (r.sentiment == Negative <==> negative > positive)
      && (r.sentiment == Neutral <==> positive == negative)
  {
    CountPresentIsSetSize(PositiveWords, Lower(text));
    CountPresentIsSetSize(NegativeWords, Lower(text));
  }

  // ---------------------------------------------------------------------
  // extract_keywords
  // ---------------------------------------------------------------------

  const DefaultMaxKeywords: int := 5

  /** `len(word) > 3`. */
  predicate IsCandidate(w: string) {
    |w| > 3
  }

  /** Occurrences of `w` among the first `n` words. */
  function Occurrences(ws: seq<string>, n: nat, w: string): nat
    requires n <= |ws|
  {
    if n == 0 then 0 else Occurrences(ws, n - 1, w) + (if ws[n - 1] == w then 1 else 0)
  }

  /** Occurrences of `w` in `ws`. */
  function Count(ws: seq<string>, w: string): nat {
    Occurrences(ws, |ws|, w)
  }

  lemma {:induction false} OccurrencesPositive(ws: seq<string>, n: nat, w: string)
    requires n <= |ws|
    ensures Occurrences(ws, n, w) > 0 <==> w in ws[..n]
  {
    if n > 0 {
      OccurrencesPositive(ws, n - 1, w);
      assert ws[..n] == ws[..n - 1] + [ws[n - 1]];
    }
  }

  /** The keys of `word_freq` after walking the first `n` words, in insertion
      order: the candidate words in order of first occurrence. */
  function KeyOrder(ws: seq<string>, n: nat): seq<string>
    requires n <= |ws|
  {
    if n == 0 then []
    else
      var d := KeyOrder(ws, n - 1);
      if IsCandidate(ws[n - 1]) && ws[n - 1] !in d then d + [ws[n - 1]] else d
  }

  function Keys(ws: seq<string>): seq<string> {
    KeyOrder(ws, |ws|)
  }

  lemma {:induction false} KeyOrderMembers(ws: seq<string>, n: nat)
    requires n <= |ws|
    ensures forall w :: w in KeyOrder(ws, n) <==> IsCandidate(w) && w in ws[..n]
  {
    if n > 0 {
      KeyOrderMembers(ws, n - 1);
      assert ws[..n] == ws[..n - 1] + [ws[n - 1]];
    }
  }

  lemma {:induction false} KeyOrderDistinct(ws: seq<string>, n: nat)
    requires n <= |ws|
    ensures NoDuplicates(KeyOrder(ws, n))
  {
    if n > 0 {
      KeyOrderDistinct(ws, n - 1);
    }
  }

  /** One `word_freq` item. */
  datatype WordFreq = WordFreq(word: string, freq: nat)

  /** `word_freq.items()` after the counting loop over `ws`. */
  function Frequencies(ws: seq<string>): (r: seq<WordFreq>)
    ensures |r| == |Keys(ws)|
  {
    var d := Keys(ws);
    seq(|d|, i requires 0 <= i < |d| => WordFreq(d[i], Count(ws, d[i])))
  }

  /** Inserts `x` in front of the first item whose frequency is not above its own. */
  function InsertByFreq(x: WordFreq, t: seq<WordFreq>): seq<WordFreq> {
    if t == [] then [x]
    else if t[0].freq <= x.freq then [x] + t
    else [t[0]] + InsertByFreq(x, t[1..])
  }

  /** `sorted(items, key=lambda x: x[1], reverse=True)`: stable, decreasing frequency. */
  function SortByFreqDesc(s: seq<WordFreq>): seq<WordFreq> {
    if s == [] then [] else InsertByFreq(s[0], SortByFreqDesc(s[1..]))
  }

  ghost predicate FreqNonIncreasing(s: seq<WordFreq>) {
    forall i, j :: 0 <= i < j < |s| ==> s[i].freq >= s[j].freq
  }

  /** The items of one frequency, in order. */
  function OfFreq(s: seq<WordFreq>, f: nat): seq<WordFreq> {
    if s == [] then []
    else (if s[0].freq == f then [s[0]] else []) + OfFreq(s[1..], f)
  }

  lemma {:induction false} InsertByFreqPermutes(x: WordFreq, t: seq<WordFreq>)
    ensures multiset(InsertByFreq(x, t)) == multiset{x} + multiset(t)
  {
    if t != [] && t[0].freq > x.freq {
      InsertByFreqPermutes(x, t[1..]);
      assert t == [t[0]] + t[1..];
    }
  }

  lemma {:induction false} InsertByFreqElements(x: WordFreq, t: seq<WordFreq>)
    ensures forall y :: y in InsertByFreq(x, t) <==> y == x || y in t
  {
    if t != [] && t[0].freq > x.freq {
      InsertByFreqElements(x, t[1..]);
      assert t == [t[0]] + t[1..];
    }
  }

  lemma HeadDominates(t: seq<WordFreq>)
    requires t != [] && FreqNonIncreasing(t)
    ensures forall y :: y in t ==> y.freq <= t[0].freq
  {
    forall y | y in t ensures y.freq <= t[0].freq {
      var k :| 0 <= k < |t| && t[k] == y;
    }
  }

  /** An item no smaller than everything after it keeps a sorted list sorted. */
  lemma ConsOrdered(h: WordFreq, rest: seq<WordFreq>)
    requires FreqNonIncreasing(rest)
    requires forall y :: y in rest ==> y.freq <= h.freq
    ensures FreqNonIncreasing([h] + rest)
  {
    var r := [h] + rest;
    forall i, j | 0 <= i < j < |r| ensures r[i].freq >= r[j].freq {
      assert r[j] == rest[j - 1];
      if i == 0 {
        assert rest[j - 1] in rest;
      } else {
        assert r[i] == rest[i - 1];
      }
    }
  }

  lemma {:induction false} InsertByFreqOrdered(x: WordFreq, t: seq<WordFreq>)
    requires FreqNonIncreasing(t)
    ensures FreqNonIncreasing(InsertByFreq(x, t))
  {
    if t != [] {
      HeadDominates(t);
      if t[0].freq > x.freq {
        InsertByFreqOrdered(x, t[1..]);
        InsertByFreqElements(x, t[1..]);
        assert forall y :: y in t[1..] ==> y in t;
        ConsOrdered(t[0], InsertByFreq(x, t[1..]));
      } else {
        ConsOrdered(x, t);
      }
    }
  }

  lemma OfFreqSingle(x: WordFreq, f: nat)
    ensures OfFreq([x], f) == if x.freq == f then [x] else []
  {
    assert [x][1..] == [];
  }

  lemma {:induction false} InsertByFreqStable(x: WordFreq, t: seq<WordFreq>, f: nat)
    ensures OfFreq(InsertByFreq(x, t), f) == OfFreq([x], f) + OfFreq(t, f)
  {
    OfFreqSingle(x, f);
    if t == [] {
      assert OfFreq(t, f) == [];
    } else if t[0].freq <= x.freq {
      assert ([x] + t)[1..] == t;
    } else {
      var rest := InsertByFreq(x, t[1..]);
      InsertByFreqStable(x, t[1..], f);
      assert ([t[0]] + rest)[1..] == rest;
    }
  }

  /** The sort is a permutation of its input. */
  lemma {:induction false} SortByFreqDescPermutes(s: seq<WordFreq>)
    ensures multiset(SortByFreqDesc(s)) == multiset(s)
  {
    if s != [] {
      SortByFreqDescPermutes(s[1..]);
      InsertByFreqPermutes(s[0], SortByFreqDesc(s[1..]));
      assert s == [s[0]] + s[1..];
    }
  }

  /** The sort leaves frequencies in non-increasing order. */
  lemma {:induction false} SortByFreqDescOrdered(s: seq<WordFreq>)
    ensures FreqNonIncreasing(SortByFreqDesc(s))
  {
    if s != [] {
      SortByFreqDescOrdered(s[1..]);
      InsertByFreqOrdered(s[0], SortByFreqDesc(s[1..]));
    }
  }

  /** The sort is stable: the items of each frequency keep their original order. */
  lemma {:induction false} SortByFreqDescStable(s: seq<WordFreq>, f: nat)
    ensures OfFreq(SortByFreqDesc(s), f) == OfFreq(s, f)
  {
    if s != [] {
      SortByFreqDescStable(s[1..], f);
      InsertByFreqStable(s[0], SortByFreqDesc(s[1..]), f);
      OfFreqSingle(s[0], f);
    }
  }

  /** The returned keywords and frequencies. */
  datatype KeywordResult = KeywordResult(keywords: seq<string>, frequencies: map<string, nat>)

  /** `[word for word, freq in ranked]`. */
  function WordsOf(ranked: seq<WordFreq>): (r: seq<string>)
    ensures |r| == |ranked|
    ensures forall i :: 0 <= i < |ranked| ==> r[i] == ranked[i].word
  {
    seq(|ranked|, i requires 0 <= i < |ranked| => ranked[i].word)
  }

  /** `{word: freq for word, freq in ranked}`. */
  function FreqMap(ranked: seq<WordFreq>): (m: map<string, nat>)
    ensures forall w :: w in m <==> exists i :: 0 <= i < |ranked| && ranked[i].word == w
  {
    if ranked == [] then map[]
    else
      var last := ranked[|ranked| - 1];
      var m := FreqMap(ranked[..|ranked| - 1]);
      assert forall i :: 0 <= i < |ranked| - 1 ==> ranked[..|ranked| - 1][i] == ranked[i];
      m[last.word := last.freq]
  }

  /** The ranked items that extract_keywords keeps. */
  function Ranked(text: string, maxKeywords: int): seq<WordFreq> {
    Prefix(SortByFreqDesc(Frequencies(Words(Lower(text)))), maxKeywords)
  }

  function KeywordsOf(ranked: seq<WordFreq>): KeywordResult {
    KeywordResult(WordsOf(ranked), FreqMap(ranked))
  }

  /** The state of the counting loop after walking `words[..i]`: the keys of
      `word_freq` in insertion order, and each key's count so far. */
  ghost predicate Walked(words: seq<string>, i: int, order: seq<string>, wordFreq: map<string, nat>) {
    && 0 <= i <= |words|
    && order == KeyOrder(words, i)
    && (forall w :: w in wordFreq <==> w in order)
    && (forall w :: w in wordFreq ==> wordFreq[w] == Occurrences(words, i, w))
  }

  /** A word of three characters or fewer is skipped. */
  lemma WalkSkip(words: seq<string>, i: int, order: seq<string>, wordFreq: map<string, nat>)
    requires Walked(words, i, order, wordFreq) && i < |words| && !IsCandidate(words[i])
    ensures Walked(words, i + 1, order, wordFreq)
  {
    KeyOrderMembers(words, i);
  }

  /** A word already counted has its count raised by one. */
  lemma WalkRepeat(words: seq<string>, i: int, order: seq<string>, wordFreq: map<string, nat>)
    requires Walked(words, i, order, wordFreq) && i < |words| && words[i] in wordFreq
    ensures Walked(words, i + 1, order, wordFreq[words[i] := wordFreq[words[i]] + 1])
  {
  }

  /** A candidate word seen for the first time becomes the last key, counted once. */
  lemma WalkFirst(words: seq<string>, i: int, order: seq<string>, wordFreq: map<string, nat>)
    requires Walked(words, i, order, wordFreq) && i < |words|
    requires IsCandidate(words[i]) && words[i] !in wordFreq
    ensures Walked(words, i + 1, order + [words[i]], wordFreq[words[i] := 1])
  {
    KeyOrderMembers(words, i);
    OccurrencesPositive(words, i, words[i]);
  }

  /** The loop `for word in words: if len(word) > 3: word_freq[word] = word_freq.get(word, 0) + 1`.
      `order` is the dict's insertion order. */
  method CountCandidates(words: seq<string>) returns (order: seq<string>, wordFreq: map<string, nat>)
    ensures order == Keys(words)
    ensures forall w :: w in wordFreq <==> w in order
    ensures forall w :: w in wordFreq ==> wordFreq[w] == Count(words, w)
  {
    order, wordFreq := [], map[];
    var i := 0;
    while i < |words|
      invariant Walked(words, i, order, wordFreq)
    {
      var word := words[i];
      if IsCandidate(word) {
        if word in wordFreq {
          WalkRepeat(words, i, order, wordFreq);
          wordFreq := wordFreq[word := wordFreq[word] + 1];
        } else {
          WalkFirst(words, i, order, wordFreq);
          order := order + [word];
          wordFreq := wordFreq[word := 1];
        }
      } else {
        WalkSkip(words, i, order, wordFreq);
      }
      i := i + 1;
    }
  }

  /** extract_keywords(text, max_keywords). */
  method ExtractKeywords(text: string, maxKeywords: int) returns (r: KeywordResult)
    ensures r == KeywordsOf(Ranked(text, maxKeywords))
  {
    var words := Words(Lower(text));
    var order, wordFreq := CountCandidates(words);
    var items := seq(|order|, k requires 0 <= k < |order| && order[k] in wordFreq => WordFreq(order[k], wordFreq[order[k]]));
    assert items == Frequencies(words);
    var ranked := Prefix(SortByFreqDesc(items), maxKeywords);
    r := KeywordResult(WordsOf(ranked), FreqMap(ranked));
  }

  /** The items of `Frequencies(ws)` are exactly the candidate words of `ws`, each with its count. */
  lemma FrequenciesItems(ws: seq<string>)
    ensures forall e: WordFreq :: e in Frequencies(ws) <==>
      e.word in ws && IsCandidate(e.word) && e.freq == Count(ws, e.word)
  {
    var d := Keys(ws);
    KeyOrderMembers(ws, |ws|);
    assert ws[..|ws|] == ws;
    forall e: WordFreq | e.word in ws && IsCandidate(e.word) && e.freq == Count(ws, e.word)
      ensures e in Frequencies(ws)
    {
      var i :| 0 <= i < |d| && d[i] == e.word;
      assert Frequencies(ws)[i] == e;
    }
  }

  ghost predicate WordsDistinct(s: seq<WordFreq>) {
    forall i, j :: 0 <= i < j < |s| ==> s[i].word != s[j].word
  }

  lemma FrequenciesDistinct(ws: seq<string>)
    ensures WordsDistinct(Frequencies(ws))
  {
    KeyOrderDistinct(ws, |ws|);
  }

  lemma TwoPositionsTwoCopies(s: seq<WordFreq>, i: int, j: int)
    requires 0 <= i < j < |s| && s[i] == s[j]
    ensures multiset(s)[s[i]] >= 2
  {
    var x := s[i];
    assert s == s[..j] + [s[j]] + s[j + 1..];
    assert x in s[..j];
    assert multiset(s) == multiset(s[..j]) + multiset{x} + multiset(s[j + 1..]);
  }

  lemma {:induction false} OneCopy(s: seq<WordFreq>, a: int)
    requires WordsDistinct(s)
    requires 0 <= a < |s|
    ensures multiset(s)[s[a]] == 1
    decreases |s|
  {
    var x := s[a];
    var rest := s[..|s| - 1];
    assert s == rest + [s[|s| - 1]];
    if a == |s| - 1 {
      assert x !in rest by {
        forall k | 0 <= k < |rest| ensures rest[k] != x {
          assert rest[k] == s[k];
        }
      }
    } else {
      OneCopy(rest, a);
      assert s[|s| - 1] != x;
    }
  }

  /** A permutation of items with distinct words has distinct words. */
  lemma DistinctWordsSurviveSort(items: seq<WordFreq>, sorted: seq<WordFreq>)
    requires WordsDistinct(items)
    requires multiset(sorted) == multiset(items)
    ensures WordsDistinct(sorted)
  {
    forall i, j | 0 <= i < j < |sorted| ensures sorted[i].word != sorted[j].word {
      if sorted[i].word == sorted[j].word {
        assert sorted[i] in multiset(items) && sorted[j] in multiset(items);
        var a :| 0 <= a < |items| && items[a] == sorted[i];
        var b :| 0 <= b < |items| && items[b] == sorted[j];
        assert a == b;
        TwoPositionsTwoCopies(sorted, i, j);
        OneCopy(items, a);
      }
    }
  }

  /** With distinct words, the dict comprehension maps each word to its own item's frequency. */
  lemma {:induction false} FreqMapValues(ranked: seq<WordFreq>)
    requires WordsDistinct(ranked)
    ensures forall i :: 0 <= i < |ranked| ==> FreqMap(ranked)[ranked[i].word] == ranked[i].freq
  {
    if ranked != [] {
      var init := ranked[..|ranked| - 1];
      FreqMapValues(init);
      forall i | 0 <= i < |ranked| ensures FreqMap(ranked)[ranked[i].word] == ranked[i].freq {
        if i < |ranked| - 1 {
          assert init[i] == ranked[i];
        }
      }
    }
  }

  /** The kept items are items of `Frequencies`, with distinct words, and as
      many as `[:max_keywords]` keeps of the distinct candidate words. */
  lemma RankedItems(text: string, maxKeywords: int)
    ensures var ranked := Ranked(text, maxKeywords);
      var n := |Keys(Words(Lower(text)))|;
      && (maxKeywords >= 0 ==> |ranked| == if maxKeywords <= n then maxKeywords else n)
      && (maxKeywords < 0 ==> |ranked| == if n + maxKeywords >= 0 then n + maxKeywords else 0)
      && WordsDistinct(ranked)
      && forall i :: 0 <= i < |ranked| ==> ranked[i] in Frequencies(Words(Lower(text)))
  {
    var ws := Words(Lower(text));
    var items := Frequencies(ws);
    var sorted := SortByFreqDesc(items);
    SortByFreqDescPermutes(items);
    FrequenciesDistinct(ws);
    DistinctWordsSurviveSort(items, sorted);
    var ranked := Ranked(text, maxKeywords);
    assert |sorted| == |items| by {
      assert |multiset(sorted)| == |multiset(items)|;
    }
    forall i | 0 <= i < |ranked| ensures ranked[i] in items {
      assert ranked[i] == sorted[i];
      assert sorted[i] in multiset(sorted);
    }
  }

  /** What every keyword is: a lowered split word of the text, longer than three
      characters, listed once, reported with its number of occurrences; the
      frequencies map has no other key. */
  lemma KeywordsAreCountedWords(text: string, maxKeywords: int)
    ensures var r := KeywordsOf(Ranked(text, maxKeywords));
      var ws := Words(Lower(text));
      && NoDuplicates(r.keywords)
      && (forall i :: 0 <= i < |r.keywords| ==>
            && IsCandidate(r.keywords[i])
            && r.keywords[i] in ws
            && r.keywords[i] in r.frequencies
            && r.frequencies[r.keywords[i]] == Count(ws, r.keywords[i]) > 0)
      && (forall w :: w in r.frequencies ==> w in r.keywords)
  {
    var ranked := Ranked(text, maxKeywords);
    var ws := Words(Lower(text));
    RankedItems(text, maxKeywords);
    FrequenciesItems(ws);
    FreqMapValues(ranked);
    forall w | w in ws ensures Count(ws, w) > 0 {
      OccurrencesPositive(ws, |ws|, w);
      assert ws[..|ws|] == ws;
    }
  }

  /** Keywords come in non-increasing order of their number of occurrences. */
  lemma KeywordsInFrequencyOrder(text: string, maxKeywords: int)
    ensures var r := KeywordsOf(Ranked(text, maxKeywords));
      var ws := Words(Lower(text));
      forall i, j :: 0 <= i < j < |r.keywords| ==> Count(ws, r.keywords[i]) >= Count(ws, r.keywords[j])
  {
    var ws := Words(Lower(text));
    var items := Frequencies(ws);
    var sorted := SortByFreqDesc(items);
    var ranked := Ranked(text, maxKeywords);
    SortByFreqDescOrdered(items);
    FrequenciesItems(ws);
    RankedItems(text, maxKeywords);
    assert forall i :: 0 <= i < |ranked| ==> ranked[i] == sorted[i];
  }

  /** An item missing from the first `n` places of a sorted listing ranks below each of them. */
  lemma LeftOutRanksBelow(sorted: seq<WordFreq>, n: int, e: WordFreq, i: int)
    requires FreqNonIncreasing(sorted)
    requires e in multiset(sorted)
    requires 0 <= i < n <= |sorted|
    requires forall k :: 0 <= k < n ==> sorted[k] != e
    ensures e.freq <= sorted[i].freq
  {
    var j :| 0 <= j < |sorted| && sorted[j] == e;
  }

  /** Top-k: no candidate word left out occurs more often than any keyword. */
  lemma KeywordsAreTopRanked(text: string, maxKeywords: int)
    ensures var r := KeywordsOf(Ranked(text, maxKeywords));
      var ws := Words(Lower(text));
      forall w, i :: w in ws && IsCandidate(w) && w !in r.keywords && 0 <= i < |r.keywords| ==>
        Count(ws, w) <= Count(ws, r.keywords[i])
  {
    var ws := Words(Lower(text));
    var items := Frequencies(ws);
    var sorted := SortByFreqDesc(items);
    var ranked := Ranked(text, maxKeywords);
    var r := KeywordsOf(ranked);
    SortByFreqDescPermutes(items);
    SortByFreqDescOrdered(items);
    FrequenciesItems(ws);
    RankedItems(text, maxKeywords);
    forall w, i | w in ws && IsCandidate(w) && w !in r.keywords && 0 <= i < |r.keywords|
      ensures Count(ws, w) <= Count(ws, r.keywords[i])
    {
      var e := WordFreq(w, Count(ws, w));
      assert e in multiset(sorted);
      forall k | 0 <= k < |ranked| ensures sorted[k] != e {
        assert sorted[k] == ranked[k] && r.keywords[k] == ranked[k].word;
      }
      LeftOutRanksBelow(sorted, |ranked|, e, i);
      assert sorted[i] == ranked[i];
    }
  }

  /** Keeping a prefix keeps a prefix of every frequency class. */
  lemma {:induction false} OfFreqOfPrefix(s: seq<WordFreq>, n: nat, f: nat)
    requires n <= |s|
    ensures OfFreq(s[..n], f) <= OfFreq(s, f)
  {
    if n > 0 {
      OfFreqOfPrefix(s[1..], n - 1, f);
      assert s[..n][1..] == s[1..][..n - 1];
    }
  }

  /** Ties keep first-occurrence order: for each frequency, the kept items of
      that frequency are the first ones, in order, of all candidate words with
      that frequency taken in order of first occurrence. */
  lemma KeywordTiesKeepFirstOccurrence(text: string, maxKeywords: int, f: nat)
    ensures OfFreq(Ranked(text, maxKeywords), f) <= OfFreq(Frequencies(Words(Lower(text))), f)
  {
    var items := Frequencies(Words(Lower(text)));
    var sorted := SortByFreqDesc(items);
    SortByFreqDescStable(items, f);
    var ranked := Ranked(text, maxKeywords);
    assert ranked == sorted[..|ranked|];
    OfFreqOfPrefix(sorted, |ranked|, f);
  }

  // ---------------------------------------------------------------------
  // generate_summary
  // ---------------------------------------------------------------------

  const DefaultMaxLength: int := 100

  /** The text of Python's ZeroDivisionError for `x / 0`. */
  const ZeroDivisionText := "division by zero"

  /** The summary, `original_length` and `summary_length`; `compression_ratio`
      is a float and is left out, but the division that computes it is kept:
      with no words it raises. */
  datatype Summary = Summary(summary: string, originalLength: nat, summaryLength: nat)

  function GenerateSummary(text: string, maxLength: int): Result<Summary, string> {
    var words := Words(text);
    var summary := if |words| <= maxLength then text else JoinWords(Prefix(words, maxLength)) + "...";
    if |words| == 0 then Failure(ZeroDivisionText)
    else Success(Summary(summary, |words|, |Words(summary)|))
  }

  /** Raises exactly when the text has no words, that is when it is empty or
      all whitespace; otherwise reports the word count. */
  lemma SummaryFailsOnlyWithoutWords(text: string, maxLength: int)
    ensures GenerateSummary(text, maxLength).Failure? <==> Words(text) == []
    ensures GenerateSummary(text, maxLength).Failure? <==> IsBlank(text)
    ensures GenerateSummary(text, maxLength).Failure? ==> GenerateSummary(text, maxLength).error == ZeroDivisionText
    ensures GenerateSummary(text, maxLength).Success? ==> GenerateSummary(text, maxLength).value.originalLength == |Words(text)|
  {
    WordsEmptyIffBlank(text);
  }

  /** A short enough text is its own summary, verbatim. */
  lemma ShortTextIsVerbatim(text: string, maxLength: int)
    requires 0 < |Words(text)| <= maxLength
    ensures GenerateSummary(text, maxLength) == Success(Summary(text, |Words(text)|, |Words(text)|))
  {
  }

  /** A long text is cut to its first `maxLength` words joined by single spaces,
      with "..." glued to the last word kept. */
  lemma {:induction false} LongTextIsTruncated(text: string, maxLength: int)
    requires |Words(text)| > maxLength >= 1
    ensures var kept := Words(text)[..maxLength];
      && GenerateSummary(text, maxLength).Success?
      && GenerateSummary(text, maxLength).value.summary == JoinWords(kept) + "..."
      && Words(GenerateSummary(text, maxLength).value.summary) == kept[..maxLength - 1] + [kept[maxLength - 1] + "..."]
  {
    var kept := Words(text)[..maxLength];
    var glued := kept[..maxLength - 1] + [kept[maxLength - 1] + "..."];
    JoinThenAppend(kept, "...");
    forall i | 0 <= i < |glued| ensures IsWord(glued[i]) {
      if i < maxLength - 1 {
        assert glued[i] == Words(text)[i];
      } else {
        var w := kept[maxLength - 1] + "...";
        assert w[..|kept[maxLength - 1]|] == kept[maxLength - 1];
        forall c | 0 <= c < |w| ensures !IsSpace(w[c]) {
          if c < |kept[maxLength - 1]| {
            assert w[c] == kept[maxLength - 1][c];
          }
        }
      }
    }
    WordsOfJoin(glued);
  }

  /** For a positive `max_length` and a text with words, the summary has
      min(original_length, max_length) words. */
  lemma SummaryLengthIsMin(text: string, maxLength: int)
    requires Words(text) != [] && maxLength >= 1
    ensures GenerateSummary(text, maxLength).Success?
    ensures GenerateSummary(text, maxLength).value.summaryLength ==
              if |Words(text)| <= maxLength then |Words(text)| else maxLength
  {
    if |Words(text)| > maxLength {
      LongTextIsTruncated(text, maxLength);
    }
  }

  /** With `max_length` 0 the summary is "..." alone, one word, not zero. */
  lemma SummaryWithZeroMaxLength(text: string)
    requires Words(text) != []
    ensures GenerateSummary(text, 0) == Success(Summary("...", |Words(text)|, 1))
  {
    var words := Words(text);
    assert Prefix(words, 0) == [];
    assert JoinWords(Prefix(words, 0)) + "..." == "...";
    WordsOfEllipsis();
  }

  lemma WordsOfEllipsis()
    ensures Words("...") == ["..."]
  {
    WordsAfterWord("...", "");
    assert "..." + "" == "...";
  }

  // ---------------------------------------------------------------------
  // The endpoints: analyze_text, analyze_image, ml_prediction
  // ---------------------------------------------------------------------

  datatype TextAnalysisRequest = TextAnalysisRequest(text: string, analysisType: string)

  /** `image_url` and `image_data` are accepted but never read. */
  datatype ImageAnalysisRequest = ImageAnalysisRequest(imageUrl: Option<string>, imageData: Option<string>, analysisType: string)

  /** `input_data` and `parameters` are accepted but never read. */
  datatype MLModelRequest = MLModelRequest(modelName: string)

  const DefaultTextAnalysis := "sentiment"
  const DefaultImageAnalysis := "classification"

  /** The request pydantic builds from a body; a body without `analysis_type`
      gets the field's default. */
  function TextRequestOf(text: string, analysisType: Option<string>): TextAnalysisRequest {
    TextAnalysisRequest(text, analysisType.GetOr(DefaultTextAnalysis))
  }

  function ImageRequestOf(imageUrl: Option<string>, imageData: Option<string>, analysisType: Option<string>): ImageAnalysisRequest {
    ImageAnalysisRequest(imageUrl, imageData, analysisType.GetOr(DefaultImageAnalysis))
  }

  /** The `result` payloads, without their floating-point members. */
  datatype AnalysisResult =
    | SentimentAnalysis(sentiment: SentimentResult)
    | KeywordAnalysis(keywords: KeywordResult)
    | SummaryAnalysis(summary: Summary)
    | ImageClassification(labels: seq<string>, dominantColor: string, imageQuality: string)
    | RegressionPrediction(features: seq<string>)
    | ClassPrediction(prediction: string, classes: seq<string>)

  /** An `AnalysisResponse` body, without request id, confidence and processing time. */
  datatype AnalysisResponse = AnalysisResponse(status: string, result: Option<AnalysisResult>, error: Option<string>)

  /** The HTTP status and the body an endpoint answers with. */
  datatype Reply = Reply(httpStatus: int, body: AnalysisResponse)

  function Completed(result: AnalysisResult): Reply {
    Reply(200, AnalysisResponse("completed", Some(result), None))
  }

  /** What `except Exception as e` returns: still HTTP 200, with `str(e)` as the error. */
  function Failed(error: string): Reply {
    Reply(200, AnalysisResponse("failed", None, Some(error)))
  }

  /** `str(HTTPException(status_code=400, detail=d))` as Starlette formats it. */
  function BadRequestText(detail: string): string {
    "400: " + detail
  }

  /** POST /api/v1/analyze/text. */
  method AnalyzeText(req: TextAnalysisRequest) returns (r: Reply)
    ensures r.httpStatus == 200
    ensures r.body.status == "failed" <==>
      req.analysisType !in {"sentiment", "keywords", "summary"} ||
      (req.analysisType == "summary" && Words(req.text) == [])
    ensures r.body.status == "completed" || r.body.status == "failed"
    ensures r.body.status == "failed" ==> r.body.result.None? && r.body.error.Some?
    ensures req.analysisType !in {"sentiment", "keywords", "summary"} ==>
      r.body.error == Some(BadRequestText("Unsupported analysis type: " + req.analysisType))
    ensures req.analysisType == "summary" && Words(req.text) == [] ==>
      r.body.error == Some(ZeroDivisionText)
    ensures req.analysisType == "summary" ==> (r.body.status == "failed" <==> IsBlank(req.text))
    ensures req.analysisType == "sentiment" ==> r == Completed(SentimentAnalysis(AnalyzeSentiment(req.text)))
    ensures req.analysisType == "keywords" ==>
      r == Completed(KeywordAnalysis(KeywordsOf(Ranked(req.text, DefaultMaxKeywords))))
    ensures req.analysisType == "summary" && Words(req.text) != [] ==>
      r == Completed(SummaryAnalysis(GenerateSummary(req.text, DefaultMaxLength).value))
  {
    if req.analysisType == "sentiment" {
      r := Completed(SentimentAnalysis(AnalyzeSentiment(req.text)));
    } else if req.analysisType == "keywords" {
      var keywords := ExtractKeywords(req.text, DefaultMaxKeywords);
      r := Completed(KeywordAnalysis(keywords));
    } else if req.analysisType == "summary" {
      var summary := GenerateSummary(req.text, DefaultMaxLength);
      SummaryFailsOnlyWithoutWords(req.text, DefaultMaxLength);
      r := match summary
        case Success(s) => Completed(SummaryAnalysis(s))
        case Failure(e) => Failed(e);
    } else {
      r := Failed(BadRequestText("Unsupported analysis type: " + req.analysisType));
    }
  }

  /** POST /api/v1/analyze/image. */
  function AnalyzeImage(req: ImageAnalysisRequest): (r: Reply)
    ensures r.httpStatus == 200
    ensures r.body.status == "completed" <==> req.analysisType == "classification"
    ensures r.body.status == "completed" || r.body.status == "failed"
    ensures r.body.status == "failed" ==>
      r.body.error == Some(BadRequestText("Unsupported analysis type: " + req.analysisType)) && r.body.result.None?
    ensures req.analysisType != "classification" ==>
      r == Failed(BadRequestText("Unsupported analysis type: " + req.analysisType))
  {
    if req.analysisType == "classification" then
      Completed(ImageClassification(["cat", "animal", "pet"], "#8B4513", "high"))
    else
      Failed(BadRequestText("Unsupported analysis type: " + req.analysisType))
  }

  /** POST /api/v1/ml/predict. */
  function MlPrediction(req: MLModelRequest): (r: Reply)
    ensures r.httpStatus == 200
    ensures r.body.status == "completed" <==> req.modelName in {"regression", "classification"}
    ensures r.body.status == "completed" || r.body.status == "failed"
    ensures r.body.status == "failed" ==>
      r.body.error == Some(BadRequestText("Unknown model: " + req.modelName)) && r.body.result.None?
    ensures req.modelName !in {"regression", "classification"} ==>
      r == Failed(BadRequestText("Unknown model: " + req.modelName))
  {
    if req.modelName == "regression" then
      Completed(RegressionPrediction(["feature1", "feature2", "feature3"]))
    else if req.modelName == "classification" then
      Completed(ClassPrediction("class_A", ["class_A", "class_B", "class_C"]))
    else
      Failed(BadRequestText("Unknown model: " + req.modelName))
  }

  /** A text request without `analysis_type` asks for sentiment (which
      `AnalyzeText` always completes); an image request without it asks for
      classification, which completes. */
  lemma DefaultAnalysisTypes(text: string, imageUrl: Option<string>, imageData: Option<string>)
    ensures TextRequestOf(text, None) == TextAnalysisRequest(text, "sentiment")
    ensures AnalyzeImage(ImageRequestOf(imageUrl, imageData, None)) ==
      Completed(ImageClassification(["cat", "animal", "pet"], "#8B4513", "high"))
  {
  }
}
