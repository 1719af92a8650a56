/** The keyword extractor of the taxonomy service: the words of the
    observation descriptions, lower-cased, stripped of punctuation, without
    short words and stop words, counted, and the ten most frequent kept. */
module TaxonomyKeywords {
  import opened Common
  import opened Text
  import opened Ordering
  import opened Tally

  /** An observation as fetched from the observation service; only its
      description matters here, and it may be missing. */
  datatype FetchedObservation = FetchedObservation(description: Option<string>)

  /** The French stop words that are never keywords. */
  const StopWords: set<string> := {
    "le", "la", "les", "un", "une", "des", "et", "ou", "mais", "donc", "or", "ni", "car",
    "de", "du", "à", "au", "en", "dans", "sur", "sous", "avec", "sans", "pour", "par",
    "est", "sont", "était", "étaient", "a", "ont", "avoir", "être",
    "ce", "cette", "ces", "qui", "que", "quoi", "dont", "où"
  }

  /** The most keywords returned. */
  const MaxKeywords: nat := 10

  /** The characters `replace(/[^\w\sàâäéèêëïîôùûüÿç]/g, '')` keeps: ASCII
      word characters, white space and the listed accented letters. */
  predicate KeepChar(c: char)
  {
    ('a' <= c <= 'z') || ('A' <= c <= 'Z') || ('0' <= c <= '9') || c == '_' || IsSpace(c)
    || c in "àâäéèêëïîôùûüÿç"
  }

  /** The description with every other character removed: each kept
      character as often as it occurs, and nothing else. */
  function Clean(s: string): (r: string)
    ensures forall i :: 0 <= i < |r| ==> r[i] in s && KeepChar(r[i])
    ensures forall c {:trigger multiset(r)[c]} :: multiset(r)[c] == if KeepChar(c) then multiset(s)[c] else 0
  {
    Filter(s, KeepChar)
  }

  /** The length of the run of non-space characters `s` starts with. */
  function RunEnd(s: string): (n: nat)
    requires s != [] && !IsSpace(s[0])
    ensures 1 <= n <= |s|
    ensures forall k :: 0 <= k < n ==> !IsSpace(s[k])
    ensures n == |s| || IsSpace(s[n])
  {
    if |s| == 1 || IsSpace(s[1]) then 1 else 1 + RunEnd(s[1..])
  }

  /** `s.split(/\s+/)` without its empty pieces: the maximal runs of
      non-space characters, in order. The empty pieces `split` yields at a
      leading or trailing space are dropped by the length filter anyway. */
  function Runs(s: string): (r: seq<string>)
    ensures forall i :: 0 <= i < |r| ==> r[i] != [] && forall c :: c in r[i] ==> c in s && !IsSpace(c)
    decreases |s|
  {
    if s == [] then []
    else if IsSpace(s[0]) then Runs(s[1..])
    else
      var n := RunEnd(s);
      [s[..n]] + Runs(s[n..])
  }

  predicate NonEmpty(w: string)
  {
    w != []
  }

  /** The pieces of `s` cut at every white-space character: a string with
      `k` such characters has `k + 1` pieces, empty ones included. */
  function Pieces(s: string): (r: seq<string>)
    ensures |r| >= 1
  {
    if s == [] then [[]]
    else if IsSpace(s[0]) then [[]] + Pieces(s[1..])
    else
      var p := Pieces(s[1..]);
      [[s[0]] + p[0]] + p[1..]
  }

  /** A string that starts with a non-space character has its first run as
      first piece, and the pieces after the space that ends it. */
  lemma {:induction false} PiecesRun(s: string)
    requires s != [] && !IsSpace(s[0])
    ensures var n := RunEnd(s);
      Pieces(s) == [s[..n]] + (if n == |s| then [] else Pieces(s[n + 1..]))
  {
    var p := Pieces(s[1..]);
    assert Pieces(s) == [[s[0]] + p[0]] + p[1..];
    if |s| == 1 {
      assert p == [[]];
      assert s[..RunEnd(s)] == [s[0]] + p[0];
    } else if IsSpace(s[1]) {
      assert s[1..][1..] == s[2..];
      assert p == [[]] + Pieces(s[2..]);
      assert s[..RunEnd(s)] == [s[0]] + p[0];
    } else {
      PiecesRun(s[1..]);
      var m := RunEnd(s[1..]);
      assert [s[0]] + s[1..][..m] == s[..m + 1];
      if m + 1 < |s| {
        assert s[1..][m + 1..] == s[m + 2..];
      }
    }
  }

  /** The runs are the non-empty pieces, in order: splitting on runs of
      white space and dropping the empty pieces. */
  lemma {:induction false} RunsArePieces(s: string)
    ensures Runs(s) == Filter(Pieces(s), NonEmpty)
    decreases |s|
  {
    if s == [] {
      FilterCons([], [], NonEmpty);
    } else if IsSpace(s[0]) {
      RunsArePieces(s[1..]);
      FilterCons([], Pieces(s[1..]), NonEmpty);
    } else {
      var n := RunEnd(s);
      var pieces: seq<string> := if n == |s| then [] else Pieces(s[n + 1..]);
      var runs: seq<string> := if n == |s| then [] else Runs(s[n + 1..]);
      PiecesRun(s);
      RunsAfterRun(s);
      if n < |s| {
        RunsArePieces(s[n + 1..]);
      }
      FilterKeepsHead(Pieces(s), Runs(s), s[..n], pieces, runs, NonEmpty);
    }
  }

  /** A string that starts with a non-space character has its first run
      as first run, and the runs after the space that ends it. */
  lemma RunsAfterRun(s: string)
    requires s != [] && !IsSpace(s[0])
    ensures var n := RunEnd(s);
      Runs(s) == [s[..n]] + (if n == |s| then [] else Runs(s[n + 1..]))
  {
    var n := RunEnd(s);
    if n < |s| {
      assert s[n..][1..] == s[n + 1..];
    } else {
      assert s[n..] == [];
    }
  }

  /** `word.length > 3 && !stopWords.has(word)`. */
  predicate IsCandidate(w: string)
  {
    |w| > 3 && w !in StopWords
  }

  /** What every keyword is: longer than three characters, not a stop
      word, and made of kept, non-space, non-upper-case characters. */
  ghost predicate ValidKeyword(w: string)
  {
    && |w| > 3
    && w !in StopWords
    && forall c :: c in w ==> KeepChar(c) && !IsSpace(c) && !IsUpper(c)
  }

  /** The candidate words of one description: each run of the cleaned,
      lower-cased description that is a candidate, as often as it occurs. */
  function DescriptionWords(d: string): (r: seq<string>)
    ensures forall i :: 0 <= i < |r| ==> ValidKeyword(r[i])
    ensures forall w {:trigger multiset(r)[w]} ::
      multiset(r)[w] == if IsCandidate(w) then multiset(Runs(Clean(Lower(d))))[w] else 0
  {
    var lowered := Lower(d);
    var cleaned := Clean(lowered);
    assert forall c :: c in cleaned ==> !IsUpper(c);
    Filter(Runs(cleaned), IsCandidate)
  }

  /** The words one observation contributes: none without a description. */
  function ObservationWords(o: FetchedObservation): seq<string>
  {
    if Present(o.description) then DescriptionWords(o.description.value) else []
  }

  /** The words of all observations, in order. */
  function AllWords(observations: seq<FetchedObservation>): (r: seq<string>)
    ensures forall i :: 0 <= i < |r| ==> ValidKeyword(r[i])
  {
    if observations == [] then []
    else AllWords(observations[..|observations| - 1]) + ObservationWords(observations[|observations| - 1])
  }

  /** The words of two lists of observations are the words of the first
      followed by those of the second. */
  lemma {:induction false} AllWordsAppend(a: seq<FetchedObservation>, b: seq<FetchedObservation>)
    ensures AllWords(a + b) == AllWords(a) + AllWords(b)
    decreases |b|
  {
    if b == [] {
      assert a + b == a;
    } else {
      var n := |b| - 1;
      assert (a + b)[..|a + b| - 1] == a + b[..n];
      assert (a + b)[|a + b| - 1] == b[n];
      AllWordsAppend(a, b[..n]);
    }
  }

  /** One observation contributes exactly its own words. */
  lemma AllWordsOne(o: FetchedObservation)
    ensures AllWords([o]) == ObservationWords(o)
  {
    assert [o][..0] == [];
  }

  function EntryCount(e: Entry): int
  {
    e.count
  }

  /** `Object.entries(d).sort((a, b) => b[1] - a[1]).slice(0, n).map(([w]) => w)`. */
  function TopKeys(t: seq<Entry>, n: nat): seq<string>
  {
    Keys(Take(SortDesc(t, EntryCount), n))
  }

  /** `extractKeywords`: nothing for an absent or empty list; otherwise the
      ten most frequent candidate words. */
  function Keywords(observations: Option<seq<FetchedObservation>>): (r: seq<string>)
    ensures observations.None? || observations.value == [] ==> r == []
  {
    if observations.None? || observations.value == [] then []
    else TopKeys(TallyOf(AllWords(observations.value)), MaxKeywords)
  }

  /** `words.forEach(word => { wordFrequency[word] = ... + 1 })`. */
  method CountWords(wordFrequency: seq<Entry>, words: seq<string>) returns (r: seq<Entry>)
    ensures r == TallyFrom(wordFrequency, words)
  {
    r := wordFrequency;
    var j := 0;
    while j < |words|
      invariant 0 <= j <= |words|
      invariant r == TallyFrom(wordFrequency, words[..j])
    {
      assert words[..j + 1][..j] == words[..j];
      r := Bump(r, words[j]);
      j := j + 1;
    }
    assert words[..j] == words;
  }

  /** Counting the words of one more observation. */
  lemma CountStep(all: seq<FetchedObservation>, i: int)
    requires 0 <= i < |all|
    ensures TallyOf(AllWords(all[..i + 1])) == TallyFrom(TallyOf(AllWords(all[..i])), ObservationWords(all[i]))
  {
    assert all[..i + 1][..i] == all[..i];
    TallyFromAppend([], AllWords(all[..i]), ObservationWords(all[i]));
  }

  /** The same computation, filling the counter one observation at a time. */
  method ExtractKeywords(observations: Option<seq<FetchedObservation>>) returns (keywords: seq<string>)
    ensures keywords == Keywords(observations)
  {
    if observations.None? || |observations.value| == 0 {
      return [];
    }
    var all := observations.value;
    var wordFrequency: seq<Entry> := [];
    var i := 0;
    while i < |all|
      invariant 0 <= i <= |all|
      invariant wordFrequency == TallyOf(AllWords(all[..i]))
    {
      CountStep(all, i);
      if Present(all[i].description) {
        var words := DescriptionWords(all[i].description.value);
        wordFrequency := CountWords(wordFrequency, words);
      }
      i := i + 1;
    }
    assert all[..i] == all;
    keywords := TopKeys(wordFrequency, MaxKeywords);
  }

  /** A word that occurs somewhere is in the list. */
  lemma {:induction false} OccurrencesPositive(words: seq<string>, w: string)
    ensures Occurrences(words, w) > 0 <==> w in words
  {
    if words != [] {
      OccurrencesPositive(words[..|words| - 1], w);
      assert words == words[..|words| - 1] + [words[|words| - 1]];
    }
  }

  /** The tally of `words`, most frequent first. */
  function Ranked(words: seq<string>): seq<Entry>
  {
    SortDesc(TallyOf(words), EntryCount)
  }

  /** Sorting neither adds nor loses an entry. */
  lemma SortedSameEntries(t: seq<Entry>)
    ensures forall e :: e in SortDesc(t, EntryCount) <==> e in t
  {
    var s := SortDesc(t, EntryCount);
    assert forall e :: e in s <==> e in multiset(t);
  }

  /** The ranked tally holds each word of the list once, with its number of
      occurrences as its count. */
  lemma RankedCounts(words: seq<string>)
    ensures var s := Ranked(words);
      && (forall i, j :: 0 <= i < j < |s| ==> s[i].key != s[j].key)
      && (forall i :: 0 <= i < |s| ==> Occurrences(words, s[i].key) == s[i].count && s[i].key in words)
  {
    var t := TallyOf(words);
    TallyOfCounts(words);
    var s := Ranked(words);
    SortedSameEntries(t);
    assert Distinct(t);
    DistinctSubMultiset(t, s);
    forall i, j | 0 <= i < j < |s| ensures s[i].key != s[j].key {
      assert s[i] in t && s[j] in t;
    }
    forall i | 0 <= i < |s| ensures Occurrences(words, s[i].key) == s[i].count && s[i].key in words {
      assert s[i] in t;
      var a :| 0 <= a < |t| && t[a] == s[i];
      CountOfEntry(t, a);
      OccurrencesPositive(words, s[i].key);
    }
  }

  /** Every word of the list is the key of some ranked entry. */
  lemma RankedCoversWords(words: seq<string>, w: string)
    requires w in words
    ensures exists p :: 0 <= p < |Ranked(words)| && Ranked(words)[p].key == w
  {
    var t := TallyOf(words);
    TallyOfCounts(words);
    OccurrencesPositive(words, w);
    CountPositive(t, w);
    var a :| 0 <= a < |t| && t[a].key == w;
    SortedSameEntries(t);
    assert t[a] in Ranked(words);
  }

  /** The keywords of a non-empty list: at most ten distinct valid words
      that occur in the descriptions, by non-increasing frequency. */
  lemma KeywordsRanked(observations: seq<FetchedObservation>)
    requires observations != []
    ensures var words := AllWords(observations);
      var r := Keywords(Some(observations));
      && |r| <= MaxKeywords
      && Distinct(r)
      && (forall i :: 0 <= i < |r| ==> ValidKeyword(r[i]) && r[i] in words)
      && (forall i, j :: 0 <= i < j < |r| ==> Occurrences(words, r[i]) >= Occurrences(words, r[j]))
  {
    var words := AllWords(observations);
    var s := Ranked(words);
    RankedCounts(words);
    var r := Keywords(Some(observations));
    assert r == Keys(Take(s, MaxKeywords));
    assert forall i :: 0 <= i < |r| ==> r[i] == s[i].key;
  }

  /** No word left out of the keywords occurs more often than any word
      kept, and words are left out only when ten are kept. */
  lemma KeywordsAreTopTen(observations: seq<FetchedObservation>, w: string)
    requires observations != []
    requires w in AllWords(observations) && w !in Keywords(Some(observations))
    ensures var words := AllWords(observations);
      var r := Keywords(Some(observations));
      && |r| == MaxKeywords
      && forall i :: 0 <= i < |r| ==> Occurrences(words, w) <= Occurrences(words, r[i])
  {
    var words := AllWords(observations);
    var s := Ranked(words);
    RankedCounts(words);
    RankedCoversWords(words, w);
    var r := Keywords(Some(observations));
    assert r == Keys(Take(s, MaxKeywords));
    var p :| 0 <= p < |s| && s[p].key == w;
    assert forall i :: 0 <= i < |r| ==> r[i] == s[i].key;
  }
}
