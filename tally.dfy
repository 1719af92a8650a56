/** A counting dictionary as the taxonomy service builds one from a plain
    JavaScript object: `d[k] = (d[k] || 0) + 1` for every key seen. Keys
    keep their first-insertion order, which is the order `Object.entries`
    lists them in. */
module Tally {

  datatype Entry = Entry(key: string, count: nat)

  /** The keys of a tally, in insertion order. */
  function Keys(t: seq<Entry>): (r: seq<string>)
    ensures |r| == |t|
    ensures forall i :: 0 <= i < |t| ==> r[i] == t[i].key
  {
    seq(|t|, i requires 0 <= i < |t| => t[i].key)
  }

  /** Every key occurs once and has been counted at least once. */
  ghost predicate WellFormed(t: seq<Entry>)
  {
    && (forall i, j :: 0 <= i < j < |t| ==> t[i].key != t[j].key)
    && (forall i :: 0 <= i < |t| ==> t[i].count >= 1)
  }

  /** `d[k] || 0`: the count of `k`, zero when absent. */
  function CountOf(t: seq<Entry>, k: string): nat
  {
    if t == [] then 0
    else if t[0].key == k then t[0].count
    else CountOf(t[1..], k)
  }

  /** The sum of the counts. */
  function Total(t: seq<Entry>): nat
  {
    if t == [] then 0 else t[0].count + Total(t[1..])
  }

  /** In a well-formed tally, an entry's count is the count of its key. */
  lemma {:induction false} CountOfEntry(t: seq<Entry>, i: int)
    requires WellFormed(t) && 0 <= i < |t|
    ensures CountOf(t, t[i].key) == t[i].count
  {
    if i > 0 {
      assert t[1..][i - 1] == t[i];
      CountOfEntry(t[1..], i - 1);
    }
  }

  /** In a well-formed tally, the keys with a positive count are the keys
      listed. */
  lemma {:induction false} CountPositive(t: seq<Entry>, k: string)
    requires WellFormed(t)
    ensures CountOf(t, k) > 0 <==> k in Keys(t)
  {
    if t != [] && t[0].key != k {
      CountPositive(t[1..], k);
      assert Keys(t) == [t[0].key] + Keys(t[1..]);
    }
  }

  /** `d[k] = (d[k] || 0) + 1`: counts one more `k`; a new key goes last. */
  function Bump(t: seq<Entry>, k: string): (r: seq<Entry>)
    ensures forall x :: CountOf(r, x) == CountOf(t, x) + (if x == k then 1 else 0)
    ensures Total(r) == Total(t) + 1
    ensures |r| == if k in Keys(t) then |t| else |t| + 1
    ensures forall i :: 0 <= i < |t| ==> r[i].key == t[i].key && r[i].count >= t[i].count
    ensures k !in Keys(t) ==> r[|t|] == Entry(k, 1)
  {
    if t == [] then [Entry(k, 1)]
    else
      assert Keys(t) == [t[0].key] + Keys(t[1..]);
      if t[0].key == k then
        var r := [t[0].(count := t[0].count + 1)] + t[1..];
        assert r[1..] == t[1..];
        r
      else
        var rest := Bump(t[1..], k);
        var r := [t[0]] + rest;
        assert r[1..] == rest;
        r
  }

  /** Counting keeps every key once. */
  lemma BumpWellFormed(t: seq<Entry>, k: string)
    requires WellFormed(t)
    ensures WellFormed(Bump(t, k))
  {
    var r := Bump(t, k);
    forall i, j | 0 <= i < j < |r| ensures r[i].key != r[j].key {
      if j == |t| {
        assert k !in Keys(t);
        assert r[i].key == Keys(t)[i];
      }
    }
  }

  /** Counts `words` into the tally `t`, left to right. */
  function TallyFrom(t: seq<Entry>, words: seq<string>): seq<Entry>
  {
    if words == [] then t else Bump(TallyFrom(t, words[..|words| - 1]), words[|words| - 1])
  }

  /** Counts `words` into an empty tally. */
  function TallyOf(words: seq<string>): seq<Entry>
  {
    TallyFrom([], words)
  }

  /** How many times `w` occurs in `words`. */
  function Occurrences(words: seq<string>, w: string): nat
  {
    if words == [] then 0
    else Occurrences(words[..|words| - 1], w) + (if words[|words| - 1] == w then 1 else 0)
  }

  /** `Occurrences` is the multiplicity of the word in the list. */
  lemma {:induction false} OccurrencesIsMultiplicity(words: seq<string>, w: string)
    ensures Occurrences(words, w) == multiset(words)[w]
  {
    if words != [] {
      var n := |words| - 1;
      OccurrencesIsMultiplicity(words[..n], w);
      assert words == words[..n] + [words[n]];
    }
  }

  /** Counting two lists one after the other is counting their
      concatenation. */
  lemma {:induction false} TallyFromAppend(t: seq<Entry>, a: seq<string>, b: seq<string>)
    ensures TallyFrom(t, a + b) == TallyFrom(TallyFrom(t, a), b)
    decreases |b|
  {
    if b == [] {
      assert a + b == a;
    } else {
      assert (a + b)[..|a + b| - 1] == a + b[..|b| - 1];
      TallyFromAppend(t, a, b[..|b| - 1]);
    }
  }

  /** Counting a list into a well-formed tally adds each word's
      occurrences to its count and the list's length to the total. */
  lemma {:induction false} TallyFromCounts(t: seq<Entry>, words: seq<string>)
    requires WellFormed(t)
    ensures WellFormed(TallyFrom(t, words))
    ensures forall w :: CountOf(TallyFrom(t, words), w) == CountOf(t, w) + Occurrences(words, w)
    ensures Total(TallyFrom(t, words)) == Total(t) + |words|
  {
    if words != [] {
      TallyFromCounts(t, words[..|words| - 1]);
      BumpWellFormed(TallyFrom(t, words[..|words| - 1]), words[|words| - 1]);
    }
  }

  /** The tally of a word list counts every word exactly as often as it
      occurs, holds each distinct word once, and sums to the list's length. */
  lemma TallyOfCounts(words: seq<string>)
    ensures WellFormed(TallyOf(words))
    ensures forall w :: CountOf(TallyOf(words), w) == Occurrences(words, w)
    ensures Total(TallyOf(words)) == |words|
  {
    TallyFromCounts([], words);
  }
}
