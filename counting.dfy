/**
 * A word tally in the manner of Python's collections.Counter (and NLTK's
 * FreqDist, which extends it): a count per word, and the words in the order
 * in which they were first inserted, which is the order its items() yield.
 */
module Counting {
  import opened Sequences

  datatype Counter<T> = Counter(keys: seq<T>, counts: map<T, nat>)

  /** The count of x; zero for a word the tally has never seen, as Counter answers. */
  function Count<T>(c: Counter<T>, x: T): nat {
    if x in c.counts then c.counts[x] else 0
  }

  /** Records one more occurrence of x; a new word is appended to the key order. */
  function Add<T>(c: Counter<T>, x: T): Counter<T> {
    if x in c.counts then Counter(c.keys, c.counts[x := c.counts[x] + 1])
    else Counter(c.keys + [x], c.counts[x := 1])
  }

  /** Counter(words): the tally of words, built by adding them one by one. */
  function Tally<T>(words: seq<T>): Counter<T> {
    if words == [] then Counter([], map[])
    else Add(Tally(words[..|words| - 1]), words[|words| - 1])
  }

  /** The sum of the counts of the words in ks. */
  function SumCounts<T>(c: Counter<T>, ks: seq<T>): nat {
    if ks == [] then 0 else SumCounts(c, ks[..|ks| - 1]) + Count(c, ks[|ks| - 1])
  }

  /**
   * Tallying words gives each word its number of occurrences, and records as
   * keys exactly the words that occur, each once.
   */
  lemma {:induction false} TallyCounts<T>(words: seq<T>)
    ensures forall x :: Count(Tally(words), x) == multiset(words)[x]
    ensures forall x :: x in Tally(words).keys <==> x in words
    ensures forall x :: x in Tally(words).counts <==> x in words
    ensures NoDuplicates(Tally(words).keys)
  {
    if words != [] {
      var init, x := words[..|words| - 1], words[|words| - 1];
      assert words == init + [x];
      TallyCounts(init);
    }
  }

  /** The keys of a tally follow the order of first occurrence in the words. */
  lemma {:induction false} TallyKeyOrder<T>(words: seq<T>)
    ensures forall x :: x in Tally(words).keys ==> x in words
    ensures forall i, j :: 0 <= i < j < |Tally(words).keys| ==>
      FirstIndex(words, Tally(words).keys[i]) < FirstIndex(words, Tally(words).keys[j])
  {
    TallyCounts(words);
    if words != [] {
      var init, x := words[..|words| - 1], words[|words| - 1];
      assert words == init + [x];
      TallyKeyOrder(init);
      var old_keys := Tally(init).keys;
      forall y | y in init ensures FirstIndex(words, y) == FirstIndex(init, y) {
        FirstIndexOfPrefix(init, [x], y);
      }
      TallyCounts(init);
      if x !in init {
        FirstIndexUnique(words, x, |init|);
        assert Tally(words).keys == old_keys + [x];
      }
    }
  }

  /** Summing the counts of a list of words extended by one more word. */
  lemma SumCountsAppend<T>(c: Counter<T>, ks: seq<T>, x: T)
    ensures SumCounts(c, ks + [x]) == SumCounts(c, ks) + Count(c, x)
  {
    assert (ks + [x])[..|ks|] == ks;
  }

  /** Sums over keys not including x do not see a change in the count of x. */
  lemma {:induction false} SumCountsAgree<T>(c: Counter<T>, d: Counter<T>, ks: seq<T>)
    requires forall y :: y in ks ==> Count(c, y) == Count(d, y)
    ensures SumCounts(c, ks) == SumCounts(d, ks)
  {
    if ks != [] {
      SumCountsAgree(c, d, ks[..|ks| - 1]);
    }
  }

  /** Raising the count of one key among distinct keys raises the sum by the same amount. */
  lemma {:induction false} SumCountsBump<T>(c: Counter<T>, d: Counter<T>, ks: seq<T>, x: T)
    requires NoDuplicates(ks) && x in ks
    requires forall y :: y != x ==> Count(c, y) == Count(d, y)
    requires Count(d, x) == Count(c, x) + 1
    ensures SumCounts(d, ks) == SumCounts(c, ks) + 1
  {
    var init := ks[..|ks| - 1];
    assert ks == init + [ks[|ks| - 1]];
    if ks[|ks| - 1] == x {
      assert x !in init;
      SumCountsAgree(c, d, init);
    } else {
      assert NoDuplicates(init);
      SumCountsBump(c, d, init, x);
    }
  }

  /** The counts of a tally add up to the number of words tallied. */
  lemma {:induction false} TallyTotal<T>(words: seq<T>)
    ensures SumCounts(Tally(words), Tally(words).keys) == |words|
  {
    if words != [] {
      var init, x := words[..|words| - 1], words[|words| - 1];
      var c := Tally(init);
      TallyTotal(init);
      TallyCounts(init);
      if x in c.counts {
        SumCountsBump(c, Add(c, x), c.keys, x);
      } else {
        SumCountsAppend(Add(c, x), c.keys, x);
        SumCountsAgree(c, Add(c, x), c.keys);
      }
    }
  }
}
