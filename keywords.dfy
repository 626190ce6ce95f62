/**
 * Keyword extraction for one page (extract_keywords in generate_keywords.py)
 * and the keyword table the main script writes, one row per URL.
 *
 * Tokenizing and lowercasing the page text, the English stopword list and
 * the punctuation symbols come from libraries; here they are inputs.
 */
module Keywords {
  import opened Results
  import opened Sequences
  import opened Counting
  import opened Text

  /** The number of keywords extracted per page when the caller gives none. */
  const DefaultNumKeywords: nat := 60

  /**
   * The words removed before counting: the stopwords, every punctuation
   * symbol as a one-character word, and the common words of an earlier run.
   */
  function Exclusions(stopwords: seq<string>, punctuation: string, common: seq<string>): set<string> {
    (set w | w in stopwords) + (set p | p in punctuation :: [p]) + (set w | w in common)
  }

  /** A word is excluded iff it is a stopword, a punctuation symbol or a common word. */
  lemma ExclusionsMembers(stopwords: seq<string>, punctuation: string, common: seq<string>, w: string)
    ensures w in Exclusions(stopwords, punctuation, common) <==>
      w in stopwords || (|w| == 1 && w[0] in punctuation) || w in common
  {
    if |w| == 1 && w[0] in punctuation {
      assert w == [w[0]];
    }
  }

  /** The tokens not in excluded, in their original order. */
  function Filter(tokens: seq<string>, excluded: set<string>): seq<string> {
    if tokens == [] then []
    else if tokens[0] in excluded then Filter(tokens[1..], excluded)
    else [tokens[0]] + Filter(tokens[1..], excluded)
  }

  /**
   * Filtering keeps the surviving tokens in their relative order and removes
   * exactly the excluded ones: each surviving word keeps all its occurrences.
   */
  lemma {:induction false} FilterKeeps(tokens: seq<string>, excluded: set<string>)
    ensures IsSubsequence(Filter(tokens, excluded), tokens)
    ensures forall w :: multiset(Filter(tokens, excluded))[w] == (if w in excluded then 0 else multiset(tokens)[w])
  {
    if tokens != [] {
      FilterKeeps(tokens[1..], excluded);
      assert tokens == [tokens[0]] + tokens[1..];
    }
  }

  /** a goes before b: it is more frequent, or as frequent and occurs first in words. */
  ghost predicate Ahead(c: Counter<string>, words: seq<string>, a: string, b: string)
    requires a in words && b in words
  {
    Count(c, a) > Count(c, b) || (Count(c, a) == Count(c, b) && FirstIndex(words, a) < FirstIndex(words, b))
  }

  /**
   * s is ordered most frequent first; among words of equal count, the one
   * that occurs first in words comes first.
   */
  ghost predicate MostFrequentFirst(c: Counter<string>, words: seq<string>, s: seq<string>) {
    (forall x :: x in s ==> x in words) &&
    forall i, j :: 0 <= i < j < |s| ==> Ahead(c, words, s[i], s[j])
  }

  /** Puts x in front of the first word whose count is not larger than its own. */
  function Insert(c: Counter<string>, x: string, s: seq<string>): seq<string> {
    if s == [] || Count(c, s[0]) <= Count(c, x) then [x] + s
    else [s[0]] + Insert(c, x, s[1..])
  }

  /** A stable sort by descending count: equal counts keep their order in s. */
  function SortByCount(c: Counter<string>, s: seq<string>): seq<string> {
    if s == [] then [] else Insert(c, s[0], SortByCount(c, s[1..]))
  }

  /** Inserting adds exactly the one word. */
  lemma {:induction false} InsertPermutes(c: Counter<string>, x: string, s: seq<string>)
    ensures multiset(Insert(c, x, s)) == multiset(s) + multiset{x}
  {
    if s != [] && Count(c, s[0]) > Count(c, x) {
      InsertPermutes(c, x, s[1..]);
      assert s == [s[0]] + s[1..];
    }
  }

  /** Inserting a word that occurs before all of s keeps s most frequent first. */
  lemma {:induction false} InsertOrdered(c: Counter<string>, words: seq<string>, x: string, s: seq<string>)
    requires x in words
    requires MostFrequentFirst(c, words, s)
    requires forall y :: y in s ==> FirstIndex(words, x) < FirstIndex(words, y)
    ensures MostFrequentFirst(c, words, Insert(c, x, s))
  {
    if s != [] && Count(c, s[0]) > Count(c, x) {
      var tail := s[1..];
      assert forall i :: 0 <= i < |tail| ==> tail[i] == s[i + 1];
      InsertOrdered(c, words, x, tail);
      InsertPermutes(c, x, tail);
      var inserted := Insert(c, x, tail);
      forall y | y in inserted ensures y in words && Ahead(c, words, s[0], y) {
        assert y in multiset(inserted);
        if y != x {
          var k :| 0 <= k < |tail| && tail[k] == y;
          assert s[k + 1] == y;
        }
      }
      assert Insert(c, x, s) == [s[0]] + inserted;
    }
  }

  /** The conditions SortOrdered needs, passed on to the tail of s. */
  lemma IncreasingTail(words: seq<string>, s: seq<string>)
    requires s != []
    requires forall x :: x in s ==> x in words
    requires forall i, j :: 0 <= i < j < |s| ==> FirstIndex(words, s[i]) < FirstIndex(words, s[j])
    ensures forall x :: x in s[1..] ==> x in words && FirstIndex(words, s[0]) < FirstIndex(words, x)
    ensures forall i, j :: 0 <= i < j < |s[1..]| ==> FirstIndex(words, s[1..][i]) < FirstIndex(words, s[1..][j])
  {
    forall x | x in s[1..] ensures x in words && FirstIndex(words, s[0]) < FirstIndex(words, x) {
      var k :| 0 <= k < |s[1..]| && s[1..][k] == x;
      assert s[k + 1] == x;
    }
    forall i, j | 0 <= i < j < |s[1..]|
      ensures FirstIndex(words, s[1..][i]) < FirstIndex(words, s[1..][j])
    {
      assert s[1..][i] == s[i + 1] && s[1..][j] == s[j + 1];
    }
  }

  /** Sorting by count only reorders the words. */
  lemma {:induction false} SortPermutes(c: Counter<string>, s: seq<string>)
    ensures multiset(SortByCount(c, s)) == multiset(s)
  {
    if s != [] {
      SortPermutes(c, s[1..]);
      InsertPermutes(c, s[0], SortByCount(c, s[1..]));
      assert s == [s[0]] + s[1..];
    }
  }

  /**
   * Sorting a list of words given in first-occurrence order yields a list
   * that is most frequent first.
   */
  lemma {:induction false} SortOrdered(c: Counter<string>, words: seq<string>, s: seq<string>)
    requires forall x :: x in s ==> x in words
    requires forall i, j :: 0 <= i < j < |s| ==> FirstIndex(words, s[i]) < FirstIndex(words, s[j])
    ensures MostFrequentFirst(c, words, SortByCount(c, s))
  {
    if s != [] {
      var tail := s[1..];
      IncreasingTail(words, s);
      SortOrdered(c, words, tail);
      var sortedTail := SortByCount(c, tail);
      SortPermutes(c, tail);
      forall y | y in sortedTail ensures FirstIndex(words, s[0]) < FirstIndex(words, y) {
        assert y in multiset(tail);
      }
      InsertOrdered(c, words, s[0], sortedTail);
    }
  }

  /** The first n elements of s, or all of s when it is shorter. */
  function Take<T>(s: seq<T>, n: nat): seq<T> {
    if n < |s| then s[..n] else s
  }

  /** FreqDist.most_common(n): the n words of the tally with the largest counts, largest first. */
  function MostCommon(c: Counter<string>, n: nat): seq<string> {
    Take(SortByCount(c, c.keys), n)
  }

  /**
   * The most common n words of a tally of words: n of them, or every
   * distinct word when there are fewer; each occurs in words and none twice;
   * most frequent first, equal counts in first-occurrence order; and no word
   * left out occurs more often than any word returned.
   */
  lemma MostCommonSpec(words: seq<string>, n: nat, r: seq<string>)
    requires r == MostCommon(Tally(words), n)
    ensures |r| == if n < |Elements(words)| then n else |Elements(words)|
    ensures forall x :: x in r ==> x in words
    ensures NoDuplicates(r)
    ensures forall i, j :: 0 <= i < j < |r| ==> multiset(words)[r[i]] >= multiset(words)[r[j]]
    ensures forall i, j :: (0 <= i < j < |r| && multiset(words)[r[i]] == multiset(words)[r[j]]) ==>
      FirstIndex(words, r[i]) < FirstIndex(words, r[j])
    ensures forall x :: (x in words && x !in r) ==>
      |r| == n && forall k :: 0 <= k < n ==> multiset(words)[r[k]] >= multiset(words)[x]
  {
    var c := Tally(words);
    var sorted := SortByCount(c, c.keys);
    SortedKeys(words);
    TakeRanked(c, words, sorted, n);
    forall x | x in words && x !in r
      ensures |r| == n && forall k :: 0 <= k < n ==> multiset(words)[r[k]] >= multiset(words)[x]
    {
      LeftOut(c, words, sorted, n, x);
    }
  }

  /** A prefix of a ranked list is ranked, and a ranked list has no duplicates. */
  lemma TakeRanked(c: Counter<string>, words: seq<string>, sorted: seq<string>, n: nat)
    requires MostFrequentFirst(c, words, sorted)
    ensures MostFrequentFirst(c, words, Take(sorted, n))
    ensures NoDuplicates(Take(sorted, n))
  {
    var r := Take(sorted, n);
    assert forall i :: 0 <= i < |r| ==> r[i] == sorted[i];
    forall i, j | 0 <= i < j < |r| ensures Ahead(c, words, r[i], r[j]) {
      assert Ahead(c, words, sorted[i], sorted[j]);
    }
  }

  /** A word of a ranked list missing from its first n is preceded by n words at least as frequent. */
  lemma LeftOut(c: Counter<string>, words: seq<string>, sorted: seq<string>, n: nat, x: string)
    requires MostFrequentFirst(c, words, sorted)
    requires x in sorted && x !in Take(sorted, n)
    ensures |Take(sorted, n)| == n
    ensures forall k :: 0 <= k < n ==> Count(c, Take(sorted, n)[k]) >= Count(c, x)
  {
    var p :| 0 <= p < |sorted| && sorted[p] == x;
    assert n <= p;
    forall k | 0 <= k < n ensures Count(c, Take(sorted, n)[k]) >= Count(c, x) {
      assert Take(sorted, n)[k] == sorted[k];
      assert Ahead(c, words, sorted[k], sorted[p]);
    }
  }

  /** The keys of a tally, sorted by count: every distinct word once, most frequent first. */
  lemma SortedKeys(words: seq<string>)
    ensures |SortByCount(Tally(words), Tally(words).keys)| == |Elements(words)|
    ensures multiset(SortByCount(Tally(words), Tally(words).keys)) == multiset(Tally(words).keys)
    ensures MostFrequentFirst(Tally(words), words, SortByCount(Tally(words), Tally(words).keys))
    ensures forall x :: x in words ==> x in SortByCount(Tally(words), Tally(words).keys)
    ensures forall x :: Count(Tally(words), x) == multiset(words)[x]
  {
    var c := Tally(words);
    TallyCounts(words);
    TallyKeyOrder(words);
    SortOrdered(c, words, c.keys);
    SortPermutes(c, c.keys);
    var sorted := SortByCount(c, c.keys);
    assert Elements(c.keys) == Elements(words);
    NoDuplicatesCardinality(c.keys);
    assert |sorted| == |c.keys| by {
      assert |multiset(sorted)| == |multiset(c.keys)|;
    }
    forall x | x in words ensures x in sorted {
      assert x in multiset(c.keys);
    }
  }

  /**
   * extract_keywords: drop the excluded tokens, tally the rest and return the
   * numKeywords most common. The common words are a parameter here; the
   * script reads them from a module-level variable.
   */
  function ExtractKeywords(tokens: seq<string>, stopwords: seq<string>, punctuation: string,
                           common: seq<string>, numKeywords: nat): seq<string>
  {
    MostCommon(Tally(Filter(tokens, Exclusions(stopwords, punctuation, common))), numKeywords)
  }

  /**
   * What extract_keywords returns: at most numKeywords words, as many as there
   * are distinct surviving tokens when fewer; nothing for no tokens; only
   * tokens of the text that are neither stopwords, punctuation nor common
   * words; no word twice; ordered by non-increasing frequency in the text, ties
   * in order of first occurrence among the surviving tokens; and no surviving
   * token left out occurs more often than a returned keyword.
   */
  lemma ExtractKeywordsSpec(tokens: seq<string>, stopwords: seq<string>, punctuation: string,
                            common: seq<string>, numKeywords: nat, r: seq<string>)
    requires r == ExtractKeywords(tokens, stopwords, punctuation, common, numKeywords)
    ensures |r| <= numKeywords
    ensures |r| == var distinct := |Elements(Filter(tokens, Exclusions(stopwords, punctuation, common)))|;
      if numKeywords < distinct then numKeywords else distinct
    ensures tokens == [] ==> r == []
    ensures forall w :: w in r ==>
      w in tokens && w !in stopwords && w !in common && !(|w| == 1 && w[0] in punctuation)
    ensures NoDuplicates(r)
    ensures forall i, j :: 0 <= i < j < |r| ==> multiset(tokens)[r[i]] >= multiset(tokens)[r[j]]
    ensures forall i, j :: (0 <= i < j < |r| && multiset(tokens)[r[i]] == multiset(tokens)[r[j]]) ==>
      var survivors := Filter(tokens, Exclusions(stopwords, punctuation, common));
      r[i] in survivors && r[j] in survivors && FirstIndex(survivors, r[i]) < FirstIndex(survivors, r[j])
    ensures forall w :: (w in tokens && w !in Exclusions(stopwords, punctuation, common) && w !in r) ==>
      |r| == numKeywords && forall k :: 0 <= k < numKeywords ==> multiset(tokens)[r[k]] >= multiset(tokens)[w]
  {
    var excluded := Exclusions(stopwords, punctuation, common);
    forall w ensures w in excluded <==> w in stopwords || (|w| == 1 && w[0] in punctuation) || w in common {
      ExclusionsMembers(stopwords, punctuation, common, w);
    }
    var survivors := Filter(tokens, excluded);
    Survivors(tokens, excluded);
    MostCommonSpec(survivors, numKeywords, r);
  }

  /** The surviving words are the tokens not excluded, each with all its occurrences. */
  lemma Survivors(tokens: seq<string>, excluded: set<string>)
    ensures forall w :: w in Filter(tokens, excluded) <==> w in tokens && w !in excluded
    ensures forall w :: w in Filter(tokens, excluded) ==> multiset(Filter(tokens, excluded))[w] == multiset(tokens)[w]
  {
    FilterKeeps(tokens, excluded);
    var survivors := Filter(tokens, excluded);
    forall w ensures w in survivors <==> w in tokens && w !in excluded {
      assert w in survivors <==> multiset(survivors)[w] > 0;
      assert w in tokens <==> multiset(tokens)[w] > 0;
    }
  }

  /** One row of the keyword table: a URL and its keywords in one cell. */
  datatype Row = Row(url: string, keywords: string)

  /** ', '.join(keywords): the cell written for a page's keyword list. */
  function FormatCell(keywords: seq<string>): string {
    Join(keywords, Separator)
  }

  /**
   * The main loop of generate_keywords.py: one row per URL, in order, holding
   * the URL and its joined keywords. pageTokens[i] stands for the tokens of the
   * page fetched from urls[i]. With no URLs the script writes no table.
   */
  method WriteKeywordTable(urls: seq<string>, pageTokens: seq<seq<string>>,
                           stopwords: seq<string>, punctuation: string, common: seq<string>)
    returns (table: Option<seq<Row>>)
    requires |pageTokens| == |urls|
    ensures table.None? <==> urls == []
    ensures table.Some? ==> |table.value| == |urls|
    ensures table.Some? ==> forall i :: 0 <= i < |urls| ==>
      table.value[i] == Row(urls[i], FormatCell(ExtractKeywords(pageTokens[i], stopwords, punctuation, common, DefaultNumKeywords)))
  {
    if urls == [] {
      return None;
    }
    var rows: seq<Row> := [];
    var i := 0;
    while i < |urls|
      invariant 0 <= i <= |urls|
      invariant |rows| == i
      invariant forall k :: 0 <= k < i ==>
        rows[k] == Row(urls[k], FormatCell(ExtractKeywords(pageTokens[k], stopwords, punctuation, common, DefaultNumKeywords)))
    {
      var keywords := ExtractKeywords(pageTokens[i], stopwords, punctuation, common, DefaultNumKeywords);
      rows := rows + [Row(urls[i], FormatCell(keywords))];
      i := i + 1;
    }
    return Some(rows);
  }
}
