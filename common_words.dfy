/**
 * The common-word miner (common_words.py): split every keyword cell of the
 * table on ", ", tally all keywords of the corpus together, and keep every
 * word whose count is strictly above a threshold, in the tally's order.
 */
module CommonWords {
  import opened Results
  import opened Sequences
  import opened Counting
  import opened Text
  import opened Keywords

  /** The threshold the script uses. */
  const DefaultThreshold: int := 10

  /**
   * An empty keyword cell is read by pandas as NaN, on which .split raises;
   * row is the position of the first such cell.
   */
  datatype MineError = MissingKeywords(row: nat)

  /** all_keywords: the split cells concatenated, row after row. */
  function AllKeywords(cells: seq<string>): seq<string> {
    if cells == [] then []
    else AllKeywords(cells[..|cells| - 1]) + Split(cells[|cells| - 1], Separator)
  }

  /** The words of ks whose count in c is above threshold, in the order of ks. */
  function Select(c: Counter<string>, ks: seq<string>, threshold: int): seq<string> {
    if ks == [] then []
    else if Count(c, ks[0]) > threshold then [ks[0]] + Select(c, ks[1..], threshold)
    else Select(c, ks[1..], threshold)
  }

  /** common_words: the words of the corpus counted more than threshold times. */
  function CommonWordsOf(all: seq<string>, threshold: int): seq<string> {
    Select(Tally(all), Tally(all).keys, threshold)
  }

  /** Selecting keeps exactly the words above the threshold, in their order in ks. */
  lemma {:induction false} SelectMembers(c: Counter<string>, ks: seq<string>, threshold: int)
    ensures forall w :: w in Select(c, ks, threshold) <==> w in ks && Count(c, w) > threshold
    ensures IsSubsequence(Select(c, ks, threshold), ks)
  {
    if ks != [] {
      SelectMembers(c, ks[1..], threshold);
      assert ks == [ks[0]] + ks[1..];
    }
  }

  /** A list in increasing order of first occurrence stays so when words are selected from it. */
  lemma {:induction false} SelectKeepsOrder(c: Counter<string>, words: seq<string>, ks: seq<string>, threshold: int)
    requires forall x :: x in ks ==> x in words
    requires forall i, j :: 0 <= i < j < |ks| ==> FirstIndex(words, ks[i]) < FirstIndex(words, ks[j])
    ensures forall x :: x in Select(c, ks, threshold) ==> x in words
    ensures forall i, j :: 0 <= i < j < |Select(c, ks, threshold)| ==>
      FirstIndex(words, Select(c, ks, threshold)[i]) < FirstIndex(words, Select(c, ks, threshold)[j])
  {
    SelectMembers(c, ks, threshold);
    if ks != [] {
      IncreasingTail(words, ks);
      SelectKeepsOrder(c, words, ks[1..], threshold);
      SelectMembers(c, ks[1..], threshold);
    }
  }

  /** A higher threshold selects a subsequence of what a lower one selects. */
  lemma {:induction false} SelectMonotone(c: Counter<string>, ks: seq<string>, low: int, high: int)
    requires low <= high
    ensures IsSubsequence(Select(c, ks, high), Select(c, ks, low))
  {
    if ks != [] {
      SelectMonotone(c, ks[1..], low, high);
      var h, l := Select(c, ks, high), Select(c, ks, low);
      if Count(c, ks[0]) > high {
        assert h[1..] == Select(c, ks[1..], high) && l[1..] == Select(c, ks[1..], low);
      } else if Count(c, ks[0]) > low {
        assert l[1..] == Select(c, ks[1..], low);
        SubsequenceOfTail(h, l);
      }
    }
  }

  /** A subsequence of the tail of b is a subsequence of b. */
  lemma SubsequenceOfTail(a: seq<string>, b: seq<string>)
    requires b != [] && IsSubsequence(a, b[1..])
    ensures IsSubsequence(a, b)
  {
  }

  /**
   * The common words of a corpus: a word is selected iff it occurs in the
   * corpus strictly more than threshold times (a count equal to the threshold
   * is not enough); no word twice; in the order of first occurrence in the
   * corpus, which is the order the tally's items come in.
   */
  lemma CommonWordsSpec(all: seq<string>, threshold: int, r: seq<string>)
    requires r == CommonWordsOf(all, threshold)
    ensures forall w :: w in r <==> w in all && multiset(all)[w] > threshold
    ensures forall i, j :: 0 <= i < j < |r| ==> FirstIndex(all, r[i]) < FirstIndex(all, r[j])
    ensures NoDuplicates(r)
  {
    TallyCounts(all);
    TallyKeyOrder(all);
    SelectMembers(Tally(all), Tally(all).keys, threshold);
    SelectKeepsOrder(Tally(all), all, Tally(all).keys, threshold);
  }

  /** Raising the threshold never adds a word, and keeps the order of those that stay. */
  lemma ThresholdMonotone(all: seq<string>, low: int, high: int)
    requires low <= high
    ensures forall w :: w in CommonWordsOf(all, high) ==> w in CommonWordsOf(all, low)
    ensures IsSubsequence(CommonWordsOf(all, high), CommonWordsOf(all, low))
  {
    CommonWordsSpec(all, low, CommonWordsOf(all, low));
    CommonWordsSpec(all, high, CommonWordsOf(all, high));
    SelectMonotone(Tally(all), Tally(all).keys, low, high);
  }

  /** The occurrences of w summed over the split rows. */
  function RowOccurrences(cells: seq<string>, w: string): nat {
    if cells == [] then 0
    else RowOccurrences(cells[..|cells| - 1], w) + multiset(Split(cells[|cells| - 1], Separator))[w]
  }

  /** The number of keywords summed over the split rows. */
  function TokenTotal(cells: seq<string>): nat {
    if cells == [] then 0
    else TokenTotal(cells[..|cells| - 1]) + |Split(cells[|cells| - 1], Separator)|
  }

  /**
   * Counting is over the whole corpus: a word's count is the sum of its
   * occurrences in every row, so a repeat within one row counts again; and
   * the counts add up to the number of keywords across all rows.
   */
  lemma CorpusCounts(cells: seq<string>)
    ensures forall w :: Count(Tally(AllKeywords(cells)), w) == RowOccurrences(cells, w)
    ensures SumCounts(Tally(AllKeywords(cells)), Tally(AllKeywords(cells)).keys) == TokenTotal(cells)
  {
    TallyCounts(AllKeywords(cells));
    TallyTotal(AllKeywords(cells));
    CorpusSize(cells);
  }

  /** The corpus holds each word as often as the rows together, and as many words as they do. */
  lemma {:induction false} CorpusSize(cells: seq<string>)
    ensures forall w :: multiset(AllKeywords(cells))[w] == RowOccurrences(cells, w)
    ensures |AllKeywords(cells)| == TokenTotal(cells)
  {
    if cells != [] {
      CorpusSize(cells[..|cells| - 1]);
    }
  }

  /** Every word of the corpus comes from the split cell of some row. */
  lemma {:induction false} InSomeRow(cells: seq<string>, w: string)
    requires w in AllKeywords(cells)
    ensures exists i :: 0 <= i < |cells| && w in Split(cells[i], Separator)
  {
    var init := cells[..|cells| - 1];
    if w in AllKeywords(init) {
      InSomeRow(init, w);
      var i :| 0 <= i < |init| && w in Split(init[i], Separator);
      assert cells[i] == init[i];
    } else {
      assert w in Split(cells[|cells| - 1], Separator);
    }
  }

  /** Each common word appears in some row's split keyword list. */
  lemma CommonWordsFromRows(cells: seq<string>, threshold: int, w: string)
    requires w in CommonWordsOf(AllKeywords(cells), threshold)
    ensures exists i :: 0 <= i < |cells| && w in Split(cells[i], Separator)
  {
    CommonWordsSpec(AllKeywords(cells), threshold, CommonWordsOf(AllKeywords(cells), threshold));
    InSomeRow(cells, w);
  }

  /**
   * The script: split and accumulate every cell, tally the keywords and keep
   * those counted more than threshold times. It aborts at the first empty cell.
   */
  method MineCommonWords(cells: seq<string>, threshold: int) returns (r: Result<seq<string>, MineError>)
    ensures r.Success? <==> forall i :: 0 <= i < |cells| ==> cells[i] != ""
    ensures r.Failure? ==> r.error.row < |cells| && cells[r.error.row] == ""
    ensures r.Failure? ==> forall i :: 0 <= i < r.error.row ==> cells[i] != ""
    ensures r.Success? ==> r.value == CommonWordsOf(AllKeywords(cells), threshold)
  {
    var all: seq<string> := [];
    var i := 0;
    while i < |cells|
      invariant 0 <= i <= |cells|
      invariant all == AllKeywords(cells[..i])
      invariant forall k :: 0 <= k < i ==> cells[k] != ""
    {
      if cells[i] == "" {
        return Failure(MissingKeywords(i));
      }
      assert cells[..i + 1][..i] == cells[..i];
      all := all + Split(cells[i], Separator);
      i := i + 1;
    }
    assert cells[..i] == cells;
    var wordFreq := Tally(all);
    var common := Select(wordFreq, wordFreq.keys, threshold);
    return Success(common);
  }

  /** The keyword lists concatenated, list after list. */
  function Flatten(lists: seq<seq<string>>): seq<string> {
    if lists == [] then [] else Flatten(lists[..|lists| - 1]) + lists[|lists| - 1]
  }

  /** A keyword list that survives the table: non-empty, of non-empty words free of the separator. */
  predicate Separable(keywords: seq<string>) {
    keywords != [] && forall w :: w in keywords ==> w != "" && !Contains(w, Separator)
  }

  /**
   * Mining a table written from separable keyword lists reads back exactly
   * those keywords, in order, and finds no empty cell.
   */
  lemma {:induction false} MineAfterWrite(lists: seq<seq<string>>, cells: seq<string>)
    requires |cells| == |lists|
    requires forall i :: 0 <= i < |lists| ==> cells[i] == FormatCell(lists[i]) && Separable(lists[i])
    ensures AllKeywords(cells) == Flatten(lists)
    ensures forall i :: 0 <= i < |cells| ==> cells[i] != ""
  {
    forall i | 0 <= i < |lists| ensures cells[i] != "" {
      assert lists[i][0] in lists[i];
      JoinNonEmpty(lists[i]);
    }
    if lists != [] {
      var n := |lists| - 1;
      assert forall i :: 0 <= i < n ==> lists[..n][i] == lists[i] && cells[..n][i] == cells[i];
      MineAfterWrite(lists[..n], cells[..n]);
      SplitJoin(lists[n]);
    }
  }

  /** Joining a non-empty list whose first word is non-empty gives a non-empty cell. */
  lemma JoinNonEmpty(words: seq<string>)
    requires words != [] && words[0] != ""
    ensures FormatCell(words) != ""
  {
  }

  /**
   * When no token of a page is empty or contains the separator, neither does
   * any of its keywords, so its cell splits back into them.
   */
  lemma KeywordsSeparable(tokens: seq<string>, stopwords: seq<string>, punctuation: string,
                          common: seq<string>, numKeywords: nat)
    requires forall t :: t in tokens ==> t != "" && !Contains(t, Separator)
    ensures forall w :: w in ExtractKeywords(tokens, stopwords, punctuation, common, numKeywords) ==>
      w != "" && !Contains(w, Separator)
  {
    ExtractKeywordsSpec(tokens, stopwords, punctuation, common, numKeywords,
                        ExtractKeywords(tokens, stopwords, punctuation, common, numKeywords));
  }

  /** The keyword cells of the table, in row order. */
  function Cells(rows: seq<Row>): seq<string> {
    seq(|rows|, i requires 0 <= i < |rows| => rows[i].keywords)
  }

  /** The keyword list extracted for each page. */
  function PageKeywords(pageTokens: seq<seq<string>>, stopwords: seq<string>, punctuation: string,
                        common: seq<string>): seq<seq<string>>
  {
    seq(|pageTokens|, i requires 0 <= i < |pageTokens| =>
      ExtractKeywords(pageTokens[i], stopwords, punctuation, common, DefaultNumKeywords))
  }

  /**
   * Writing the keyword table and mining it again: when no token is empty or
   * holds the separator and every page yields a keyword, the miner reads back
   * exactly the extracted keywords, page after page, so it tallies the same
   * multiset of words the pages produced.
   */
  lemma WriteThenMine(urls: seq<string>, pageTokens: seq<seq<string>>, stopwords: seq<string>,
                      punctuation: string, common: seq<string>, rows: seq<Row>)
    requires |pageTokens| == |urls| == |rows|
    requires forall i :: 0 <= i < |urls| ==>
      rows[i] == Row(urls[i], FormatCell(ExtractKeywords(pageTokens[i], stopwords, punctuation, common, DefaultNumKeywords)))
    requires forall i :: 0 <= i < |pageTokens| ==>
      forall t :: t in pageTokens[i] ==> t != "" && !Contains(t, Separator)
    requires forall i :: 0 <= i < |pageTokens| ==>
      ExtractKeywords(pageTokens[i], stopwords, punctuation, common, DefaultNumKeywords) != []
    ensures AllKeywords(Cells(rows)) == Flatten(PageKeywords(pageTokens, stopwords, punctuation, common))
    ensures forall i :: 0 <= i < |rows| ==> Cells(rows)[i] != ""
  {
    var lists := PageKeywords(pageTokens, stopwords, punctuation, common);
    forall i | 0 <= i < |lists| ensures Separable(lists[i]) {
      KeywordsSeparable(pageTokens[i], stopwords, punctuation, common, DefaultNumKeywords);
    }
    MineAfterWrite(lists, Cells(rows));
  }
}
