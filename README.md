# Keyword extraction and common-word mining

This project models the counting part of the isu_search keyword pipeline in Dafny and proves properties of that model.

`generate_keywords.py` fetches each URL, reduces the page to text and extracts its keywords. These are the most frequent tokens that are not stopwords, punctuation symbols or known common words. It writes one table row per URL: the URL, then the keywords joined with `", "`.

`common_words.py` reads that table back. It splits every keyword cell on `", "` and counts all keywords of the corpus together. It keeps every word counted more often than a threshold (10). The next extraction run excludes those words.

Modules:

- `Text` (text.dfy): `str.split` and `str.join` on a separator as Python defines them, and the round trips between them on `", "`.
- `Counting` (counting.dfy): `collections.Counter`, of which NLTK's `FreqDist` is a subclass. It is modelled as a count per word plus the keys in insertion order, which is the order `items()` yields.
- `Keywords` (keywords.dfy): `extract_keywords` (exclusion set, filter, frequency count, `most_common`) and the main loop that writes one row per URL.
- `CommonWords` (common_words.dfy): the script of `common_words.py` as a method, and the write-then-mine round trip.
- `Sequences`, `Results`: general helpers.

Library behaviour the model takes as inputs:

- Tokenizing the lowercased page text gives `tokens`.
- The English stopword list gives `stopwords`.
- `string.punctuation` gives `punctuation`, a string of symbols. Each symbol is excluded as a one-character word, as `list(string.punctuation)` makes it.
- The text of the page fetched from `urls[i]` is given as `pageTokens[i]`.

The script reads `common_words` from a module-level variable. The model passes it to `ExtractKeywords` as an explicit parameter.

Tie order: `most_common` orders words by descending count. The model breaks ties among equal counts by first occurrence among the surviving tokens. It does this with a stable sort over the Counter's insertion order. This is the model's own deterministic choice; the library's tie order is not part of this model.

A page with no keywords gets an empty cell. pandas reads an empty cell as NaN, and `.split` raises on NaN. So the miner aborts at the first empty cell (see `MineCommonWords`).

## Model

| member | source | states |
|---|---|---|
| `Text.Find` | common_words.py:15 | the leftmost occurrence of the separator: an occurrence, with none before it; None exactly when the string does not contain the separator |
| `Text.SplitPieces` | common_words.py:15 | `split` gives at least one piece, and no piece contains the separator |
| `Text.JoinSplit` | common_words.py:15 | joining the pieces of a split with the same separator gives back the original string |
| `Text.SplitJoin` | generate_keywords.py:127 | splitting on `", "` a cell joined from a non-empty keyword list, none of whose words contains `", "`, gives back that list in order |
| `Counting.TallyCounts` | common_words.py:18 | each word's count in the Counter equals its number of occurrences; the keys are exactly the words that occur, each once |
| `Counting.TallyKeyOrder` | common_words.py:18 | the Counter's keys come in increasing order of first occurrence in the tallied list |
| `Counting.TallyTotal` | common_words.py:18 | the counts of all keys add up to the number of words tallied |
| `Keywords.ExclusionsMembers` | generate_keywords.py:81 | a word is excluded iff it is a stopword, a single punctuation symbol or a common word |
| `Keywords.FilterKeeps` | generate_keywords.py:82 | filtering gives a subsequence of the tokens (relative order kept); an excluded word is gone, and every other word keeps all its occurrences |
| `Keywords.Survivors` | generate_keywords.py:82 | a word survives iff it is a token and not excluded, and a survivor occurs as often as in the tokens |
| `Keywords.InsertPermutes` | generate_keywords.py:84 | inserting a word into a list ranked by count adds exactly that word |
| `Keywords.InsertOrdered` | generate_keywords.py:84 | inserting a word that occurs before every word of a ranked list keeps the list most frequent first, ties in first-occurrence order |
| `Keywords.SortPermutes` | generate_keywords.py:84 | sorting by count is a permutation |
| `Keywords.SortOrdered` | generate_keywords.py:84 | sorting words given in first-occurrence order ranks them by non-increasing count, equal counts in first-occurrence order |
| `Keywords.SortedKeys` | generate_keywords.py:83-84 | the sorted FreqDist keys are every distinct word once, ranked most frequent first |
| `Keywords.MostCommonSpec` | generate_keywords.py:83-84 | `most_common(n)` gives min(n, distinct words) words, all occurring and pairwise distinct, with non-increasing counts and ties by first occurrence; a word left out is never more frequent than a returned one, and leaving a word out means n were returned |
| `Keywords.ExtractKeywordsSpec` | generate_keywords.py:80-84 | at most numKeywords keywords, exactly min(numKeywords, distinct surviving tokens); none for no tokens; each is a token that is not a stopword, punctuation or common word; no duplicates; non-increasing frequency in the text, ties by first surviving occurrence; no surviving token left out is more frequent than a keyword |
| `Keywords.WriteKeywordTable` | generate_keywords.py:106-128 | no table at all when there are no URLs; otherwise one row per URL, in order, holding the URL and its extracted keywords joined with `", "` |
| `CommonWords.SelectMembers` | common_words.py:26 | a word is selected iff it is a key whose count is strictly above the threshold; selection keeps the key order |
| `CommonWords.SelectKeepsOrder` | common_words.py:26 | selecting from keys in first-occurrence order keeps first-occurrence order |
| `CommonWords.SelectMonotone` | common_words.py:26 | what a higher threshold selects is a subsequence of what a lower one selects |
| `CommonWords.CommonWordsSpec` | common_words.py:18-26 | a word is a common word iff it occurs strictly more than threshold times, so a count equal to the threshold is excluded; common words are pairwise distinct and in first-occurrence order of the accumulated list |
| `CommonWords.ThresholdMonotone` | common_words.py:22-26 | raising the threshold never adds a common word and keeps the order of those that remain |
| `CommonWords.CorpusSize` | common_words.py:13-15 | the accumulated list holds each word as often as all split rows together and has as many words as they do |
| `CommonWords.CorpusCounts` | common_words.py:13-18 | a word's count is the sum of its occurrences over all rows, so a repeat within one row counts again; all counts add up to the number of tokens across all rows after splitting |
| `CommonWords.InSomeRow` | common_words.py:13-15 | every word of the accumulated list comes from the split cell of some row |
| `CommonWords.CommonWordsFromRows` | common_words.py:13-26 | every common word appears in the split keyword list of some row |
| `CommonWords.MineCommonWords` | common_words.py:10-26 | succeeds iff no cell is empty; on failure names the first empty cell; on success returns the common words of the concatenated split cells, in Counter order |
| `CommonWords.MineAfterWrite` | generate_keywords.py:127 | cells joined from non-empty lists of non-empty, separator-free words are non-empty, and mining them reads back exactly the concatenated lists |
| `CommonWords.KeywordsSeparable` | generate_keywords.py:80-84 | when no token is empty or contains `", "`, no extracted keyword is or does |
| `CommonWords.WriteThenMine` | generate_keywords.py:125-127 | the cells of the written table are read back as exactly the extracted keywords of every page, in order, when every page yields a keyword and no token is empty or contains `", "` |

## Left out

- Fetching pages (`fetch_page_content`, HTTP through `requests`), HTML text extraction with BeautifulSoup, NLTK tokenization, lowercasing, the stopword list and `nltk.download`: network and foreign libraries. Their results are inputs (`tokens`, `pageTokens`, `stopwords`, `punctuation`).
- Reading `urls.txt` and `common_words.txt` with `strip`, writing and reading the CSV file (header row, quoting, `pandas.read_csv`), writing `common_words.txt`, and all `print` diagnostics: file I/O. The table is modelled as its rows and the miner's input as the keyword cells, read as written.
- pandas also reads some non-empty cells as missing or as numbers, e.g. a single keyword `nan` or `null`, or a column whose every cell is numeric. That would make `.split` fail too. Only the empty cell, which an empty keyword list produces, is modelled as an abort.
- Keywords.MostCommon: ties between equal counts are broken by first occurrence among the surviving tokens. This is a fixed choice that stands in for the library's unspecified tie order.
- Keywords.ExtractKeywords: `num_keywords` is a natural number. The only call passes the default, 60, so a negative count is not modelled.
- Text.Split: the separator must be non-empty, since Python raises ValueError for an empty one. The code only ever splits on `", "`.
