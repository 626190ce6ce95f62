/**
 * Joining and splitting strings on a separator, as Python's str.join and
 * str.split do, and the round trips between them on the keyword separator.
 */
module Text {
  import opened Results

  /** The separator placed between the keywords of one table cell. */
  const Separator: string := ", "

  /** sep occurs in s starting at position i. */
  predicate OccursAt(s: string, sep: string, i: nat) {
    i + |sep| <= |s| && s[i..i + |sep|] == sep
  }

  /** sep occurs somewhere in s. */
  predicate Contains(s: string, sep: string) {
    exists i: nat | i <= |s| :: OccursAt(s, sep, i)
  }

  /** An occurrence one position further in s is an occurrence in s[1..]. */
  lemma OccursAtTail(s: string, sep: string, j: nat)
    requires |s| > 0
    ensures OccursAt(s, sep, j + 1) <==> OccursAt(s[1..], sep, j)
  {
    if j + 1 + |sep| <= |s| {
      assert s[1..][j..j + |sep|] == s[j + 1..j + 1 + |sep|];
    }
  }

  /** The leftmost occurrence of a non-empty separator, or None when there is none. */
  function Find(s: string, sep: string): (r: Option<nat>)
    requires |sep| > 0
    ensures r.Some? ==> OccursAt(s, sep, r.value)
    ensures r.Some? ==> forall j: nat :: j < r.value ==> !OccursAt(s, sep, j)
    ensures r.None? <==> !Contains(s, sep)
    decreases |s|
  {
    if |s| < |sep| then None
    else if s[..|sep|] == sep then
      assert OccursAt(s, sep, 0);
      Some(0)
    else
      assert !OccursAt(s, sep, 0);
      match Find(s[1..], sep)
      case Some(i) =>
        OccursAtTail(s, sep, i);
        forall j: nat | 0 < j < i + 1 ensures !OccursAt(s, sep, j) {
          OccursAtTail(s, sep, j - 1);
        }
        Some(i + 1)
      case None =>
        forall j: nat | 0 < j <= |s| ensures !OccursAt(s, sep, j) {
          OccursAtTail(s, sep, j - 1);
        }
        None
  }

  /** s.split(sep): the pieces of s between the non-overlapping occurrences of sep, left to right. */
  function Split(s: string, sep: string): (pieces: seq<string>)
    requires |sep| > 0
    decreases |s|
  {
    match Find(s, sep)
    case None => [s]
    case Some(i) => [s[..i]] + Split(s[i + |sep|..], sep)
  }

  /** sep.join(words): the words with sep between each two neighbours. */
  function Join(words: seq<string>, sep: string): string {
    if |words| == 0 then ""
    else if |words| == 1 then words[0]
    else words[0] + sep + Join(words[1..], sep)
  }

  /** Splitting always yields at least one piece, and no piece contains the separator. */
  lemma {:induction false} SplitPieces(s: string, sep: string)
    requires |sep| > 0
    ensures |Split(s, sep)| > 0
    ensures forall p :: p in Split(s, sep) ==> !Contains(p, sep)
    decreases |s|
  {
    match Find(s, sep)
    case None =>
    case Some(i) =>
      var rest := s[i + |sep|..];
      SplitPieces(rest, sep);
      BeforeFirstOccurrence(s, sep, i);
      var pieces := Split(s, sep);
      assert pieces == [s[..i]] + Split(rest, sep);
      forall p | p in pieces ensures !Contains(p, sep) {
        if p != s[..i] {
          assert p in Split(rest, sep);
        }
      }
  }

  /** The text before the leftmost occurrence of sep does not contain sep. */
  lemma BeforeFirstOccurrence(s: string, sep: string, i: nat)
    requires |sep| > 0 && Find(s, sep) == Some(i)
    ensures !Contains(s[..i], sep)
  {
    forall j: nat | j <= i && OccursAt(s[..i], sep, j) ensures false {
      assert s[..i][j..j + |sep|] == s[j..j + |sep|];
      assert OccursAt(s, sep, j);
    }
  }

  /** Joining the pieces of a split restores the original string. */
  lemma {:induction false} JoinSplit(s: string, sep: string)
    requires |sep| > 0
    ensures Join(Split(s, sep), sep) == s
    decreases |s|
  {
    match Find(s, sep)
    case None =>
    case Some(i) =>
      var rest := s[i + |sep|..];
      SplitPieces(rest, sep);
      JoinSplit(rest, sep);
      var pieces := [s[..i]] + Split(rest, sep);
      assert pieces[1..] == Split(rest, sep);
      assert Join(pieces, sep) == s[..i] + sep + rest;
      assert s == s[..i] + s[i..i + |sep|] + rest;
  }

  /**
   * In a word followed by the separator, the leftmost separator is the one
   * right after the word, provided the word does not contain it: an occurrence
   * straddling the word's end would need ',' to equal ' '.
   */
  lemma FindAfterWord(w: string, rest: string)
    requires !Contains(w, Separator)
    ensures Find(w + Separator + rest, Separator) == Some(|w|)
  {
    var s := w + Separator + rest;
    assert s[|w|..|w| + 2] == Separator;
    assert OccursAt(s, Separator, |w|);
    forall j: nat | j < |w| ensures !OccursAt(s, Separator, j) {
      if j + 2 <= |w| {
        assert s[j..j + 2] == w[j..j + 2];
        assert !OccursAt(w, Separator, j);
      } else {
        assert s[j + 1] == ',';
      }
    }
  }

  /**
   * Splitting on the separator a cell made by joining a non-empty list of
   * words, none of which contains the separator, gives back that list.
   */
  lemma {:induction false} SplitJoin(words: seq<string>)
    requires |words| > 0
    requires forall w :: w in words ==> !Contains(w, Separator)
    ensures Split(Join(words, Separator), Separator) == words
  {
    if |words| == 1 {
      assert Find(words[0], Separator).None?;
    } else {
      var tail := Join(words[1..], Separator);
      FindAfterWord(words[0], tail);
      var s := words[0] + Separator + tail;
      assert s[..|words[0]|] == words[0];
      assert s[|words[0]| + 2..] == tail;
      SplitJoin(words[1..]);
    }
  }
}
