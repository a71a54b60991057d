/** Sentence segmentation as done by `re.split(r'(?<=[.!?])\\s+(?=[A-Z])', text)`
    in backend/language_utils.py. */
module Sentences {
  import opened Strings

  predicate IsTerminator(c: char) {
    c == '.' || c == '!' || c == '?'
  }

  /** The class `[A-Z]`: ASCII capitals only. */
  predicate IsUpper(c: char) {
    'A' <= c <= 'Z'
  }

  /** Where the whitespace run that starts at `i` ends; `\\s+` is greedy. */
  function SpaceRunEnd(t: string, i: nat): (j: nat)
    requires i <= |t|
    ensures i <= j <= |t|
    ensures AllSpace(t[i..j])
    ensures j < |t| ==> !IsSpace(t[j])
    ensures i < |t| && IsSpace(t[i]) ==> i < j
    decreases |t| - i
  {
    if i < |t| && IsSpace(t[i]) then SpaceRunEnd(t, i + 1) else i
  }

  /** The pattern matches at `i`: the character before is `.`, `!` or `?`, a
      whitespace run starts at `i`, and the character after the whole run is an
      ASCII capital. A shorter run never helps, as it would be followed by whitespace. */
  predicate IsBreak(t: string, i: nat) {
    0 < i < |t| && IsTerminator(t[i - 1]) && IsSpace(t[i]) &&
    SpaceRunEnd(t, i) < |t| && IsUpper(t[SpaceRunEnd(t, i)])
  }

  /** The scan of `re.split`: the current piece began at `start`, the search for
      the next match resumes at `i`; after a match the search resumes where it ended. */
  function SplitFrom(t: string, start: nat, i: nat): (pieces: seq<string>)
    requires start <= i <= |t|
    ensures |pieces| >= 1
    decreases |t| - i
  {
    if i == |t| then [t[start..]]
    else if IsBreak(t, i) then
      var j := SpaceRunEnd(t, i);
      [t[start..i]] + SplitFrom(t, j, j)
    else SplitFrom(t, start, i + 1)
  }

  /** Every piece but the last ends with `.`, `!` or `?`, and the piece after it
      starts with an ASCII capital. */
  predicate Boundaries(p: seq<string>) {
    forall k :: 0 <= k < |p| ==>
      (k < |p| - 1 ==> EndsSentence(p[k])) && (0 < k ==> StartsSentence(p[k]))
  }

  predicate EndsSentence(s: string) {
    s != [] && IsTerminator(s[|s| - 1])
  }

  predicate StartsSentence(s: string) {
    s != [] && IsUpper(s[0])
  }

  /** The list of sentences `chunk_text` iterates over. */
  function SplitSentences(t: string): (r: seq<string>)
    ensures |r| >= 1
  {
    SplitFrom(t, 0, 0)
  }

  /** Only whitespace is dropped between pieces: their words, in order, are the text's words. */
  lemma {:induction false} SplitFromWords(t: string, start: nat, i: nat)
    requires start <= i <= |t|
    ensures AllWords(SplitFrom(t, start, i)) == Words(t[start..])
    decreases |t| - i
  {
    if i == |t| {
      AllWordsOne(t[start..]);
    } else if IsBreak(t, i) {
      var j := SpaceRunEnd(t, i);
      SplitFromWords(t, j, j);
      WordsAroundBreak(t, start, i, j, SplitFrom(t, j, j));
    } else {
      SplitFromWords(t, start, i + 1);
    }
  }

  /** The piece before a break and the pieces after it have the words of the text. */
  lemma WordsAroundBreak(t: string, start: nat, i: nat, j: nat, rest: seq<string>)
    requires start <= i < j <= |t| && AllSpace(t[i..j])
    requires AllWords(rest) == Words(t[j..])
    ensures AllWords([t[start..i]] + rest) == Words(t[start..])
  {
    AllWordsCons(t[start..i], rest);
    assert t[start..] == t[start..i] + t[i..j] + t[j..];
    WordsAcrossGap(t[start..i], t[i..j], t[j..]);
  }

  lemma SplitSentencesWords(t: string)
    ensures AllWords(SplitSentences(t)) == Words(t)
  {
    SplitFromWords(t, 0, 0);
  }

  /** Each piece but the last ends with `.`, `!` or `?`, and each piece after the
      first starts with an ASCII capital. */
  lemma {:induction false} SplitFromBoundaries(t: string, start: nat, i: nat)
    requires start <= i <= |t|
    requires start == i ==> !IsBreak(t, i)
    ensures i - start <= |SplitFrom(t, start, i)[0]| <= |t| - start
    ensures SplitFrom(t, start, i)[0] == t[start..start + |SplitFrom(t, start, i)[0]|]
    ensures start < |t| ==> SplitFrom(t, start, i)[0] != []
    ensures Boundaries(SplitFrom(t, start, i))
    decreases |t| - i
  {
    var p := SplitFrom(t, start, i);
    if i == |t| {
    } else if IsBreak(t, i) {
      var j := SpaceRunEnd(t, i);
      assert IsSpace(t[j - 1]);
      SplitFromBoundaries(t, j, j);
      var q := SplitFrom(t, j, j);
      assert p == [t[start..i]] + q;
      assert q[0][0] == t[j];
      forall k | 0 <= k < |p|
        ensures (k < |p| - 1 ==> EndsSentence(p[k])) && (0 < k ==> StartsSentence(p[k]))
      {
        if k > 0 {
          assert p[k] == q[k - 1];
        }
      }
    } else {
      SplitFromBoundaries(t, start, i + 1);
    }
  }

  lemma SplitSentencesBoundaries(t: string)
    ensures Boundaries(SplitSentences(t))
  {
    SplitFromBoundaries(t, 0, 0);
  }

  /** The scan yields more than one piece exactly when the pattern matches at or after `i`. */
  lemma {:induction false} SplitFromCount(t: string, start: nat, i: nat)
    requires start <= i <= |t|
    ensures |SplitFrom(t, start, i)| > 1 <==> exists k :: i <= k < |t| && IsBreak(t, k)
    decreases |t| - i
  {
    if i < |t| && !IsBreak(t, i) {
      SplitFromCount(t, start, i + 1);
      if exists k :: i <= k < |t| && IsBreak(t, k) {
        var k :| i <= k < |t| && IsBreak(t, k);
        assert k != i;
      }
    }
  }

  /** Where the pattern never matches, the text stays one piece. */
  lemma {:induction false} SplitFromNoBreak(t: string, start: nat, i: nat)
    requires start <= i <= |t|
    requires forall k :: i <= k < |t| ==> !IsBreak(t, k)
    ensures SplitFrom(t, start, i) == [t[start..]]
    decreases |t| - i
  {
    if i < |t| {
      SplitFromNoBreak(t, start, i + 1);
    }
  }

  /** A text without whitespace is a single sentence. */
  lemma SentencesOfWord(w: string)
    requires NoSpace(w)
    ensures SplitSentences(w) == [w]
  {
    forall k | 0 <= k < |w| ensures !IsBreak(w, k) {
      assert !IsSpace(w[k]);
    }
    SplitFromNoBreak(w, 0, 0);
    assert w[0..] == w;
  }

  /** Text is split at all only where the pattern matches: a terminator followed by
      whitespace and then a lower-case letter, a digit or the end never splits. */
  lemma SplitSentencesCount(t: string)
    ensures |SplitSentences(t)| > 1 <==> exists k :: 0 <= k < |t| && IsBreak(t, k)
  {
    SplitFromCount(t, 0, 0);
  }
}
