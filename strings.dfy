/** The Python `str` built-ins the core relies on, over `seq<char>`:
    `isspace`, `strip()`, `split()`, `split(sep)`, `join` and `lower()`. */
module Strings {

  /** The characters for which CPython's `str.isspace()` holds: U+0009 to U+000D,
      U+001C to U+001F, the space, U+0085, U+00A0, U+1680, U+2000 to U+200A, U+2028,
      U+2029, U+202F, U+205F and U+3000. The same set is used by `str.split()`,
      `str.strip()` and the regular-expression class `\s`. */
  const Whitespace: set<char> := {
    '\t', '\n', '\U{0B}', '\U{0C}', '\r', '\U{1C}', '\U{1D}', '\U{1E}', '\U{1F}', ' ',
    '\U{85}', '\U{A0}', '\U{1680}',
    '\U{2000}', '\U{2001}', '\U{2002}', '\U{2003}', '\U{2004}', '\U{2005}',
    '\U{2006}', '\U{2007}', '\U{2008}', '\U{2009}', '\U{200A}',
    '\U{2028}', '\U{2029}', '\U{202F}', '\U{205F}', '\U{3000}'
  }

  predicate IsSpace(c: char) {
    c in Whitespace
  }

  predicate AllSpace(s: string) {
    forall i :: 0 <= i < |s| ==> IsSpace(s[i])
  }

  predicate NoSpace(s: string) {
    forall i :: 0 <= i < |s| ==> !IsSpace(s[i])
  }

  /** A word as `split()` yields it: non-empty, without whitespace. */
  predicate IsWord(w: string) {
    w != [] && NoSpace(w)
  }

  /** `s == s.strip()`: no whitespace at either end. */
  predicate IsStripped(s: string) {
    s == [] || (!IsSpace(s[0]) && !IsSpace(s[|s| - 1]))
  }

  // ---------------------------------------------------------------------------
  // strip()

  /** The number of whitespace characters `s` starts with. */
  function LeadingSpaces(s: string): (n: nat)
    ensures n <= |s| && forall i :: 0 <= i < n ==> IsSpace(s[i])
    ensures n < |s| ==> !IsSpace(s[n])
  {
    if s != [] && IsSpace(s[0]) then 1 + LeadingSpaces(s[1..]) else 0
  }

  /** The number of whitespace characters `s` ends with. */
  function TrailingSpaces(s: string): (n: nat)
    ensures n <= |s| && forall i :: |s| - n <= i < |s| ==> IsSpace(s[i])
    ensures n < |s| ==> !IsSpace(s[|s| - n - 1])
  {
    if s != [] && IsSpace(s[|s| - 1]) then 1 + TrailingSpaces(s[..|s| - 1]) else 0
  }

  /** `s.lstrip()`. */
  function TrimStart(s: string): (r: string)
    ensures |r| <= |s| && r == s[|s| - |r|..]
    ensures AllSpace(s[..|s| - |r|])
    ensures r == [] || !IsSpace(r[0])
  {
    s[LeadingSpaces(s)..]
  }

  /** `s.rstrip()`. */
  function TrimEnd(s: string): (r: string)
    ensures |r| <= |s| && r == s[..|r|]
    ensures AllSpace(s[|r|..])
    ensures r == [] || !IsSpace(r[|r| - 1])
  {
    s[..|s| - TrailingSpaces(s)]
  }

  /** `s.strip()`. */
  function Strip(s: string): (r: string)
    ensures IsStripped(r)
    ensures |r| <= |s|
  {
    TrimEnd(TrimStart(s))
  }

  lemma StrippedIsFixed(s: string)
    requires IsStripped(s)
    ensures Strip(s) == s
  {
  }

  /** Stripping leaves nothing exactly when the text is all whitespace. */
  lemma StripEmptyIff(s: string)
    ensures Strip(s) == [] <==> AllSpace(s)
  {
    var t := TrimStart(s);
    if Strip(s) == [] {
      assert AllSpace(t[0..]) && t == [];
      assert s[..|s| - |t|] == s;
    } else {
      assert t != [] && !IsSpace(t[0]) && t[0] == s[|s| - |t|];
    }
  }

  // ---------------------------------------------------------------------------
  // split() with no argument: the maximal runs of non-whitespace characters

  /** Length of the leading run of non-whitespace characters. */
  function WordLen(s: string): (n: nat)
    ensures n <= |s|
    ensures NoSpace(s[..n])
    ensures n < |s| ==> IsSpace(s[n])
  {
    if s == [] || IsSpace(s[0]) then 0 else 1 + WordLen(s[1..])
  }

  /** `s.split()`. */
  function Words(s: string): seq<string>
    decreases |s|
  {
    if s == [] then []
    else if IsSpace(s[0]) then Words(s[1..])
    else
      var n := WordLen(s);
      [s[..n]] + Words(s[n..])
  }

  /** `a + b` has no word straddling the seam. */
  predicate Separated(a: string, b: string) {
    a == [] || b == [] || IsSpace(a[|a| - 1]) || IsSpace(b[0])
  }

  lemma {:induction false} WordLenAppend(a: string, b: string)
    requires WordLen(a) < |a| || b == [] || IsSpace(b[0])
    ensures WordLen(a + b) == WordLen(a)
    decreases |a|
  {
    if a == [] {
      assert a + b == b;
    } else if !IsSpace(a[0]) {
      assert (a + b)[1..] == a[1..] + b;
      WordLenAppend(a[1..], b);
    }
  }

  /** Splitting on whitespace distributes over a concatenation with no straddling word. */
  lemma {:induction false} WordsAppend(a: string, b: string)
    requires Separated(a, b)
    ensures Words(a + b) == Words(a) + Words(b)
    decreases |a|
  {
    if a == [] {
      assert a + b == b;
    } else if IsSpace(a[0]) {
      assert (a + b)[1..] == a[1..] + b;
      WordsAppend(a[1..], b);
    } else {
      WordsAppendAtWord(a, b);
    }
  }

  /** The case of `WordsAppend` where `a` starts with a word. */
  lemma {:induction false} WordsAppendAtWord(a: string, b: string)
    requires Separated(a, b)
    requires a != [] && !IsSpace(a[0])
    ensures Words(a + b) == Words(a) + Words(b)
    decreases |a|, 0
  {
    var n := WordLen(a);
    WordLenAppend(a, b);
    WordsAtWord(a);
    WordsAtWord(a + b);
    SplitAppend(a, b, n);
    var rest := a[n..];
    assert Words(a + b) == [a[..n]] + Words(rest + b);
    if n < |a| {
      assert rest[|rest| - 1] == a[|a| - 1];
      WordsAppend(rest, b);
      ConcatAssoc([a[..n]], Words(rest), Words(b));
    } else {
      assert rest == [] && rest + b == b;
    }
  }

  /** A text that starts with a word splits into that word and the rest. */
  lemma WordsAtWord(s: string)
    requires s != [] && !IsSpace(s[0])
    ensures Words(s) == [s[..WordLen(s)]] + Words(s[WordLen(s)..])
  {
  }

  lemma SplitAppend<T>(a: seq<T>, b: seq<T>, n: nat)
    requires n <= |a|
    ensures (a + b)[..n] == a[..n] && (a + b)[n..] == a[n..] + b
  {
  }

  lemma {:induction false} WordsOfSpaces(s: string)
    requires AllSpace(s)
    ensures Words(s) == []
    decreases |s|
  {
    if s != [] {
      WordsOfSpaces(s[1..]);
    }
  }

  lemma {:induction false} WordsEmptyIff(s: string)
    ensures Words(s) == [] <==> AllSpace(s)
    decreases |s|
  {
    if s != [] && IsSpace(s[0]) {
      WordsEmptyIff(s[1..]);
      if AllSpace(s[1..]) {
        forall k | 0 <= k < |s| ensures IsSpace(s[k]) {
          if k > 0 { assert s[1..][k - 1] == s[k]; }
        }
      }
    }
  }

  /** A single word splits to itself. */
  lemma WordsOfWord(w: string)
    requires IsWord(w)
    ensures Words(w) == [w]
  {
    var n := WordLen(w);
    assert n == |w|;
    assert w[..n] == w && w[n..] == [];
  }

  /** A non-empty whitespace gap separates the words on either side of it. */
  lemma WordsAcrossGap(a: string, gap: string, b: string)
    requires gap != [] && AllSpace(gap)
    ensures Words(a + gap + b) == Words(a) + Words(b)
  {
    assert a + gap + b == a + (gap + b);
    WordsAppend(a, gap + b);
    WordsAppend(gap, b);
    WordsOfSpaces(gap);
  }

  /** `a + " " + b`, as the chunker forms it, has the words of `a` then those of `b`. */
  lemma WordsJoinSpace(a: string, b: string)
    ensures Words(a + " " + b) == Words(a) + Words(b)
  {
    WordsAcrossGap(a, " ", b);
  }

  /** Every word of `s.split()` is non-empty and holds no whitespace. */
  lemma {:induction false} WordsAreWords(s: string)
    ensures forall k :: 0 <= k < |Words(s)| ==> IsWord(Words(s)[k])
    decreases |s|
  {
    if s != [] {
      if IsSpace(s[0]) {
        WordsAreWords(s[1..]);
      } else {
        var n := WordLen(s);
        WordsAreWords(s[n..]);
        var ws := Words(s);
        assert ws == [s[..n]] + Words(s[n..]);
        forall k | 0 <= k < |ws| ensures IsWord(ws[k]) {
          if k > 0 { assert ws[k] == Words(s[n..])[k - 1]; }
        }
      }
    }
  }

  /** `s.strip().split() == s.split()`. */
  lemma WordsStrip(s: string)
    ensures Words(Strip(s)) == Words(s)
  {
    WordsTrimStart(s);
    WordsTrimEnd(TrimStart(s));
  }

  lemma WordsTrimStart(s: string)
    ensures Words(TrimStart(s)) == Words(s)
  {
    var t := TrimStart(s);
    var lead := s[..|s| - |t|];
    assert s == lead + t;
    assert lead == [] || IsSpace(lead[|lead| - 1]);
    WordsAppend(lead, t);
    WordsOfSpaces(lead);
  }

  lemma WordsTrimEnd(s: string)
    ensures Words(TrimEnd(s)) == Words(s)
  {
    var t := TrimEnd(s);
    var trail := s[|t|..];
    assert s == t + trail;
    assert trail == [] || IsSpace(trail[0]);
    WordsAppend(t, trail);
    WordsOfSpaces(trail);
  }

  lemma ConcatEmpty<T>(s: seq<T>)
    ensures [] + s == s && s + [] == s
  {
  }

  lemma SnocInit<T>(s: seq<T>, x: T)
    ensures (s + [x])[..|s|] == s
  {
  }

  lemma TakeAll<T>(s: seq<T>)
    ensures s[..|s|] == s
  {
  }

  lemma InitLast<T>(s: seq<T>)
    requires s != []
    ensures s[..|s| - 1] + [s[|s| - 1]] == s
  {
  }

  lemma ConcatAssoc<T>(a: seq<T>, b: seq<T>, c: seq<T>)
    ensures a + b + c == a + (b + c)
  {
  }

  /** The words of a list of strings, in order: `[w for x in xs for w in x.split()]`. */
  function AllWords(xs: seq<string>): seq<string>
    decreases |xs|
  {
    if xs == [] then [] else AllWords(xs[..|xs| - 1]) + Words(xs[|xs| - 1])
  }

  lemma {:induction false} AllWordsAppend(xs: seq<string>, ys: seq<string>)
    ensures AllWords(xs + ys) == AllWords(xs) + AllWords(ys)
    decreases |ys|
  {
    if ys == [] {
      assert xs + ys == xs;
    } else {
      var ys' := ys[..|ys| - 1];
      var y := ys[|ys| - 1];
      assert (xs + ys)[..|xs + ys| - 1] == xs + ys';
      assert (xs + ys)[|xs + ys| - 1] == y;
      AllWordsAppend(xs, ys');
      ConcatAssoc(AllWords(xs), AllWords(ys'), Words(y));
    }
  }

  lemma AllWordsOne(x: string)
    ensures AllWords([x]) == Words(x)
  {
    assert [x][..0] == [];
  }

  lemma AllWordsCons(x: string, xs: seq<string>)
    ensures AllWords([x] + xs) == Words(x) + AllWords(xs)
  {
    AllWordsAppend([x], xs);
    AllWordsOne(x);
  }

  // ---------------------------------------------------------------------------
  // split(sep) and join

  /** The position of the last `c` in `s`. */
  function LastIndex(s: string, c: char): (k: nat)
    requires c in s
    ensures k < |s| && s[k] == c && c !in s[k + 1..]
    decreases |s|
  {
    if s[|s| - 1] == c then |s| - 1
    else
      assert c in s[..|s| - 1] by {
        var i :| 0 <= i < |s| && s[i] == c;
        assert s[..|s| - 1][i] == c;
      }
      var k := LastIndex(s[..|s| - 1], c);
      assert s[k + 1..] == s[..|s| - 1][k + 1..] + [s[|s| - 1]];
      k
  }

  /** `s.split(sep)` for a one-character separator, taken apart from the right:
      the pieces before the last `sep`, then the text after it. */
  function SplitOn(s: string, sep: char): (r: seq<string>)
    ensures |r| >= 1
    decreases |s|
  {
    if sep !in s then [s]
    else
      var k := LastIndex(s, sep);
      SplitOn(s[..k], sep) + [s[k + 1..]]
  }

  /** `sep.join(xs)`. */
  function Join(sep: string, xs: seq<string>): string
    decreases |xs|
  {
    if xs == [] then []
    else if |xs| == 1 then xs[0]
    else Join(sep, xs[..|xs| - 1]) + sep + xs[|xs| - 1]
  }

  /** Joining the pieces of `s.split(sep)` with `sep` gives back `s`, and no piece holds `sep`. */
  lemma {:induction false} SplitOnJoin(s: string, sep: char)
    ensures Join([sep], SplitOn(s, sep)) == s
    ensures forall k :: 0 <= k < |SplitOn(s, sep)| ==> sep !in SplitOn(s, sep)[k]
    decreases |s|
  {
    if sep in s {
      var k := LastIndex(s, sep);
      var init := SplitOn(s[..k], sep);
      var r := SplitOn(s, sep);
      SplitOnJoin(s[..k], sep);
      assert r == init + [s[k + 1..]];
      assert r[..|r| - 1] == init;
      assert s == s[..k] + [sep] + s[k + 1..];
      forall i | 0 <= i < |r| ensures sep !in r[i] {
        if i < |init| {
          assert r[i] == init[i];
        }
      }
    }
  }

  /** The last piece of `s.split(sep)` is what follows the last `sep` in `s`,
      or all of `s` when `sep` does not occur. */
  lemma SplitOnLast(s: string, sep: char)
    ensures var r := SplitOn(s, sep); var last := r[|r| - 1];
      |last| <= |s| && last == s[|s| - |last|..] && sep !in last &&
      (sep in s ==> |last| < |s| && s[|s| - |last| - 1] == sep) &&
      (sep !in s ==> last == s)
  {
    if sep in s {
      var k := LastIndex(s, sep);
      assert SplitOn(s, sep)[|SplitOn(s, sep)| - 1] == s[k + 1..];
    }
  }

  // ---------------------------------------------------------------------------
  // lower()

  function LowerChar(c: char): char {
    if 'A' <= c <= 'Z' then (c as int - 'A' as int + 'a' as int) as char else c
  }

  /** `s.lower()` on the ASCII letters; every other character is kept. */
  function Lower(s: string): (r: string)
    ensures |r| == |s|
    ensures forall i :: 0 <= i < |s| ==> r[i] == LowerChar(s[i])
  {
    seq(|s|, i requires 0 <= i < |s| => LowerChar(s[i]))
  }

  lemma LowerIdempotent(s: string)
    ensures Lower(Lower(s)) == Lower(s)
  {
  }
}
