/** `chunk_text` and `_split_by_words` of backend/language_utils.py. Both are
    loops that append to a `chunks` list and reassign a running `current_chunk`;
    each is a method proved equal to a left fold over its input list, and the
    chunking guarantees are proved about those folds. */
module Chunker {
  import opened Strings
  import opened Sentences

  /** The state both loops carry: the chunks appended so far (`chunks`) and the
      running chunk (`current_chunk`). */
  datatype Packing = Packing(sealed: seq<string>, current: string)

  /** The tail shared by both functions: append the stripped running chunk if it is not blank. */
  function Seal(p: Packing): seq<string> {
    if Strip(p.current) != [] then p.sealed + [Strip(p.current)] else p.sealed
  }

  // ---------------------------------------------------------------------------
  // _split_by_words

  /** One iteration of the loop over `text.split()`. The overflow test is
      `len(current_chunk) + len(word) + 1 > max_chars`. */
  function WordStep(p: Packing, word: string, maxChars: int): Packing {
    if |p.current| + |word| + 1 > maxChars then
      if p.current != [] then Packing(p.sealed + [Strip(p.current)], word)
      else Packing(p.sealed + [word], p.current)
    else if p.current != [] then Packing(p.sealed, p.current + " " + word)
    else Packing(p.sealed, word)
  }

  function PackWords(words: seq<string>, maxChars: int): Packing
    decreases |words|
  {
    if words == [] then Packing([], [])
    else WordStep(PackWords(words[..|words| - 1], maxChars), words[|words| - 1], maxChars)
  }

  /** The fold after one more word is one `WordStep` on the fold before it. */
  lemma PackWordsNext(words: seq<string>, i: nat, maxChars: int)
    requires i < |words|
    ensures PackWords(words[..i + 1], maxChars) == WordStep(PackWords(words[..i], maxChars), words[i], maxChars)
  {
    assert words[..i + 1][..i] == words[..i];
  }

  /** What `_split_by_words(text, max_chars)` returns; a text with a word gives at least one chunk. */
  function WordChunks(text: string, maxChars: int): (r: seq<string>)
    ensures Words(text) != [] ==> r != []
  {
    WordChunksProperties(text, maxChars);
    Seal(PackWords(Words(text), maxChars))
  }

  // ---------------------------------------------------------------------------
  // chunk_text

  /** The chunks once the running chunk, if non-empty, has been appended. */
  function Flush(p: Packing): seq<string> {
    if p.current != [] then p.sealed + [Strip(p.current)] else p.sealed
  }

  /** Lines 180-186: after an overflow, a sentence longer than `max_chars` is split
      by words; all its word chunks but the last are appended, and the last becomes
      the running chunk. A shorter sentence simply becomes the running chunk. */
  function StartAfterOverflow(sealed: seq<string>, s: string, maxChars: int): Packing
    requires s != [] && IsStripped(s)
  {
    if |s| > maxChars then
      assert Words(s) != [] by { assert !IsSpace(s[0]); }
      var wc := WordChunks(s, maxChars);
      Packing(sealed + wc[..|wc| - 1], wc[|wc| - 1])
    else Packing(sealed, s)
  }

  /** Lines 173-192 for a stripped, non-empty sentence. The overflow test is
      `len(current_chunk) + len(sentence) + 1 > max_chars`. */
  function AddSentence(p: Packing, s: string, maxChars: int): Packing
    requires s != [] && IsStripped(s)
  {
    if |p.current| + |s| + 1 > maxChars then StartAfterOverflow(Flush(p), s, maxChars)
    else if p.current != [] then Packing(p.sealed, p.current + " " + s)
    else Packing(p.sealed, s)
  }

  /** One iteration of the loop over the sentences: each is stripped, and a blank one is skipped. */
  function SentenceStep(p: Packing, piece: string, maxChars: int): Packing {
    var s := Strip(piece);
    if s == [] then p else AddSentence(p, s, maxChars)
  }

  function PackSentences(pieces: seq<string>, maxChars: int): Packing
    decreases |pieces|
  {
    if pieces == [] then Packing([], [])
    else SentenceStep(PackSentences(pieces[..|pieces| - 1], maxChars), pieces[|pieces| - 1], maxChars)
  }

  lemma PackSentencesNext(pieces: seq<string>, i: nat, maxChars: int)
    requires i < |pieces|
    ensures PackSentences(pieces[..i + 1], maxChars) ==
      SentenceStep(PackSentences(pieces[..i], maxChars), pieces[i], maxChars)
  {
    assert pieces[..i + 1][..i] == pieces[..i];
  }

  /** What `chunk_text(text, max_chars)` returns. */
  function Chunks(text: string, maxChars: int): seq<string> {
    if text == [] || Strip(text) == [] then []
    else if |text| <= maxChars then [Strip(text)]
    else Seal(PackSentences(SplitSentences(text), maxChars))
  }

  // ---------------------------------------------------------------------------
  // The guarantees

  /** A well-formed chunk: non-empty, stripped, and no longer than `max_chars`
      unless it is a single whitespace-free word. */
  predicate ChunkOk(c: string, maxChars: int) {
    c != [] && IsStripped(c) && (|c| <= maxChars || NoSpace(c))
  }

  /** The chunks hold the words of the text, in order, and nothing else. */
  predicate KeepsWords(cs: seq<string>, text: string) {
    AllWords(cs) == Words(text)
  }

  predicate AllChunksOk(cs: seq<string>, maxChars: int) {
    forall k :: 0 <= k < |cs| ==> ChunkOk(cs[k], maxChars)
  }

  /** Both loops keep every appended chunk well formed, and the running chunk
      is empty or well formed. */
  predicate PackingOk(p: Packing, maxChars: int) {
    AllChunksOk(p.sealed, maxChars) && (p.current == [] || ChunkOk(p.current, maxChars))
  }

  /** The words held so far, in order: those of the appended chunks, then those of the running chunk. */
  function Tally(p: Packing): seq<string> {
    AllWords(p.sealed) + Words(p.current)
  }

  /** With no running chunk, the words held are those of the appended chunks. */
  lemma TallyNoCurrent(p: Packing)
    requires p.current == []
    ensures Tally(p) == AllWords(p.sealed)
  {
    assert Words(p.current) == [];
    ConcatEmpty(AllWords(p.sealed));
  }

  lemma AppendChunk(cs: seq<string>, c: string, maxChars: int)
    requires AllChunksOk(cs, maxChars) && ChunkOk(c, maxChars)
    ensures AllChunksOk(cs + [c], maxChars)
    ensures AllWords(cs + [c]) == AllWords(cs) + Words(c)
  {
    SnocInit(cs, c);
  }

  lemma AppendChunks(cs: seq<string>, ds: seq<string>, maxChars: int)
    requires AllChunksOk(cs, maxChars) && AllChunksOk(ds, maxChars)
    ensures AllChunksOk(cs + ds, maxChars)
    ensures AllWords(cs + ds) == AllWords(cs) + AllWords(ds)
  {
    AllWordsAppend(cs, ds);
    forall k | 0 <= k < |cs + ds| ensures ChunkOk((cs + ds)[k], maxChars) {
      if k >= |cs| { assert (cs + ds)[k] == ds[k - |cs|]; }
    }
  }

  /** Joining two well-formed chunks with a space, within the limit, is well formed. */
  lemma JoinChunk(a: string, b: string, maxChars: int)
    requires ChunkOk(a, maxChars) && ChunkOk(b, maxChars)
    requires |a| + |b| + 1 <= maxChars
    ensures ChunkOk(a + " " + b, maxChars)
    ensures Words(a + " " + b) == Words(a) + Words(b)
  {
    var j := a + " " + b;
    assert j[0] == a[0] && j[|j| - 1] == b[|b| - 1];
    WordsJoinSpace(a, b);
  }

  lemma SealProperties(p: Packing, maxChars: int)
    requires PackingOk(p, maxChars)
    ensures AllChunksOk(Seal(p), maxChars)
    ensures AllWords(Seal(p)) == Tally(p)
    ensures Tally(p) != [] ==> Seal(p) != []
  {
    if p.current != [] {
      StrippedIsFixed(p.current);
      assert Seal(p) == p.sealed + [p.current];
      AppendChunk(p.sealed, p.current, maxChars);
    } else {
      assert Strip(p.current) == [];
      assert Seal(p) == p.sealed;
      TallyNoCurrent(p);
      if p.sealed == [] {
        assert AllWords(p.sealed) == [];
      }
    }
  }

  lemma WordStepProperties(p: Packing, word: string, maxChars: int)
    requires PackingOk(p, maxChars)
    requires IsWord(word)
    ensures PackingOk(WordStep(p, word, maxChars), maxChars)
    ensures Tally(WordStep(p, word, maxChars)) == Tally(p) + [word]
  {
    WordsOfWord(word);
    assert ChunkOk(word, maxChars);
    if |p.current| + |word| + 1 > maxChars {
      if p.current != [] {
        StrippedIsFixed(p.current);
        AppendChunk(p.sealed, p.current, maxChars);
      } else {
        AppendChunk(p.sealed, word, maxChars);
        TallyNoCurrent(p);
        TallyNoCurrent(WordStep(p, word, maxChars));
      }
    } else if p.current != [] {
      JoinChunk(p.current, word, maxChars);
      ConcatAssoc(AllWords(p.sealed), Words(p.current), [word]);
    } else {
      TallyNoCurrent(p);
    }
  }

  lemma {:induction false} PackWordsProperties(words: seq<string>, maxChars: int)
    requires forall k :: 0 <= k < |words| ==> IsWord(words[k])
    ensures PackingOk(PackWords(words, maxChars), maxChars)
    ensures Tally(PackWords(words, maxChars)) == words
    decreases |words|
  {
    if words != [] {
      var init, last := words[..|words| - 1], words[|words| - 1];
      assert forall k :: 0 <= k < |init| ==> init[k] == words[k];
      PackWordsProperties(init, maxChars);
      var p := PackWords(init, maxChars);
      assert PackWords(words, maxChars) == WordStep(p, last, maxChars);
      WordStepProperties(p, last, maxChars);
      InitLast(words);
    }
  }

  /** `_split_by_words` keeps every word, in order, and yields only well-formed chunks. */
  lemma WordChunksProperties(text: string, maxChars: int)
    ensures var r := Seal(PackWords(Words(text), maxChars));
      AllChunksOk(r, maxChars) && AllWords(r) == Words(text) && (Words(text) != [] ==> r != [])
  {
    WordsAreWords(text);
    PackWordsProperties(Words(text), maxChars);
    SealProperties(PackWords(Words(text), maxChars), maxChars);
  }

  lemma FlushProperties(p: Packing, maxChars: int)
    requires PackingOk(p, maxChars)
    ensures AllChunksOk(Flush(p), maxChars)
    ensures AllWords(Flush(p)) == Tally(p)
  {
    if p.current != [] {
      StrippedIsFixed(p.current);
      AppendChunk(p.sealed, p.current, maxChars);
    } else {
      TallyNoCurrent(p);
    }
  }

  /** Appending all chunks but the last, and carrying the last as the running chunk,
      keeps the invariant and every word. */
  lemma CarryLast(sealed: seq<string>, wc: seq<string>, maxChars: int)
    requires AllChunksOk(sealed, maxChars) && AllChunksOk(wc, maxChars) && wc != []
    ensures PackingOk(Packing(sealed + wc[..|wc| - 1], wc[|wc| - 1]), maxChars)
    ensures Tally(Packing(sealed + wc[..|wc| - 1], wc[|wc| - 1])) == AllWords(sealed) + AllWords(wc)
  {
    var init, last := wc[..|wc| - 1], wc[|wc| - 1];
    assert AllChunksOk(init, maxChars) && ChunkOk(last, maxChars);
    AppendChunks(sealed, init, maxChars);
    assert AllWords(wc) == AllWords(init) + Words(last);
    ConcatAssoc(AllWords(sealed), AllWords(init), Words(last));
  }

  lemma StartAfterOverflowProperties(sealed: seq<string>, s: string, maxChars: int)
    requires AllChunksOk(sealed, maxChars)
    requires s != [] && IsStripped(s)
    ensures PackingOk(StartAfterOverflow(sealed, s, maxChars), maxChars)
    ensures Tally(StartAfterOverflow(sealed, s, maxChars)) == AllWords(sealed) + Words(s)
  {
    if |s| > maxChars {
      assert Words(s) != [] by { assert !IsSpace(s[0]); }
      WordChunksProperties(s, maxChars);
      CarryLast(sealed, WordChunks(s, maxChars), maxChars);
    } else {
      assert ChunkOk(s, maxChars);
    }
  }

  lemma AddSentenceProperties(p: Packing, s: string, maxChars: int)
    requires PackingOk(p, maxChars)
    requires s != [] && IsStripped(s)
    ensures PackingOk(AddSentence(p, s, maxChars), maxChars)
    ensures Tally(AddSentence(p, s, maxChars)) == Tally(p) + Words(s)
  {
    if |p.current| + |s| + 1 > maxChars {
      FlushProperties(p, maxChars);
      StartAfterOverflowProperties(Flush(p), s, maxChars);
    } else if p.current != [] {
      JoinChunk(p.current, s, maxChars);
      ConcatAssoc(AllWords(p.sealed), Words(p.current), Words(s));
    } else {
      assert ChunkOk(s, maxChars);
      TallyNoCurrent(p);
    }
  }

  lemma SentenceStepProperties(p: Packing, piece: string, maxChars: int)
    requires PackingOk(p, maxChars)
    ensures PackingOk(SentenceStep(p, piece, maxChars), maxChars)
    ensures Tally(SentenceStep(p, piece, maxChars)) == Tally(p) + Words(piece)
  {
    var s := Strip(piece);
    WordsStrip(piece);
    if s == [] {
      assert Words(s) == [];
    } else {
      AddSentenceProperties(p, s, maxChars);
    }
  }

  lemma {:induction false} PackSentencesProperties(pieces: seq<string>, maxChars: int)
    ensures PackingOk(PackSentences(pieces, maxChars), maxChars)
    ensures Tally(PackSentences(pieces, maxChars)) == AllWords(pieces)
    decreases |pieces|
  {
    if pieces != [] {
      var init := pieces[..|pieces| - 1];
      PackSentencesProperties(init, maxChars);
      SentenceStepProperties(PackSentences(init, maxChars), pieces[|pieces| - 1], maxChars);
    }
  }

  /** Every chunk is non-empty, stripped, and at most `max_chars` long unless it is a
      single longer word; and the chunks' words, in order, are exactly the text's words. */
  lemma ChunksProperties(text: string, maxChars: int)
    ensures AllChunksOk(Chunks(text, maxChars), maxChars)
    ensures AllWords(Chunks(text, maxChars)) == Words(text)
  {
    WordsStrip(text);
    if text == [] || Strip(text) == [] {
      WordsEmptyIff(Strip(text));
    } else if |text| <= maxChars {
      AllWordsOne(Strip(text));
    } else {
      var pieces := SplitSentences(text);
      PackSentencesProperties(pieces, maxChars);
      SealProperties(PackSentences(pieces, maxChars), maxChars);
      SplitSentencesWords(text);
    }
  }

  /** Empty or whitespace-only text, and only such text, gives no chunks. */
  lemma ChunksEmptyIff(text: string, maxChars: int)
    ensures Chunks(text, maxChars) == [] <==> AllSpace(text)
  {
    ChunksProperties(text, maxChars);
    WordsEmptyIff(text);
    StripEmptyIff(text);
    if Chunks(text, maxChars) == [] {
      assert AllWords(Chunks(text, maxChars)) == [];
    }
  }

  /** A single word is its own word chunking, whatever the limit. */
  lemma WordChunksOfWord(w: string, maxChars: int)
    requires IsWord(w)
    ensures WordChunks(w, maxChars) == [w]
  {
    WordsOfWord(w);
    PackWordsOne(w, maxChars);
    var empty := Packing([], []);
    if |w| + 1 > maxChars {
      assert WordStep(empty, w, maxChars) == Packing([w], []);
      assert Strip([]) == [];
    } else {
      assert WordStep(empty, w, maxChars) == Packing([], w);
      StrippedIsFixed(w);
      ConcatEmpty([w]);
    }
  }

  lemma PackWordsOne(word: string, maxChars: int)
    ensures PackWords([word], maxChars) == WordStep(Packing([], []), word, maxChars)
  {
    assert [word][..0] == [];
  }

  /** A single word longer than the limit passes through the sentence loop unchanged. */
  lemma PackSentencesOfWord(w: string, maxChars: int)
    requires IsWord(w) && |w| > maxChars
    ensures PackSentences([w], maxChars) == Packing([], w)
  {
    var empty := Packing([], []);
    PackSentencesOne(w, maxChars);
    StrippedIsFixed(w);
    assert SentenceStep(empty, w, maxChars) == AddSentence(empty, w, maxChars);
    assert AddSentence(empty, w, maxChars) == StartAfterOverflow([], w, maxChars);
    StartAfterOverflowOfWord(w, maxChars);
  }

  lemma PackSentencesOne(piece: string, maxChars: int)
    ensures PackSentences([piece], maxChars) == SentenceStep(Packing([], []), piece, maxChars)
  {
    assert [piece][..0] == [];
  }

  /** A word over the limit is its own single word chunk, which becomes the running chunk. */
  lemma StartAfterOverflowOfWord(w: string, maxChars: int)
    requires IsWord(w) && |w| > maxChars
    ensures IsStripped(w) && StartAfterOverflow([], w, maxChars) == Packing([], w)
  {
    WordChunksOfWord(w, maxChars);
    var wc := WordChunks(w, maxChars);
    assert wc[..|wc| - 1] == [] && wc[|wc| - 1] == w;
    assert [] + wc[..|wc| - 1] == [];
  }

  /** A well-formed chunk, chunked again with the same limit, comes back alone and unchanged. */
  lemma ChunkIsFixed(c: string, maxChars: int)
    requires ChunkOk(c, maxChars)
    ensures Chunks(c, maxChars) == [c]
  {
    if |c| > maxChars {
      LongChunkIsFixed(c, maxChars);
    } else {
      StrippedIsFixed(c);
    }
  }

  /** A chunk over the limit is a single word, which is one sentence and one word chunk. */
  lemma LongChunkIsFixed(w: string, maxChars: int)
    requires IsWord(w) && |w| > maxChars
    ensures Chunks(w, maxChars) == [w]
  {
    StrippedIsFixed(w);
    SentencesOfWord(w);
    PackSentencesOfWord(w, maxChars);
    assert Seal(Packing([], w)) == [w];
  }

  /** Re-chunking any produced chunk with the same limit gives back exactly that chunk. */
  lemma ChunksIdempotent(text: string, maxChars: int)
    ensures forall k :: 0 <= k < |Chunks(text, maxChars)| ==>
      Chunks(Chunks(text, maxChars)[k], maxChars) == [Chunks(text, maxChars)[k]]
  {
    ChunksProperties(text, maxChars);
    forall k | 0 <= k < |Chunks(text, maxChars)|
      ensures Chunks(Chunks(text, maxChars)[k], maxChars) == [Chunks(text, maxChars)[k]]
    {
      ChunkIsFixed(Chunks(text, maxChars)[k], maxChars);
    }
  }

  // ---------------------------------------------------------------------------
  // The two loops

  /** `_split_by_words(text, max_chars)`: the loop over `text.split()`, then the
      final stripped chunk. */
  method SplitByWords(text: string, maxChars: int) returns (chunks: seq<string>)
    ensures chunks == WordChunks(text, maxChars)
    ensures AllChunksOk(chunks, maxChars)
    ensures KeepsWords(chunks, text)
    ensures Words(text) != [] ==> chunks != []
  {
    var current;
    chunks, current := PackWordList(Words(text), maxChars);
    if Strip(current) != [] {
      chunks := chunks + [Strip(current)];
    }
    WordChunksProperties(text, maxChars);
  }

  /** The loop of `_split_by_words` (lines 212-230), from an empty `chunks` list
      and an empty running chunk. */
  method PackWordList(words: seq<string>, maxChars: int) returns (chunks: seq<string>, current: string)
    ensures Packing(chunks, current) == PackWords(words, maxChars)
  {
    chunks := [];
    current := "";
    for i := 0 to |words|
      invariant Packing(chunks, current) == PackWords(words[..i], maxChars)
    {
      var word := words[i];
      PackWordsNext(words, i, maxChars);
      ghost var before := Packing(chunks, current);
      if |current| + |word| + 1 > maxChars {
        if current != [] {
          chunks := chunks + [Strip(current)];
          current := word;
        } else {
          chunks := chunks + [word];
        }
      } else {
        if current != [] {
          current := current + " " + word;
        } else {
          current := word;
        }
      }
      assert Packing(chunks, current) == WordStep(before, word, maxChars);
    }
    TakeAll(words);
  }

  /** `chunk_text(text, max_chars)`: the early returns, then the loop over the
      sentences, then the final stripped chunk. */
  method ChunkText(text: string, maxChars: int) returns (chunks: seq<string>)
    ensures chunks == Chunks(text, maxChars)
    ensures AllChunksOk(chunks, maxChars)
    ensures KeepsWords(chunks, text)
    ensures chunks == [] <==> AllSpace(text)
    ensures !AllSpace(text) && |text| <= maxChars ==> chunks == [Strip(text)]
  {
    ChunksProperties(text, maxChars);
    ChunksEmptyIff(text, maxChars);
    StripEmptyIff(text);
    if text == [] || Strip(text) == [] {
      return [];
    }
    if |text| <= maxChars {
      return [Strip(text)];
    }
    var sentences := SplitSentences(text);
    var current;
    chunks, current := PackSentenceList(sentences, maxChars);
    if Strip(current) != [] {
      chunks := chunks + [Strip(current)];
    }
  }

  /** The loop over the sentences in `chunk_text` (lines 160-192), from an empty
      `chunks` list and an empty running chunk. */
  method PackSentenceList(sentences: seq<string>, maxChars: int) returns (chunks: seq<string>, current: string)
    ensures Packing(chunks, current) == PackSentences(sentences, maxChars)
  {
    chunks := [];
    current := "";
    for i := 0 to |sentences|
      invariant Packing(chunks, current) == PackSentences(sentences[..i], maxChars)
    {
      PackSentencesNext(sentences, i, maxChars);
      var sentence := Strip(sentences[i]);
      if sentence == [] {
        continue;
      }
      chunks, current := AddSentenceTo(chunks, current, sentence, maxChars);
    }
    TakeAll(sentences);
  }

  /** The body of that loop (lines 173-192) for a stripped, non-empty sentence. */
  method AddSentenceTo(chunks: seq<string>, current: string, sentence: string, maxChars: int)
    returns (chunks': seq<string>, current': string)
    requires sentence != [] && IsStripped(sentence)
    ensures Packing(chunks', current') == AddSentence(Packing(chunks, current), sentence, maxChars)
  {
    chunks', current' := chunks, current;
    if |current'| + |sentence| + 1 > maxChars {
      if current' != [] {
        chunks' := chunks' + [Strip(current')];
        current' := "";
      }
      assert chunks' == Flush(Packing(chunks, current));
      if |sentence| > maxChars {
        assert Words(sentence) != [] by { assert !IsSpace(sentence[0]); }
        var wordChunks := SplitByWords(sentence, maxChars);
        chunks' := chunks' + wordChunks[..|wordChunks| - 1];
        current' := wordChunks[|wordChunks| - 1];
      } else {
        current' := sentence;
      }
    } else {
      if current' != [] {
        current' := current' + " " + sentence;
      } else {
        current' := sentence;
      }
    }
  }
}
