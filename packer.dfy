/**
 * The greedy chunk packers of `chunk_text_with_regex` (second half) and
 * `chunk_text_with_nltk`. Both walk the sentence list once, growing a current
 * chunk by " " + sentence and closing it when the next sentence does not fit.
 * Besides the chunk texts the model keeps, as ghost state, the sentences each
 * chunk holds (`groups`), so that partition and greediness can be stated.
 */
module Packer {
  import opened Wrappers
  import opened Strings
  import Segmenter

  /** The error `chunk_text_with_nltk` raises (a `ValueError` whose message
      names the sentence). */
  datatype ChunkError = SentenceTooLong(sentence: string)

  predicate AllNonBlankTrimmed(sentences: seq<string>) {
    forall k :: 0 <= k < |sentences| ==> NonBlankTrimmed(sentences[k])
  }

  /** Chunk `k` is the text of group `k`: its sentences joined by single spaces. */
  predicate JoinedFrom(chunks: seq<string>, groups: seq<seq<string>>) {
    |chunks| == |groups| && forall k :: 0 <= k < |groups| ==> chunks[k] == Join(groups[k])
  }

  /** No chunk was closed while the next sentence still fitted: every chunk
      after the first starts with a sentence that, added to the previous chunk
      after one space, would have taken it over the budget. */
  predicate ClosedOnlyWhenFull(chunks: seq<string>, groups: seq<seq<string>>, maxChunkSize: int)
    requires |chunks| == |groups|
  {
    forall k :: 1 <= k < |groups| ==> groups[k] != [] && |chunks[k - 1]| + 1 + |groups[k][0]| > maxChunkSize
  }

  /** Only the very first group may be empty, and it is exactly when the
      first sentence is at least the budget long (the `+ 1` is counted against
      an empty chunk). */
  predicate EmptyOnlyFirst(groups: seq<seq<string>>, sentences: seq<string>, maxChunkSize: int) {
    forall k :: 0 <= k < |groups| ==>
      (groups[k] == [] <==> k == 0 && sentences != [] && |sentences[0]| >= maxChunkSize)
  }

  /** A chunk is over the budget only when it is a single sentence that is,
      or the empty chunk (which is over a negative budget). */
  predicate OversizeOnlyAlone(chunks: seq<string>, groups: seq<seq<string>>, maxChunkSize: int)
    requires |chunks| == |groups|
  {
    forall k :: 0 <= k < |groups| ==>
      |chunks[k]| <= maxChunkSize || groups[k] == [] || (|groups[k]| == 1 && |groups[k][0]| > maxChunkSize)
  }

  /** What the regex packer returns: the groups partition the sentences in
      order; only the first group may be empty; a chunk is over the budget only
      when it is one sentence that is; and no chunk was closed early. */
  ghost predicate RegexPacking(chunks: seq<string>, groups: seq<seq<string>>, sentences: seq<string>, maxChunkSize: int) {
    && JoinedFrom(chunks, groups)
    && Flatten(groups) == sentences
    && EmptyOnlyFirst(groups, sentences, maxChunkSize)
    && OversizeOnlyAlone(chunks, groups, maxChunkSize)
    && ClosedOnlyWhenFull(chunks, groups, maxChunkSize)
  }

  /** Every chunk holds at least one sentence and is within the budget. */
  predicate NonEmptyWithinBudget(chunks: seq<string>, groups: seq<seq<string>>, maxChunkSize: int)
    requires |chunks| == |groups|
  {
    forall k :: 0 <= k < |groups| ==> groups[k] != [] && |chunks[k]| <= maxChunkSize
  }

  /** What the nltk packer returns when it does not raise: the groups partition
      the sentences in order, every group is non-empty, every chunk is within
      the budget, and no chunk was closed early. */
  ghost predicate NltkPacking(chunks: seq<string>, groups: seq<seq<string>>, sentences: seq<string>, maxChunkSize: int) {
    && JoinedFrom(chunks, groups)
    && Flatten(groups) == sentences
    && NonEmptyWithinBudget(chunks, groups, maxChunkSize)
    && ClosedOnlyWhenFull(chunks, groups, maxChunkSize)
  }

  // ---------------------------------------------------------------------------
  // The regex variant (src/tts2.py:45-62)
  // ---------------------------------------------------------------------------

  lemma {:induction false} JoinedFromSnoc(chunks: seq<string>, groups: seq<seq<string>>, g: seq<string>)
    requires JoinedFrom(chunks, groups)
    ensures JoinedFrom(chunks + [Join(g)], groups + [g])
  {
    var chunks', groups' := chunks + [Join(g)], groups + [g];
    assert forall k :: 0 <= k < |groups| ==> groups'[k] == groups[k] && chunks'[k] == chunks[k];
  }

  lemma {:induction false} ClosedOnlyWhenFullSnoc(chunks: seq<string>, groups: seq<seq<string>>, g: seq<string>, maxChunkSize: int)
    requires |chunks| == |groups| && ClosedOnlyWhenFull(chunks, groups, maxChunkSize)
    requires groups != [] ==> g != [] && |chunks[|chunks| - 1]| + 1 + |g[0]| > maxChunkSize
    ensures ClosedOnlyWhenFull(chunks + [Join(g)], groups + [g], maxChunkSize)
  {
    var chunks', groups' := chunks + [Join(g)], groups + [g];
    forall k | 1 <= k < |groups'|
      ensures groups'[k] != [] && |chunks'[k - 1]| + 1 + |groups'[k][0]| > maxChunkSize
    {
      assert chunks'[k - 1] == chunks[k - 1];
      if k < |groups| {
        assert groups'[k] == groups[k];
      } else {
        assert groups'[k] == g;
      }
    }
  }

  lemma {:induction false} EmptyOnlyFirstSnoc(groups: seq<seq<string>>, g: seq<string>, sentences: seq<string>, maxChunkSize: int)
    requires EmptyOnlyFirst(groups, sentences, maxChunkSize)
    requires g == [] <==> groups == [] && sentences != [] && |sentences[0]| >= maxChunkSize
    ensures EmptyOnlyFirst(groups + [g], sentences, maxChunkSize)
  {
    var groups' := groups + [g];
    assert forall k :: 0 <= k < |groups| ==> groups'[k] == groups[k];
  }

  /** Consuming one more sentence does not change which sentence is first. */
  lemma {:induction false} EmptyOnlyFirstGrow(groups: seq<seq<string>>, sentences: seq<string>, sentence: string, maxChunkSize: int)
    requires EmptyOnlyFirst(groups, sentences, maxChunkSize)
    requires sentences != [] || groups == []
    ensures EmptyOnlyFirst(groups, sentences + [sentence], maxChunkSize)
  {
    if sentences != [] {
      assert (sentences + [sentence])[0] == sentences[0];
    }
  }

  lemma {:induction false} OversizeOnlyAloneSnoc(chunks: seq<string>, groups: seq<seq<string>>, g: seq<string>, maxChunkSize: int)
    requires |chunks| == |groups| && OversizeOnlyAlone(chunks, groups, maxChunkSize)
    requires |Join(g)| <= maxChunkSize || g == [] || (|g| == 1 && |g[0]| > maxChunkSize)
    ensures OversizeOnlyAlone(chunks + [Join(g)], groups + [g], maxChunkSize)
  {
    var chunks', groups' := chunks + [Join(g)], groups + [g];
    assert forall k :: 0 <= k < |groups| ==> groups'[k] == groups[k] && chunks'[k] == chunks[k];
  }

  lemma {:induction false} NonEmptyWithinBudgetSnoc(chunks: seq<string>, groups: seq<seq<string>>, g: seq<string>, maxChunkSize: int)
    requires |chunks| == |groups| && NonEmptyWithinBudget(chunks, groups, maxChunkSize)
    requires g != [] && |Join(g)| <= maxChunkSize
    ensures NonEmptyWithinBudget(chunks + [Join(g)], groups + [g], maxChunkSize)
  {
    var chunks', groups' := chunks + [Join(g)], groups + [g];
    assert forall k :: 0 <= k < |groups| ==> groups'[k] == groups[k] && chunks'[k] == chunks[k];
  }

  /** The regex packing loop's state after the sentences `done`: the closed
      chunks, their groups, and the sentences `cur` of the current chunk. */
  ghost predicate RegexState(chunks: seq<string>, groups: seq<seq<string>>, cur: seq<string>,
                             done: seq<string>, maxChunkSize: int) {
    && JoinedFrom(chunks, groups)
    && Flatten(groups) + cur == done
    && (done == [] ==> groups == [] && cur == [])
    && (done != [] ==> cur != [])
    && AllNonBlankTrimmed(cur)
    && EmptyOnlyFirst(groups, done, maxChunkSize)
    && (done != [] && |done[0]| >= maxChunkSize ==> groups != [])
    && OversizeOnlyAlone(chunks, groups, maxChunkSize)
    && (cur == [] || |Join(cur)| <= maxChunkSize || (|cur| == 1 && |cur[0]| > maxChunkSize))
    && ClosedOnlyWhenFull(chunks, groups, maxChunkSize)
    && (groups != [] ==> cur != [] && |chunks[|chunks| - 1]| + 1 + |cur[0]| > maxChunkSize)
  }

  /** Lines 51-53: the sentence does not fit, so the current chunk is closed
      and the sentence starts the next one. */
  lemma {:induction false} RegexClose(chunks: seq<string>, groups: seq<seq<string>>, cur: seq<string>,
                   done: seq<string>, sentence: string, maxChunkSize: int)
    requires RegexState(chunks, groups, cur, done, maxChunkSize)
    requires NonBlankTrimmed(sentence)
    requires |Join(cur)| + |sentence| + 1 > maxChunkSize
    ensures RegexState(chunks + [Join(cur)], groups + [cur], [sentence], done + [sentence], maxChunkSize)
  {
    var done' := done + [sentence];
    FlattenSnoc(groups, cur);
    JoinTrimmed(cur);
    JoinedFromSnoc(chunks, groups, cur);
    ClosedOnlyWhenFullSnoc(chunks, groups, cur, maxChunkSize);
    OversizeOnlyAloneSnoc(chunks, groups, cur, maxChunkSize);
    EmptyOnlyFirstGrow(groups, done, sentence, maxChunkSize);
    assert done' != [] && done'[0] == if done == [] then sentence else done[0];
    EmptyOnlyFirstSnoc(groups, cur, done', maxChunkSize);
  }

  /** Lines 55-58: the sentence fits and is added to the current chunk. */
  lemma {:induction false} RegexExtend(chunks: seq<string>, groups: seq<seq<string>>, cur: seq<string>,
                    done: seq<string>, sentence: string, maxChunkSize: int)
    requires RegexState(chunks, groups, cur, done, maxChunkSize)
    requires NonBlankTrimmed(sentence)
    requires |Join(cur)| + |sentence| + 1 <= maxChunkSize
    ensures RegexState(chunks, groups, cur + [sentence], done + [sentence], maxChunkSize)
  {
    JoinSnoc(cur, sentence);
    EmptyOnlyFirstGrow(groups, done, sentence, maxChunkSize);
    assert Flatten(groups) + (cur + [sentence]) == done + [sentence];
    assert forall k :: 0 <= k < |cur| ==> (cur + [sentence])[k] == cur[k];
    assert cur != [] ==> (cur + [sentence])[0] == cur[0];
    assert done != [] ==> (done + [sentence])[0] == done[0];
  }

  /** Lines 60-62: the last chunk is closed when it is not empty. */
  lemma {:induction false} RegexFinish(chunks: seq<string>, groups: seq<seq<string>>, cur: seq<string>,
                    sentences: seq<string>, maxChunkSize: int)
    requires RegexState(chunks, groups, cur, sentences, maxChunkSize)
    ensures Strip(Join(cur)) == [] ==> RegexPacking(chunks, groups, sentences, maxChunkSize)
    ensures Strip(Join(cur)) != [] ==> RegexPacking(chunks + [Strip(Join(cur))], groups + [cur], sentences, maxChunkSize)
  {
    JoinTrimmed(cur);
    if cur != [] {
      FlattenSnoc(groups, cur);
      JoinedFromSnoc(chunks, groups, cur);
      ClosedOnlyWhenFullSnoc(chunks, groups, cur, maxChunkSize);
      OversizeOnlyAloneSnoc(chunks, groups, cur, maxChunkSize);
      EmptyOnlyFirstSnoc(groups, cur, sentences, maxChunkSize);
    }
  }

  /** One pass of the loop body (lines 50-58): close the current chunk when
      the sentence does not fit, otherwise add the sentence to it. */
  method RegexStep(chunks: seq<string>, currentChunk: string, sentence: string, maxChunkSize: int,
                   ghost groups: seq<seq<string>>, ghost cur: seq<string>, ghost done: seq<string>)
    returns (newChunks: seq<string>, newCurrent: string, ghost newGroups: seq<seq<string>>, ghost newCur: seq<string>)
    requires RegexState(chunks, groups, cur, done, maxChunkSize) && currentChunk == Join(cur)
    requires NonBlankTrimmed(sentence)
    ensures RegexState(newChunks, newGroups, newCur, done + [sentence], maxChunkSize)
    ensures newCurrent == Join(newCur)
    ensures |currentChunk| + |sentence| + 1 > maxChunkSize ==> newChunks == chunks + [currentChunk] && newCurrent == sentence
    ensures |currentChunk| + |sentence| + 1 <= maxChunkSize ==> newChunks == chunks && newCurrent == Join(cur + [sentence])
  {
    JoinTrimmed(cur);
    if |currentChunk| + |sentence| + 1 > maxChunkSize {
      RegexClose(chunks, groups, cur, done, sentence, maxChunkSize);
      newChunks := chunks + [Strip(currentChunk)];
      newGroups := groups + [cur];
      newCurrent := sentence;
      newCur := [sentence];
    } else {
      RegexExtend(chunks, groups, cur, done, sentence, maxChunkSize);
      JoinSnoc(cur, sentence);
      if currentChunk == "" {
        newCurrent := sentence;
      } else {
        newCurrent := currentChunk + " " + sentence;
      }
      newChunks, newGroups, newCur := chunks, groups, cur + [sentence];
    }
  }

  /** The packing loop of `chunk_text_with_regex` (lines 45-64). */
  method PackRegex(sentences: seq<string>, maxChunkSize: int) returns (chunks: seq<string>, ghost groups: seq<seq<string>>)
    requires AllNonBlankTrimmed(sentences)
    ensures RegexPacking(chunks, groups, sentences, maxChunkSize)
    ensures chunks == [] <==> sentences == []
    ensures RemoveSpaces(Flatten(chunks)) == RemoveSpaces(Flatten(sentences))
  {
    chunks, groups := [], [];
    var currentChunk := "";
    ghost var cur: seq<string> := [];
    for i := 0 to |sentences|
      invariant RegexState(chunks, groups, cur, sentences[..i], maxChunkSize)
      invariant currentChunk == Join(cur)
    {
      PrefixSnoc(sentences, i);
      chunks, currentChunk, groups, cur := RegexStep(chunks, currentChunk, sentences[i], maxChunkSize, groups, cur, sentences[..i]);
    }
    assert sentences[..|sentences|] == sentences;
    RegexFinish(chunks, groups, cur, sentences, maxChunkSize);
    if Strip(currentChunk) != "" {
      chunks := chunks + [Strip(currentChunk)];
      groups := groups + [cur];
    }
    RegexNoChunks(chunks, groups, sentences, maxChunkSize);
    PackedContent(chunks, groups);
  }

  // ---------------------------------------------------------------------------
  // The nltk variant (src/tts2.py:73-98)
  // ---------------------------------------------------------------------------

  /** The packing loop's state after the sentences `done`, none of them over the budget. */
  ghost predicate NltkState(chunks: seq<string>, groups: seq<seq<string>>, cur: seq<string>,
                            done: seq<string>, maxChunkSize: int) {
    && JoinedFrom(chunks, groups)
    && Flatten(groups) + cur == done
    && AllNonBlankTrimmed(cur)
    && NonEmptyWithinBudget(chunks, groups, maxChunkSize)
    && (cur != [] ==> |Join(cur)| <= maxChunkSize)
    && ClosedOnlyWhenFull(chunks, groups, maxChunkSize)
    && (groups != [] ==> cur != [] && |chunks[|chunks| - 1]| + 1 + |cur[0]| > maxChunkSize)
  }

  /** Lines 88-90: the candidate is over the budget, so the current chunk is
      closed and the sentence starts the next one. */
  lemma {:induction false} NltkClose(chunks: seq<string>, groups: seq<seq<string>>, cur: seq<string>,
                  done: seq<string>, sentence: string, maxChunkSize: int)
    requires NltkState(chunks, groups, cur, done, maxChunkSize)
    requires NonBlankTrimmed(sentence) && |sentence| <= maxChunkSize
    requires cur != [] && |Join(cur)| + 1 + |sentence| > maxChunkSize
    ensures NltkState(chunks + [Join(cur)], groups + [cur], [sentence], done + [sentence], maxChunkSize)
  {
    FlattenSnoc(groups, cur);
    JoinedFromSnoc(chunks, groups, cur);
    ClosedOnlyWhenFullSnoc(chunks, groups, cur, maxChunkSize);
    NonEmptyWithinBudgetSnoc(chunks, groups, cur, maxChunkSize);
  }

  /** Lines 91-92: the candidate fits and becomes the current chunk. */
  lemma {:induction false} NltkExtend(chunks: seq<string>, groups: seq<seq<string>>, cur: seq<string>,
                   done: seq<string>, sentence: string, maxChunkSize: int)
    requires NltkState(chunks, groups, cur, done, maxChunkSize)
    requires NonBlankTrimmed(sentence)
    requires |Join(cur + [sentence])| <= maxChunkSize
    ensures NltkState(chunks, groups, cur + [sentence], done + [sentence], maxChunkSize)
  {
    assert Flatten(groups) + (cur + [sentence]) == done + [sentence];
    assert forall k :: 0 <= k < |cur| ==> (cur + [sentence])[k] == cur[k];
    assert cur != [] ==> (cur + [sentence])[0] == cur[0];
  }

  /** Lines 94-96: the last chunk is closed when it is not empty. */
  lemma {:induction false} NltkFinish(chunks: seq<string>, groups: seq<seq<string>>, cur: seq<string>,
                   sentences: seq<string>, maxChunkSize: int)
    requires NltkState(chunks, groups, cur, sentences, maxChunkSize)
    ensures Strip(Join(cur)) == [] ==> NltkPacking(chunks, groups, sentences, maxChunkSize)
    ensures Strip(Join(cur)) != [] ==> NltkPacking(chunks + [Strip(Join(cur))], groups + [cur], sentences, maxChunkSize)
  {
    JoinTrimmed(cur);
    if cur != [] {
      FlattenSnoc(groups, cur);
      JoinedFromSnoc(chunks, groups, cur);
      ClosedOnlyWhenFullSnoc(chunks, groups, cur, maxChunkSize);
      NonEmptyWithinBudgetSnoc(chunks, groups, cur, maxChunkSize);
    }
  }

  /** No sentence is over the budget. */
  predicate NoneTooLong(sentences: seq<string>, maxChunkSize: int) {
    forall k :: 0 <= k < |sentences| ==> |sentences[k]| <= maxChunkSize
  }

  lemma {:induction false} NoneTooLongSnoc(sentences: seq<string>, sentence: string, maxChunkSize: int)
    requires NoneTooLong(sentences, maxChunkSize) && |sentence| <= maxChunkSize
    ensures NoneTooLong(sentences + [sentence], maxChunkSize)
  {
    var sentences' := sentences + [sentence];
    assert forall k :: 0 <= k < |sentences| ==> sentences'[k] == sentences[k];
  }

  /** `sentence` is the first of `sentences` that is over the budget. */
  ghost predicate FirstTooLong(sentences: seq<string>, maxChunkSize: int, sentence: string) {
    exists k :: 0 <= k < |sentences| && NoneTooLong(sentences[..k], maxChunkSize)
      && |sentences[k]| > maxChunkSize && sentences[k] == sentence
  }

  /** The first `i` sentences fit and sentence `i` does not: sentence `i` is
      the first one over the budget. */
  lemma {:induction false} TooLongWitness(sentences: seq<string>, i: nat, maxChunkSize: int)
    requires i < |sentences| && NoneTooLong(sentences[..i], maxChunkSize) && |sentences[i]| > maxChunkSize
    ensures !NoneTooLong(sentences, maxChunkSize)
    ensures FirstTooLong(sentences, maxChunkSize, sentences[i])
  {
  }

  /** Only one sentence is the first over the budget, so the error of line 78
      is determined by the sentences. */
  lemma {:induction false} FirstTooLongUnique(sentences: seq<string>, maxChunkSize: int, s1: string, s2: string)
    requires FirstTooLong(sentences, maxChunkSize, s1) && FirstTooLong(sentences, maxChunkSize, s2)
    ensures s1 == s2
  {
    var i :| 0 <= i < |sentences| && NoneTooLong(sentences[..i], maxChunkSize)
      && |sentences[i]| > maxChunkSize && sentences[i] == s1;
    var j :| 0 <= j < |sentences| && NoneTooLong(sentences[..j], maxChunkSize)
      && |sentences[j]| > maxChunkSize && sentences[j] == s2;
    assert i == j;
  }

  /** One pass of the loop body after the length check (lines 84-92): the
      candidate is the current chunk extended by the sentence; when it is over
      the budget the current chunk is closed instead. */
  method NltkStep(chunks: seq<string>, currentChunk: string, sentence: string, maxChunkSize: int,
                  ghost groups: seq<seq<string>>, ghost cur: seq<string>, ghost done: seq<string>)
    returns (newChunks: seq<string>, newCurrent: string, ghost newGroups: seq<seq<string>>, ghost newCur: seq<string>)
    requires NltkState(chunks, groups, cur, done, maxChunkSize) && currentChunk == Join(cur)
    requires NonBlankTrimmed(sentence) && |sentence| <= maxChunkSize
    ensures NltkState(newChunks, newGroups, newCur, done + [sentence], maxChunkSize)
    ensures newCurrent == Join(newCur)
    ensures |Join(cur + [sentence])| > maxChunkSize ==> newChunks == chunks + [currentChunk] && newCurrent == sentence
    ensures |Join(cur + [sentence])| <= maxChunkSize ==> newChunks == chunks && newCurrent == Join(cur + [sentence])
  {
    JoinTrimmed(cur);
    JoinSnoc(cur, sentence);
    var candidateChunk;
    if currentChunk != "" {
      candidateChunk := currentChunk + " " + sentence;
    } else {
      candidateChunk := sentence;
    }
    if |candidateChunk| > maxChunkSize {
      NltkClose(chunks, groups, cur, done, sentence, maxChunkSize);
      newChunks := chunks + [Strip(currentChunk)];
      newGroups := groups + [cur];
      newCurrent := sentence;
      newCur := [sentence];
    } else {
      NltkExtend(chunks, groups, cur, done, sentence, maxChunkSize);
      newChunks, newGroups := chunks, groups;
      newCurrent := candidateChunk;
      newCur := cur + [sentence];
    }
  }

  /** The packing loop of `chunk_text_with_nltk` (lines 73-98). It raises for
      the first sentence over the budget, and for no other input; otherwise its
      chunks are a greedy packing of the sentences within the budget. */
  method PackNltk(sentences: seq<string>, maxChunkSize: int)
    returns (result: Result<seq<string>, ChunkError>, ghost groups: seq<seq<string>>)
    requires AllNonBlankTrimmed(sentences)
    ensures result.Failure? <==> !NoneTooLong(sentences, maxChunkSize)
    ensures result.Failure? ==> FirstTooLong(sentences, maxChunkSize, result.error.sentence)
    ensures result.Success? ==> NltkPacking(result.value, groups, sentences, maxChunkSize)
  {
    var chunks: seq<string> := [];
    groups := [];
    var currentChunk := "";
    ghost var cur: seq<string> := [];
    for i := 0 to |sentences|
      invariant NltkState(chunks, groups, cur, sentences[..i], maxChunkSize)
      invariant currentChunk == Join(cur)
      invariant NoneTooLong(sentences[..i], maxChunkSize)
    {
      var sentence := sentences[i];
      if |sentence| > maxChunkSize {
        TooLongWitness(sentences, i, maxChunkSize);
        return Failure(SentenceTooLong(sentence)), groups;
      }
      PrefixSnoc(sentences, i);
      NoneTooLongSnoc(sentences[..i], sentence, maxChunkSize);
      chunks, currentChunk, groups, cur := NltkStep(chunks, currentChunk, sentence, maxChunkSize, groups, cur, sentences[..i]);
    }
    assert sentences[..|sentences|] == sentences;
    NltkFinish(chunks, groups, cur, sentences, maxChunkSize);
    if Strip(currentChunk) != "" {
      chunks := chunks + [Strip(currentChunk)];
      groups := groups + [cur];
    }
    result := Success(chunks);
  }

  // ---------------------------------------------------------------------------
  // The two chunkers
  // ---------------------------------------------------------------------------

  /** `chunk_text_with_regex` (lines 21-64): segment the text, then pack the
      sentences. There are no chunks exactly for a blank text, and the chunks
      keep every non-space character of the text, in order. */
  method ChunkTextWithRegex(text: string, maxChunkSize: int)
    returns (chunks: seq<string>, sentences: seq<string>, ghost groups: seq<seq<string>>)
    ensures Segmenter.SegmentationOf(sentences, text)
    ensures RegexPacking(chunks, groups, sentences, maxChunkSize)
    ensures chunks == [] <==> IsBlank(text)
    ensures RemoveSpaces(Flatten(chunks)) == RemoveSpaces(text)
  {
    sentences := Segmenter.Segment(text);
    forall k | 0 <= k < |sentences|
      ensures NonBlankTrimmed(sentences[k])
    {
      assert Segmenter.IsSentence(sentences[k]);
    }
    chunks, groups := PackRegex(sentences, maxChunkSize);
    Segmenter.NoSentencesIffBlank(sentences, text);
    RegexNoChunks(chunks, groups, sentences, maxChunkSize);
    PackedContent(chunks, groups);
  }

  /** `chunk_text_with_nltk` (lines 66-98), with the sentence tokenizer as a
      parameter. It fails exactly when a sentence is over the budget; otherwise
      there are no chunks exactly when the tokenizer finds no sentence. */
  method ChunkTextWithNltk(text: string, maxChunkSize: int, tokenize: string -> seq<string>)
    returns (result: Result<seq<string>, ChunkError>, ghost groups: seq<seq<string>>)
    requires AllNonBlankTrimmed(tokenize(text))
    ensures result.Failure? <==> !NoneTooLong(tokenize(text), maxChunkSize)
    ensures result.Failure? ==> FirstTooLong(tokenize(text), maxChunkSize, result.error.sentence)
    ensures result.Success? ==> NltkPacking(result.value, groups, tokenize(text), maxChunkSize)
    ensures result.Success? ==> (result.value == [] <==> tokenize(text) == [])
  {
    var sentences := tokenize(text);
    result, groups := PackNltk(sentences, maxChunkSize);
    if result.Success? {
      NltkNoChunks(result.value, groups, sentences, maxChunkSize);
    }
  }

  // ---------------------------------------------------------------------------
  // Properties of the packings
  // ---------------------------------------------------------------------------

  /** Joining each group adds only spaces: the chunks hold the non-space
      characters of the sentences, in order. */
  lemma {:induction false} PackedContent(chunks: seq<string>, groups: seq<seq<string>>)
    requires JoinedFrom(chunks, groups)
    ensures RemoveSpaces(Flatten(chunks)) == RemoveSpaces(Flatten(Flatten(groups)))
  {
    if groups != [] {
      var n := |groups| - 1;
      var initChunks, initGroups := chunks[..n], groups[..n];
      assert JoinedFrom(initChunks, initGroups) by {
        assert forall k :: 0 <= k < n ==> initChunks[k] == chunks[k] && initGroups[k] == groups[k];
      }
      PackedContent(initChunks, initGroups);
      assert Flatten(chunks) == Flatten(initChunks) + chunks[n];
      assert Flatten(groups) == Flatten(initGroups) + groups[n];
      FlattenAppend(Flatten(initGroups), groups[n]);
      RemoveSpacesAppend(Flatten(initChunks), chunks[n]);
      RemoveSpacesAppend(Flatten(Flatten(initGroups)), Flatten(groups[n]));
      JoinContent(groups[n]);
    }
  }

  /** The regex packer returns no chunk exactly for no sentences. */
  lemma {:induction false} RegexNoChunks(chunks: seq<string>, groups: seq<seq<string>>, sentences: seq<string>, maxChunkSize: int)
    requires RegexPacking(chunks, groups, sentences, maxChunkSize)
    ensures chunks == [] <==> sentences == []
  {
    if groups != [] {
      FlattenCons(groups);
      if groups[0] == [] {
        assert sentences != [];
      }
    }
  }

  /** The nltk packer, when it does not raise, returns no chunk exactly for no sentences. */
  lemma {:induction false} NltkNoChunks(chunks: seq<string>, groups: seq<seq<string>>, sentences: seq<string>, maxChunkSize: int)
    requires NltkPacking(chunks, groups, sentences, maxChunkSize)
    ensures chunks == [] <==> sentences == []
  {
    if groups != [] {
      FlattenCons(groups);
      assert groups[0] != [];
    }
  }

  /** A bound on every sentence is a bound on every sentence of every group. */
  lemma {:induction false} NoneTooLongParts(groups: seq<seq<string>>, maxChunkSize: int)
    requires NoneTooLong(Flatten(groups), maxChunkSize)
    ensures forall k :: 0 <= k < |groups| ==> NoneTooLong(groups[k], maxChunkSize)
  {
    if groups != [] {
      var n := |groups| - 1;
      var flat := Flatten(groups[..n]);
      assert Flatten(groups) == flat + groups[n];
      assert NoneTooLong(flat, maxChunkSize) by {
        forall k | 0 <= k < |flat| ensures |flat[k]| <= maxChunkSize {
          assert flat[k] == Flatten(groups)[k];
        }
      }
      assert NoneTooLong(groups[n], maxChunkSize) by {
        forall k | 0 <= k < |groups[n]| ensures |groups[n][k]| <= maxChunkSize {
          assert groups[n][k] == Flatten(groups)[|flat| + k];
        }
      }
      NoneTooLongParts(groups[..n], maxChunkSize);
      forall k | 0 <= k < |groups| ensures NoneTooLong(groups[k], maxChunkSize) {
        if k < n {
          assert groups[k] == groups[..n][k];
        }
      }
    }
  }

  /** When no sentence is over the budget and the first is shorter than it,
      the regex packer's result also meets everything the nltk packer promises:
      the two differ only through the empty first chunk. */
  lemma {:induction false} RegexPackingIsNltkPacking(chunks: seq<string>, groups: seq<seq<string>>, sentences: seq<string>, maxChunkSize: int)
    requires RegexPacking(chunks, groups, sentences, maxChunkSize)
    requires NoneTooLong(sentences, maxChunkSize) && (sentences == [] || |sentences[0]| < maxChunkSize)
    ensures NltkPacking(chunks, groups, sentences, maxChunkSize)
  {
    NoneTooLongParts(groups, maxChunkSize);
    forall k | 0 <= k < |groups|
      ensures groups[k] != [] && |chunks[k]| <= maxChunkSize
    {
      assert NoneTooLong(groups[k], maxChunkSize);
    }
  }

  /** The shape both packers give their non-empty groups: an ordered
      partition of the sentences into non-empty groups, each chunk within the
      budget unless it is one sentence that is over it, and no chunk closed
      while the next sentence still fitted. */
  ghost predicate GreedyPacking(chunks: seq<string>, groups: seq<seq<string>>, sentences: seq<string>, maxChunkSize: int) {
    && JoinedFrom(chunks, groups)
    && Flatten(groups) == sentences
    && (forall k :: 0 <= k < |groups| ==> groups[k] != [])
    && OversizeOnlyAlone(chunks, groups, maxChunkSize)
    && ClosedOnlyWhenFull(chunks, groups, maxChunkSize)
  }

  /** An nltk packing is a greedy packing. */
  lemma {:induction false} NltkPackingIsGreedy(chunks: seq<string>, groups: seq<seq<string>>, sentences: seq<string>, maxChunkSize: int)
    requires NltkPacking(chunks, groups, sentences, maxChunkSize)
    ensures GreedyPacking(chunks, groups, sentences, maxChunkSize)
  {
    forall k | 0 <= k < |groups| ensures groups[k] != [] && |chunks[k]| <= maxChunkSize {
    }
  }

  /** A regex packing is a greedy packing once its empty first group, if it
      has one, is dropped. */
  lemma {:induction false} RegexPackingIsGreedy(chunks: seq<string>, groups: seq<seq<string>>, sentences: seq<string>, maxChunkSize: int)
    requires RegexPacking(chunks, groups, sentences, maxChunkSize)
    ensures groups != [] && groups[0] == [] ==> GreedyPacking(chunks[1..], groups[1..], sentences, maxChunkSize)
    ensures groups == [] || groups[0] != [] ==> GreedyPacking(chunks, groups, sentences, maxChunkSize)
  {
    if groups != [] && groups[0] == [] {
      RegexPackingAfterEmpty(chunks, groups, sentences, maxChunkSize);
    } else {
      forall k | 0 <= k < |groups| ensures groups[k] != [] {
        assert k != 0 ==> groups[k] != [];
      }
    }
  }

  /** After an empty first group, the rest of a regex packing is a greedy
      packing of all the sentences. */
  lemma {:induction false} RegexPackingAfterEmpty(chunks: seq<string>, groups: seq<seq<string>>, sentences: seq<string>, maxChunkSize: int)
    requires RegexPacking(chunks, groups, sentences, maxChunkSize)
    requires groups != [] && groups[0] == []
    ensures GreedyPacking(chunks[1..], groups[1..], sentences, maxChunkSize)
  {
    FlattenCons(groups);
    assert Flatten(groups[1..]) == sentences;
    var c, g := chunks[1..], groups[1..];
    assert JoinedFrom(c, g) by {
      assert forall k :: 0 <= k < |g| ==> g[k] == groups[k + 1] && c[k] == chunks[k + 1];
    }
    assert forall k :: 0 <= k < |g| ==> g[k] != [] by {
      forall k | 0 <= k < |g| ensures g[k] != [] {
        assert g[k] == groups[k + 1];
      }
    }
    assert OversizeOnlyAlone(c, g, maxChunkSize) by {
      forall k | 0 <= k < |g|
        ensures |c[k]| <= maxChunkSize || g[k] == [] || (|g[k]| == 1 && |g[k][0]| > maxChunkSize)
      {
        assert g[k] == groups[k + 1] && c[k] == chunks[k + 1];
      }
    }
    assert ClosedOnlyWhenFull(c, g, maxChunkSize) by {
      forall k | 1 <= k < |g|
        ensures g[k] != [] && |c[k - 1]| + 1 + |g[k][0]| > maxChunkSize
      {
        assert g[k] == groups[k + 1] && c[k - 1] == chunks[k];
      }
    }
  }

  /** Dropping the first chunk of a greedy packing leaves a greedy packing of
      the sentences after its group. */
  lemma {:induction false} GreedyPackingTail(chunks: seq<string>, groups: seq<seq<string>>, sentences: seq<string>, maxChunkSize: int)
    requires GreedyPacking(chunks, groups, sentences, maxChunkSize) && groups != []
    ensures sentences == groups[0] + Flatten(groups[1..])
    ensures GreedyPacking(chunks[1..], groups[1..], Flatten(groups[1..]), maxChunkSize)
  {
    FlattenCons(groups);
    var c, g := chunks[1..], groups[1..];
    assert forall k :: 0 <= k < |g| ==> g[k] == groups[k + 1] && c[k] == chunks[k + 1];
    forall k | 1 <= k < |g|
      ensures g[k] != [] && |c[k - 1]| + 1 + |g[k][0]| > maxChunkSize
    {
      assert g[k] == groups[k + 1] && c[k - 1] == chunks[k];
    }
  }

  /** Of two greedy packings of the same sentences, neither starts with a
      shorter group: the other packing's first chunk holds at least two
      sentences, so it is within the budget, and the sentence that ended the
      shorter group would have fitted after it. */
  lemma {:induction false} GreedyFirstGroupNotShorter(c1: seq<string>, g1: seq<seq<string>>, c2: seq<string>, g2: seq<seq<string>>,
                                                      sentences: seq<string>, maxChunkSize: int)
    requires GreedyPacking(c1, g1, sentences, maxChunkSize) && GreedyPacking(c2, g2, sentences, maxChunkSize)
    requires g1 != [] && g2 != []
    ensures |g2[0]| <= |g1[0]|
  {
    var n := |g1[0]|;
    if n < |g2[0]| {
      GreedyPackingTail(c2, g2, sentences, maxChunkSize);
      assert |sentences| > n && g2[0][..n + 1] == sentences[..n + 1];
      var next := GreedyNextSentence(c1, g1, sentences, maxChunkSize);
      assert |g2[0]| >= 2 && |c2[0]| <= maxChunkSize;
      NextWouldFit(g1[0], next, g2[0], maxChunkSize);
      assert false;
    }
  }

  /** When sentences follow the first group of a greedy packing, the next one
      starts the second group and did not fit after the first chunk. */
  lemma {:induction false} GreedyNextSentence(chunks: seq<string>, groups: seq<seq<string>>, sentences: seq<string>, maxChunkSize: int)
    returns (next: string)
    requires GreedyPacking(chunks, groups, sentences, maxChunkSize) && groups != []
    requires |groups[0]| < |sentences|
    ensures sentences[..|groups[0]| + 1] == groups[0] + [next]
    ensures |Join(groups[0])| + 1 + |next| > maxChunkSize
  {
    GreedyPackingTail(chunks, groups, sentences, maxChunkSize);
    var rest := groups[1..];
    assert Flatten(rest) != [];
    assert |groups| >= 2 && rest[0] == groups[1];
    FlattenCons(rest);
    next := groups[1][0];
    assert sentences[|groups[0]|] == next;
    assert sentences[..|groups[0]| + 1] == groups[0] + [next] by {
      assert sentences[..|groups[0]|] == groups[0];
    }
  }

  /** If a group within the budget starts with `first` and then `next`, the
      chunk of `first` has room for `next` after one space. */
  lemma {:induction false} NextWouldFit(first: seq<string>, next: string, group: seq<string>, maxChunkSize: int)
    requires first != [] && |first| < |group| && group[..|first| + 1] == first + [next]
    requires |Join(group)| <= maxChunkSize
    ensures |Join(first)| + 1 + |next| <= maxChunkSize
  {
    JoinSnoc(first, next);
    JoinPrefixLength(group, |first| + 1);
  }

  /** Two greedy packings of the same sentences start with the same chunk,
      and what follows it packs the same remaining sentences. */
  lemma {:induction false} GreedySameFirstGroup(c1: seq<string>, g1: seq<seq<string>>, c2: seq<string>, g2: seq<seq<string>>,
                                                sentences: seq<string>, maxChunkSize: int) returns (n: nat)
    requires GreedyPacking(c1, g1, sentences, maxChunkSize) && GreedyPacking(c2, g2, sentences, maxChunkSize)
    requires g1 != [] && g2 != []
    ensures 0 < n <= |sentences| && g1[0] == g2[0] && c1[0] == c2[0]
    ensures GreedyPacking(c1[1..], g1[1..], sentences[n..], maxChunkSize)
    ensures GreedyPacking(c2[1..], g2[1..], sentences[n..], maxChunkSize)
  {
    GreedyFirstGroupNotShorter(c1, g1, c2, g2, sentences, maxChunkSize);
    GreedyFirstGroupNotShorter(c2, g2, c1, g1, sentences, maxChunkSize);
    GreedyPackingTail(c1, g1, sentences, maxChunkSize);
    GreedyPackingTail(c2, g2, sentences, maxChunkSize);
    n := |g1[0]|;
    assert g1[0] == sentences[..n] == g2[0];
    assert Flatten(g1[1..]) == sentences[n..] == Flatten(g2[1..]);
  }

  /** A greedy packing of a sentence list is unique: the greedy rule leaves
      no choice about where a chunk ends. */
  lemma {:induction false} GreedyPackingUnique(c1: seq<string>, g1: seq<seq<string>>, c2: seq<string>, g2: seq<seq<string>>,
                                               sentences: seq<string>, maxChunkSize: int)
    requires GreedyPacking(c1, g1, sentences, maxChunkSize) && GreedyPacking(c2, g2, sentences, maxChunkSize)
    ensures c1 == c2 && g1 == g2
    decreases |sentences|
  {
    if g1 != [] && g2 != [] {
      var n := GreedySameFirstGroup(c1, g1, c2, g2, sentences, maxChunkSize);
      GreedyPackingUnique(c1[1..], g1[1..], c2[1..], g2[1..], sentences[n..], maxChunkSize);
      SameHeadAndTail(g1, g2);
      SameHeadAndTail(c1, c2);
    } else if g1 != [] || g2 != [] {
      assert false;
    }
  }

  /** The nltk packing of a sentence list is unique. */
  lemma {:induction false} NltkPackingUnique(c1: seq<string>, g1: seq<seq<string>>, c2: seq<string>, g2: seq<seq<string>>,
                                             sentences: seq<string>, maxChunkSize: int)
    requires NltkPacking(c1, g1, sentences, maxChunkSize) && NltkPacking(c2, g2, sentences, maxChunkSize)
    ensures c1 == c2 && g1 == g2
  {
    NltkPackingIsGreedy(c1, g1, sentences, maxChunkSize);
    NltkPackingIsGreedy(c2, g2, sentences, maxChunkSize);
    GreedyPackingUnique(c1, g1, c2, g2, sentences, maxChunkSize);
  }

  /** The regex packing of a sentence list is unique, oversize sentences and
      the empty first chunk included: both packings start with the empty
      chunk exactly when the first sentence is at least the budget, and the
      rest is a greedy packing. */
  lemma {:induction false} RegexPackingUnique(c1: seq<string>, g1: seq<seq<string>>, c2: seq<string>, g2: seq<seq<string>>,
                                              sentences: seq<string>, maxChunkSize: int)
    requires RegexPacking(c1, g1, sentences, maxChunkSize) && RegexPacking(c2, g2, sentences, maxChunkSize)
    ensures c1 == c2 && g1 == g2
  {
    RegexNoChunks(c1, g1, sentences, maxChunkSize);
    RegexNoChunks(c2, g2, sentences, maxChunkSize);
    RegexPackingIsGreedy(c1, g1, sentences, maxChunkSize);
    RegexPackingIsGreedy(c2, g2, sentences, maxChunkSize);
    if sentences != [] {
      assert g1 != [] && g2 != [];
      if g1[0] == [] {
        assert g2[0] == [];
        GreedyPackingUnique(c1[1..], g1[1..], c2[1..], g2[1..], sentences, maxChunkSize);
        assert c1[0] == Join([]) == c2[0];
        SameHeadAndTail(g1, g2);
        SameHeadAndTail(c1, c2);
      } else {
        assert g2[0] != [];
        GreedyPackingUnique(c1, g1, c2, g2, sentences, maxChunkSize);
      }
    }
  }

  /** The regex chunker's result is determined by the text and the budget:
      the text fixes the sentences, and the sentences fix the packing. */
  lemma {:induction false} RegexChunkingDetermined(text: string, maxChunkSize: int,
                                                   s1: seq<string>, c1: seq<string>, g1: seq<seq<string>>,
                                                   s2: seq<string>, c2: seq<string>, g2: seq<seq<string>>)
    requires Segmenter.SegmentationOf(s1, text) && RegexPacking(c1, g1, s1, maxChunkSize)
    requires Segmenter.SegmentationOf(s2, text) && RegexPacking(c2, g2, s2, maxChunkSize)
    ensures s1 == s2 && c1 == c2
  {
    Segmenter.SegmentationUnique(s1, s2, text);
    RegexPackingUnique(c1, g1, c2, g2, s1, maxChunkSize);
  }

  /** Where both packers succeed and the first sentence is shorter than the
      budget, they return the same chunks. */
  lemma {:induction false} RegexAgreesWithNltk(regexChunks: seq<string>, regexGroups: seq<seq<string>>,
                            nltkChunks: seq<string>, nltkGroups: seq<seq<string>>,
                            sentences: seq<string>, maxChunkSize: int)
    requires RegexPacking(regexChunks, regexGroups, sentences, maxChunkSize)
    requires NltkPacking(nltkChunks, nltkGroups, sentences, maxChunkSize)
    requires NoneTooLong(sentences, maxChunkSize) && (sentences == [] || |sentences[0]| < maxChunkSize)
    ensures regexChunks == nltkChunks
  {
    RegexPackingIsNltkPacking(regexChunks, regexGroups, sentences, maxChunkSize);
    NltkPackingUnique(regexChunks, regexGroups, nltkChunks, nltkGroups, sentences, maxChunkSize);
  }

  /** With a budget of 15 characters the sentences of "Hello world. This is
      great! And more?" get one chunk each from the regex packer. */
  lemma {:induction false} OneSentencePerChunk(chunks: seq<string>, groups: seq<seq<string>>)
    requires RegexPacking(chunks, groups, ["Hello world.", "This is great!", "And more?"], 15)
    ensures chunks == ["Hello world.", "This is great!", "And more?"]
  {
    var sentences := ["Hello world.", "This is great!", "And more?"];
    var single := [[sentences[0]], [sentences[1]], [sentences[2]]];
    var one: seq<seq<string>> := [[sentences[0]]];
    var two := one + [[sentences[1]]];
    assert Flatten(one) == [sentences[0]] by {
      FlattenSnoc([], [sentences[0]]);
      assert [] + one == one;
    }
    FlattenSnoc(one, [sentences[1]]);
    FlattenSnoc(two, [sentences[2]]);
    assert single == two + [[sentences[2]]];
    assert Flatten(single) == sentences;
    assert JoinedFrom(sentences, single);
    RegexAgreesWithNltk(chunks, groups, sentences, single, sentences, 15);
  }

  /** The sample text "Hello world. This is great! And more?" under the regex
      chunker with a budget of 15: it is cut into its three sentences, and each
      gets a chunk of its own. */
  lemma {:induction false} SampleChunking(text: string, sentences: seq<string>, chunks: seq<string>, groups: seq<seq<string>>)
    requires text == "Hello world" + "." + " This is great" + "!" + " And more" + "?"
    requires Segmenter.SegmentationOf(sentences, text)
    requires RegexPacking(chunks, groups, sentences, 15)
    ensures chunks == ["Hello world.", "This is great!", "And more?"]
  {
    Segmenter.SampleSegmentation(text, sentences);
    assert "Hello world" + "." == "Hello world.";
    assert "This is great" + "!" == "This is great!";
    assert "And more" + "?" == "And more?";
    OneSentencePerChunk(chunks, groups);
  }
}
