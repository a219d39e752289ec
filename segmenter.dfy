/**
 * The punctuation segmenter of `chunk_text_with_regex`: the text is split on
 * every `.`, `?` and `!` (keeping the marks), each piece is paired with the
 * mark after it and trimmed, and a trailing piece without a mark is kept when
 * it is not blank.
 */
module Segmenter {
  import opened Strings

  /** The character class `[.?!]` of the split pattern. */
  predicate IsPunct(c: char) {
    c == '.' || c == '?' || c == '!'
  }

  predicate NoPunct(s: string) {
    forall i :: 0 <= i < |s| ==> !IsPunct(s[i])
  }

  predicate EndsInPunct(s: string) {
    s != [] && IsPunct(s[|s| - 1])
  }

  /** A segment as the segmenter produces it: non-blank, trimmed, with a
      punctuation mark at most as its last character. */
  predicate IsSentence(s: string) {
    NonBlankTrimmed(s) && NoPunct(s[..|s| - 1])
  }

  /** The number of `.`, `?` and `!` in `text`. */
  function CountPunct(text: string): nat {
    if text == [] then 0
    else CountPunct(text[..|text| - 1]) + (if IsPunct(text[|text| - 1]) then 1 else 0)
  }

  /** The part of `text` after its last punctuation mark (all of it when it has none). */
  function Trailing(text: string): (r: string)
    ensures |r| <= |text| && r == text[|text| - |r|..]
    ensures NoPunct(r)
    ensures |r| < |text| ==> IsPunct(text[|text| - |r| - 1])
  {
    if text == [] || IsPunct(text[|text| - 1]) then []
    else
      Trailing(text[..|text| - 1]) + [text[|text| - 1]]
  }

  /** `re.split(r'([.?!])', text)`, computed by one scan over the characters:
      the pieces between the marks and the marks themselves, alternating,
      starting and ending with a (possibly empty) piece. */
  function RegexSplit(text: string): (parts: seq<string>)
    ensures |parts| == 2 * CountPunct(text) + 1
    decreases |text|
  {
    if text == [] then [[]]
    else
      var parts := RegexSplit(text[..|text| - 1]);
      var c := text[|text| - 1];
      if IsPunct(c) then parts + [[c], []]
      else parts[..|parts| - 1] + [parts[|parts| - 1] + [c]]
  }

  /** Concatenating what `re.split` returns gives back the text. */
  lemma {:induction false} RegexSplitConcat(text: string)
    ensures Flatten(RegexSplit(text)) == text
    decreases |text|
  {
    if text != [] {
      var before := text[..|text| - 1];
      var c := text[|text| - 1];
      RegexSplitConcat(before);
      assert text == before + [c];
      if IsPunct(c) {
        SplitAtMark(RegexSplit(before), c);
      } else {
        var parts := RegexSplit(before);
        assert parts[..|parts| - 1] + [parts[|parts| - 1]] == parts;
        SplitInPiece(parts[..|parts| - 1], parts[|parts| - 1], c);
      }
    }
  }

  /** Marks, one character each, at the odd positions; pieces without a
      mark at the even ones. */
  predicate Alternates(parts: seq<string>) {
    && (forall k :: 0 <= k < |parts| && k % 2 == 1 ==> MarkAt(parts, k))
    && (forall k :: 0 <= k < |parts| && k % 2 == 0 ==> PieceAt(parts, k))
  }

  /** Position `k` holds a single mark. */
  predicate MarkAt(parts: seq<string>, k: nat)
    requires k < |parts|
  {
    |parts[k]| == 1 && IsPunct(parts[k][0])
  }

  /** Position `k` holds a piece without a mark. */
  predicate PieceAt(parts: seq<string>, k: nat)
    requires k < |parts|
  {
    NoPunct(parts[k])
  }

  /** The marks sit at the odd positions of what `re.split` returns, one
      character each, and the pieces at the even positions hold no mark. */
  lemma {:induction false} RegexSplitAlternates(text: string)
    ensures Alternates(RegexSplit(text))
    decreases |text|
  {
    if text != [] {
      var before := text[..|text| - 1];
      RegexSplitAlternates(before);
      if IsPunct(text[|text| - 1]) {
        AlternatesAtMark(RegexSplit(before), text[|text| - 1]);
      } else {
        AlternatesInPiece(RegexSplit(before), text[|text| - 1]);
      }
    }
  }

  lemma {:induction false} AlternatesAtMark(parts: seq<string>, c: char)
    requires Alternates(parts) && |parts| % 2 == 1 && IsPunct(c)
    ensures Alternates(parts + [[c], []])
  {
    var next := parts + [[c], []];
    assert forall k :: 0 <= k < |parts| ==> next[k] == parts[k];
    assert next[|parts|] == [c] && next[|parts| + 1] == [];
    assert MarkAt(next, |parts|) && PieceAt(next, |parts| + 1);
    assert forall k :: 0 <= k < |parts| && k % 2 == 1 ==> MarkAt(next, k) by {
      forall k | 0 <= k < |parts| && k % 2 == 1 ensures MarkAt(next, k) {
        assert MarkAt(parts, k);
      }
    }
    assert forall k :: 0 <= k < |parts| && k % 2 == 0 ==> PieceAt(next, k) by {
      forall k | 0 <= k < |parts| && k % 2 == 0 ensures PieceAt(next, k) {
        assert PieceAt(parts, k);
      }
    }
  }

  lemma {:induction false} AlternatesInPiece(parts: seq<string>, c: char)
    requires Alternates(parts) && |parts| % 2 == 1 && !IsPunct(c)
    ensures Alternates(parts[..|parts| - 1] + [parts[|parts| - 1] + [c]])
  {
    var last := parts[|parts| - 1];
    assert (|parts| - 1) % 2 == 0;
    assert PieceAt(parts, |parts| - 1);
    NoPunctSnoc(last, c);
    var next := parts[..|parts| - 1] + [last + [c]];
    assert forall k :: 0 <= k < |parts| - 1 ==> next[k] == parts[k];
    assert PieceAt(next, |parts| - 1);
    assert forall k :: 0 <= k < |parts| - 1 && k % 2 == 1 ==> MarkAt(next, k) by {
      forall k | 0 <= k < |parts| - 1 && k % 2 == 1 ensures MarkAt(next, k) {
        assert MarkAt(parts, k);
      }
    }
    assert forall k :: 0 <= k < |parts| - 1 && k % 2 == 0 ==> PieceAt(next, k) by {
      forall k | 0 <= k < |parts| - 1 && k % 2 == 0 ensures PieceAt(next, k) {
        assert PieceAt(parts, k);
      }
    }
  }

  /** The last piece `re.split` returns is the text after the last mark. */
  lemma {:induction false} RegexSplitLast(text: string)
    ensures RegexSplit(text)[|RegexSplit(text)| - 1] == Trailing(text)
    decreases |text|
  {
    if text != [] {
      RegexSplitLast(text[..|text| - 1]);
    }
  }

  /** A mark after `a` closes the last piece and opens an empty one. */
  lemma {:induction false} RegexSplitMark(a: string, c: char)
    requires IsPunct(c)
    ensures RegexSplit(a + [c]) == RegexSplit(a) + [[c], []]
  {
    assert (a + [c])[..|a|] == a;
  }

  /** One character without a mark after `t` extends the last piece. */
  lemma {:induction false} RegexSplitSnocPiece(t: string, c: char)
    requires !IsPunct(c)
    ensures RegexSplit(t + [c]) == RegexSplit(t)[..|RegexSplit(t)| - 1] + [RegexSplit(t)[|RegexSplit(t)| - 1] + [c]]
  {
    assert (t + [c])[..|t|] == t;
  }

  /** Text without a mark after `a` extends the last piece. */
  lemma {:induction false} RegexSplitPiece(a: string, s: string)
    requires NoPunct(s)
    ensures RegexSplit(a + s) == RegexSplit(a)[..|RegexSplit(a)| - 1] + [RegexSplit(a)[|RegexSplit(a)| - 1] + s]
    decreases |s|
  {
    var parts := RegexSplit(a);
    if s == [] {
      assert a + s == a;
      assert parts[|parts| - 1] + s == parts[|parts| - 1];
      assert parts[..|parts| - 1] + [parts[|parts| - 1]] == parts;
    } else {
      var init, c := s[..|s| - 1], s[|s| - 1];
      assert s == init + [c];
      RegexSplitPiece(a, init);
      RegexSplitPieceStep(a, init, c, parts, RegexSplit(a + init));
    }
  }

  /** The step of `RegexSplitPiece`: one more character without a mark. */
  lemma {:induction false} RegexSplitPieceStep(a: string, init: string, c: char, parts: seq<string>, before: seq<string>)
    requires !IsPunct(c) && parts == RegexSplit(a) && before == RegexSplit(a + init)
    requires before == parts[..|parts| - 1] + [parts[|parts| - 1] + init]
    ensures RegexSplit(a + (init + [c])) == parts[..|parts| - 1] + [parts[|parts| - 1] + (init + [c])]
  {
    assert a + (init + [c]) == (a + init) + [c];
    RegexSplitSnocPiece(a + init, c);
    ExtendLastPiece(parts, before, init, [c]);
  }

  /** Adding `u` to the last piece after `t` was added is adding `t + u`. */
  lemma {:induction false} ExtendLastPiece(parts: seq<string>, before: seq<string>, t: string, u: string)
    requires parts != [] && before == parts[..|parts| - 1] + [parts[|parts| - 1] + t]
    ensures before[..|before| - 1] + [before[|before| - 1] + u] == parts[..|parts| - 1] + [parts[|parts| - 1] + (t + u)]
  {
    assert before[..|before| - 1] == parts[..|parts| - 1];
    assert before[|before| - 1] + u == parts[|parts| - 1] + (t + u);
  }

  lemma {:induction false} SplitAtMark(parts: seq<string>, c: char)
    requires parts != []
    ensures Flatten(parts + [[c], []]) == Flatten(parts) + [c]
  {
    FlattenSnoc(parts, [c]);
    FlattenSnoc(parts + [[c]], []);
    assert parts + [[c]] + [[]] == parts + [[c], []];
  }

  lemma {:induction false} SplitInPiece(init: seq<string>, last: string, c: char)
    ensures Flatten(init + [last + [c]]) == Flatten(init + [last]) + [c]
  {
    FlattenSnoc(init, last);
    FlattenSnoc(init, last + [c]);
  }

  lemma {:induction false} NoPunctSnoc(s: string, c: char)
    requires NoPunct(s) && !IsPunct(c)
    ensures NoPunct(s + [c])
  {
  }

  lemma {:induction false} PairAt(parts: seq<string>, i: nat, j: nat)
    requires Alternates(parts) && i == 2 * j && i + 1 < |parts|
    ensures NoPunct(parts[i]) && |parts[i + 1]| == 1 && IsPunct(parts[i + 1][0])
  {
    assert i % 2 == 0 && (i + 1) % 2 == 1;
    assert PieceAt(parts, i) && MarkAt(parts, i + 1);
  }

  /** A piece followed by its mark, each trimmed and then trimmed together, as
      line 38 of the loop rebuilds it: a sentence that ends in its mark and
      keeps every non-blank character of the two. */
  lemma {:induction false} PairIsSentence(piece: string, mark: string)
    requires NoPunct(piece) && |mark| == 1 && IsPunct(mark[0])
    ensures IsSentence(Strip(Strip(piece) + Strip(mark)))
    ensures EndsInPunct(Strip(Strip(piece) + Strip(mark)))
    ensures RemoveSpaces(Strip(Strip(piece) + Strip(mark))) == RemoveSpaces(piece + mark)
    ensures Strip(Strip(piece) + Strip(mark)) == Strip(piece) + mark
  {
    var part := Strip(piece);
    assert IsTrimmed(mark);
    StripNoPunct(piece);
    MarkedSentence(part, mark);
    RemoveSpacesAppend(part, mark);
    RemoveSpacesAppend(piece, mark);
  }

  lemma {:induction false} StripNoPunct(piece: string)
    requires NoPunct(piece)
    ensures NoPunct(Strip(piece))
  {
    StripKeepsCharacters(piece);
  }

  /** A trimmed piece without marks followed by one mark is a sentence that
      ends in its mark and that trimming leaves alone. */
  lemma {:induction false} MarkedSentence(part: string, mark: string)
    requires IsTrimmed(part) && NoPunct(part) && |mark| == 1 && IsPunct(mark[0])
    ensures IsSentence(part + mark) && EndsInPunct(part + mark) && Strip(part + mark) == part + mark
  {
    var sentence := part + mark;
    assert sentence[..|sentence| - 1] == part;
    assert sentence[|sentence| - 1] == mark[0];
    assert sentence[0] == if part == [] then mark[0] else part[0];
  }

  lemma {:induction false} FlattenPairStep(parts: seq<string>, i: nat)
    requires i + 2 <= |parts|
    ensures Flatten(parts[..i + 2]) == Flatten(parts[..i]) + parts[i] + parts[i + 1]
  {
    assert parts[..i + 2] == parts[..i] + [parts[i]] + [parts[i + 1]];
    FlattenSnoc(parts[..i], parts[i]);
    FlattenSnoc(parts[..i] + [parts[i]], parts[i + 1]);
  }

  /** Appending the sentence rebuilt from the next two parts keeps the
      rebuilt list's content equal to that of the parts consumed so far. */
  lemma {:induction false} ContentStep(rebuilt: seq<string>, parts: seq<string>, i: nat, sentence: string)
    requires i + 2 <= |parts|
    requires RemoveSpaces(Flatten(rebuilt)) == RemoveSpaces(Flatten(parts[..i]))
    requires RemoveSpaces(sentence) == RemoveSpaces(parts[i] + parts[i + 1])
    ensures RemoveSpaces(Flatten(rebuilt + [sentence])) == RemoveSpaces(Flatten(parts[..i + 2]))
  {
    FlattenSnoc(rebuilt, sentence);
    RemoveSpacesAppend(Flatten(rebuilt), sentence);
    FlattenPairStep(parts, i);
    assert Flatten(parts[..i]) + parts[i] + parts[i + 1] == Flatten(parts[..i]) + (parts[i] + parts[i + 1]);
    RemoveSpacesAppend(Flatten(parts[..i]), parts[i] + parts[i + 1]);
  }

  /** The content of all parts is that of all but the last, followed by the last. */
  lemma {:induction false} ContentLast(parts: seq<string>)
    requires parts != []
    ensures RemoveSpaces(Flatten(parts)) ==
            RemoveSpaces(Flatten(parts[..|parts| - 1])) + RemoveSpaces(parts[|parts| - 1])
  {
    RemoveSpacesAppend(Flatten(parts[..|parts| - 1]), parts[|parts| - 1]);
  }

  /** The first `n` sentences the pairing loop rebuilds from `parts`:
      sentence `k` is the piece at position `2k`, trimmed, followed by the
      mark after it. */
  function Pairs(parts: seq<string>, n: nat): (r: seq<string>)
    requires 2 * n <= |parts|
    ensures |r| == n
  {
    if n == 0 then [] else Pairs(parts, n - 1) + [Strip(parts[2 * n - 2]) + parts[2 * n - 1]]
  }

  lemma {:induction false} PairsAt(parts: seq<string>, n: nat, k: nat)
    requires 2 * n <= |parts| && k < n
    ensures Pairs(parts, n)[k] == Strip(parts[2 * k]) + parts[2 * k + 1]
  {
    var prefix := Pairs(parts, n - 1);
    assert Pairs(parts, n) == prefix + [Strip(parts[2 * n - 2]) + parts[2 * n - 1]];
    if k < n - 1 {
      assert Pairs(parts, n)[k] == prefix[k];
      PairsAt(parts, n - 1, k);
    } else {
      assert 2 * k == 2 * n - 2 && 2 * k + 1 == 2 * n - 1;
      assert Pairs(parts, n)[k] == Strip(parts[2 * n - 2]) + parts[2 * n - 1];
    }
  }

  /** Sentences each closed by a mark, as the loop of lines 34-38 rebuilds them. */
  predicate AllMarked(sentences: seq<string>) {
    forall k :: 0 <= k < |sentences| ==> MarkedAt(sentences, k)
  }

  /** Sentence `k` is a sentence closed by a mark. */
  predicate MarkedAt(sentences: seq<string>, k: nat)
    requires k < |sentences|
  {
    IsSentence(sentences[k]) && EndsInPunct(sentences[k])
  }

  /** The sentence list the segmenter returns, stated against the text: there
      is one sentence per mark plus one for a non-blank tail; sentence `k` is
      the `k`-th piece of `re.split`, trimmed, followed by its mark, and the
      last is the trimmed tail when that is not blank. Hence every sentence is
      a sentence, all but the last end in a mark, the last ends in one exactly
      when the tail is blank, and the non-blank characters are those of the
      text. */
  predicate SegmentationOf(sentences: seq<string>, text: string) {
    && |sentences| == CountPunct(text) + (if IsBlank(Trailing(text)) then 0 else 1)
    && sentences[..CountPunct(text)] == Pairs(RegexSplit(text), CountPunct(text))
    && (!IsBlank(Trailing(text)) ==> sentences[|sentences| - 1] == Strip(Trailing(text)))
    && (forall k :: 0 <= k < |sentences| ==> IsSentence(sentences[k]))
    && (forall k :: 0 <= k < |sentences| - 1 ==> EndsInPunct(sentences[k]))
    && (sentences != [] ==> (EndsInPunct(sentences[|sentences| - 1]) <==> IsBlank(Trailing(text))))
    && RemoveSpaces(Flatten(sentences)) == RemoveSpaces(text)
  }

  /** The text determines its segmentation. */
  lemma {:induction false} SegmentationUnique(s1: seq<string>, s2: seq<string>, text: string)
    requires SegmentationOf(s1, text) && SegmentationOf(s2, text)
    ensures s1 == s2
  {
    var n := CountPunct(text);
    SameHeadAndLast(s1, s2, n);
  }

  lemma {:induction false} SameHeadAndLast(s1: seq<string>, s2: seq<string>, n: nat)
    requires |s1| == |s2| && n <= |s1| <= n + 1 && s1[..n] == s2[..n]
    requires |s1| == n + 1 ==> s1[n] == s2[n]
    ensures s1 == s2
  {
    if |s1| > n {
      assert s1 == s1[..n] + [s1[n]] && s2 == s2[..n] + [s2[n]];
    } else {
      assert s1 == s1[..n] && s2 == s2[..n];
    }
  }

  /** A segmentation is empty exactly when the text is blank. */
  lemma {:induction false} NoSentencesIffBlank(sentences: seq<string>, text: string)
    requires SegmentationOf(sentences, text)
    ensures sentences == [] <==> IsBlank(text)
  {
    RemoveSpacesOfBlank(text);
    if sentences != [] {
      FlattenCons(sentences);
      RemoveSpacesAppend(sentences[0], Flatten(sentences[1..]));
      RemoveSpacesOfBlank(sentences[0]);
      assert !IsSpace(sentences[0][0]);
    }
  }

  lemma {:induction false} AllMarkedSnoc(sentences: seq<string>, sentence: string)
    requires AllMarked(sentences) && IsSentence(sentence) && EndsInPunct(sentence)
    ensures AllMarked(sentences + [sentence])
  {
    var next := sentences + [sentence];
    assert MarkedAt(next, |sentences|);
    forall k | 0 <= k < |sentences| ensures MarkedAt(next, k) {
      assert next[k] == sentences[k] && MarkedAt(sentences, k);
    }
  }

  /** The loop's result, when the tail after the last mark is blank, is the whole list. */
  lemma {:induction false} FinishWithoutLeftover(rebuilt: seq<string>, text: string)
    requires AllMarked(rebuilt) && IsBlank(Trailing(text))
    requires |rebuilt| == CountPunct(text) && rebuilt == Pairs(RegexSplit(text), |rebuilt|)
    requires RemoveSpaces(Flatten(rebuilt)) == RemoveSpaces(text)
    ensures SegmentationOf(rebuilt, text)
  {
    assert rebuilt[..|rebuilt|] == rebuilt;
    forall k | 0 <= k < |rebuilt| ensures IsSentence(rebuilt[k]) && EndsInPunct(rebuilt[k]) {
      assert MarkedAt(rebuilt, k);
    }
  }

  /** The loop's result followed by the non-blank trimmed tail is the whole list. */
  lemma {:induction false} FinishWithLeftover(rebuilt: seq<string>, leftover: string, text: string)
    requires AllMarked(rebuilt) && !IsBlank(Trailing(text))
    requires IsSentence(leftover) && !EndsInPunct(leftover) && leftover == Strip(Trailing(text))
    requires |rebuilt| == CountPunct(text) && rebuilt == Pairs(RegexSplit(text), |rebuilt|)
    requires RemoveSpaces(Flatten(rebuilt)) + RemoveSpaces(leftover) == RemoveSpaces(text)
    ensures SegmentationOf(rebuilt + [leftover], text)
  {
    var sentences := rebuilt + [leftover];
    assert sentences[..|rebuilt|] == rebuilt;
    forall k | 0 <= k < |sentences|
      ensures IsSentence(sentences[k]) && (k < |rebuilt| ==> EndsInPunct(sentences[k]))
    {
      if k < |rebuilt| {
        assert sentences[k] == rebuilt[k] && MarkedAt(rebuilt, k);
      }
    }
    FlattenSnoc(rebuilt, leftover);
    RemoveSpacesAppend(Flatten(rebuilt), leftover);
  }

  /** The loop of lines 33-38: every piece at an even position is trimmed,
      followed by the trimmed mark after it, and trimmed again. */
  method PairUp(parts: seq<string>) returns (rebuilt: seq<string>)
    requires Alternates(parts) && |parts| % 2 == 1
    ensures AllMarked(rebuilt) && 2 * |rebuilt| == |parts| - 1
    ensures rebuilt == Pairs(parts, |rebuilt|)
    ensures RemoveSpaces(Flatten(rebuilt)) == RemoveSpaces(Flatten(parts[..|parts| - 1]))
  {
    ghost var pairs := (|parts| - 1) / 2;
    OddLength(|parts|, pairs);
    rebuilt := [];
    var i := 0;
    while i < |parts| - 1
      invariant PairedUpTo(parts, rebuilt, i) && |rebuilt| <= pairs
    {
      rebuilt := PairStep(parts, i, rebuilt);
      i := i + 2;
    }
  }

  /** The state of the pairing loop after the pieces before position `i`:
      one marked sentence per pair consumed, each the stripped piece followed
      by its mark, holding the non-whitespace content of those pieces. */
  predicate PairedUpTo(parts: seq<string>, rebuilt: seq<string>, i: nat) {
    && i == 2 * |rebuilt| && i <= |parts|
    && AllMarked(rebuilt) && rebuilt == Pairs(parts, |rebuilt|)
    && RemoveSpaces(Flatten(rebuilt)) == RemoveSpaces(Flatten(parts[..i]))
  }

  /** One pass of the loop of lines 34-38: the sentence rebuilt from the
      piece at `i` and the mark after it is appended. */
  method PairStep(parts: seq<string>, i: nat, rebuilt: seq<string>) returns (rebuilt': seq<string>)
    requires Alternates(parts) && i + 1 < |parts| && PairedUpTo(parts, rebuilt, i)
    ensures rebuilt' == rebuilt + [Strip(parts[i]) + parts[i + 1]]
    ensures PairedUpTo(parts, rebuilt', i + 2)
  {
    PairAt(parts, i, |rebuilt|);
    var sentence := RebuildSentence(parts[i], parts[i + 1]);
    PairedStep(parts, rebuilt, i, sentence);
    rebuilt' := rebuilt + [sentence];
  }

  /** Appending the sentence rebuilt from the piece at `i` and its mark keeps
      the loop state, two positions further on. */
  lemma {:induction false} PairedStep(parts: seq<string>, rebuilt: seq<string>, i: nat, sentence: string)
    requires i + 1 < |parts| && PairedUpTo(parts, rebuilt, i)
    requires sentence == Strip(parts[i]) + parts[i + 1]
    requires IsSentence(sentence) && EndsInPunct(sentence)
    requires RemoveSpaces(sentence) == RemoveSpaces(parts[i] + parts[i + 1])
    ensures PairedUpTo(parts, rebuilt + [sentence], i + 2)
  {
    ContentStep(rebuilt, parts, i, sentence);
    AllMarkedSnoc(rebuilt, sentence);
    PairsUnfold(parts, |rebuilt|);
  }

  /** The pairing of one more piece appends that piece's sentence. */
  lemma {:induction false} PairsUnfold(parts: seq<string>, n: nat)
    requires 2 * n + 2 <= |parts|
    ensures Pairs(parts, n + 1) == Pairs(parts, n) + [Strip(parts[2 * n]) + parts[2 * n + 1]]
  {
    assert 2 * (n + 1) - 2 == 2 * n;
  }

  /** Lines 36-38: the piece and its mark, each trimmed, joined and trimmed again. */
  method RebuildSentence(piece: string, mark: string) returns (sentence: string)
    requires NoPunct(piece) && |mark| == 1 && IsPunct(mark[0])
    ensures sentence == Strip(piece) + mark
    ensures IsSentence(sentence) && EndsInPunct(sentence)
    ensures RemoveSpaces(sentence) == RemoveSpaces(piece + mark)
  {
    PairIsSentence(piece, mark);
    var sentencePart := Strip(piece);
    var punctuation := Strip(mark);
    sentence := Strip(sentencePart + punctuation);
  }

  /** The first half of `chunk_text_with_regex` (lines 28-43): split the text on
      the marks, pair every piece with the mark after it, trim, and keep a
      non-blank tail. */
  method Segment(text: string) returns (sentences: seq<string>)
    ensures SegmentationOf(sentences, text)
  {
    var parts := RegexSplit(text);
    RegexSplitConcat(text);
    RegexSplitAlternates(text);
    RegexSplitLast(text);
    OddLength(|parts|, CountPunct(text));
    var rebuilt := PairUp(parts);
    ContentLast(parts);
    sentences := rebuilt;
    if |parts| % 2 != 0 {
      var leftover := Strip(parts[|parts| - 1]);
      if leftover != [] {
        LeftoverIsSentence(parts[|parts| - 1]);
        FinishWithLeftover(rebuilt, leftover, text);
        sentences := rebuilt + [leftover];
      } else {
        RemoveSpacesOfBlank(parts[|parts| - 1]);
        FinishWithoutLeftover(rebuilt, text);
      }
    }
  }

  lemma {:induction false} OddLength(n: nat, k: nat)
    requires n == 2 * k + 1 || (n % 2 == 1 && k == (n - 1) / 2)
    ensures n == 2 * k + 1 && n % 2 == 1
  {
  }

  /** The trimmed tail, when not empty, is a sentence that does not end in a mark. */
  lemma {:induction false} LeftoverIsSentence(tail: string)
    requires NoPunct(tail) && Strip(tail) != []
    ensures IsSentence(Strip(tail)) && !EndsInPunct(Strip(tail))
  {
    StripKeepsCharacters(tail);
  }

  /** After a text whose split ends in an empty piece, a mark-free piece and
      a mark add that piece, the mark and a new empty piece. */
  lemma {:induction false} SplitSentenceStep(a: string, q: seq<string>, p: string, c: char)
    requires RegexSplit(a) == q + [[]] && NoPunct(p) && IsPunct(c)
    ensures RegexSplit(a + p + [c]) == q + [p, [c], []]
  {
    RegexSplitPiece(a, p);
    var parts := RegexSplit(a);
    assert parts[..|parts| - 1] == q && parts[|parts| - 1] + p == p;
    RegexSplitMark(a + p, c);
  }

  /** `re.split` of three mark-free pieces closed by `.`, `!` and `?`: the
      pieces, each followed by its mark, and an empty tail. */
  lemma {:induction false} SplitThree(p1: string, p2: string, p3: string)
    requires NoPunct(p1) && NoPunct(p2) && NoPunct(p3)
    ensures RegexSplit(p1 + "." + p2 + "!" + p3 + "?") == [p1, ".", p2, "!", p3, "?", ""]
  {
    var e: string := [];
    assert RegexSplit(e) == [] + [e];
    SplitSentenceStep(e, [], p1, '.');
    var a1 := e + p1 + ['.'];
    SplitSentenceStep(a1, [p1, "."], p2, '!');
    var a2 := a1 + p2 + ['!'];
    SplitSentenceStep(a2, [p1, ".", p2, "!"], p3, '?');
    assert a2 + p3 + ['?'] == p1 + "." + p2 + "!" + p3 + "?";
  }

  /** Three mark-free pieces closed by `.`, `!` and `?` segment into the
      three trimmed pieces, each with its mark. */
  lemma {:induction false} SegmentThree(p1: string, p2: string, p3: string, sentences: seq<string>)
    requires NoPunct(p1) && NoPunct(p2) && NoPunct(p3)
    requires SegmentationOf(sentences, p1 + "." + p2 + "!" + p3 + "?")
    ensures sentences == [Strip(p1) + ".", Strip(p2) + "!", Strip(p3) + "?"]
  {
    var text := p1 + "." + p2 + "!" + p3 + "?";
    var parts := RegexSplit(text);
    SplitThree(p1, p2, p3);
    RegexSplitLast(text);
    assert CountPunct(text) == 3 && IsBlank(Trailing(text));
    assert |sentences| == 3;
    assert Pairs(parts, 1) == [Strip(p1) + "."];
    assert Pairs(parts, 2) == [Strip(p1) + ".", Strip(p2) + "!"];
    assert Pairs(parts, 3) == [Strip(p1) + ".", Strip(p2) + "!", Strip(p3) + "?"];
    assert sentences[..3] == sentences;
  }

  /** The three pieces of the sample text hold no sentence mark. */
  lemma {:induction false} SamplePiecesUnmarked()
    ensures NoPunct("Hello world") && NoPunct(" This is great") && NoPunct(" And more")
  {
  }

  /** A single leading space before a trimmed text is all that `Strip`
      removes. */
  lemma {:induction false} StripLeadingSpace(t: string)
    requires t != [] && IsTrimmed(t)
    ensures Strip(" " + t) == t
  {
    assert (" " + t)[1..] == t;
  }

  /** Stripping the sample pieces removes only their leading space. */
  lemma {:induction false} SampleFirstStripped()
    ensures Strip("Hello world") == "Hello world"
  {
  }

  lemma {:induction false} SampleSecondStripped()
    ensures Strip(" This is great") == "This is great"
  {
    StripLeadingSpace("This is great");
  }

  lemma {:induction false} SampleThirdStripped()
    ensures Strip(" And more") == "And more"
  {
    StripLeadingSpace("And more");
  }

  /** "Hello world. This is great! And more?" segments into "Hello world.",
      "This is great!" and "And more?". */
  lemma {:induction false} SampleSegmentation(text: string, sentences: seq<string>)
    requires text == "Hello world" + "." + " This is great" + "!" + " And more" + "?"
    requires SegmentationOf(sentences, text)
    ensures sentences == ["Hello world" + ".", "This is great" + "!", "And more" + "?"]
  {
    SamplePiecesUnmarked();
    SampleFirstStripped();
    SampleSecondStripped();
    SampleThirdStripped();
    SegmentThree("Hello world", " This is great", " And more", sentences);
  }
}
