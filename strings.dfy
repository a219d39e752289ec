/**
 * The pieces of Python's `str` behaviour that the chunking code relies on:
 * `isspace`, `strip`, `" ".join`, flattening a list of lists, and `str(i)`
 * for a chunk index.
 */
module Strings {

  /** Python's `str.isspace` on one character (whitespace in the Unicode
      database: categories Zs, and bidirectional classes WS, B and S). */
  predicate IsSpace(c: char) {
    || c == ' '
    || ('\t' <= c <= '\r')
    || ('\U{1C}' <= c <= '\U{1F}')
    || c == '\U{85}'
    || c == '\U{A0}'
    || c == '\U{1680}'
    || ('\U{2000}' <= c <= '\U{200A}')
    || c == '\U{2028}'
    || c == '\U{2029}'
    || c == '\U{202F}'
    || c == '\U{205F}'
    || c == '\U{3000}'
  }

  /** Every character is whitespace (Python: `not s.strip()`). */
  predicate IsBlank(s: string) {
    forall i :: 0 <= i < |s| ==> IsSpace(s[i])
  }

  /** No whitespace at either end (Python: `s == s.strip()`). */
  predicate IsTrimmed(s: string) {
    s == [] || (!IsSpace(s[0]) && !IsSpace(s[|s| - 1]))
  }

  /** A non-empty, trimmed piece of text, the shape of every sentence the
      segmenters hand to the packers. */
  predicate NonBlankTrimmed(s: string) {
    s != [] && IsTrimmed(s)
  }

  /** The characters of `s` that are not whitespace, in order. Two texts
      with the same `RemoveSpaces` differ only in their whitespace. */
  function RemoveSpaces(s: string): string {
    if s == [] then [] else (if IsSpace(s[0]) then [] else [s[0]]) + RemoveSpaces(s[1..])
  }

  lemma {:induction false} RemoveSpacesAppend(a: string, b: string)
    ensures RemoveSpaces(a + b) == RemoveSpaces(a) + RemoveSpaces(b)
  {
    if a == [] {
      assert a + b == b;
    } else {
      assert (a + b)[1..] == a[1..] + b;
      RemoveSpacesAppend(a[1..], b);
    }
  }

  lemma {:induction false} RemoveSpacesOfBlank(s: string)
    ensures RemoveSpaces(s) == [] <==> IsBlank(s)
  {
    if s != [] {
      RemoveSpacesOfBlank(s[1..]);
      assert IsBlank(s) <==> IsSpace(s[0]) && IsBlank(s[1..]);
    }
  }

  /** Python's `str.strip()`: the result has no whitespace at either end, keeps
      every other character of `s`, is empty exactly for a blank `s`, and
      leaves an already trimmed text alone. */
  function Strip(s: string): (r: string)
    ensures IsTrimmed(r)
    ensures RemoveSpaces(r) == RemoveSpaces(s)
    ensures r == [] <==> IsBlank(s)
    ensures IsTrimmed(s) ==> r == s
    decreases |s|
  {
    if s != [] && IsSpace(s[0]) then
      assert IsBlank(s) <==> IsBlank(s[1..]);
      Strip(s[1..])
    else if s != [] && IsSpace(s[|s| - 1]) then
      var init := s[..|s| - 1];
      assert s == init + [s[|s| - 1]];
      RemoveSpacesAppend(init, [s[|s| - 1]]);
      assert IsBlank(s) <==> IsBlank(init);
      Strip(init)
    else
      assert s != [] ==> !IsBlank(s);
      s
  }

  /** What `Strip` drops: a blank prefix and a blank suffix, and nothing else. */
  lemma {:induction false} StripBounds(s: string) returns (i: nat, j: nat)
    ensures i <= j <= |s| && Strip(s) == s[i..j]
    ensures IsBlank(s[..i]) && IsBlank(s[j..])
    decreases |s|
  {
    if s != [] && IsSpace(s[0]) {
      var i', j' := StripBounds(s[1..]);
      StripFront(s, i', j');
      i, j := i' + 1, j' + 1;
    } else if s != [] && IsSpace(s[|s| - 1]) {
      i, j := StripBounds(s[..|s| - 1]);
      StripBack(s, i, j);
    } else {
      i, j := 0, |s|;
      assert s[0..|s|] == s;
    }
  }

  lemma {:induction false} StripFront(s: string, i: nat, j: nat)
    requires s != [] && IsSpace(s[0]) && i <= j <= |s| - 1
    requires Strip(s[1..]) == s[1..][i..j] && IsBlank(s[1..][..i]) && IsBlank(s[1..][j..])
    ensures Strip(s) == s[i + 1..j + 1] && IsBlank(s[..i + 1]) && IsBlank(s[j + 1..])
  {
    SliceFront(s, i, j);
  }

  lemma {:induction false} SliceFront(s: string, i: nat, j: nat)
    requires s != [] && IsSpace(s[0]) && i <= j <= |s| - 1
    requires IsBlank(s[1..][..i]) && IsBlank(s[1..][j..])
    ensures s[1..][i..j] == s[i + 1..j + 1] && IsBlank(s[..i + 1]) && IsBlank(s[j + 1..])
  {
    var t := s[1..];
    assert s[..i + 1] == [s[0]] + t[..i];
    BlankCons(s[0], t[..i]);
    assert s[j + 1..] == t[j..];
  }

  lemma {:induction false} StripBack(s: string, i: nat, j: nat)
    requires s != [] && !IsSpace(s[0]) && IsSpace(s[|s| - 1]) && i <= j <= |s| - 1
    requires Strip(s[..|s| - 1]) == s[..|s| - 1][i..j]
    requires IsBlank(s[..|s| - 1][..i]) && IsBlank(s[..|s| - 1][j..])
    ensures Strip(s) == s[i..j] && IsBlank(s[..i]) && IsBlank(s[j..])
  {
    SliceBack(s, i, j);
  }

  lemma {:induction false} SliceBack(s: string, i: nat, j: nat)
    requires s != [] && IsSpace(s[|s| - 1]) && i <= j <= |s| - 1
    requires IsBlank(s[..|s| - 1][..i]) && IsBlank(s[..|s| - 1][j..])
    ensures s[..|s| - 1][i..j] == s[i..j] && IsBlank(s[..i]) && IsBlank(s[j..])
  {
    var init := s[..|s| - 1];
    assert s[..i] == init[..i];
    assert s[j..] == init[j..] + [s[|s| - 1]];
    BlankSnoc(init[j..], s[|s| - 1]);
  }

  lemma {:induction false} BlankCons(c: char, t: string)
    requires IsSpace(c) && IsBlank(t)
    ensures IsBlank([c] + t)
  {
    assert forall k :: 0 < k <= |t| ==> ([c] + t)[k] == t[k - 1];
  }

  lemma {:induction false} BlankSnoc(t: string, c: char)
    requires IsBlank(t) && IsSpace(c)
    ensures IsBlank(t + [c])
  {
    assert forall k :: 0 <= k < |t| ==> (t + [c])[k] == t[k];
  }

  /** Every character of `Strip(s)` is a character of `s`. */
  lemma {:induction false} StripKeepsCharacters(s: string)
    ensures forall i :: 0 <= i < |Strip(s)| ==> Strip(s)[i] in s
  {
    var i, j := StripBounds(s);
    assert forall k :: 0 <= k < j - i ==> Strip(s)[k] == s[i + k];
  }

  /** The concatenation of a list of lists, in order
      (Python: `sum(lists, [])` or `"".join(texts)`). */
  function Flatten<T>(lists: seq<seq<T>>): seq<T> {
    if lists == [] then [] else Flatten(lists[..|lists| - 1]) + lists[|lists| - 1]
  }

  lemma {:induction false} FlattenAppend<T>(a: seq<seq<T>>, b: seq<seq<T>>)
    ensures Flatten(a + b) == Flatten(a) + Flatten(b)
  {
    if b == [] {
      assert a + b == a;
    } else {
      var init, last := b[..|b| - 1], b[|b| - 1];
      assert (a + b)[..|a + b| - 1] == a + init;
      assert (a + b)[|a + b| - 1] == last;
      assert Flatten(a + b) == Flatten(a + init) + last;
      assert Flatten(b) == Flatten(init) + last;
      FlattenAppend(a, init);
    }
  }

  /** Taking one more element of a sequence appends that element. */
  lemma {:induction false} PrefixSnoc<T>(s: seq<T>, i: nat)
    requires i < |s|
    ensures s[..i + 1] == s[..i] + [s[i]]
  {
    assert s[..i + 1][..i] == s[..i];
  }

  /** Two non-empty sequences with the same head and the same tail are equal. */
  lemma {:induction false} SameHeadAndTail<T>(a: seq<T>, b: seq<T>)
    requires a != [] && b != [] && a[0] == b[0] && a[1..] == b[1..]
    ensures a == b
  {
    assert a == [a[0]] + a[1..] && b == [b[0]] + b[1..];
  }

  lemma {:induction false} FlattenSnoc<T>(lists: seq<seq<T>>, last: seq<T>)
    ensures Flatten(lists + [last]) == Flatten(lists) + last
  {
    assert (lists + [last])[..|lists|] == lists;
  }

  lemma {:induction false} FlattenCons<T>(lists: seq<seq<T>>)
    requires lists != []
    ensures Flatten(lists) == lists[0] + Flatten(lists[1..])
  {
    assert lists == [lists[0]] + lists[1..];
    FlattenAppend([lists[0]], lists[1..]);
    assert [lists[0]][..0] == [];
  }

  /** Python's `" ".join(words)`, built the way the packers grow a chunk:
      the next word is added after a single space. */
  function Join(words: seq<string>): string {
    if |words| == 0 then ""
    else if |words| == 1 then words[0]
    else Join(words[..|words| - 1]) + " " + words[|words| - 1]
  }

  lemma {:induction false} JoinSnoc(words: seq<string>, w: string)
    ensures Join(words + [w]) == if words == [] then w else Join(words) + " " + w
  {
    if words != [] {
      assert (words + [w])[..|words|] == words;
    }
  }

  /** Joining non-blank trimmed words gives a trimmed text, empty only for no words. */
  lemma {:induction false} JoinTrimmed(words: seq<string>)
    requires forall k :: 0 <= k < |words| ==> NonBlankTrimmed(words[k])
    ensures IsTrimmed(Join(words))
    ensures Join(words) == [] <==> words == []
  {
    if |words| > 1 {
      var init := words[..|words| - 1];
      JoinTrimmed(init);
    }
  }

  /** Joining adds nothing but whitespace. */
  lemma {:induction false} JoinContent(words: seq<string>)
    ensures RemoveSpaces(Join(words)) == RemoveSpaces(Flatten(words))
  {
    if |words| == 1 {
      assert words[..0] == [];
      assert Flatten(words) == Flatten(words[..0]) + words[0] == words[0];
    } else if |words| > 1 {
      var init, last := words[..|words| - 1], words[|words| - 1];
      JoinContent(init);
      RemoveSpacesAppend(Join(init) + " ", last);
      RemoveSpacesAppend(Join(init), " ");
      RemoveSpacesAppend(Flatten(init), last);
    }
  }

  /** The text of the first `k` words is never longer than the text of all of them. */
  lemma {:induction false} JoinPrefixLength(words: seq<string>, k: nat)
    requires 1 <= k <= |words|
    ensures |Join(words[..k])| <= |Join(words)|
  {
    if k < |words| {
      var init := words[..|words| - 1];
      assert init[..k] == words[..k];
      JoinPrefixLength(init, k);
    } else {
      assert words[..k] == words;
    }
  }

  predicate IsDigit(c: char) {
    '0' <= c <= '9'
  }

  predicate AllDigits(s: string) {
    forall i :: 0 <= i < |s| ==> IsDigit(s[i])
  }

  /** The number a string of decimal digits denotes. */
  function DecimalValue(s: string): nat
    requires AllDigits(s)
  {
    if s == [] then 0 else DecimalValue(s[..|s| - 1]) * 10 + (s[|s| - 1] as int - '0' as int)
  }

  /** Python's `str(n)` for a non-negative integer, as in `f"Chunk {i} ..."`:
      a non-empty string of digits without leading zeros that denotes `n`. */
  function Decimal(n: nat): (r: string)
    ensures r != [] && AllDigits(r)
    ensures |r| > 1 ==> r[0] != '0'
    ensures DecimalValue(r) == n
  {
    var d := ('0' as int + n % 10) as char;
    if n < 10 then [d]
    else
      var r := Decimal(n / 10) + [d];
      assert r[..|r| - 1] == Decimal(n / 10);
      r
  }
}
