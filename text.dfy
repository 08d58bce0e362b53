/** String and byte helpers shared by the command dispatchers: the parts of Rust's
    `str` API the kernel relies on (`trim`, `find(' ')`, `splitn(2, ' ')`,
    `split_whitespace`) and the decimal rendering `{}` gives integers. */
module Text {

  /** A Rust `u8`. */
  type byte = b: int | 0 <= b < 256

  datatype Option<T> = None | Some(value: T)

  datatype Result<T, E> = Ok(value: T) | Err(error: E)

  /** The range of Rust's `i32`. */
  const I32Min: int := -0x8000_0000
  const I32Max: int := 0x7FFF_FFFF

  predicate InI32(v: int) {
    I32Min <= v <= I32Max
  }

  /** Unicode's White_Space property, the notion of whitespace used by
      `str::trim` and `str::split_whitespace`: these 25 code points. */
  const WhitespaceChars: set<char> := {
    '\t', '\n', '\U{B}', '\U{C}', '\r', ' ', '\U{85}', '\U{A0}', '\U{1680}',
    '\U{2000}', '\U{2001}', '\U{2002}', '\U{2003}', '\U{2004}', '\U{2005}',
    '\U{2006}', '\U{2007}', '\U{2008}', '\U{2009}', '\U{200A}',
    '\U{2028}', '\U{2029}', '\U{202F}', '\U{205F}', '\U{3000}'
  }

  predicate IsWhitespace(c: char) {
    c in WhitespaceChars
  }

  predicate AllWhitespace(s: string) {
    forall k :: 0 <= k < |s| ==> IsWhitespace(s[k])
  }

  predicate NoWhitespace(s: string) {
    forall k :: 0 <= k < |s| ==> !IsWhitespace(s[k])
  }

  /** How many whitespace characters `s` starts with. */
  function LeadingWhitespace(s: string): (n: nat)
    ensures n <= |s| && AllWhitespace(s[..n])
    ensures n < |s| ==> !IsWhitespace(s[n])
  {
    if s != [] && IsWhitespace(s[0]) then
      var m := LeadingWhitespace(s[1..]);
      assert s[..m + 1] == [s[0]] + s[1..][..m];
      AllWhitespaceConcat([s[0]], s[1..][..m]);
      m + 1
    else 0
  }

  /** How many whitespace characters `s` ends with. */
  function TrailingWhitespace(s: string): (n: nat)
    ensures n <= |s| && AllWhitespace(s[|s| - n..])
    ensures n < |s| ==> !IsWhitespace(s[|s| - n - 1])
  {
    if s != [] && IsWhitespace(s[|s| - 1]) then
      var init := s[..|s| - 1];
      var m := TrailingWhitespace(init);
      assert s[|s| - (m + 1)..] == init[|init| - m..] + [s[|s| - 1]];
      AllWhitespaceConcat(init[|init| - m..], [s[|s| - 1]]);
      assert m + 1 < |s| ==> init[|init| - m - 1] == s[|s| - (m + 1) - 1];
      m + 1
    else 0
  }

  /** `str::trim`: the slice of `s` left after dropping its leading and trailing
      whitespace; it is empty or starts and ends with a non-whitespace character. */
  function Trim(s: string): (r: string)
    ensures var lo := LeadingWhitespace(s);
      && lo + |r| <= |s|
      && r == s[lo..lo + |r|]
      && AllWhitespace(s[..lo])
      && AllWhitespace(s[lo + |r|..])
    ensures r != [] ==> !IsWhitespace(r[0]) && !IsWhitespace(r[|r| - 1])
    ensures r == [] <==> LeadingWhitespace(s) == |s|
  {
    var lo := LeadingWhitespace(s);
    if lo == |s| then
      assert s[lo..] == [];
      []
    else
      var hi := |s| - TrailingWhitespace(s);
      s[lo..hi]
  }

  /** `LeadingWhitespace` is the one count with whitespace before it and none at it. */
  lemma {:induction false} LeadingWhitespaceIs(s: string, n: nat)
    requires n <= |s| && AllWhitespace(s[..n])
    requires n < |s| ==> !IsWhitespace(s[n])
    ensures LeadingWhitespace(s) == n
  {
    if n > 0 {
      assert s[..n][0] == s[0];
      assert s[1..][..n - 1] == s[..n][1..];
      LeadingWhitespaceIs(s[1..], n - 1);
    }
  }

  /** `TrailingWhitespace` is the one count with whitespace after it and none just before. */
  lemma {:induction false} TrailingWhitespaceIs(s: string, n: nat)
    requires n <= |s| && AllWhitespace(s[|s| - n..])
    requires n < |s| ==> !IsWhitespace(s[|s| - n - 1])
    ensures TrailingWhitespace(s) == n
  {
    if n > 0 {
      var init := s[..|s| - 1];
      assert s[|s| - n..][n - 1] == s[|s| - 1];
      AllWhitespaceInfix(s, |s| - n, |s| - 1);
      assert init[|init| - (n - 1)..] == s[|s| - n..|s| - 1];
      if n < |s| {
        assert init[|init| - (n - 1) - 1] == s[|s| - n - 1];
      }
      TrailingWhitespaceIs(init, n - 1);
    }
  }

  lemma AllWhitespaceInfix(s: string, i: nat, j: nat)
    requires i <= j <= |s| && AllWhitespace(s[i..])
    ensures AllWhitespace(s[i..j])
  {
    forall k | 0 <= k < j - i ensures IsWhitespace(s[i..j][k]) {
      assert s[i..j][k] == s[i..][k];
    }
  }

  lemma AllWhitespaceConcat(a: string, b: string)
    requires AllWhitespace(a) && AllWhitespace(b)
    ensures AllWhitespace(a + b)
  {
    forall k | 0 <= k < |a + b| ensures IsWhitespace((a + b)[k]) {
      if k >= |a| {
        assert (a + b)[k] == b[k - |a|];
      }
    }
  }

  /** `trim` gives exactly the slice between whitespace-only margins whose ends
      are not whitespace. */
  lemma TrimIsSlice(s: string, lo: nat, hi: nat)
    requires lo < hi <= |s|
    requires AllWhitespace(s[..lo]) && AllWhitespace(s[hi..])
    requires !IsWhitespace(s[lo]) && !IsWhitespace(s[hi - 1])
    ensures Trim(s) == s[lo..hi]
  {
    LeadingWhitespaceIs(s, lo);
    assert s[|s| - (|s| - hi)..] == s[hi..];
    TrailingWhitespaceIs(s, |s| - hi);
  }

  /** `trim` gives the empty string exactly for strings of whitespace. */
  lemma TrimEmpty(s: string)
    ensures Trim(s) == [] <==> AllWhitespace(s)
  {
    assert s[..|s|] == s;
    if AllWhitespace(s) {
      LeadingWhitespaceIs(s, |s|);
    }
  }

  /** A string that already has no whitespace at its ends is its own trim. */
  lemma TrimOfTrimmed(s: string)
    requires s != [] ==> !IsWhitespace(s[0]) && !IsWhitespace(s[|s| - 1])
    ensures Trim(s) == s
  {
    if s != [] {
      assert s[..0] == [] && s[|s|..] == [];
      TrimIsSlice(s, 0, |s|);
      assert s[0..|s|] == s;
    }
  }

  /** Whitespace added around a string does not change its trim. */
  lemma TrimIgnoresPadding(front: string, s: string, back: string)
    requires AllWhitespace(front) && AllWhitespace(back)
    ensures Trim(front + s + back) == Trim(s)
  {
    TrimEmpty(s);
    if Trim(s) == [] {
      AllWhitespaceConcat(front, s);
      AllWhitespaceConcat(front + s, back);
      TrimEmpty(front + s + back);
    } else {
      var lo := LeadingWhitespace(s);
      PaddedSlice(front, s, back, lo, lo + |Trim(s)|);
    }
  }

  /** The trimmed slice of `s`, shifted by the padding in front, is the trim of the
      padded string. */
  lemma PaddedSlice(front: string, s: string, back: string, lo: nat, hi: nat)
    requires AllWhitespace(front) && AllWhitespace(back)
    requires lo < hi <= |s|
    requires AllWhitespace(s[..lo]) && AllWhitespace(s[hi..])
    requires !IsWhitespace(s[lo]) && !IsWhitespace(s[hi - 1])
    ensures Trim(front + s + back) == s[lo..hi]
  {
    var p := front + s + back;
    var lo', hi' := |front| + lo, |front| + hi;
    assert p[lo'] == s[lo] && p[hi' - 1] == s[hi - 1];
    assert p[..lo'] == front + s[..lo];
    AllWhitespaceConcat(front, s[..lo]);
    assert p[hi'..] == s[hi..] + back;
    AllWhitespaceConcat(s[hi..], back);
    TrimIsSlice(p, lo', hi');
    assert p[lo'..hi'] == s[lo..hi];
  }

  /** A word, a space and a text with no whitespace at the outer ends are already
      trimmed. */
  lemma TrimWordLine(word: string, rest: string)
    requires word != [] && !IsWhitespace(word[0])
    requires rest != [] && !IsWhitespace(rest[|rest| - 1])
    ensures Trim(word + [' '] + rest) == word + [' '] + rest
  {
    var line := word + [' '] + rest;
    assert line[0] == word[0] && line[|line| - 1] == rest[|rest| - 1];
    TrimOfTrimmed(line);
  }

  /** `str::find` for one character: the index of its first occurrence. */
  function FindFirst(s: string, c: char): (r: Option<nat>)
    ensures r.None? <==> c !in s
    ensures r.Some? ==> r.value < |s| && s[r.value] == c && c !in s[..r.value]
  {
    if s == [] then None
    else if s[0] == c then Some(0)
    else match FindFirst(s[1..], c)
      case None => None
      case Some(i) =>
        assert s[..i + 1] == [s[0]] + s[1..][..i];
        Some(i + 1)
  }

  /** `splitn(2, sep)`: the part before the first `sep` and, when there is one, the
      part after it. The two parts and the separator rebuild `s`. */
  function SplitOnce(s: string, sep: char): (r: (string, Option<string>))
    ensures r.1.None? ==> r.0 == s && sep !in s
    ensures r.1.Some? ==> s == r.0 + [sep] + r.1.value && sep !in r.0
  {
    match FindFirst(s, sep)
    case None => (s, None)
    case Some(i) =>
      assert s == s[..i] + [sep] + s[i + 1..];
      (s[..i], Some(s[i + 1..]))
  }

  /** Splitting a word, a separator and a tail gives back the word and the tail. */
  lemma SplitOnceOfJoined(word: string, sep: char, rest: string)
    requires sep !in word
    ensures SplitOnce(word + [sep] + rest, sep) == (word, Some(rest))
  {
    var s := word + [sep] + rest;
    assert s[|word|] == sep;
    assert s[..|word|] == word;
    assert FindFirst(s, sep) == Some(|word|);
  }

  lemma NoWhitespaceNoSpace(word: string)
    requires NoWhitespace(word)
    ensures ' ' !in word
  {
    forall k | 0 <= k < |word| ensures word[k] != ' ' {
      assert IsWhitespace(' ') && !IsWhitespace(word[k]);
    }
  }

  /** Length of the run of non-whitespace characters that starts `s`. */
  function WordLength(s: string): (n: nat)
    ensures n <= |s| && NoWhitespace(s[..n])
    ensures n < |s| ==> IsWhitespace(s[n])
  {
    if s == [] || IsWhitespace(s[0]) then 0 else 1 + WordLength(s[1..])
  }

  /** `str::split_whitespace`: the maximal runs of non-whitespace, in order. */
  function SplitWhitespace(s: string): (words: seq<string>)
    ensures forall k :: 0 <= k < |words| ==> words[k] != [] && NoWhitespace(words[k])
    decreases |s|
  {
    if s == [] then []
    else if IsWhitespace(s[0]) then SplitWhitespace(s[1..])
    else
      var n := WordLength(s);
      [s[..n]] + SplitWhitespace(s[n..])
  }

  /** The words joined by single spaces. */
  function JoinWords(words: seq<string>): string {
    if words == [] then []
    else if |words| == 1 then words[0]
    else words[0] + " " + JoinWords(words[1..])
  }

  /** Appending text that starts with whitespace does not lengthen a word that
      already ends inside `s` or at its end. */
  lemma {:induction false} WordLengthAppend(s: string, t: string)
    requires WordLength(s) < |s| || t == [] || IsWhitespace(t[0])
    ensures WordLength(s + t) == WordLength(s)
    decreases |s|
  {
    if s == [] {
      assert s + t == t;
    } else if !IsWhitespace(s[0]) {
      assert (s + t)[1..] == s[1..] + t;
      WordLengthAppend(s[1..], t);
    }
  }

  /** Inserting a whitespace character where whitespace, the start or the end
      already separates words does not change `split_whitespace`. */
  lemma {:induction false} SplitWhitespaceExtraSpace(a: string, w: char, b: string)
    requires IsWhitespace(w)
    requires a == [] || b == [] || IsWhitespace(a[|a| - 1]) || IsWhitespace(b[0])
    ensures SplitWhitespace(a + [w] + b) == SplitWhitespace(a + b)
    decreases |a|
  {
    var s1 := a + [w] + b;
    var s2 := a + b;
    if a == [] {
      assert s1[1..] == b;
      assert s2 == b;
    } else if IsWhitespace(a[0]) {
      assert s1[1..] == a[1..] + [w] + b;
      assert s2[1..] == a[1..] + b;
      SplitWhitespaceExtraSpace(a[1..], w, b);
    } else {
      var m := WordLength(a);
      assert s1 == a + ([w] + b);
      WordLengthAppend(a, [w] + b);
      if m < |a| {
        WordLengthAppend(a, b);
        assert s1[m..] == a[m..] + [w] + b;
        assert s2[m..] == a[m..] + b;
        assert s1[..m] == a[..m] == s2[..m];
        SplitWhitespaceExtraSpace(a[m..], w, b);
      } else {
        assert !IsWhitespace(a[|a| - 1]);
        WordLengthAppend(a, b);
        assert s1[m..] == [w] + b;
        assert ([w] + b)[1..] == b;
        assert s2[m..] == b;
        assert s1[..m] == a == s2[..m];
      }
    }
  }

  /** A word followed by nothing or by whitespace is split off whole. */
  lemma SplitWordThen(w: string, tail: string)
    requires w != [] && NoWhitespace(w)
    requires tail == [] || IsWhitespace(tail[0])
    ensures SplitWhitespace(w + tail) == [w] + SplitWhitespace(tail)
  {
    var s := w + tail;
    assert WordLength(w) == |w|;
    WordLengthAppend(w, tail);
    assert s[0] == w[0];
    assert s[..|w|] == w;
    assert s[|w|..] == tail;
  }

  /** Splitting words joined by single spaces gives the words back. */
  lemma {:induction false} SplitJoinWords(words: seq<string>)
    requires forall k :: 0 <= k < |words| ==> words[k] != [] && NoWhitespace(words[k])
    ensures SplitWhitespace(JoinWords(words)) == words
  {
    if |words| == 1 {
      SplitWordThen(words[0], []);
      assert words[0] + [] == words[0];
    } else if |words| > 1 {
      var rest := JoinWords(words[1..]);
      assert JoinWords(words) == words[0] + (" " + rest);
      SplitWordThen(words[0], " " + rest);
      assert (" " + rest)[1..] == rest;
      SplitJoinWords(words[1..]);
      assert words == [words[0]] + words[1..];
    }
  }

  function DigitChar(d: nat): (c: char)
    requires d < 10
    ensures '0' <= c <= '9'
  {
    ('0' as int + d) as char
  }

  /** Decimal rendering of a natural number, as `{}` prints it. */
  function NatToString(n: nat): (s: string)
    ensures s != [] && forall k :: 0 <= k < |s| ==> '0' <= s[k] <= '9'
  {
    if n < 10 then [DigitChar(n)] else NatToString(n / 10) + [DigitChar(n % 10)]
  }

  /** Decimal rendering of an integer, with a leading `-` when it is negative. */
  function IntToString(i: int): string {
    if i < 0 then "-" + NatToString(-i) else NatToString(i)
  }
}
