/** The freestanding byte routines `memcmp`, `memset` and `memcpy` that the kernel
    supplies in `main.rs` (the C library functions of sections 7.24.4.1, 7.24.6.1
    and 7.24.2.1 of ISO C11). A pointer with a length is an array whose first `n`
    elements are the bytes reached. */
module Mem {
  import opened Text

  /** The index of the first position where `a` and `b` differ, or `|a|` when
      they are equal. */
  function Mismatch(a: seq<byte>, b: seq<byte>): (i: nat)
    requires |a| == |b|
    ensures i <= |a| && a[..i] == b[..i]
    ensures i < |a| ==> a[i] != b[i]
  {
    if a == [] || a[0] != b[0] then 0
    else
      var i := 1 + Mismatch(a[1..], b[1..]);
      assert a[..i] == [a[0]] + a[1..][..i - 1];
      assert b[..i] == [b[0]] + b[1..][..i - 1];
      i
  }

  /** A position where `a` and `b` differ after a common prefix is the mismatch. */
  lemma MismatchUnique(a: seq<byte>, b: seq<byte>, j: nat)
    requires |a| == |b| && j <= |a| && a[..j] == b[..j]
    requires j < |a| ==> a[j] != b[j]
    ensures Mismatch(a, b) == j
  {
  }

  /** What `memcmp` computes: the difference of the first pair of bytes that
      differ, or 0. */
  function Compare(a: seq<byte>, b: seq<byte>): (r: int)
    requires |a| == |b|
    ensures -255 <= r <= 255
  {
    var i := Mismatch(a, b);
    if i == |a| then 0 else a[i] as int - b[i] as int
  }

  /** `a` comes before `b` in lexicographic byte order. */
  predicate LexLess(a: seq<byte>, b: seq<byte>)
    requires |a| == |b|
  {
    exists i :: 0 <= i < |a| && a[..i] == b[..i] && a[i] < b[i]
  }

  /** The comparison is 0 exactly for equal byte strings. */
  lemma CompareZeroIffEqual(a: seq<byte>, b: seq<byte>)
    requires |a| == |b|
    ensures Compare(a, b) == 0 <==> a == b
  {
    var i := Mismatch(a, b);
    if i == |a| {
      assert a == a[..i] && b == b[..i];
    }
  }

  /** The sign of the comparison is the lexicographic order. */
  lemma CompareSign(a: seq<byte>, b: seq<byte>)
    requires |a| == |b|
    ensures Compare(a, b) < 0 <==> LexLess(a, b)
    ensures Compare(a, b) > 0 <==> LexLess(b, a)
  {
    var i := Mismatch(a, b);
    if LexLess(a, b) {
      var j :| 0 <= j < |a| && a[..j] == b[..j] && a[j] < b[j];
      MismatchUnique(a, b, j);
    }
    if LexLess(b, a) {
      var j :| 0 <= j < |a| && b[..j] == a[..j] && b[j] < a[j];
      MismatchUnique(a, b, j);
    }
  }

  /** `memcmp`: scans the first `n` bytes from the left and returns the
      difference at the first mismatch, or 0. */
  method Memcmp(s1: array<byte>, s2: array<byte>, n: nat) returns (r: int)
    requires n <= s1.Length && n <= s2.Length
    ensures r == Compare(s1[..n], s2[..n])
  {
    var i := 0;
    while i < n
      invariant i <= n && s1[..i] == s2[..i]
    {
      var a := s1[i];
      var b := s2[i];
      if a != b {
        assert s1[..n][..i] == s1[..i] && s2[..n][..i] == s2[..i];
        MismatchUnique(s1[..n], s2[..n], i);
        return a as int - b as int;
      }
      assert s1[..i + 1] == s1[..i] + [a] && s2[..i + 1] == s2[..i] + [b];
      i := i + 1;
    }
    assert s1[..n][..n] == s2[..n][..n];
    MismatchUnique(s1[..n], s2[..n], n);
    return 0;
  }

  /** The 32 bits of an `i32` read as an unsigned number (two's complement). */
  function Bits32(c: int): (u: nat)
    requires I32Min <= c <= I32Max
    ensures u < 0x1_0000_0000
    ensures c >= 0 ==> u == c
  {
    if c < 0 then c + 0x1_0000_0000 else c
  }

  /** `c as u8` for an `i32`: the low 8 bits of its two's complement form. */
  function Low8(c: int): byte
    requires I32Min <= c <= I32Max
  {
    Bits32(c) % 256
  }

  /** The low byte of an `i32` is its residue modulo 256, so values in 0..255
      are kept and -1 becomes 255. */
  lemma Low8IsResidue(c: int)
    requires I32Min <= c <= I32Max
    ensures Low8(c) == c % 256
    ensures 0 <= c < 256 ==> Low8(c) == c
  {
    if c < 0 {
      assert Bits32(c) == c + 256 * 0x100_0000;
    }
  }

  /** `s` with its first `n` bytes replaced by `b`. */
  function Filled(s: seq<byte>, n: nat, b: byte): (r: seq<byte>)
    requires n <= |s|
    ensures |r| == |s|
    ensures forall i :: 0 <= i < n ==> r[i] == b
    ensures r[n..] == s[n..]
  {
    seq(n, _ => b) + s[n..]
  }

  /** `memset`: the first `n` bytes become the low byte of `c`; the array is
      returned. */
  method Memset(s: array<byte>, c: int, n: nat) returns (r: array<byte>)
    requires I32Min <= c <= I32Max && n <= s.Length
    modifies s
    ensures r == s
    ensures s[..] == Filled(old(s[..]), n, Low8(c))
  {
    for i := 0 to n
      invariant s[..] == Filled(old(s[..]), i, Low8(c))
    {
      s[i] := Low8(c);
    }
    r := s;
  }

  /** `memcpy`: the first `n` bytes of `src` are copied over those of `dest`; the
      rest of `dest` and all of `src` are left alone; `dest` is returned. The
      buffers must not overlap. */
  method Memcpy(dest: array<byte>, src: array<byte>, n: nat) returns (r: array<byte>)
    requires dest != src && n <= dest.Length && n <= src.Length
    modifies dest
    ensures r == dest
    ensures dest[..] == old(src[..n]) + old(dest[n..])
    ensures src[..] == old(src[..])
  {
    for i := 0 to n
      invariant forall k :: 0 <= k < i ==> dest[k] == src[k]
      invariant forall k :: i <= k < dest.Length ==> dest[k] == old(dest[k])
    {
      dest[i] := src[i];
    }
    assert dest[..] == old(src[..n]) + old(dest[n..]);
    r := dest;
  }
}
