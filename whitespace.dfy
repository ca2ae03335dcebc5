/**
 * Whitespace: Go's `bytes.TrimSpace`, which the normaliser uses to drop
 * leading and trailing whitespace from the whole buffer.
 *
 * `bytes.TrimSpace` decodes UTF-8 and trims every rune that
 * `unicode.IsSpace` accepts: the ASCII bytes tab, LF, VT, FF, CR and space,
 * and the code points U+0085, U+00A0, U+1680, U+2000 to U+200A, U+2028,
 * U+2029, U+202F, U+205F and U+3000. Bytes that do not decode to a whitespace
 * rune (invalid UTF-8 included) stop the trim. A non-ASCII whitespace rune is
 * trimmed exactly when its UTF-8 encoding stands at the front (or back) of
 * what is left, so the model works on those encodings directly, by position
 * in the buffer.
 */
module Whitespace {
  import opened Bytes

  predicate IsAsciiSpace(b: byte) {
    b == 0x09 || b == 0x0A || b == 0x0B || b == 0x0C || b == 0x0D || b == 0x20
  }

  /** `a b` is the UTF-8 encoding of U+0085 or U+00A0. */
  predicate IsSpace2(a: byte, b: byte) {
    a == 0xC2 && (b == 0x85 || b == 0xA0)
  }

  /**
   * `a b c` is the UTF-8 encoding of U+1680, U+2000 to U+200A, U+2028,
   * U+2029, U+202F, U+205F or U+3000.
   */
  predicate IsSpace3(a: byte, b: byte, c: byte) {
    || (a == 0xE1 && b == 0x9A && c == 0x80)
    || (a == 0xE2 && b == 0x80 && (0x80 <= c <= 0x8A || c == 0xA8 || c == 0xA9 || c == 0xAF))
    || (a == 0xE2 && b == 0x81 && c == 0x9F)
    || (a == 0xE3 && b == 0x80 && c == 0x80)
  }

  /** A byte that can begin a whitespace rune's encoding. */
  predicate IsSpaceStart(b: byte) {
    IsAsciiSpace(b) || b == 0xC2 || b == 0xE1 || b == 0xE2 || b == 0xE3
  }

  /**
   * The length of the whitespace rune whose encoding starts at `s[i]` and
   * ends before `hi`, or 0 if there is none.
   */
  function SpaceLenAt(s: seq<byte>, i: nat, hi: nat): (n: nat)
    requires i <= hi <= |s|
    ensures i + n <= hi && n <= 3
    ensures n > 0 ==> IsSpaceStart(s[i])
  {
    if i + 1 <= hi && IsAsciiSpace(s[i]) then 1
    else if i + 2 <= hi && IsSpace2(s[i], s[i + 1]) then 2
    else if i + 3 <= hi && IsSpace3(s[i], s[i + 1], s[i + 2]) then 3
    else 0
  }

  /**
   * The length of the whitespace rune whose encoding ends just before `s[j]`
   * and starts at or after `lo`, or 0 if there is none. Go decodes the last
   * rune from the nearest byte that is not a continuation byte; every
   * whitespace encoding ends in continuation bytes after its start byte, so
   * this is the rune Go decodes.
   */
  function SpaceLenBefore(s: seq<byte>, lo: nat, j: nat): (n: nat)
    requires lo <= j <= |s|
    ensures lo + n <= j && n <= 3
    ensures n > 0 ==> IsSpaceStart(s[j - n])
  {
    if lo + 1 <= j && IsAsciiSpace(s[j - 1]) then 1
    else if lo + 2 <= j && IsSpace2(s[j - 2], s[j - 1]) then 2
    else if lo + 3 <= j && IsSpace3(s[j - 3], s[j - 2], s[j - 1]) then 3
    else 0
  }

  /** The length of the whitespace rune at the front of `s`, or 0 if there is none. */
  function LeadingSpaceLen(s: seq<byte>): nat {
    SpaceLenAt(s, 0, |s|)
  }

  /** The length of the whitespace rune at the back of `s`, or 0 if there is none. */
  function TrailingSpaceLen(s: seq<byte>): nat {
    SpaceLenBefore(s, 0, |s|)
  }

  /** Where the left trim starting at `i` stops (`bytes.TrimLeftFunc` with `unicode.IsSpace`). */
  function TrimStart(s: seq<byte>, i: nat): (k: nat)
    requires i <= |s|
    ensures i <= k <= |s| && SpaceLenAt(s, k, |s|) == 0
    decreases |s| - i
  {
    var n := SpaceLenAt(s, i, |s|);
    if n == 0 then i else TrimStart(s, i + n)
  }

  /**
   * Where the right trim of `s[lo..j]` stops (`bytes.TrimRightFunc` with
   * `unicode.IsSpace`).
   */
  function TrimEnd(s: seq<byte>, lo: nat, j: nat): (k: nat)
    requires lo <= j <= |s|
    ensures lo <= k <= j && SpaceLenBefore(s, lo, k) == 0
    decreases j
  {
    var n := SpaceLenBefore(s, lo, j);
    if n == 0 then j else TrimEnd(s, lo, j - n)
  }

  /** `s` is a sequence of whole whitespace runes, read from the front. */
  predicate IsSpaceRun(s: seq<byte>)
    decreases |s|
  {
    var n := LeadingSpaceLen(s);
    s == [] || (n > 0 && IsSpaceRun(s[n..]))
  }

  /** `s[k..j]` is a run of whitespace runes, read from the back. */
  predicate SpaceRunBackward(s: seq<byte>, k: nat, j: nat)
    requires k <= j <= |s|
    decreases j - k
  {
    var n := SpaceLenBefore(s, k, j);
    k == j || (n > 0 && SpaceRunBackward(s, k, j - n))
  }

  /** A rune found before a bound is found before any larger bound. */
  lemma SpaceLenAtWider(s: seq<byte>, i: nat, k: nat, hi: nat)
    requires i <= k <= hi <= |s| && SpaceLenAt(s, i, k) > 0
    ensures SpaceLenAt(s, i, hi) == SpaceLenAt(s, i, k)
  {
  }

  /** A rune found after a bound is found after any smaller bound. */
  lemma SpaceLenBeforeWider(s: seq<byte>, lo: nat, k: nat, j: nat)
    requires lo <= k <= j <= |s| && SpaceLenBefore(s, k, j) > 0
    ensures SpaceLenBefore(s, lo, j) == SpaceLenBefore(s, k, j)
  {
  }

  /** What the left trim skips is a run of whitespace runes. */
  lemma {:induction false} TrimStartCutsSpaces(s: seq<byte>, i: nat)
    requires i <= |s|
    ensures IsSpaceRun(s[i..TrimStart(s, i)])
    decreases |s| - i
  {
    var n := SpaceLenAt(s, i, |s|);
    if n > 0 {
      TrimStartCutsSpaces(s, i + n);
      var t := TrimStart(s, i);
      assert SpaceLenAt(s, i, t) == n by {
        assert SpaceLenAt(s, i, i + n) == n;
        SpaceLenAtWider(s, i, i + n, t);
      }
      SpaceLenAtSlice(s, i, t);
      assert s[i..t][n..] == s[i + n..t];
    }
  }

  /** What the right trim of `s[lo..j]` skips is a run of whitespace runes. */
  lemma {:induction false} TrimEndCutsSpaces(s: seq<byte>, lo: nat, j: nat)
    requires lo <= j <= |s|
    ensures SpaceRunBackward(s, TrimEnd(s, lo, j), j)
    decreases j
  {
    var n := SpaceLenBefore(s, lo, j);
    if n > 0 {
      TrimEndCutsSpaces(s, lo, j - n);
      var t := TrimEnd(s, lo, j);
      assert SpaceLenBefore(s, t, j) == n by {
        assert SpaceLenBefore(s, j - n, j) == n;
        SpaceLenBeforeWider(s, t, j - n, j);
      }
    }
  }

  /** A rune at `s[i]` within `s[i..j]` is the rune at the front of the slice. */
  lemma SpaceLenAtSlice(s: seq<byte>, i: nat, j: nat)
    requires i <= j <= |s|
    ensures LeadingSpaceLen(s[i..j]) == SpaceLenAt(s, i, j)
  {
    var t := s[i..j];
    assert |t| >= 1 ==> t[0] == s[i];
    assert |t| >= 2 ==> t[1] == s[i + 1];
    assert |t| >= 3 ==> t[2] == s[i + 2];
  }

  /** A rune ending before `s[j]` within `s[i..j]` is the rune at the back of the slice. */
  lemma SpaceLenBeforeSlice(s: seq<byte>, i: nat, j: nat)
    requires i <= j <= |s|
    ensures TrailingSpaceLen(s[i..j]) == SpaceLenBefore(s, i, j)
  {
    var t := s[i..j];
    assert |t| >= 1 ==> t[|t| - 1] == s[j - 1];
    assert |t| >= 2 ==> t[|t| - 2] == s[j - 2];
    assert |t| >= 3 ==> t[|t| - 3] == s[j - 3];
  }

  /**
   * `bytes.TrimSpace`: its ASCII fast path and its fall-back to
   * `bytes.TrimFunc(s, unicode.IsSpace)` both come to trimming the front,
   * then the back of what is left.
   */
  function TrimSpace(s: seq<byte>): (r: seq<byte>)
    ensures |r| <= |s|
    ensures LeadingSpaceLen(r) == 0 && TrailingSpaceLen(r) == 0
  {
    var i := TrimStart(s, 0);
    var j := TrimEnd(s, i, |s|);
    SpaceLenAtSlice(s, i, j);
    SpaceLenBeforeSlice(s, i, j);
    assert SpaceLenAt(s, i, j) == 0 by {
      if SpaceLenAt(s, i, j) > 0 {
        SpaceLenAtWider(s, i, j, |s|);
      }
    }
    s[i..j]
  }

  /**
   * The result of `TrimSpace` is a contiguous slice `s[i..j]` of its input,
   * with a run of whitespace runes before it and another after it.
   */
  lemma TrimSpaceIsSlice(s: seq<byte>) returns (i: nat, j: nat)
    ensures i <= j <= |s| && TrimSpace(s) == s[i..j]
    ensures IsSpaceRun(s[..i]) && SpaceRunBackward(s, j, |s|)
  {
    i := TrimStart(s, 0);
    j := TrimEnd(s, i, |s|);
    TrimStartCutsSpaces(s, 0);
    assert s[..i] == s[0..i];
    TrimEndCutsSpaces(s, i, |s|);
  }

  /** An all-whitespace ASCII buffer trims to nothing. */
  lemma TrimSpaceOfAsciiSpaces(s: seq<byte>)
    requires forall k :: 0 <= k < |s| ==> IsAsciiSpace(s[k])
    ensures TrimSpace(s) == []
  {
    TrimStartOfAsciiSpaces(s, 0);
  }

  lemma {:induction false} TrimStartOfAsciiSpaces(s: seq<byte>, i: nat)
    requires i <= |s| && forall k :: i <= k < |s| ==> IsAsciiSpace(s[k])
    ensures TrimStart(s, i) == |s|
    decreases |s| - i
  {
    if i < |s| {
      TrimStartOfAsciiSpaces(s, i + 1);
    }
  }

  /** A buffer of whole whitespace runes trims to nothing. */
  lemma TrimSpaceOfSpaceRun(s: seq<byte>)
    requires IsSpaceRun(s)
    ensures TrimSpace(s) == []
  {
    assert s[0..] == s;
    TrimStartOfSpaceRun(s, 0);
  }

  lemma {:induction false} TrimStartOfSpaceRun(s: seq<byte>, i: nat)
    requires i <= |s| && IsSpaceRun(s[i..])
    ensures TrimStart(s, i) == |s|
    decreases |s| - i
  {
    if i < |s| {
      var n := LeadingSpaceLen(s[i..]);
      assert n > 0 && IsSpaceRun(s[i + n..]) by {
        assert s[i..][n..] == s[i + n..];
      }
      assert SpaceLenAt(s, i, |s|) == n by {
        SpaceLenAtSlice(s, i, |s|);
        assert s[i..|s|] == s[i..];
      }
      TrimStartOfSpaceRun(s, i + n);
    }
  }

  /**
   * A whitespace rune `r` in front of `t` is read as that rune: the length of
   * the leading rune is decided by its first bytes alone.
   */
  lemma SpaceRuneThen(r: seq<byte>, t: seq<byte>)
    requires r != [] && LeadingSpaceLen(r) == |r|
    ensures LeadingSpaceLen(r + t) == |r|
    ensures IsSpaceRun(r + t) <==> IsSpaceRun(t)
  {
    var u := r + t;
    assert u[0] == r[0];
    assert |r| >= 2 ==> u[1] == r[1];
    assert |r| >= 3 ==> u[2] == r[2];
    assert u[|r|..] == t;
  }

  /** The leading rune of `s`, cut off on its own, is still one whole rune. */
  lemma LeadingRune(s: seq<byte>)
    requires LeadingSpaceLen(s) > 0
    ensures var n := LeadingSpaceLen(s); LeadingSpaceLen(s[..n]) == n && s == s[..n] + s[n..]
  {
    var n := LeadingSpaceLen(s);
    var r := s[..n];
    assert r[0] == s[0];
    assert n >= 2 ==> r[1] == s[1];
    assert n >= 3 ==> r[2] == s[2];
  }

  /** Every byte of a multi-byte whitespace rune is outside ASCII. */
  lemma WideSpaceRuneBytes(r: seq<byte>)
    requires |r| >= 2 && LeadingSpaceLen(r) == |r|
    ensures forall k :: 0 <= k < |r| ==> r[k] >= 0x80
  {
  }

  /**
   * A prefix `p` made of bytes that start no whitespace rune survives the
   * trim: nothing is cut from the front, and the back trim never reaches `p`.
   */
  lemma TrimSpaceKeepsPrefix(s: seq<byte>, p: seq<byte>)
    requires 0 < |p| <= |s| && s[..|p|] == p
    requires forall k :: 0 <= k < |p| ==> !IsSpaceStart(p[k])
    ensures |p| <= |TrimSpace(s)| && TrimSpace(s)[..|p|] == p
  {
    assert s[0] == p[0];
    assert TrimStart(s, 0) == 0;
    TrimEndKeepsPrefix(s, p, |s|);
  }

  lemma {:induction false} TrimEndKeepsPrefix(s: seq<byte>, p: seq<byte>, j: nat)
    requires |p| <= j <= |s| && s[..|p|] == p
    requires forall k :: 0 <= k < |p| ==> !IsSpaceStart(p[k])
    ensures |p| <= TrimEnd(s, 0, j)
    decreases j
  {
    var n := SpaceLenBefore(s, 0, j);
    if n > 0 {
      TrimEndKeepsPrefix(s, p, j - n);
    }
  }

  /** Trimming a buffer that `TrimSpace` already produced, with a newline appended, gives that buffer back. */
  lemma TrimSpaceOfTrimmedLine(t: seq<byte>)
    requires LeadingSpaceLen(t) == 0 && TrailingSpaceLen(t) == 0
    ensures TrimSpace(t + [LF]) == t
  {
    var u := t + [LF];
    if t == [] {
      assert TrimStart(u, 0) == 1;
      assert u[1..1] == t;
    } else {
      NewlineStartsNoSpace(t);
      assert TrimStart(u, 0) == 0;
      NewlineEndsOneSpace(t);
      assert u[0..|t|] == t;
    }
  }

  /** A newline after a buffer that starts with no whitespace rune does not make one. */
  lemma NewlineStartsNoSpace(t: seq<byte>)
    requires t != [] && LeadingSpaceLen(t) == 0
    ensures SpaceLenAt(t + [LF], 0, |t| + 1) == 0
  {
    var u := t + [LF];
    assert u[0] == t[0];
    assert u[1] == if |t| >= 2 then t[1] else LF;
    assert |u| >= 3 ==> u[2] == if |t| >= 3 then t[2] else LF;
  }

  /** The right trim of a buffer followed by a newline drops just the newline. */
  lemma NewlineEndsOneSpace(t: seq<byte>)
    requires TrailingSpaceLen(t) == 0
    ensures TrimEnd(t + [LF], 0, |t| + 1) == |t|
  {
    var u := t + [LF];
    assert SpaceLenBefore(u, 0, |t| + 1) == 1;
    assert |t| >= 1 ==> u[|t| - 1] == t[|t| - 1];
    assert |t| >= 2 ==> u[|t| - 2] == t[|t| - 2];
    assert |t| >= 3 ==> u[|t| - 3] == t[|t| - 3];
    assert SpaceLenBefore(u, 0, |t|) == SpaceLenBefore(t, 0, |t|);
  }
}
