/**
 * Bytes: the byte type the text normaliser works on, the few byte values it
 * treats specially, and the subsequence relation used to say that a step
 * only ever deletes bytes.
 */
module Bytes {

  /** A Go `byte`: an unsigned 8-bit value. */
  type byte = b: int | 0 <= b < 256

  const TAB: byte := 0x09
  const LF: byte := 0x0A
  const CR: byte := 0x0D
  const SPACE: byte := 0x20

  /** The UTF-8 encoding of U+FEFF, the byte order mark. */
  const BOM: seq<byte> := [0xEF, 0xBB, 0xBF]

  predicate StartsWithBom(s: seq<byte>) {
    |s| >= 3 && s[..3] == BOM
  }

  /**
   * Regrouping a concatenation. Dafny knows this unaided; calling it where a
   * proof regroups concatenations keeps that proof small and fast.
   */
  lemma AppendAssociates<T>(a: seq<T>, b: seq<T>, c: seq<T>)
    ensures a + b + c == a + (b + c)
  {
  }

  /**
   * `a` can be obtained from `b` by deleting elements. Defined by greedy
   * left-to-right matching, which decides the relation exactly.
   */
  predicate IsSubsequence<T(==)>(a: seq<T>, b: seq<T>)
    decreases |b|
  {
    if a == [] then true
    else if b == [] then false
    else if a[0] == b[0] then IsSubsequence(a[1..], b[1..])
    else IsSubsequence(a, b[1..])
  }

  lemma {:induction false} SubsequenceLength<T>(a: seq<T>, b: seq<T>)
    requires IsSubsequence(a, b)
    ensures |a| <= |b|
    decreases |b|
  {
    if a != [] && b != [] {
      if a[0] == b[0] {
        SubsequenceLength(a[1..], b[1..]);
      } else {
        SubsequenceLength(a, b[1..]);
      }
    }
  }

  /** Deleting elements never introduces a value that was not there. */
  lemma {:induction false} SubsequenceMembers<T>(a: seq<T>, b: seq<T>, x: T)
    requires IsSubsequence(a, b) && x in a
    ensures x in b
    decreases |b|
  {
    if a[0] == b[0] {
      if x != a[0] {
        SubsequenceMembers(a[1..], b[1..], x);
      }
    } else {
      SubsequenceMembers(a, b[1..], x);
    }
  }

  lemma {:induction false} SubsequenceDropHead<T>(a: seq<T>, b: seq<T>)
    requires a != [] && IsSubsequence(a, b)
    ensures IsSubsequence(a[1..], b)
    decreases |b|, 0
  {
    if a[0] != b[0] {
      SubsequenceDropHead(a, b[1..]);
    }
    SubsequenceConsRight(a[1..], b[0], b[1..]);
    assert [b[0]] + b[1..] == b;
  }

  lemma {:induction false} SubsequenceConsRight<T>(a: seq<T>, x: T, b: seq<T>)
    requires IsSubsequence(a, b)
    ensures IsSubsequence(a, [x] + b)
    decreases |b|, 1
  {
    var xb := [x] + b;
    assert xb[1..] == b;
    if a != [] && a[0] == x {
      SubsequenceDropHead(a, b);
    }
  }

  lemma {:induction false} SubsequencePrependRight<T>(a: seq<T>, q: seq<T>, b: seq<T>)
    requires IsSubsequence(a, b)
    ensures IsSubsequence(a, q + b)
    decreases |q|
  {
    if q != [] {
      SubsequencePrependRight(a, q[1..], b);
      SubsequenceConsRight(a, q[0], q[1..] + b);
      assert [q[0]] + (q[1..] + b) == q + b;
      assert IsSubsequence(a, [q[0]] + (q[1..] + b));
    } else {
      assert q + b == b;
    }
  }

  lemma {:induction false} SubsequenceCommonPrefix<T>(q: seq<T>, a: seq<T>, b: seq<T>)
    requires IsSubsequence(a, b)
    ensures IsSubsequence(q + a, q + b)
    decreases |q|
  {
    if q != [] {
      SubsequenceCommonPrefix(q[1..], a, b);
      assert (q + a)[0] == (q + b)[0];
      assert (q + a)[1..] == q[1..] + a;
      assert (q + b)[1..] == q[1..] + b;
    } else {
      assert q + a == a && q + b == b;
    }
  }

  lemma {:induction false} SubsequenceAppendRight<T>(a: seq<T>, q: seq<T>)
    ensures IsSubsequence(a, a + q)
    decreases |a|
  {
    if a != [] {
      SubsequenceAppendRight(a[1..], q);
      assert (a + q)[1..] == a[1..] + q;
    }
  }

  lemma {:induction false} SubsequenceOfSlice<T>(s: seq<T>, i: nat, j: nat)
    requires i <= j <= |s|
    ensures IsSubsequence(s[i..j], s)
  {
    SubsequenceAppendRight(s[i..j], s[j..]);
    assert s[i..j] + s[j..] == s[i..];
    SubsequencePrependRight(s[i..j], s[..i], s[i..]);
    assert s[..i] + s[i..] == s;
  }

  lemma {:induction false} SubsequenceTransitive<T>(a: seq<T>, b: seq<T>, c: seq<T>)
    requires IsSubsequence(a, b) && IsSubsequence(b, c)
    ensures IsSubsequence(a, c)
    decreases |c|
  {
    if a != [] && b != [] && c != [] {
      if b[0] == c[0] {
        if a[0] == b[0] {
          SubsequenceTransitive(a[1..], b[1..], c[1..]);
        } else {
          SubsequenceTransitive(a, b[1..], c[1..]);
        }
      } else {
        SubsequenceTransitive(a, b, c[1..]);
        if a[0] == c[0] {
          SubsequenceDropHead(a, c[1..]);
        }
      }
    }
  }
}
