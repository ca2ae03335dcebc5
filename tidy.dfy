/**
 * TidyTransform: the `tidy` byte transformation of main.go:177-196 as a
 * composition of four step functions, followed by the properties the
 * transformation guarantees.
 *
 *   1. delete every CR byte;
 *   2. delete one leading UTF-8 byte order mark;
 *   3. delete each run of spaces and tabs that ends a line (is followed by
 *      LF or by the end of the buffer);
 *   4. trim leading and trailing whitespace from the buffer (`bytes.TrimSpace`);
 *   5. append one LF.
 */
module TidyTransform {
  import opened Bytes
  import opened Whitespace

  // ---------------------------------------------------------------------
  // Step 1: carriage returns
  // ---------------------------------------------------------------------

  /** `bytes.Replace(content, "\r", "", -1)`: every CR is deleted, every other byte kept. */
  function StripCarriageReturns(s: seq<byte>): (r: seq<byte>)
    ensures CR !in r
    decreases |s|
  {
    if s == [] then []
    else (if s[0] == CR then [] else [s[0]]) + StripCarriageReturns(s[1..])
  }

  /** Every byte other than CR occurs in the result as often as in the input. */
  lemma {:induction false} StripCarriageReturnsKeepsOthers(s: seq<byte>, b: byte)
    requires b != CR
    ensures multiset(StripCarriageReturns(s))[b] == multiset(s)[b]
    decreases |s|
  {
    if s != [] {
      StripCarriageReturnsKeepsOthers(s[1..], b);
      assert s == [s[0]] + s[1..];
    }
  }

  lemma {:induction false} StripCarriageReturnsSubsequence(s: seq<byte>)
    ensures IsSubsequence(StripCarriageReturns(s), s)
    decreases |s|
  {
    if s != [] {
      StripCarriageReturnsSubsequence(s[1..]);
      var rest := StripCarriageReturns(s[1..]);
      if s[0] == CR {
        assert StripCarriageReturns(s) == [] + rest == rest;
        SubsequenceConsRight(rest, s[0], s[1..]);
      } else {
        assert ([s[0]] + rest)[1..] == rest;
      }
      assert [s[0]] + s[1..] == s;
    }
  }

  lemma {:induction false} StripCarriageReturnsKeepsCrFree(s: seq<byte>)
    requires CR !in s
    ensures StripCarriageReturns(s) == s
    decreases |s|
  {
    if s != [] {
      assert s[0] != CR;
      assert CR !in s[1..] by {
        assert forall b :: b in s[1..] ==> b in s;
      }
      StripCarriageReturnsKeepsCrFree(s[1..]);
      assert [s[0]] + s[1..] == s;
    }
  }

  // ---------------------------------------------------------------------
  // Step 2: byte order mark
  // ---------------------------------------------------------------------

  /** Exactly one leading `EF BB BF` is removed; a buffer without one is kept as it is. */
  function StripBom(s: seq<byte>): (r: seq<byte>)
    ensures StartsWithBom(s) ==> s == BOM + r
    ensures !StartsWithBom(s) ==> r == s
    ensures StartsWithBom(s) && StartsWithBom(s[3..]) ==> StartsWithBom(r)
  {
    if StartsWithBom(s) then
      assert s == s[..3] + s[3..];
      s[3..]
    else s
  }

  // ---------------------------------------------------------------------
  // Step 3: blanks at the end of a line, i.e. the regexp `(?m:[\t ]+$)`
  // ---------------------------------------------------------------------

  predicate IsBlank(b: byte) {
    b == SPACE || b == TAB
  }

  predicate AllBlank(s: seq<byte>) {
    forall k :: 0 <= k < |s| ==> IsBlank(s[k])
  }

  predicate NoNewline(s: seq<byte>) {
    forall k :: 0 <= k < |s| ==> s[k] != LF
  }

  /** No line of `s` ends in a blank: a blank is never followed by LF, nor the last byte. */
  predicate NoTrailingBlanks(s: seq<byte>) {
    forall i :: 0 <= i < |s| && IsBlank(s[i]) ==> i + 1 < |s| && s[i + 1] != LF
  }

  lemma ConcatNoTrailingBlanks(a: seq<byte>, b: seq<byte>)
    requires a != [] && !IsBlank(a[|a| - 1])
    requires forall k :: 0 < k < |a| ==> a[k] != LF
    requires NoTrailingBlanks(b)
    ensures NoTrailingBlanks(a + b)
  {
    var s := a + b;
    forall i | 0 <= i < |s| && IsBlank(s[i])
      ensures i + 1 < |s| && s[i + 1] != LF
    {
      if i >= |a| {
        assert s[i] == b[i - |a|];
      }
    }
  }

  /**
   * The linear scan that replaces the regular expression: blanks are held in
   * `pending` until the next byte shows whether they end a line (drop them)
   * or not (emit them before that byte).
   */
  function TrimLineEndsFrom(s: seq<byte>, pending: seq<byte>): seq<byte>
    requires AllBlank(pending)
    decreases |s|
  {
    if s == [] then []
    else if IsBlank(s[0]) then TrimLineEndsFrom(s[1..], pending + [s[0]])
    else if s[0] == LF then [LF] + TrimLineEndsFrom(s[1..], [])
    else pending + [s[0]] + TrimLineEndsFrom(s[1..], [])
  }

  /** `trailingWhitespace.ReplaceAllLiteral(content, []byte{})`. */
  function TrimLineEnds(s: seq<byte>): seq<byte> {
    TrimLineEndsFrom(s, [])
  }

  lemma {:induction false} TrimLineEndsFromNoTrailingBlanks(s: seq<byte>, pending: seq<byte>)
    requires AllBlank(pending)
    ensures NoTrailingBlanks(TrimLineEndsFrom(s, pending))
    decreases |s|
  {
    if s == [] {
    } else if IsBlank(s[0]) {
      TrimLineEndsFromNoTrailingBlanks(s[1..], pending + [s[0]]);
    } else {
      TrimLineEndsFromNoTrailingBlanks(s[1..], []);
      var rest := TrimLineEndsFrom(s[1..], []);
      if s[0] == LF {
        ConcatNoTrailingBlanks([LF], rest);
      } else {
        ConcatNoTrailingBlanks(pending + [s[0]], rest);
      }
    }
  }

  /** After step 3 no line ends in a blank. */
  lemma TrimLineEndsNoTrailingBlanks(s: seq<byte>)
    ensures NoTrailingBlanks(TrimLineEnds(s))
  {
    TrimLineEndsFromNoTrailingBlanks(s, []);
  }

  /** Reference definition for one line: drop the run of blanks at its end. */
  function DropTrailingBlanks(s: seq<byte>): seq<byte>
    decreases |s|
  {
    if s != [] && IsBlank(s[|s| - 1]) then DropTrailingBlanks(s[..|s| - 1]) else s
  }

  /** The line keeps a prefix that does not end in a blank and loses only blanks. */
  lemma {:induction false} DropTrailingBlanksSpec(s: seq<byte>)
    ensures var r := DropTrailingBlanks(s);
      && |r| <= |s| && r == s[..|r|]
      && AllBlank(s[|r|..])
      && (r == [] || !IsBlank(r[|r| - 1]))
    decreases |s|
  {
    if s != [] && IsBlank(s[|s| - 1]) {
      var init := s[..|s| - 1];
      DropTrailingBlanksSpec(init);
      var r := DropTrailingBlanks(init);
      assert s[|r|..] == init[|r|..] + [s[|s| - 1]];
    }
  }

  /** One step of the scan, for a buffer that starts with `c`. */
  lemma TrimLineEndsFromCons(c: byte, w: seq<byte>, pending: seq<byte>)
    requires AllBlank(pending)
    ensures TrimLineEndsFrom([c] + w, pending)
         == if IsBlank(c) then TrimLineEndsFrom(w, pending + [c])
            else if c == LF then [LF] + TrimLineEndsFrom(w, [])
            else pending + [c] + TrimLineEndsFrom(w, [])
  {
    assert ([c] + w)[0] == c;
    assert ([c] + w)[1..] == w;
  }

  lemma {:induction false} DropTrailingBlanksAfter(x: seq<byte>, y: seq<byte>)
    requires x != [] && !IsBlank(x[|x| - 1])
    ensures DropTrailingBlanks(x + y) == x + DropTrailingBlanks(y)
    decreases |y|
  {
    if y == [] {
      assert x + y == x;
    } else {
      var xy := x + y;
      assert xy[|xy| - 1] == y[|y| - 1];
      assert xy[..|xy| - 1] == x + y[..|y| - 1];
      if IsBlank(y[|y| - 1]) {
        DropTrailingBlanksAfter(x, y[..|y| - 1]);
      }
    }
  }

  lemma {:induction false} TrimLineEndsFromLine(l: seq<byte>, pending: seq<byte>, rest: seq<byte>)
    requires AllBlank(pending) && NoNewline(l)
    ensures TrimLineEndsFrom(l + [LF] + rest, pending)
         == DropTrailingBlanks(pending + l) + [LF] + TrimLineEndsFrom(rest, [])
    decreases |l|
  {
    if l == [] {
      assert l + [LF] + rest == [LF] + rest;
      TrimLineEndsFromCons(LF, rest, pending);
      assert pending + l == pending;
      DropAllBlanks(pending);
    } else {
      var w := l[1..] + [LF] + rest;
      assert l + [LF] + rest == [l[0]] + w;
      TrimLineEndsFromCons(l[0], w, pending);
      assert pending + [l[0]] + l[1..] == pending + l;
      if IsBlank(l[0]) {
        TrimLineEndsFromLine(l[1..], pending + [l[0]], rest);
      } else {
        TrimLineEndsFromLine(l[1..], [], rest);
        assert [] + l[1..] == l[1..];
        DropTrailingBlanksAfter(pending + [l[0]], l[1..]);
      }
    }
  }

  lemma {:induction false} TrimLineEndsFromLastLine(l: seq<byte>, pending: seq<byte>)
    requires AllBlank(pending) && NoNewline(l)
    ensures TrimLineEndsFrom(l, pending) == DropTrailingBlanks(pending + l)
    decreases |l|
  {
    if l == [] {
      assert pending + l == pending;
      DropAllBlanks(pending);
    } else {
      assert l == [l[0]] + l[1..];
      TrimLineEndsFromCons(l[0], l[1..], pending);
      assert pending + [l[0]] + l[1..] == pending + l;
      if IsBlank(l[0]) {
        TrimLineEndsFromLastLine(l[1..], pending + [l[0]]);
      } else {
        TrimLineEndsFromLastLine(l[1..], []);
        assert [] + l[1..] == l[1..];
        DropTrailingBlanksAfter(pending + [l[0]], l[1..]);
      }
    }
  }

  lemma {:induction false} DropAllBlanks(p: seq<byte>)
    requires AllBlank(p)
    ensures DropTrailingBlanks(p) == []
    decreases |p|
  {
    if p != [] {
      assert IsBlank(p[|p| - 1]);
      DropAllBlanks(p[..|p| - 1]);
    }
  }

  /** Step 3 works line by line: a line followed by LF loses exactly its trailing blanks. */
  lemma TrimLineEndsSplitsLines(l: seq<byte>, rest: seq<byte>)
    requires NoNewline(l)
    ensures TrimLineEnds(l + [LF] + rest) == DropTrailingBlanks(l) + [LF] + TrimLineEnds(rest)
  {
    TrimLineEndsFromLine(l, [], rest);
    assert [] + l == l;
  }

  /** The last line (no LF after it) also loses exactly its trailing blanks. */
  lemma TrimLineEndsLastLine(l: seq<byte>)
    requires NoNewline(l)
    ensures TrimLineEnds(l) == DropTrailingBlanks(l)
  {
    TrimLineEndsFromLastLine(l, []);
    assert [] + l == l;
  }

  lemma {:induction false} TrimLineEndsFromSubsequence(s: seq<byte>, pending: seq<byte>)
    requires AllBlank(pending)
    ensures IsSubsequence(TrimLineEndsFrom(s, pending), pending + s)
    decreases |s|
  {
    if s == [] {
      assert TrimLineEndsFrom(s, pending) == [];
    } else if IsBlank(s[0]) {
      TrimLineEndsFromSubsequence(s[1..], pending + [s[0]]);
      assert pending + [s[0]] + s[1..] == pending + s;
    } else {
      var rest := TrimLineEndsFrom(s[1..], []);
      TrimLineEndsFromSubsequence(s[1..], []);
      assert [] + s[1..] == s[1..];
      SubsequenceCommonPrefix([s[0]], rest, s[1..]);
      assert [s[0]] + s[1..] == s;
      if s[0] == LF {
        SubsequencePrependRight([s[0]] + rest, pending, s);
      } else {
        SubsequenceCommonPrefix(pending, [s[0]] + rest, s);
        assert pending + ([s[0]] + rest) == pending + [s[0]] + rest;
      }
    }
  }

  lemma NoTrailingBlanksSuffix(s: seq<byte>, k: nat)
    requires k <= |s| && NoTrailingBlanks(s)
    ensures NoTrailingBlanks(s[k..])
  {
    var t := s[k..];
    forall i | 0 <= i < |t| && IsBlank(t[i])
      ensures i + 1 < |t| && t[i + 1] != LF
    {
      assert t[i] == s[k + i];
    }
  }

  lemma {:induction false} TrimLineEndsFromKeepsClean(s: seq<byte>, pending: seq<byte>)
    requires AllBlank(pending) && NoTrailingBlanks(pending + s)
    ensures TrimLineEndsFrom(s, pending) == pending + s
    decreases |s|
  {
    CleanHead(s, pending);
    if s != [] {
      var c, w := s[0], s[1..];
      if IsBlank(c) {
        var p1 := pending + [c];
        assert TrimLineEndsFrom(w, p1) == p1 + w by {
          TrimLineEndsFromKeepsClean(w, p1);
        }
      } else {
        assert TrimLineEndsFrom(w, []) == w by {
          TrimLineEndsFromKeepsClean(w, []);
        }
        assert pending + [c] + w == pending + s;
        if c == LF {
          assert [LF] + w == s;
        }
      }
    }
  }

  /** What a clean buffer `pending + s` says about the scan's next step. */
  lemma CleanHead(s: seq<byte>, pending: seq<byte>)
    requires AllBlank(pending) && NoTrailingBlanks(pending + s)
    ensures s == [] ==> pending == []
    ensures s != [] && IsBlank(s[0]) ==>
      AllBlank(pending + [s[0]]) && pending + [s[0]] + s[1..] == pending + s
      && NoTrailingBlanks(pending + [s[0]] + s[1..])
    ensures s != [] && !IsBlank(s[0]) ==>
      NoTrailingBlanks([] + s[1..]) && pending + [s[0]] + s[1..] == pending + s
      && (s[0] == LF ==> pending == [])
  {
    var ps := pending + s;
    // a blank left pending right before LF or the end would contradict the requires
    assert pending != [] ==> IsBlank(ps[|pending| - 1]);
    if s != [] {
      assert pending + [s[0]] + s[1..] == ps;
      assert ps[|pending|] == s[0];
      if !IsBlank(s[0]) {
        assert ps[|pending| + 1..] == s[1..];
        NoTrailingBlanksSuffix(ps, |pending| + 1);
        assert [] + s[1..] == s[1..];
      }
    }
  }

  /** Step 3 leaves a buffer without trailing blanks as it is. */
  lemma TrimLineEndsKeepsClean(s: seq<byte>)
    requires NoTrailingBlanks(s)
    ensures TrimLineEnds(s) == s
  {
    assert [] + s == s;
    TrimLineEndsFromKeepsClean(s, []);
  }

  lemma {:induction false} TrimLineEndsFromKeepsPrefix(a: seq<byte>, w: seq<byte>)
    requires NoNewline(a) && forall k :: 0 <= k < |a| ==> !IsBlank(a[k])
    ensures TrimLineEndsFrom(a + w, []) == a + TrimLineEndsFrom(w, [])
    decreases |a|
  {
    if a == [] {
      assert a + w == w;
    } else {
      var aw := a + w;
      assert aw[0] == a[0];
      assert aw[1..] == a[1..] + w;
      TrimLineEndsFromKeepsPrefix(a[1..], w);
      assert [] + [a[0]] + (a[1..] + TrimLineEndsFrom(w, [])) == a + TrimLineEndsFrom(w, []);
    }
  }

  // ---------------------------------------------------------------------
  // The whole transformation
  // ---------------------------------------------------------------------

  /** Steps 1 to 4: what `tidy` produces before the final LF. */
  function TidyBody(content: seq<byte>): seq<byte> {
    TrimSpace(TrimLineEnds(StripBom(StripCarriageReturns(content))))
  }

  /** `tidy(content)` of main.go:177-196. */
  function Tidy(content: seq<byte>): seq<byte> {
    TidyBody(content) + [LF]
  }

  lemma StripBomSubsequence(s: seq<byte>)
    ensures IsSubsequence(StripBom(s), s)
  {
    SubsequenceOfSlice(s, |s| - |StripBom(s)|, |s|);
    assert s[|s| - |StripBom(s)|..|s|] == StripBom(s);
  }

  lemma TrimLineEndsSubsequence(s: seq<byte>)
    ensures IsSubsequence(TrimLineEnds(s), s)
  {
    TrimLineEndsFromSubsequence(s, []);
    assert [] + s == s;
  }

  lemma TrimSpaceSubsequence(s: seq<byte>)
    ensures IsSubsequence(TrimSpace(s), s)
  {
    var i, j := TrimSpaceIsSlice(s);
    SubsequenceOfSlice(s, i, j);
  }

  /** Steps 2 to 4 only delete bytes from what step 1 produced. */
  lemma TidyBodyWithinStepOne(x: seq<byte>)
    ensures IsSubsequence(TidyBody(x), StripCarriageReturns(x))
  {
    var a := StripCarriageReturns(x);
    var b := StripBom(a);
    var c := TrimLineEnds(b);
    var t := TrimSpace(c);
    StripBomSubsequence(a);
    TrimLineEndsSubsequence(b);
    TrimSpaceSubsequence(c);
    SubsequenceTransitive(t, c, b);
    SubsequenceTransitive(t, b, a);
  }

  /** Every step before the final append only deletes bytes. */
  lemma TidyBodySubsequence(x: seq<byte>)
    ensures IsSubsequence(TidyBody(x), x)
  {
    TidyBodyWithinStepOne(x);
    StripCarriageReturnsSubsequence(x);
    SubsequenceTransitive(TidyBody(x), StripCarriageReturns(x), x);
  }

  /** Dropping the final LF leaves a subsequence of the input, so the output is at most one byte longer. */
  lemma TidySubsequence(x: seq<byte>)
    ensures var r := Tidy(x); IsSubsequence(r[..|r| - 1], x) && |r| <= |x| + 1
  {
    TidyBodySubsequence(x);
    SubsequenceLength(TidyBody(x), x);
    assert Tidy(x)[..|Tidy(x)| - 1] == TidyBody(x);
  }

  /** The output ends in LF, and the byte before that LF (if any) is not whitespace. */
  lemma TidyEndsWithOneNewline(x: seq<byte>)
    ensures var r := Tidy(x);
      && |r| >= 1 && r[|r| - 1] == LF
      && (|r| >= 2 ==> !IsAsciiSpace(r[|r| - 2]) && TrailingSpaceLen(r[..|r| - 1]) == 0)
  {
    var t := TidyBody(x);
    assert Tidy(x)[..|Tidy(x)| - 1] == t;
    if |t| >= 1 {
      assert Tidy(x)[|t| - 1] == t[|t| - 1];
    }
  }

  /** An input made only of whitespace runes (the empty input included) becomes a lone LF. */
  lemma TidyOfWhitespace(x: seq<byte>)
    requires IsSpaceRun(x)
    ensures Tidy(x) == [LF]
  {
    var a := StripCarriageReturns(x);
    StripCarriageReturnsKeepsSpaceRun(x);
    SpaceRunHasNoBom(a);
    TrimLineEndsFromKeepsSpaceRun(a, []);
    TrimSpaceOfSpaceRun(TrimLineEnds(a));
  }

  /** A lone no-break space (U+00A0) is whitespace too, and becomes a lone LF. */
  lemma TidyOfNoBreakSpace()
    ensures Tidy([0xC2, 0xA0]) == [LF]
  {
    var x: seq<byte> := [0xC2, 0xA0];
    assert x[2..] == [];
    TidyOfWhitespace(x);
  }

  /** Step 1 distributes over concatenation. */
  lemma {:induction false} StripCarriageReturnsAppend(a: seq<byte>, b: seq<byte>)
    ensures StripCarriageReturns(a + b) == StripCarriageReturns(a) + StripCarriageReturns(b)
    decreases |a|
  {
    if a == [] {
      assert a + b == b;
    } else {
      assert (a + b)[0] == a[0];
      assert (a + b)[1..] == a[1..] + b;
      StripCarriageReturnsAppend(a[1..], b);
    }
  }

  /** Step 1 deletes whole one-byte runes only, so a run of whitespace runes stays one. */
  lemma {:induction false} StripCarriageReturnsKeepsSpaceRun(s: seq<byte>)
    requires IsSpaceRun(s)
    ensures IsSpaceRun(StripCarriageReturns(s))
    decreases |s|
  {
    if s != [] {
      var n := LeadingSpaceLen(s);
      var r, t := s[..n], s[n..];
      LeadingRune(s);
      StripCarriageReturnsAppend(r, t);
      StripCarriageReturnsKeepsSpaceRun(t);
      var rest := StripCarriageReturns(t);
      if n == 1 {
        assert r == [s[0]];
        assert StripCarriageReturns(r) == (if s[0] == CR then [] else r) + StripCarriageReturns([]);
        if s[0] == CR {
          assert [] + rest == rest;
        } else {
          SpaceRuneThen(r, rest);
        }
      } else {
        WideSpaceRuneBytes(r);
        StripCarriageReturnsKeepsCrFree(r);
        SpaceRuneThen(r, rest);
      }
    }
  }

  /** A run of whitespace runes does not start with a byte order mark, so step 2 keeps it. */
  lemma SpaceRunHasNoBom(s: seq<byte>)
    requires IsSpaceRun(s)
    ensures StripBom(s) == s
  {
    if |s| >= 3 {
      assert s[..3][0] == s[0];
    }
  }

  /** Blanks in front of a run of whitespace runes make a longer run. */
  lemma {:induction false} BlanksThenSpaceRun(p: seq<byte>, u: seq<byte>)
    requires AllBlank(p) && IsSpaceRun(u)
    ensures IsSpaceRun(p + u)
    decreases |p|
  {
    if p == [] {
      assert p + u == u;
    } else {
      assert AllBlank(p[1..]) by {
        forall k | 0 <= k < |p| - 1 ensures IsBlank(p[1..][k]) {
          assert p[1..][k] == p[k + 1];
        }
      }
      BlanksThenSpaceRun(p[1..], u);
      assert p == [p[0]] + p[1..];
      AppendAssociates([p[0]], p[1..], u);
      SpaceRuneThen([p[0]], p[1..] + u);
    }
  }

  /** The scan emits held blanks and then a prefix that has no blank and no LF. */
  lemma {:induction false} TrimLineEndsFromWithPending(p: seq<byte>, a: seq<byte>, w: seq<byte>)
    requires AllBlank(p) && a != [] && forall k :: 0 <= k < |a| ==> a[k] >= 0x80
    ensures TrimLineEndsFrom(a + w, p) == p + a + TrimLineEndsFrom(w, [])
  {
    var tail := a[1..];
    var w1 := tail + w;
    var rest := TrimLineEndsFrom(w, []);
    assert TrimLineEndsFrom(a + w, p) == p + [a[0]] + TrimLineEndsFrom(w1, []) by {
      assert a + w == [a[0]] + w1;
      TrimLineEndsFromCons(a[0], w1, p);
    }
    assert TrimLineEndsFrom(w1, []) == tail + rest by {
      assert NoNewline(tail) && forall k :: 0 <= k < |tail| ==> !IsBlank(tail[k]) by {
        forall k | 0 <= k < |tail| ensures tail[k] >= 0x80 {
          assert tail[k] == a[k + 1];
        }
      }
      TrimLineEndsFromKeepsPrefix(tail, w);
    }
    assert p + [a[0]] + (tail + rest) == p + a + rest by {
      assert [a[0]] + tail == a;
    }
  }

  /** Step 3 deletes whole one-byte runes only, so a run of whitespace runes stays one. */
  lemma {:induction false} TrimLineEndsFromKeepsSpaceRun(s: seq<byte>, pending: seq<byte>)
    requires AllBlank(pending) && IsSpaceRun(s)
    ensures IsSpaceRun(TrimLineEndsFrom(s, pending))
    decreases |s|
  {
    if s != [] {
      var n := LeadingSpaceLen(s);
      var r, t := s[..n], s[n..];
      LeadingRune(s);
      if n == 1 {
        var c := s[0];
        assert r == [c];
        if IsBlank(c) {
          TrimLineEndsFromCons(c, t, pending);
          assert AllBlank(pending + [c]);
          TrimLineEndsFromKeepsSpaceRun(t, pending + [c]);
        } else {
          TrimLineEndsFromKeepsSpaceRun(t, []);
          assert IsAsciiSpace(c);
          ScanEmitsOneByteRune(c, t, pending);
        }
      } else {
        TrimLineEndsFromKeepsSpaceRun(t, []);
        WideSpaceRuneBytes(r);
        TrimLineEndsFromWithPending(pending, r, t);
        BlanksThenWideRune(pending, r, TrimLineEndsFrom(t, []));
      }
    }
  }

  /** The scan step for a one-byte whitespace rune that is not a blank. */
  lemma {:induction false} ScanEmitsOneByteRune(c: byte, t: seq<byte>, pending: seq<byte>)
    requires AllBlank(pending) && IsAsciiSpace(c) && !IsBlank(c)
    requires IsSpaceRun(TrimLineEndsFrom(t, []))
    ensures IsSpaceRun(TrimLineEndsFrom([c] + t, pending))
  {
    var rest := TrimLineEndsFrom(t, []);
    ScanStepNonBlank(c, t, pending);
    assert IsSpaceRun([c] + rest) by {
      SpaceRuneThen([c], rest);
    }
    BlanksThenSpaceRun(if c == LF then [] else pending, [c] + rest);
  }

  /** A byte that is not a blank ends the held blanks: dropped before LF, emitted otherwise. */
  lemma ScanStepNonBlank(c: byte, t: seq<byte>, pending: seq<byte>)
    requires AllBlank(pending) && !IsBlank(c)
    ensures TrimLineEndsFrom([c] + t, pending)
         == (if c == LF then [] else pending) + ([c] + TrimLineEndsFrom(t, []))
  {
    var s := [c] + t;
    assert s[0] == c && s[1..] == t;
    var rest := TrimLineEndsFrom(t, []);
    if c == LF {
      assert TrimLineEndsFrom(s, pending) == [c] + rest;
    } else {
      assert TrimLineEndsFrom(s, pending) == pending + [c] + rest;
      AppendAssociates(pending, [c], rest);
    }
  }

  /** Held blanks, then a multi-byte whitespace rune, then a run: again a run. */
  lemma {:induction false} BlanksThenWideRune(pending: seq<byte>, r: seq<byte>, rest: seq<byte>)
    requires AllBlank(pending) && r != [] && LeadingSpaceLen(r) == |r| && IsSpaceRun(rest)
    ensures IsSpaceRun(pending + r + rest)
  {
    var u := r + rest;
    assert IsSpaceRun(u) by {
      SpaceRuneThen(r, rest);
    }
    BlanksThenSpaceRun(pending, u);
    AppendAssociates(pending, r, rest);
  }

  /** No CR survives: step 1 deletes them all and no later step adds one. */
  lemma TidyHasNoCarriageReturn(x: seq<byte>)
    ensures CR !in Tidy(x)
  {
    var t := TidyBody(x);
    TidyBodyWithinStepOne(x);
    if CR in t {
      SubsequenceMembers(t, StripCarriageReturns(x), CR);
    }
    assert Tidy(x) == t + [LF];
  }

  /** No line of the output ends in a space or tab; in particular no LF follows one. */
  lemma TidyHasNoTrailingBlanks(x: seq<byte>)
    ensures NoTrailingBlanks(Tidy(x))
    ensures forall i :: 0 <= i < |Tidy(x)| - 1 && Tidy(x)[i + 1] == LF ==> !IsBlank(Tidy(x)[i])
  {
    var c := TrimLineEnds(StripBom(StripCarriageReturns(x)));
    var t := TidyBody(x);
    TrimLineEndsNoTrailingBlanks(StripBom(StripCarriageReturns(x)));
    var i, j := TrimSpaceIsSlice(c);
    TrimmedSliceHasNoTrailingBlanks(c, i, j);
    AppendNewlineKeepsClean(t);
  }

  lemma TrimmedSliceHasNoTrailingBlanks(c: seq<byte>, i: nat, j: nat)
    requires i <= j <= |c| && NoTrailingBlanks(c)
    requires TrailingSpaceLen(c[i..j]) == 0
    ensures NoTrailingBlanks(c[i..j])
  {
    var t := c[i..j];
    forall k | 0 <= k < |t| && IsBlank(t[k])
      ensures k + 1 < |t| && t[k + 1] != LF
    {
      assert t[k] == c[i + k];
    }
  }

  lemma AppendNewlineKeepsClean(t: seq<byte>)
    requires NoTrailingBlanks(t)
    ensures NoTrailingBlanks(t + [LF])
  {
    var u := t + [LF];
    forall k | 0 <= k < |u| && IsBlank(u[k])
      ensures k + 1 < |u| && u[k + 1] != LF
    {
      assert u[k] == t[k];
    }
  }

  /** If step 1 leaves two byte order marks at the front, the output still begins with one. */
  lemma TidyKeepsSecondBom(x: seq<byte>)
    requires var a := StripCarriageReturns(x); StartsWithBom(a) && StartsWithBom(a[3..])
    ensures StartsWithBom(Tidy(x))
  {
    var m := StripBom(StripCarriageReturns(x));
    assert StartsWithBom(m);
    TrimLineEndsKeepsBom(m);
    var t := TrimSpace(TrimLineEnds(m));
    TrimSpaceKeepsBom(TrimLineEnds(m));
    assert t == TidyBody(x);
    AppendKeepsBom(t, [LF]);
  }

  lemma AppendKeepsBom(t: seq<byte>, u: seq<byte>)
    requires StartsWithBom(t)
    ensures StartsWithBom(t + u)
  {
    assert (t + u)[..3] == t[..3];
  }

  /** Step 3 keeps a leading byte order mark: its bytes are neither blanks nor line feeds. */
  lemma TrimLineEndsKeepsBom(m: seq<byte>)
    requires StartsWithBom(m)
    ensures StartsWithBom(TrimLineEnds(m))
  {
    var w := m[3..];
    assert m == BOM + w;
    assert NoNewline(BOM) && forall k :: 0 <= k < 3 ==> !IsBlank(BOM[k]);
    TrimLineEndsFromKeepsPrefix(BOM, w);
    assert TrimLineEnds(m)[..3] == BOM;
  }

  /** Step 4 keeps a leading byte order mark: its bytes start no whitespace rune. */
  lemma TrimSpaceKeepsBom(c: seq<byte>)
    requires StartsWithBom(c)
    ensures StartsWithBom(TrimSpace(c))
  {
    assert c[..3] == BOM;
    TrimSpaceKeepsPrefix(c, BOM);
  }

  /** A second pass over an output without a leading byte order mark changes nothing. */
  lemma TidyKeepsTidied(t: seq<byte>)
    requires LeadingSpaceLen(t) == 0 && TrailingSpaceLen(t) == 0
    requires CR !in t && NoTrailingBlanks(t + [LF]) && !StartsWithBom(t + [LF])
    ensures Tidy(t + [LF]) == t + [LF]
  {
    var y := t + [LF];
    assert CR !in y;
    StripCarriageReturnsKeepsCrFree(y);
    assert StripBom(y) == y;
    TrimLineEndsKeepsClean(y);
    TrimSpaceOfTrimmedLine(t);
  }

  /** A second pass over an output that begins with a byte order mark strips that mark. */
  lemma TidyShortensBomOutput(y: seq<byte>)
    requires CR !in y && StartsWithBom(y)
    ensures |Tidy(y)| < |y|
  {
    StripCarriageReturnsKeepsCrFree(y);
    var m := StripBom(y);
    assert |m| == |y| - 3;
    TrimLineEndsSubsequence(m);
    SubsequenceLength(TrimLineEnds(m), m);
  }

  /**
   * `tidy` is idempotent on exactly the inputs whose output does not begin
   * with a byte order mark. (It is not idempotent in general.)
   */
  lemma TidyIdempotentUnlessBom(x: seq<byte>)
    ensures Tidy(Tidy(x)) == Tidy(x) <==> !StartsWithBom(Tidy(x))
  {
    var y := Tidy(x);
    TidyHasNoCarriageReturn(x);
    if StartsWithBom(y) {
      TidyShortensBomOutput(y);
    } else {
      var t := TidyBody(x);
      assert y == t + [LF];
      assert CR !in t by {
        assert forall b :: b in t ==> b in y;
      }
      TidyHasNoTrailingBlanks(x);
      TidyKeepsTidied(t);
    }
  }

  /** Two leading byte order marks break idempotence: the second pass strips the second mark. */
  lemma DoubleBomNotIdempotent(x: seq<byte>)
    requires var a := StripCarriageReturns(x); StartsWithBom(a) && StartsWithBom(a[3..])
    ensures Tidy(Tidy(x)) != Tidy(x)
  {
    TidyKeepsSecondBom(x);
    TidyIdempotentUnlessBom(x);
  }

  /** A blank, a byte order mark, then the letter `x`. */
  const BlankThenBom: seq<byte> := [SPACE] + BOM + [0x78]

  lemma BlankThenBomSurvivesSteps1To3()
    ensures TrimLineEnds(StripBom(StripCarriageReturns(BlankThenBom))) == BlankThenBom
  {
    var x := BlankThenBom;
    assert CR !in x;
    StripCarriageReturnsKeepsCrFree(x);
    assert x[0] == SPACE;
    assert StripBom(x) == x;
    assert NoTrailingBlanks(x) by {
      forall i | 0 <= i < |x| && IsBlank(x[i])
        ensures i + 1 < |x| && x[i + 1] != LF
      {
        assert i == 0;
      }
    }
    TrimLineEndsKeepsClean(x);
  }

  lemma BlankThenBomTrimmed()
    ensures TrimSpace(BlankThenBom) == BOM + [0x78]
  {
    var x := BlankThenBom;
    var body := BOM + [0x78];
    assert TrimStart(x, 0) == 1;
    assert TrimEnd(x, 1, 5) == 5;
    assert x[1..5] == body;
  }

  /** `tidy` of a blank, a byte order mark and `x` is the mark, `x` and LF. */
  lemma TidyOfBlankThenBom()
    ensures Tidy(BlankThenBom) == BOM + [0x78, LF]
  {
    BlankThenBomSurvivesSteps1To3();
    BlankThenBomTrimmed();
  }

  /** A blank before a byte order mark breaks idempotence: step 4 uncovers the mark after step 2 ran. */
  lemma BlankBeforeBomNotIdempotent()
    ensures Tidy(Tidy(BlankThenBom)) != Tidy(BlankThenBom)
  {
    TidyOfBlankThenBom();
    var y := Tidy(BlankThenBom);
    assert y[..3] == BOM;
    TidyIdempotentUnlessBom(BlankThenBom);
  }
}
