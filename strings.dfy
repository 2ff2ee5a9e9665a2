/**
 * The parts of Go's `strings` and `unicode` packages that the concert
 * reconciliation uses: Replace (every occurrence), Title, Join, Split and
 * Fields, over strings seen as sequences of characters.
 */
module GoStrings {

  predicate IsAsciiLower(c: char) { 'a' <= c <= 'z' }

  predicate IsAsciiUpper(c: char) { 'A' <= c <= 'Z' }

  predicate IsAsciiDigit(c: char) { '0' <= c <= '9' }

  /** unicode.IsSpace: the characters with Unicode's White_Space property. */
  predicate IsSpace(c: char) {
    || c == '\t' || c == '\n' || c == '\U{B}' || c == '\U{C}' || c == '\r' || c == ' '
    || c == '\U{85}' || c == '\U{A0}' || c == '\U{1680}'
    || ('\U{2000}' <= c <= '\U{200A}')
    || c == '\U{2028}' || c == '\U{2029}' || c == '\U{202F}' || c == '\U{205F}' || c == '\U{3000}'
  }

  /**
   * The word boundary test of strings.Title: ASCII letters, digits and the
   * underscore continue a word, any other ASCII character ends one; beyond
   * ASCII only white space ends a word.
   */
  predicate IsSeparator(c: char) {
    if c as int <= 0x7F then !(IsAsciiLower(c) || IsAsciiUpper(c) || IsAsciiDigit(c) || c == '_')
    else IsSpace(c)
  }

  /** unicode.ToTitle, on the ASCII range. */
  function ToTitle(c: char): (t: char)
    ensures !IsAsciiLower(t)
    ensures IsAsciiLower(c) ==> IsAsciiUpper(t) && t as int == c as int - 32
    ensures !IsAsciiLower(c) ==> t == c
  {
    if IsAsciiLower(c) then (c as int - 32) as char else c
  }

  function CountChar(s: string, c: char): (n: nat)
    ensures n <= |s|
    ensures n == 0 <==> c !in s
  {
    if s == [] then 0 else (if s[0] == c then 1 else 0) + CountChar(s[1..], c)
  }

  lemma {:induction false} CountCharAppend(a: string, b: string, c: char)
    ensures CountChar(a + b, c) == CountChar(a, c) + CountChar(b, c)
  {
    if a == [] {
      assert a + b == b;
    } else {
      assert (a + b)[0] == a[0];
      assert (a + b)[1..] == a[1..] + b;
      CountCharAppend(a[1..], b, c);
      assert CountChar(a + b, c) == (if a[0] == c then 1 else 0) + CountChar(a[1..] + b, c);
    }
  }

  // ---------------------------------------------------------------------
  // strings.Replace(s, pat, rep, -1)
  // ---------------------------------------------------------------------

  /** `p` occurs in `s` starting at index `i`. */
  predicate OccursAt(s: string, p: string, i: int) {
    0 <= i && i + |p| <= |s| && s[i..i + |p|] == p
  }

  ghost predicate NoOccurrence(s: string, p: string) {
    forall i :: !OccursAt(s, p, i)
  }

  /**
   * Replaces every occurrence of `pat`, scanning left to right and never
   * letting two replaced occurrences overlap.
   */
  function Replace(s: string, pat: string, rep: string): (r: string)
    requires pat != []
    decreases |s|
  {
    if |s| < |pat| then s
    else if s[..|pat|] == pat then rep + Replace(s[|pat|..], pat, rep)
    else [s[0]] + Replace(s[1..], pat, rep)
  }

  lemma {:induction false} ReplaceCharLength(s: string, c: char, rep: string)
    ensures |Replace(s, [c], rep)| == |s| + (|rep| - 1) * CountChar(s, c)
    decreases |s|
  {
    if s != [] {
      ReplaceCharLength(s[1..], c, rep);
      if s[0] == c {
        assert s[..1] == [c];
        calc {
          |Replace(s, [c], rep)|;
          |rep| + |s[1..]| + (|rep| - 1) * CountChar(s[1..], c);
          |s| + (|rep| - 1) * (CountChar(s[1..], c) + 1);
        }
      } else {
        assert s[..1] != [c];
      }
    }
  }

  /** Every character of the result comes from `s` or from `rep`. */
  lemma {:induction false} ReplaceChars(s: string, pat: string, rep: string, x: char)
    requires pat != []
    requires x in Replace(s, pat, rep)
    ensures x in s || x in rep
    decreases |s|
  {
    if |s| >= |pat| {
      var r := Replace(s, pat, rep);
      if s[..|pat|] == pat {
        if x !in rep {
          assert x in Replace(s[|pat|..], pat, rep);
          ReplaceChars(s[|pat|..], pat, rep, x);
          assert x in s[|pat|..];
        }
      } else if x != s[0] {
        assert x in Replace(s[1..], pat, rep);
        ReplaceChars(s[1..], pat, rep, x);
      }
    }
  }

  /** Replacing a single character by a string without it removes it. */
  lemma {:induction false} ReplaceRemovesChar(s: string, c: char, rep: string)
    requires c !in rep
    ensures c !in Replace(s, [c], rep)
    decreases |s|
  {
    if s != [] {
      ReplaceRemovesChar(s[1..], c, rep);
      if s[..1] != [c] {
        assert s[0] != c;
      }
    }
  }

  lemma NoCharNoOccurrence(s: string, c: char)
    requires c !in s
    ensures NoOccurrence(s, [c])
  {
    forall i ensures !OccursAt(s, [c], i) {
      if 0 <= i && i + 1 <= |s| {
        assert s[i..i + 1][0] == s[i];
      }
    }
  }

  /** A character absent from the input and from `rep` is absent from the result. */
  lemma ReplaceKeepsAbsent(s: string, pat: string, rep: string, x: char)
    requires pat != [] && x !in s && x !in rep
    ensures x !in Replace(s, pat, rep)
  {
    if x in Replace(s, pat, rep) {
      ReplaceChars(s, pat, rep, x);
    }
  }

  lemma OccursInTail(s: string, p: string, k: nat, i: int)
    requires k <= |s|
    requires OccursAt(s[k..], p, i)
    ensures OccursAt(s, p, i + k)
  {
    assert s[k..][i..i + |p|] == s[i + k..i + k + |p|];
  }

  /** With nothing to replace, Replace is the identity. */
  lemma {:induction false} ReplaceAbsent(s: string, pat: string, rep: string)
    requires pat != []
    requires NoOccurrence(s, pat)
    ensures Replace(s, pat, rep) == s
    decreases |s|
  {
    if |s| >= |pat| {
      assert !OccursAt(s, pat, 0);
      forall i ensures !OccursAt(s[1..], pat, i) {
        if OccursAt(s[1..], pat, i) {
          OccursInTail(s, pat, 1, i);
        }
      }
      ReplaceAbsent(s[1..], pat, rep);
      assert s == [s[0]] + s[1..];
    }
  }

  /** A string that does not start with `pat`'s first character keeps that character. */
  lemma ReplaceSkipOne(s: string, pat: string, rep: string)
    requires pat != [] && s != [] && s[0] != pat[0]
    ensures Replace(s, pat, rep) == [s[0]] + Replace(s[1..], pat, rep)
  {
    if |s| >= |pat| {
      assert s[..|pat|][0] != pat[0];
    } else {
      assert Replace(s[1..], pat, rep) == s[1..];
      assert [s[0]] + s[1..] == s;
    }
  }

  /** A prefix without the first character of `pat` is copied unchanged. */
  lemma {:induction false} ReplaceSkipPrefix(a: string, b: string, pat: string, rep: string)
    requires pat != [] && pat[0] !in a
    ensures Replace(a + b, pat, rep) == a + Replace(b, pat, rep)
    decreases |a|
  {
    if a == [] {
      assert a + b == b;
    } else {
      var tail := a[1..];
      assert (a + b)[0] == a[0];
      ReplaceSkipOne(a + b, pat, rep);
      assert (a + b)[1..] == tail + b;
      ReplaceSkipPrefix(tail, b, pat, rep);
      assert [a[0]] + (tail + Replace(b, pat, rep)) == a + Replace(b, pat, rep);
    }
  }

  /** An occurrence at the front is replaced. */
  lemma ReplaceMatch(b: string, pat: string, rep: string)
    requires pat != []
    ensures Replace(pat + b, pat, rep) == rep + Replace(b, pat, rep)
  {
    assert (pat + b)[..|pat|] == pat;
    assert (pat + b)[|pat|..] == b;
  }

  /** A string without the first character of `pat` is left as it is. */
  lemma ReplaceNone(s: string, pat: string, rep: string)
    requires pat != [] && pat[0] !in s
    ensures Replace(s, pat, rep) == s
  {
    assert s + "" == s;
    ReplaceSkipPrefix(s, "", pat, rep);
  }

  /** The one occurrence of `pat` between two stretches free of its first character is replaced. */
  lemma ReplaceJoin(a: string, b: string, pat: string, rep: string)
    requires pat != [] && pat[0] !in a && pat[0] !in b
    ensures Replace(a + pat + b, pat, rep) == a + rep + b
  {
    assert a + pat + b == a + (pat + b);
    ReplaceSkipPrefix(a, pat + b, pat, rep);
    ReplaceMatch(b, pat, rep);
    ReplaceNone(b, pat, rep);
  }

  /** A lone first character of `pat` that does not start an occurrence is kept. */
  lemma ReplaceMiss(a: string, b: string, pat: string, rep: string)
    requires pat != [] && pat[0] !in a && pat[0] !in b
    requires |b| < |pat| - 1 || b[..|pat| - 1] != pat[1..]
    ensures Replace(a + [pat[0]] + b, pat, rep) == a + [pat[0]] + b
  {
    var s := [pat[0]] + b;
    assert a + [pat[0]] + b == a + s;
    ReplaceSkipPrefix(a, s, pat, rep);
    if |s| >= |pat| {
      assert s[..|pat|] != pat by {
        assert s[..|pat|][1..] == b[..|pat| - 1];
      }
      assert s[1..] == b;
    }
    ReplaceNone(b, pat, rep);
  }

  /**
   * `c` may become `d` only where `c` is one of the lower-case letters `L`
   * and `d` is its upper-case form.
   */
  predicate RaisedAt(c: char, d: char, L: set<char>) {
    d == c || (c in L && d == ToTitle(c))
  }

  predicate Raises(s: string, r: string, L: set<char>) {
    |r| == |s| && forall i :: 0 <= i < |s| ==> RaisedAt(s[i], r[i], L)
  }

  /**
   * A replacement of equal length that only upper-cases letters of `L`
   * keeps the length and changes nothing else.
   */
  lemma {:induction false} ReplaceRaises(s: string, pat: string, rep: string, L: set<char>)
    requires pat != [] && |rep| == |pat|
    requires Raises(pat, rep, L)
    ensures Raises(s, Replace(s, pat, rep), L)
    decreases |s|
  {
    if |s| >= |pat| {
      var r := Replace(s, pat, rep);
      if s[..|pat|] == pat {
        ReplaceRaises(s[|pat|..], pat, rep, L);
        forall i | 0 <= i < |s| ensures RaisedAt(s[i], r[i], L) {
          if i < |pat| {
            assert s[i] == pat[i] && r[i] == rep[i];
          } else {
            assert s[i] == s[|pat|..][i - |pat|];
          }
        }
      } else {
        ReplaceRaises(s[1..], pat, rep, L);
        forall i | 0 <= i < |s| ensures RaisedAt(s[i], r[i], L) {
          if i > 0 {
            assert s[i] == s[1..][i - 1];
          }
        }
      }
    }
  }

  /**
   * Raising letters of `L` cannot create an occurrence of a pattern that
   * holds none of their upper-case forms.
   */
  lemma RaisesKeepsNoOccurrence(s: string, r: string, p: string, L: set<char>)
    requires Raises(s, r, L)
    requires forall c :: c in L ==> ToTitle(c) !in p
    requires NoOccurrence(s, p)
    ensures NoOccurrence(r, p)
  {
    forall i ensures !OccursAt(r, p, i) {
      if 0 <= i && i + |p| <= |r| {
        assert !OccursAt(s, p, i);
        var j :| 0 <= j < |p| && s[i..i + |p|][j] != p[j];
        assert RaisedAt(s[i + j], r[i + j], L);
        assert r[i..i + |p|][j] == r[i + j];
      }
    }
  }

  /**
   * When `s` does not begin with `q`, neither does its replacement, provided
   * `q` avoids the first character that `pat` and `rep` share.
   */
  lemma {:induction false} ReplaceKeepsMismatch(s: string, pat: string, rep: string, q: string)
    requires pat != [] && rep != [] && rep[0] == pat[0]
    requires pat[0] !in q
    requires |s| < |q| || s[..|q|] != q
    ensures |Replace(s, pat, rep)| < |q| || Replace(s, pat, rep)[..|q|] != q
    decreases |s|
  {
    var r := Replace(s, pat, rep);
    if q != [] && |s| >= |pat| {
      if s[..|pat|] == pat {
        assert r[0] == pat[0];
        if |r| >= |q| {
          assert r[..|q|][0] != q[0];
        }
      } else if s[0] != q[0] {
        if |r| >= |q| {
          assert r[..|q|][0] != q[0];
        }
      } else {
        if |s| >= |q| {
          assert s[..|q|] == [s[0]] + s[1..][..|q| - 1];
        }
        ReplaceKeepsMismatch(s[1..], pat, rep, q[1..]);
        if |r| >= |q| {
          assert r[..|q|] == [s[0]] + Replace(s[1..], pat, rep)[..|q| - 1];
        }
      }
    }
  }

  /**
   * When `pat` cannot overlap itself, each of its occurrences is replaced in
   * place by `rep` of the same length.
   */
  lemma {:induction false} ReplaceKeepsOccurrence(s: string, pat: string, rep: string, i: int)
    requires pat != [] && |rep| == |pat| && pat[0] !in pat[1..]
    requires OccursAt(s, pat, i)
    ensures OccursAt(Replace(s, pat, rep), rep, i)
    decreases |s|
  {
    assert s[i] == pat[0] by { assert s[i..i + |pat|][0] == s[i]; }
    if s[..|pat|] == pat {
      ReplaceUnfoldMatch(s, pat, rep);
      if i == 0 {
        assert Replace(s, pat, rep)[..|pat|] == rep;
      } else {
        NoOverlap(s, pat, i);
        OccursShift(s, pat, pat, |pat|, i);
        ReplaceKeepsOccurrence(s[|pat|..], pat, rep, i - |pat|);
        OccursAfter(rep, Replace(s[|pat|..], pat, rep), rep, i - |pat|);
      }
    } else {
      assert i != 0;
      ReplaceUnfoldMiss(s, pat, rep);
      OccursShift(s, pat, pat, 1, i);
      ReplaceKeepsOccurrence(s[1..], pat, rep, i - 1);
      OccursAfter([s[0]], Replace(s[1..], pat, rep), rep, i - 1);
    }
  }

  /** The start case of ReplaceKeepsOther: a scan that does not match at `q` passes over it. */
  lemma ReplaceKeepsOtherAtStart(s: string, pat: string, rep: string, q: string)
    requires pat != [] && |s| >= |pat| && s[..|pat|] != pat
    requires q != [] && q[0] == pat[0] && pat[0] !in q[1..]
    requires OccursAt(s, q, 0)
    ensures OccursAt(Replace(s, pat, rep), q, 0)
  {
    var tail := s[|q|..];
    assert s[1..] == q[1..] + tail by { assert s[..|q|] == q; }
    ReplaceSkipPrefix(q[1..], tail, pat, rep);
    var r := Replace(s, pat, rep);
    assert r == [s[0]] + q[1..] + Replace(tail, pat, rep);
    assert r[..|q|] == [s[0]] + q[1..];
  }

  /**
   * Text `q` that starts with the pattern's first character, holds it
   * nowhere else and is not itself an occurrence of the pattern is left in
   * place by the replacement.
   */
  lemma {:induction false} ReplaceKeepsOther(s: string, pat: string, rep: string, q: string, i: int)
    requires pat != [] && |rep| == |pat| && pat[0] !in pat[1..]
    requires q != [] && q[0] == pat[0] && pat[0] !in q[1..]
    requires OccursAt(s, q, i) && !OccursAt(s, pat, i)
    ensures OccursAt(Replace(s, pat, rep), q, i)
    decreases |s|, 1
  {
    if |s| < |pat| {
      assert Replace(s, pat, rep) == s;
    } else if i == 0 && s[..|pat|] != pat {
      ReplaceKeepsOtherAtStart(s, pat, rep, q);
    } else {
      ReplaceKeepsOtherStep(s, pat, rep, q, i);
    }
  }

  /** The step of ReplaceKeepsOther that moves past a match, or past one character, before `q`. */
  lemma {:induction false} ReplaceKeepsOtherStep(s: string, pat: string, rep: string, q: string, i: int)
    requires pat != [] && |rep| == |pat| && pat[0] !in pat[1..]
    requires q != [] && q[0] == pat[0] && pat[0] !in q[1..]
    requires OccursAt(s, q, i) && !OccursAt(s, pat, i)
    requires |s| >= |pat| && (i != 0 || s[..|pat|] == pat)
    ensures OccursAt(Replace(s, pat, rep), q, i)
    decreases |s|, 0
  {
    assert s[i] == pat[0] by { assert s[i..i + |q|][0] == s[i]; }
    if s[..|pat|] == pat {
      NoOverlap(s, pat, i);
      ReplaceUnfoldMatch(s, pat, rep);
      OccursShift(s, q, pat, |pat|, i);
      ReplaceKeepsOther(s[|pat|..], pat, rep, q, i - |pat|);
      OccursAfter(rep, Replace(s[|pat|..], pat, rep), q, i - |pat|);
    } else {
      ReplaceUnfoldMiss(s, pat, rep);
      OccursShift(s, q, pat, 1, i);
      ReplaceKeepsOther(s[1..], pat, rep, q, i - 1);
      OccursAfter([s[0]], Replace(s[1..], pat, rep), q, i - 1);
    }
  }

  /** An occurrence in `t` is one in `h + t`, shifted by the length of `h`. */
  /** Index `k` lies inside some occurrence of `p` in `s`. */
  ghost predicate Covered(s: string, p: string, k: int) {
    exists i :: k - |p| < i <= k && OccursAt(s, p, i)
  }

  /** A replacement as long as the pattern keeps the length. */
  lemma {:induction false} ReplaceSameLength(s: string, pat: string, rep: string)
    requires pat != [] && |rep| == |pat|
    ensures |Replace(s, pat, rep)| == |s|
    decreases |s|
  {
    if |s| >= |pat| {
      if s[..|pat|] == pat {
        ReplaceSameLength(s[|pat|..], pat, rep);
      } else {
        ReplaceSameLength(s[1..], pat, rep);
      }
    }
  }

  /**
   * With a replacement as long as the pattern, a character that no
   * occurrence of the pattern covers is copied to the same index.
   */
  lemma {:induction false} ReplaceKeepsUncovered(s: string, pat: string, rep: string, k: int)
    requires pat != [] && |rep| == |pat| && 0 <= k < |s|
    requires !Covered(s, pat, k)
    ensures |Replace(s, pat, rep)| == |s| && Replace(s, pat, rep)[k] == s[k]
    decreases |s|
  {
    ReplaceSameLength(s, pat, rep);
    if |s| >= |pat| {
      var hit := s[..|pat|] == pat;
      var n := if hit then |pat| else 1;
      if hit {
        assert OccursAt(s, pat, 0);
        ReplaceUnfoldMatch(s, pat, rep);
      } else {
        ReplaceUnfoldMiss(s, pat, rep);
      }
      if k >= n {
        var t := s[n..];
        forall i | k - n - |pat| < i <= k - n ensures !OccursAt(t, pat, i) {
          if OccursAt(t, pat, i) {
            OccursInTail(s, pat, n, i);
          }
        }
        ReplaceKeepsUncovered(t, pat, rep, k - n);
        assert s[k] == t[k - n];
      }
    }
  }

  /**
   * Raising letters of `L` cannot create an occurrence of a pattern that
   * holds none of their upper-case forms: every occurrence after raising
   * was one before.
   */
  lemma RaisesReflectsOccurrence(s: string, r: string, p: string, L: set<char>, i: int)
    requires Raises(s, r, L)
    requires forall c :: c in L ==> ToTitle(c) !in p
    requires OccursAt(r, p, i)
    ensures OccursAt(s, p, i)
  {
    forall j | 0 <= j < |p| ensures s[i..i + |p|][j] == p[j] {
      assert r[i..i + |p|][j] == r[i + j];
      assert RaisedAt(s[i + j], r[i + j], L);
    }
  }

  lemma OccursAfter(h: string, t: string, q: string, j: int)
    requires OccursAt(t, q, j)
    ensures OccursAt(h + t, q, j + |h|)
  {
    SliceOfAppend(h, t, j + |h|, j + |h| + |q|);
  }

  lemma ReplaceUnfoldMatch(s: string, pat: string, rep: string)
    requires pat != [] && |s| >= |pat| && s[..|pat|] == pat
    ensures Replace(s, pat, rep) == rep + Replace(s[|pat|..], pat, rep)
  {
  }

  lemma ReplaceUnfoldMiss(s: string, pat: string, rep: string)
    requires pat != [] && |s| >= |pat| && s[..|pat|] != pat
    ensures Replace(s, pat, rep) == [s[0]] + Replace(s[1..], pat, rep)
  {
  }

  /** A pattern whose first character does not recur cannot start again inside its own occurrence. */
  lemma NoOverlap(s: string, pat: string, i: int)
    requires pat != [] && pat[0] !in pat[1..]
    requires |s| >= |pat| && s[..|pat|] == pat
    requires 0 < i < |s| && s[i] == pat[0]
    ensures i >= |pat|
  {
  }

  /** Dropping `k` characters before index `i` moves an occurrence, and a non-occurrence, back by `k`. */
  lemma OccursShift(s: string, q: string, p: string, k: int, i: int)
    requires 0 <= k <= i && k <= |s|
    ensures OccursAt(s, q, i) ==> OccursAt(s[k..], q, i - k)
    ensures !OccursAt(s, p, i) ==> !OccursAt(s[k..], p, i - k)
  {
    if i + |q| <= |s| {
      assert s[k..][i - k..i - k + |q|] == s[i..i + |q|];
    }
    if i + |p| <= |s| {
      assert s[k..][i - k..i - k + |p|] == s[i..i + |p|];
    }
  }

  lemma TakeCons(s: string, n: int)
    requires 1 <= n <= |s|
    ensures s[..n] == [s[0]] + s[1..][..n - 1]
  {
    assert forall k :: 0 <= k < n ==> s[..n][k] == ([s[0]] + s[1..][..n - 1])[k];
  }

  /** A slice lying in the second part of a concatenation. */
  lemma SliceOfAppend(x: string, y: string, i: int, j: int)
    requires |x| <= i <= j <= |x| + |y|
    ensures (x + y)[i..j] == y[i - |x|..j - |x|]
  {
  }

  /**
   * Replace leaves no occurrence of `pat` behind, provided the replacement
   * cannot start a fresh one: `pat` and `rep` share their first character,
   * which appears nowhere else in either.
   */
  lemma {:induction false} ReplaceLeavesNone(s: string, pat: string, rep: string)
    requires pat != [] && |rep| == |pat| && rep != pat
    requires rep[0] == pat[0] && pat[0] !in pat[1..] && pat[0] !in rep[1..]
    ensures NoOccurrence(Replace(s, pat, rep), pat)
    decreases |s|
  {
    var r := Replace(s, pat, rep);
    if |s| >= |pat| {
      if s[..|pat|] == pat {
        var t := Replace(s[|pat|..], pat, rep);
        assert r == rep + t;
        ReplaceLeavesNone(s[|pat|..], pat, rep);
        NoOccurrenceAfterReplacement(rep, t, pat);
      } else {
        var t := Replace(s[1..], pat, rep);
        assert r == [s[0]] + t;
        ReplaceLeavesNone(s[1..], pat, rep);
        if |r| >= |pat| {
          if s[0] == pat[0] {
            TakeCons(s, |pat|);
            ReplaceKeepsMismatch(s[1..], pat, rep, pat[1..]);
            assert r[..|pat|] == [s[0]] + t[..|pat| - 1];
          } else {
            assert r[..|pat|][0] != pat[0];
          }
        }
        NoOccurrenceAfterChar(s[0], t, pat);
      }
    }
  }

  /** After a replacement, `pat` can only start in what follows it. */
  lemma NoOccurrenceAfterReplacement(rep: string, t: string, pat: string)
    requires pat != [] && |rep| == |pat| && rep != pat
    requires pat[0] !in rep[1..]
    requires NoOccurrence(t, pat)
    ensures NoOccurrence(rep + t, pat)
  {
    var r := rep + t;
    forall i ensures !OccursAt(r, pat, i) {
      if !(0 <= i && i + |pat| <= |r|) {
      } else if i == 0 {
        assert r[..|pat|] == rep;
      } else if i < |rep| {
        assert r[i..i + |pat|][0] == rep[i] == rep[1..][i - 1];
      } else {
        SliceOfAppend(rep, t, i, i + |pat|);
        assert !OccursAt(t, pat, i - |rep|);
      }
    }
  }

  /** A character in front of a string free of `pat` adds no occurrence unless one starts at it. */
  lemma NoOccurrenceAfterChar(c: char, t: string, pat: string)
    requires NoOccurrence(t, pat)
    requires !OccursAt([c] + t, pat, 0)
    ensures NoOccurrence([c] + t, pat)
  {
    var r := [c] + t;
    forall i ensures !OccursAt(r, pat, i) {
      if 0 < i && i + |pat| <= |r| {
        SliceOfAppend([c], t, i, i + |pat|);
        assert !OccursAt(t, pat, i - 1);
      }
    }
  }

  // ---------------------------------------------------------------------
  // strings.Title
  // ---------------------------------------------------------------------

  /** strings.Title's scan, `prev` being the character before `s`. */
  function TitleFrom(prev: char, s: string): (r: string)
    ensures |r| == |s|
    ensures forall i {:trigger r[i]} :: 0 <= i < |s| ==>
      r[i] == if (if i == 0 then IsSeparator(prev) else IsSeparator(s[i - 1])) then ToTitle(s[i]) else s[i]
    decreases |s|
  {
    if s == [] then []
    else [if IsSeparator(prev) then ToTitle(s[0]) else s[0]] + TitleFrom(s[0], s[1..])
  }

  /**
   * Upper-cases each letter at the start of the string or after a
   * separator, and leaves every other character as it is.
   */
  function Title(s: string): (r: string)
    ensures |r| == |s|
    ensures forall i {:trigger r[i]} :: 0 <= i < |s| ==> r[i] == if WordStart(s, i) then ToTitle(s[i]) else s[i]
  {
    TitleFrom(' ', s)
  }

  /** Title treats the text after a separator as a fresh string. */
  lemma TitleAppend(a: string, b: string)
    requires a != [] && IsSeparator(a[|a| - 1])
    ensures Title(a + b) == Title(a) + Title(b)
  {
    var s, r := a + b, Title(a) + Title(b);
    forall i | 0 <= i < |s| ensures Title(s)[i] == r[i] {
      if i < |a| {
        assert s[i] == a[i];
        assert WordStart(s, i) == WordStart(a, i);
      } else {
        assert s[i] == b[i - |a|];
        assert WordStart(s, i) == WordStart(b, i - |a|);
      }
    }
  }

  /** A non-empty run of lower-case ASCII letters. */
  predicate LowerWord(w: string) {
    w != [] && forall k :: 0 <= k < |w| ==> IsAsciiLower(w[k])
  }

  /** `w` with its first character title-cased. */
  function Capitalize(w: string): string
    requires w != []
  {
    [ToTitle(w[0])] + w[1..]
  }

  /**
   * A lower-case word followed by separators that are not letters gets its
   * first letter upper-cased and nothing else changed.
   */
  lemma TitleWordThen(w: string, t: string)
    requires LowerWord(w)
    requires forall k :: 0 <= k < |t| ==> IsSeparator(t[k]) && !IsAsciiLower(t[k])
    ensures Title(w + t) == Capitalize(w) + t
  {
    var s, r := w + t, Capitalize(w) + t;
    forall i | 0 <= i < |s| ensures Title(s)[i] == r[i] {
      if 0 < i <= |w| {
        assert s[i - 1] == w[i - 1];
      } else if i > |w| {
        assert s[i - 1] == t[i - 1 - |w|];
      }
    }
  }

  /** Two lower-case words joined by ", " are each capitalized. */
  lemma TitleTwoWords(w: string, v: string)
    requires LowerWord(w) && LowerWord(v)
    ensures Title(w + ", " + v) == Capitalize(w) + ", " + Capitalize(v)
  {
    TitleWordThen(w, ", ");
    TitleWordThen(v, []);
    assert v + [] == v;
    TitleAppend(w + ", ", v);
  }

  /** Three lower-case words: the first two joined by a space, the last after ", ". */
  lemma TitleThreeWords(w: string, x: string, v: string)
    requires LowerWord(w) && LowerWord(x) && LowerWord(v)
    ensures Title(w + " " + x + ", " + v) == Capitalize(w) + " " + Capitalize(x) + ", " + Capitalize(v)
  {
    TitleWordThen(w, " ");
    TitleTwoWords(x, v);
    assert w + " " + x + ", " + v == (w + " ") + (x + ", " + v);
    TitleAppend(w + " ", x + ", " + v);
  }

  /** Index `i` of `s` starts a word, for strings.Title. */
  predicate WordStart(s: string, i: int)
    requires 0 <= i < |s|
  {
    i == 0 || IsSeparator(s[i - 1])
  }

  /** No letter at the start of `s` or after a separator is lower-case. */
  predicate TitleCased(s: string) {
    forall i {:trigger WordStart(s, i)} :: 0 <= i < |s| && WordStart(s, i) ==> !IsAsciiLower(s[i])
  }

  lemma SeparatorOfToTitle(c: char)
    ensures IsSeparator(ToTitle(c)) == IsSeparator(c)
  {
    if IsAsciiLower(c) {
      assert 'a' as int <= c as int <= 'z' as int;
      assert ToTitle(c) as int <= 0x7F;
    }
  }

  lemma TitleIsTitleCased(s: string)
    ensures TitleCased(Title(s))
  {
    var r := Title(s);
    forall i | 0 <= i < |r| && WordStart(r, i) ensures !IsAsciiLower(r[i]) {
      if i > 0 {
        SeparatorOfToTitle(s[i - 1]);
      }
    }
  }

  /** Title changes nothing in a string that is already title-cased. */
  lemma TitleOfTitleCased(s: string)
    requires TitleCased(s)
    ensures Title(s) == s
  {
    var r := Title(s);
    forall i | 0 <= i < |s| ensures r[i] == s[i] {
      if WordStart(s, i) {
        assert !IsAsciiLower(s[i]);
      }
    }
  }

  /** Upper-casing lower-case letters keeps a string title-cased. */
  lemma RaisesKeepsTitleCased(s: string, r: string, L: set<char>)
    requires forall c :: c in L ==> IsAsciiLower(c)
    requires Raises(s, r, L) && TitleCased(s)
    ensures TitleCased(r)
  {
    forall i | 0 <= i < |r| && WordStart(r, i) ensures !IsAsciiLower(r[i]) {
      assert RaisedAt(s[i], r[i], L);
      if i > 0 {
        assert RaisedAt(s[i - 1], r[i - 1], L);
        SeparatorOfToTitle(s[i - 1]);
      }
      assert WordStart(s, i);
    }
  }

  // ---------------------------------------------------------------------
  // strings.Join and strings.Split
  // ---------------------------------------------------------------------

  function Join(elems: seq<string>, sep: string): string {
    if elems == [] then ""
    else if |elems| == 1 then elems[0]
    else elems[0] + sep + Join(elems[1..], sep)
  }

  /** The number of `c` across all of `elems`. */
  function SumCount(elems: seq<string>, c: char): nat {
    if elems == [] then 0 else CountChar(elems[0], c) + SumCount(elems[1..], c)
  }

  /** Joining with a separator free of `c` adds no `c`. */
  lemma {:induction false} JoinCount(elems: seq<string>, sep: string, c: char)
    requires c !in sep
    ensures CountChar(Join(elems, sep), c) == SumCount(elems, c)
  {
    if |elems| > 1 {
      JoinCount(elems[1..], sep, c);
      CountCharAppend(elems[0], sep, c);
      CountCharAppend(elems[0] + sep, Join(elems[1..], sep), c);
    } else if |elems| == 1 {
      assert SumCount(elems[1..], c) == 0;
    }
  }

  /** The index of the first `c` in `s`. */
  function IndexOf(s: string, c: char): (i: nat)
    requires c in s
    ensures i < |s| && s[i] == c && c !in s[..i]
  {
    if s[0] == c then 0
    else
      var j := IndexOf(s[1..], c);
      assert s[..1 + j] == [s[0]] + s[1..][..j];
      1 + j
  }

  /** strings.Split with a one-character separator: the pieces between separators. */
  function Split(s: string, sep: char): (r: seq<string>)
    ensures r != []
    ensures forall i :: 0 <= i < |r| ==> sep !in r[i]
    decreases |s|
  {
    if sep !in s then [s]
    else
      var i := IndexOf(s, sep);
      [s[..i]] + Split(s[i + 1..], sep)
  }

  /** There is one piece more than separators. */
  lemma {:induction false} SplitCount(s: string, sep: char)
    ensures |Split(s, sep)| == CountChar(s, sep) + 1
    decreases |s|
  {
    if sep in s {
      var i := IndexOf(s, sep);
      assert s == s[..i] + [sep] + s[i + 1..];
      CountCharAppend(s[..i] + [sep], s[i + 1..], sep);
      CountCharAppend(s[..i], [sep], sep);
      SplitCount(s[i + 1..], sep);
    }
  }

  /** Joining the pieces back with the separator restores the string. */
  lemma {:induction false} SplitJoin(s: string, sep: char)
    ensures Join(Split(s, sep), [sep]) == s
    decreases |s|
  {
    if sep in s {
      var i := IndexOf(s, sep);
      var rest := Split(s[i + 1..], sep);
      SplitJoin(s[i + 1..], sep);
      JoinFirst(s[..i], rest, [sep]);
      assert s[..i] + [sep] + s[i + 1..] == s;
    }
  }

  // ---------------------------------------------------------------------
  // strings.Fields
  // ---------------------------------------------------------------------

  predicate NoSpace(w: string) {
    forall k :: 0 <= k < |w| ==> !IsSpace(w[k])
  }

  /** Length of the longest prefix of `s` without white space. */
  function WordLength(s: string): (n: nat)
    ensures n <= |s| && NoSpace(s[..n])
    ensures n == |s| || IsSpace(s[n])
  {
    if s == [] || IsSpace(s[0]) then 0 else 1 + WordLength(s[1..])
  }

  /** The maximal runs of non-space characters of `s`, in order. */
  function Fields(s: string): (r: seq<string>)
    ensures forall i :: 0 <= i < |r| ==> r[i] != [] && NoSpace(r[i])
    decreases |s|
  {
    if s == [] then []
    else if IsSpace(s[0]) then Fields(s[1..])
    else
      var n := WordLength(s);
      [s[..n]] + Fields(s[n..])
  }

  function Concat(ws: seq<string>): string {
    if ws == [] then "" else ws[0] + Concat(ws[1..])
  }

  /** `s` with its white space removed. */
  function DropSpaces(s: string): string {
    if s == [] then "" else (if IsSpace(s[0]) then "" else [s[0]]) + DropSpaces(s[1..])
  }

  lemma {:induction false} DropSpacesAppend(a: string, b: string)
    ensures DropSpaces(a + b) == DropSpaces(a) + DropSpaces(b)
  {
    if a == [] {
      assert a + b == b;
    } else {
      assert (a + b)[0] == a[0];
      assert (a + b)[1..] == a[1..] + b;
      DropSpacesAppend(a[1..], b);
    }
  }

  lemma {:induction false} DropSpacesOfWord(w: string)
    requires NoSpace(w)
    ensures DropSpaces(w) == w
  {
    if w != [] {
      DropSpacesOfWord(w[1..]);
    }
  }

  /** Fields loses exactly the white space: no other character is dropped or moved. */
  lemma {:induction false} FieldsConcat(s: string)
    ensures Concat(Fields(s)) == DropSpaces(s)
    decreases |s|
  {
    if s != [] {
      if IsSpace(s[0]) {
        FieldsConcat(s[1..]);
      } else {
        var n := WordLength(s);
        FieldsConcat(s[n..]);
        assert s == s[..n] + s[n..];
        DropSpacesAppend(s[..n], s[n..]);
        DropSpacesOfWord(s[..n]);
        assert ([s[..n]] + Fields(s[n..]))[1..] == Fields(s[n..]);
      }
    }
  }

  lemma {:induction false} WordLengthOf(w: string, t: string)
    requires NoSpace(w)
    requires t == [] || IsSpace(t[0])
    ensures WordLength(w + t) == |w|
  {
    if w != [] {
      assert (w + t)[1..] == w[1..] + t;
      WordLengthOf(w[1..], t);
    }
  }

  /** Fields undoes a join with single spaces of non-empty space-free words. */
  lemma {:induction false} FieldsOfJoin(ws: seq<string>)
    requires forall i :: 0 <= i < |ws| ==> ws[i] != [] && NoSpace(ws[i])
    ensures Fields(Join(ws, " ")) == ws
  {
    if ws == [] {
    } else if |ws| == 1 {
      var w := ws[0];
      WordLengthOf(w, "");
      assert w + "" == w;
      assert w[|w|..] == [];
      assert w[..|w|] == w;
    } else {
      var w, rest := ws[0], Join(ws[1..], " ");
      var s := w + " " + rest;
      assert s == w + (" " + rest);
      WordLengthOf(w, " " + rest);
      assert s[..|w|] == w;
      assert s[|w|..] == " " + rest;
      assert (" " + rest)[1..] == rest;
      FieldsOfJoin(ws[1..]);
      assert Fields(s) == [w] + ws[1..];
    }
  }

  /** A word followed by white space (or nothing) is the word's whole run. */
  lemma {:induction false} WordLengthAppend(s: string, t: string)
    requires t == [] || IsSpace(t[0])
    ensures WordLength(s + t) == WordLength(s)
  {
    if s == [] {
      assert s + t == t;
    } else if !IsSpace(s[0]) {
      assert (s + t)[1..] == s[1..] + t;
      WordLengthAppend(s[1..], t);
    }
  }

  /** A trailing space adds no field. */
  lemma {:induction false} FieldsTrailingSpace(s: string)
    ensures Fields(s + " ") == Fields(s)
    decreases |s|
  {
    if s == [] {
      assert s + " " == " ";
      assert " "[1..] == [];
    } else if IsSpace(s[0]) {
      assert (s + " ")[1..] == s[1..] + " ";
      FieldsTrailingSpace(s[1..]);
    } else {
      var n := WordLength(s);
      WordLengthAppend(s, " ");
      if n == |s| {
        assert (s + " ")[..n] == s[..n];
        assert (s + " ")[n..] == " ";
        assert " "[1..] == [];
        assert s[n..] == [];
      } else {
        assert (s + " ")[..n] == s[..n];
        assert (s + " ")[n..] == s[n..] + " ";
        FieldsTrailingSpace(s[n..]);
      }
    }
  }

  /** A leading space adds no field. */
  lemma FieldsLeadingSpace(s: string)
    ensures Fields(" " + s) == Fields(s)
  {
    assert (" " + s)[1..] == s;
  }

  /** The piece before the first separator comes first; the rest splits on its own. */
  lemma SplitFirst(a: string, b: string, sep: char)
    requires sep !in a
    ensures Split(a + [sep] + b, sep) == [a] + Split(b, sep)
  {
    var s := a + [sep] + b;
    assert s[..|a|] == a && s[|a|] == sep;
    assert IndexOf(s, sep) == |a|;
    assert s[|a| + 1..] == b;
  }

  lemma JoinFirst(w: string, rest: seq<string>, sep: string)
    requires rest != []
    ensures Join([w] + rest, sep) == w + sep + Join(rest, sep)
  {
    assert ([w] + rest)[1..] == rest;
  }

  /** Two separator-free pieces joined by the separator split back into the two. */
  lemma SplitTwoPieces(a: string, b: string, sep: char)
    requires sep !in a && sep !in b
    ensures Split(a + [sep] + b, sep) == [a, b]
  {
    SplitFirst(a, b, sep);
  }

  lemma JoinFive(a: string, b: string, c: string, d: string, e: string, sep: string)
    ensures Join([a, b, c, d, e], sep) == a + sep + b + sep + c + sep + d + sep + e
  {
    JoinFirst(a, [b, c, d, e], sep);
    assert [a] + [b, c, d, e] == [a, b, c, d, e];
    JoinFirst(b, [c, d, e], sep);
    assert [b] + [c, d, e] == [b, c, d, e];
    JoinFirst(c, [d, e], sep);
    assert [c] + [d, e] == [c, d, e];
    JoinFirst(d, [e], sep);
    assert [d] + [e] == [d, e];
  }
}
