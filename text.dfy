/** Python `str` operations the preprocessing code relies on, over `seq<char>`:
    strip, startswith/endswith, `in`, split/join, replace, ASCII lower and the
    code-point order used by `sorted`. */
module Text {

  /** The characters for which Python's `str.isspace()` holds; `str.strip()`
      discards exactly these at both ends. */
  predicate IsSpace(c: char) {
    || ('\U{9}' <= c <= '\U{D}')
    || ('\U{1C}' <= c <= '\U{20}')
    || c == '\U{85}' || c == '\U{A0}' || c == '\U{1680}'
    || ('\U{2000}' <= c <= '\U{200A}')
    || c == '\U{2028}' || c == '\U{2029}' || c == '\U{202F}' || c == '\U{205F}' || c == '\U{3000}'
  }

  function TrimStart(s: string): (r: string)
    ensures |r| <= |s| && r == s[|s| - |r|..]
    ensures r == [] || !IsSpace(r[0])
    ensures forall i :: 0 <= i < |s| - |r| ==> IsSpace(s[i])
  {
    if |s| > 0 && IsSpace(s[0]) then TrimStart(s[1..]) else s
  }

  function TrimEnd(s: string): (r: string)
    ensures |r| <= |s| && r == s[..|r|]
    ensures r == [] || !IsSpace(r[|r| - 1])
    ensures forall i :: |r| <= i < |s| ==> IsSpace(s[i])
  {
    if |s| > 0 && IsSpace(s[|s| - 1]) then TrimEnd(s[..|s| - 1]) else s
  }

  /** Python's `s.strip()`. */
  function Strip(s: string): (r: string)
    ensures r == [] || (!IsSpace(r[0]) && !IsSpace(r[|r| - 1]))
  {
    TrimEnd(TrimStart(s))
  }

  /** `strip()` gives the middle of `s` left once the white space at both
      ends is cut off. */
  lemma StripMiddle(s: string)
    ensures exists i, j ::
      && 0 <= i <= j <= |s| && Strip(s) == s[i..j]
      && (forall k :: 0 <= k < i ==> IsSpace(s[k]))
      && (forall k :: j <= k < |s| ==> IsSpace(s[k]))
  {
    var t := TrimStart(s);
    var r := TrimEnd(t);
    var i := |s| - |t|;
    var j := i + |r|;
    assert r == s[i..j];
    assert forall k :: j <= k < |s| ==> s[k] == t[k - i];
  }

  /** A string with no white space at either end is its own `strip()`. */
  lemma StripNoop(s: string)
    requires s == [] || (!IsSpace(s[0]) && !IsSpace(s[|s| - 1]))
    ensures Strip(s) == s
  {
    assert TrimStart(s) == s;
  }

  /** `strip()` applied twice strips no more than once. */
  lemma StripIdempotent(s: string)
    ensures Strip(Strip(s)) == Strip(s)
  {
    StripNoop(Strip(s));
  }

  predicate StartsWith(s: string, p: string) {
    |p| <= |s| && s[..|p|] == p
  }

  predicate EndsWith(s: string, p: string) {
    |p| <= |s| && s[|s| - |p|..] == p
  }

  /** Python's `sub in s` for two strings: `sub` starts at some position of `s`. */
  predicate Occurs(s: string, sub: string) {
    exists i :: 0 <= i <= |s| && StartsWith(s[i..], sub)
  }

  /** For a one-character needle, `in` is plain membership. */
  lemma OccursChar(s: string, c: char)
    ensures Occurs(s, [c]) <==> c in s
  {
    if c in s {
      var i :| 0 <= i < |s| && s[i] == c;
      assert StartsWith(s[i..], [c]);
    }
    if Occurs(s, [c]) {
      var i :| 0 <= i <= |s| && StartsWith(s[i..], [c]);
      assert s[i] == s[i..][..1][0];
    }
  }

  /** The pieces of Python's `s.split(sep)` after the first, scanning left to
      right for non-overlapping occurrences of `sep`; `cur` is the piece being
      accumulated. */
  function SplitFrom(s: string, sep: string, cur: string): (parts: seq<string>)
    requires |sep| > 0
    ensures |parts| >= 1
    decreases |s|
  {
    if |s| == 0 then [cur]
    else if StartsWith(s, sep) then [cur] + SplitFrom(s[|sep|..], sep, "")
    else SplitFrom(s[1..], sep, cur + [s[0]])
  }

  /** Python's `s.split(sep)` for a non-empty separator. */
  function Split(s: string, sep: string): seq<string>
    requires |sep| > 0
  {
    SplitFrom(s, sep, "")
  }

  function Last<T>(s: seq<T>): T
    requires |s| > 0
  {
    s[|s| - 1]
  }

  /** Python's `sep.join(parts)`. */
  function Join(parts: seq<string>, sep: string): string {
    if |parts| == 0 then ""
    else if |parts| == 1 then parts[0]
    else parts[0] + sep + Join(parts[1..], sep)
  }

  lemma {:induction false} JoinSplitFrom(s: string, sep: string, cur: string)
    requires |sep| > 0
    ensures Join(SplitFrom(s, sep, cur), sep) == cur + s
    decreases |s|
  {
    if |s| == 0 {
    } else if StartsWith(s, sep) {
      JoinSplitFrom(s[|sep|..], sep, "");
      assert s == sep + s[|sep|..];
    } else {
      JoinSplitFrom(s[1..], sep, cur + [s[0]]);
      assert cur + [s[0]] + s[1..] == cur + s;
    }
  }

  /** Joining the pieces of a split with the same separator gives the string back. */
  lemma JoinSplit(s: string, sep: string)
    requires |sep| > 0
    ensures Join(Split(s, sep), sep) == s
  {
    JoinSplitFrom(s, sep, "");
  }

  /** A non-empty suffix of the tail that begins with `sub` is one of `s` too. */
  lemma OccursInTail(s: string, sub: string)
    requires |s| > 0 && Occurs(s[1..], sub)
    ensures Occurs(s, sub)
  {
    var i :| 0 <= i <= |s| - 1 && StartsWith(s[1..][i..], sub);
    assert s[1..][i..] == s[i + 1..];
  }

  lemma {:induction false} SplitFromWithout(s: string, sep: string, cur: string)
    requires |sep| > 0
    ensures Occurs(s, sep) || SplitFrom(s, sep, cur) == [cur + s]
    decreases |s|
  {
    if |s| > 0 {
      if StartsWith(s, sep) {
        assert s[0..] == s;
        assert StartsWith(s[0..], sep);
      } else {
        SplitFromWithout(s[1..], sep, cur + [s[0]]);
        assert cur + [s[0]] + s[1..] == cur + s;
        assert SplitFrom(s, sep, cur) == SplitFrom(s[1..], sep, cur + [s[0]]);
        if Occurs(s[1..], sep) {
          OccursInTail(s, sep);
        } else {
          assert SplitFrom(s, sep, cur) == [cur + s];
        }
      }
    } else {
      assert cur + s == cur;
    }
  }

  /** Where `sep` does not occur, `split` returns the whole string as its one piece. */
  lemma SplitWithout(s: string, sep: string)
    requires |sep| > 0 && !Occurs(s, sep)
    ensures Split(s, sep) == [s]
  {
    SplitFromWithout(s, sep, "");
    assert "" + s == s;
  }

  lemma {:induction false} SplitFromSingle(s: string, sep: string, cur: string)
    requires |sep| > 0 && |SplitFrom(s, sep, cur)| == 1
    ensures SplitFrom(s, sep, cur) == [cur + s]
    decreases |s|
  {
    JoinSplitFrom(s, sep, cur);
  }

  lemma Assoc(a: string, b: string, c: string)
    ensures (a + b) + c == a + (b + c)
  {
  }

  lemma {:induction false} LastPieceFromClean(s: string, sep: string, cur: string)
    requires |sep| > 0
    requires forall i :: 0 <= i < |cur| ==> !StartsWith(cur[i..] + s, sep)
    ensures !Occurs(Last(SplitFrom(s, sep, cur)), sep)
    decreases |s|
  {
    if |s| == 0 {
      forall i | 0 <= i <= |cur| ensures !StartsWith(cur[i..], sep) {
        assert cur[i..] + s == cur[i..];
      }
    } else if StartsWith(s, sep) {
      LastPieceFromClean(s[|sep|..], sep, "");
    } else {
      var cur' := cur + [s[0]];
      forall i | 0 <= i < |cur'| ensures !StartsWith(cur'[i..] + s[1..], sep) {
        if i < |cur| {
          assert cur'[i..] + s[1..] == cur[i..] + s;
        } else {
          assert cur'[i..] + s[1..] == s;
        }
      }
      LastPieceFromClean(s[1..], sep, cur');
    }
  }

  lemma {:induction false} PiecesFromClean(s: string, sep: string, cur: string)
    requires |sep| > 0
    requires forall i :: 0 <= i < |cur| ==> !StartsWith(cur[i..] + s, sep)
    ensures forall p :: p in SplitFrom(s, sep, cur) ==> !Occurs(p, sep)
    decreases |s|
  {
    if |s| == 0 {
      forall i | 0 <= i <= |cur| ensures !StartsWith(cur[i..], sep) {
        assert cur[i..] + s == cur[i..];
      }
    } else if StartsWith(s, sep) {
      PiecesFromClean(s[|sep|..], sep, "");
    } else {
      var cur' := cur + [s[0]];
      forall i | 0 <= i < |cur'| ensures !StartsWith(cur'[i..] + s[1..], sep) {
        if i < |cur| {
          assert cur'[i..] + s[1..] == cur[i..] + s;
        } else {
          assert cur'[i..] + s[1..] == s;
        }
      }
      PiecesFromClean(s[1..], sep, cur');
    }
  }

  /** No piece of `s.split(sep)` contains `sep`. */
  lemma SplitPiecesWithout(s: string, sep: string)
    requires |sep| > 0
    ensures forall p :: p in Split(s, sep) ==> !Occurs(p, sep)
  {
    PiecesFromClean(s, sep, "");
  }

  lemma {:induction false} LastPieceFromSuffix(s: string, sep: string, cur: string)
    requires |sep| > 0
    ensures exists w :: cur + s == w + Last(SplitFrom(s, sep, cur))
    decreases |s|
  {
    var p := Last(SplitFrom(s, sep, cur));
    if |s| == 0 {
      assert cur + s == [] + p;
    } else if StartsWith(s, sep) {
      var rest := s[|sep|..];
      assert s == sep + rest;
      assert SplitFrom(s, sep, cur) == [cur] + SplitFrom(rest, sep, "");
      assert p == Last(SplitFrom(rest, sep, ""));
      LastPieceFromSuffix(rest, sep, "");
      assert "" + rest == rest;
      var w :| rest == w + p;
      Assoc(cur, sep, rest);
      Assoc(cur + sep, w, p);
      assert cur + s == (cur + sep + w) + p;
    } else {
      var cur' := cur + [s[0]];
      LastPieceFromSuffix(s[1..], sep, cur');
      assert cur' + s[1..] == cur + s;
      assert SplitFrom(s, sep, cur) == SplitFrom(s[1..], sep, cur');
    }
  }

  lemma {:induction false} LastPieceFromCut(s: string, sep: string, cur: string)
    requires |sep| > 0 && |SplitFrom(s, sep, cur)| >= 2
    ensures exists w :: cur + s == w + sep + Last(SplitFrom(s, sep, cur))
    decreases |s|
  {
    var p := Last(SplitFrom(s, sep, cur));
    if StartsWith(s, sep) {
      var rest := s[|sep|..];
      assert s == sep + rest;
      var parts := SplitFrom(rest, sep, "");
      assert p == Last(parts);
      assert "" + rest == rest;
      var left := cur + sep;
      Assoc(cur, sep, rest);
      assert cur + s == left + rest;
      if |parts| == 1 {
        SplitFromSingle(rest, sep, "");
        assert rest == p;
      } else {
        LastPieceFromCut(rest, sep, "");
        var w :| rest == w + sep + p;
        Assoc(left, w + sep, p);
        Assoc(left, w, sep);
        assert cur + s == (cur + sep + w) + sep + p;
      }
    } else {
      var cur' := cur + [s[0]];
      assert SplitFrom(s, sep, cur) == SplitFrom(s[1..], sep, cur');
      LastPieceFromCut(s[1..], sep, cur');
      assert cur' + s[1..] == cur + s;
    }
  }

  /** The last piece of `s.split(sep)` (Python's `s.split(sep)[-1]`) has no
      `sep` in it and ends `s`; when `s` was cut at all, `sep` stands right
      before it. */
  lemma LastPiece(s: string, sep: string)
    requires |sep| > 0
    ensures !Occurs(Last(Split(s, sep)), sep)
    ensures exists w :: s == w + Last(Split(s, sep))
    ensures |Split(s, sep)| >= 2 ==> exists w :: s == w + sep + Last(Split(s, sep))
  {
    LastPieceFromClean(s, sep, "");
    LastPieceFromSuffix(s, sep, "");
    if |Split(s, sep)| >= 2 {
      LastPieceFromCut(s, sep, "");
    }
    assert "" + s == s;
  }

  /** A string that begins with `sep` is cut at least once by `split(sep)`. */
  lemma SplitCuts(s: string, sep: string)
    requires |sep| > 0 && StartsWith(s, sep)
    ensures |Split(s, sep)| >= 2
  {
  }

  lemma {:induction false} FirstPieceFrom(s: string, c: char, cur: string)
    ensures SplitFrom(s, [c], cur)[0] == cur + if c in s then SplitOnce(s, c).0 else s
    decreases |s|
  {
    if |s| == 0 {
      assert cur + s == cur;
    } else if StartsWith(s, [c]) {
      assert s[0] == c;
      assert cur + SplitOnce(s, c).0 == cur;
    } else {
      assert s[0] != c;
      assert s == [s[0]] + s[1..];
      FirstPieceFrom(s[1..], c, cur + [s[0]]);
      assert (c in s) == (c in s[1..]);
      if c in s {
        assert SplitOnce(s, c).0 == [s[0]] + SplitOnce(s[1..], c).0;
        assert cur + [s[0]] + SplitOnce(s[1..], c).0 == cur + SplitOnce(s, c).0;
      } else {
        assert cur + [s[0]] + s[1..] == cur + s;
      }
    }
  }

  /** The first piece of `s.split(c)` is the text before the first `c`, or all
      of `s` when `c` does not occur. */
  lemma FirstPiece(s: string, c: char)
    ensures Split(s, [c])[0] == if c in s then SplitOnce(s, c).0 else s
  {
    FirstPieceFrom(s, c, "");
    assert "" + s == s;
    if c in s {
      assert "" + SplitOnce(s, c).0 == SplitOnce(s, c).0;
    }
  }

  /** Python's `s.replace(old, new)` for one-character arguments. */
  function Replace(s: string, from: char, to: char): (r: string)
    ensures |r| == |s|
    ensures forall i :: 0 <= i < |s| ==> r[i] == if s[i] == from then to else s[i]
  {
    if |s| == 0 then "" else [if s[0] == from then to else s[0]] + Replace(s[1..], from, to)
  }

  /** Python's `s.split(c, 1)` when `c` occurs in `s`: the text before and
      after the first `c`. */
  function SplitOnce(s: string, c: char): (r: (string, string))
    requires c in s
    ensures s == r.0 + [c] + r.1 && c !in r.0
  {
    if s[0] == c then ("", s[1..])
    else var t := SplitOnce(s[1..], c); ([s[0]] + t.0, t.1)
  }

  function LowerChar(c: char): char {
    if 'A' <= c <= 'Z' then (c as int + 32) as char else c
  }

  /** Python's `s.lower()`, for the ASCII letters. */
  function Lower(s: string): (r: string)
    ensures |r| == |s| && forall i :: 0 <= i < |s| ==> r[i] == LowerChar(s[i])
  {
    if |s| == 0 then "" else [LowerChar(s[0])] + Lower(s[1..])
  }

  /** Python's `<` on `str`: lexicographic by code point, a proper prefix first. */
  predicate Less(a: string, b: string) {
    if |a| == 0 then |b| > 0
    else if |b| == 0 then false
    else if a[0] != b[0] then a[0] < b[0]
    else Less(a[1..], b[1..])
  }

  lemma {:induction false} LessIrreflexive(a: string)
    ensures !Less(a, a)
  {
    if |a| > 0 { LessIrreflexive(a[1..]); }
  }

  lemma {:induction false} LessTransitive(a: string, b: string, c: string)
    requires Less(a, b) && Less(b, c)
    ensures Less(a, c)
  {
    if |a| > 0 && |b| > 0 && |c| > 0 && a[0] == b[0] && b[0] == c[0] {
      LessTransitive(a[1..], b[1..], c[1..]);
    }
  }

  lemma {:induction false} LessTotal(a: string, b: string)
    requires a != b
    ensures Less(a, b) || Less(b, a)
  {
    if |a| > 0 && |b| > 0 && a[0] == b[0] {
      assert a == [a[0]] + a[1..] && b == [b[0]] + b[1..];
      LessTotal(a[1..], b[1..]);
    }
  }

  predicate StrictlyIncreasing(s: seq<string>) {
    forall i, j :: 0 <= i < j < |s| ==> Less(s[i], s[j])
  }

  lemma {:induction false} MinimumExists(s: set<string>)
    requires s != {}
    ensures exists m :: m in s && forall y :: y in s && y != m ==> Less(m, y)
  {
    var x :| x in s;
    var rest := s - {x};
    if rest == {} {
      assert s == {x};
      assert x in s && forall y :: y in s && y != x ==> Less(x, y);
    } else {
      MinimumExists(rest);
      var m :| m in rest && forall y :: y in rest && y != m ==> Less(m, y);
      MinimumAdd(rest, m, x);
      assert rest + {x} == s;
    }
  }

  lemma MinimumAdd(rest: set<string>, m: string, x: string)
    requires m in rest && x !in rest
    requires forall y :: y in rest && y != m ==> Less(m, y)
    ensures exists n :: n in rest + {x} && forall y :: y in rest + {x} && y != n ==> Less(n, y)
  {
    if Less(m, x) {
      assert m in rest + {x} && forall y :: y in rest + {x} && y != m ==> Less(m, y);
    } else {
      LessTotal(m, x);
      forall y | y in rest + {x} && y != x ensures Less(x, y) {
        if y != m { LessTransitive(x, m, y); }
      }
      assert x in rest + {x};
    }
  }

  /** Python's `sorted(s)` for a set of strings: the elements, each once, in
      increasing order. */
  method Sorted(s: set<string>) returns (r: seq<string>)
    ensures StrictlyIncreasing(r)
    ensures forall x :: x in r <==> x in s
    ensures |r| == |s|
  {
    r := [];
    var rest := s;
    while rest != {}
      invariant StrictlyIncreasing(r)
      invariant rest <= s
      invariant forall x :: x in r <==> x in s && x !in rest
      invariant forall i, y :: 0 <= i < |r| && y in rest ==> Less(r[i], y)
      invariant |r| + |rest| == |s|
      decreases |rest|
    {
      MinimumExists(rest);
      var m :| m in rest && forall y :: y in rest && y != m ==> Less(m, y);
      r := r + [m];
      rest := rest - {m};
    }
  }

  /** Two increasing sequences with the same elements are equal, so the result
      of `sorted` depends only on the set it is given. */
  lemma {:induction false} IncreasingUnique(a: seq<string>, b: seq<string>)
    requires StrictlyIncreasing(a) && StrictlyIncreasing(b)
    requires forall x :: x in a <==> x in b
    ensures a == b
  {
    assert |b| > 0 ==> b[0] in a;
    if a == [] {
    } else {
      assert a[0] in b;
      var j :| 0 <= j < |b| && b[j] == a[0];
      if j > 0 {
        assert b[0] in a;
        var i :| 0 <= i < |a| && a[i] == b[0];
        assert Less(b[0], b[j]);
        LessIrreflexive(b[0]);
        assert i != 0;
        assert Less(a[0], a[i]);
        LessTransitive(a[0], b[0], a[0]);
        LessIrreflexive(a[0]);
        assert false;
      }
      forall x | x in a[1..] ensures x in b[1..] {
        var i :| 1 <= i < |a| && a[i] == x;
        assert Less(a[0], a[i]);
        LessIrreflexive(x);
        assert x in a;
        var k :| 0 <= k < |b| && b[k] == x;
        assert k != 0;
        assert b[1..][k - 1] == x;
      }
      forall x | x in b[1..] ensures x in a[1..] {
        var i :| 1 <= i < |b| && b[i] == x;
        assert Less(b[0], b[i]);
        LessIrreflexive(x);
        assert x in b;
        var k :| 0 <= k < |a| && a[k] == x;
        assert k != 0;
        assert a[1..][k - 1] == x;
      }
      IncreasingUnique(a[1..], b[1..]);
    }
  }
}
