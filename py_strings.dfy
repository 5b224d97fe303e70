/** The Python `str` operations the backend relies on: `isspace`, `strip`,
    `split` with an explicit separator, `join`, `startswith` and the
    substring test `sub in s`. Strings are sequences of Unicode scalar
    values. */
module PyStrings {

  /** `c.isspace()`: the characters Python treats as whitespace. */
  predicate IsSpace(c: char) {
    c == ' ' || '\t' <= c <= '\r' || '\U{1c}' <= c <= '\U{1f}'
    || c == '\U{85}' || c == '\U{a0}' || c == '\U{1680}'
    || '\U{2000}' <= c <= '\U{200a}' || c == '\U{2028}' || c == '\U{2029}'
    || c == '\U{202f}' || c == '\U{205f}' || c == '\U{3000}'
  }

  predicate AllSpace(s: string) {
    forall k :: 0 <= k < |s| ==> IsSpace(s[k])
  }

  /** Neither the first nor the last character is whitespace. */
  predicate IsStripped(s: string) {
    s == [] || (!IsSpace(s[0]) && !IsSpace(s[|s| - 1]))
  }

  predicate StartsWith(s: string, prefix: string) {
    |prefix| <= |s| && s[..|prefix|] == prefix
  }

  predicate EndsWith(s: string, suffix: string) {
    |suffix| <= |s| && s[|s| - |suffix|..] == suffix
  }

  predicate OccursAt(s: string, sub: string, i: nat) {
    i + |sub| <= |s| && s[i..i + |sub|] == sub
  }

  /** `sub in s`; the empty string occurs in every string. */
  predicate Contains(s: string, sub: string) {
    exists i: nat :: i <= |s| && OccursAt(s, sub, i)
  }

  /** The end of the run of whitespace in `s` that starts at `i`. */
  function SpaceRunEnd(s: string, i: nat): (j: nat)
    requires i <= |s|
    ensures i <= j <= |s|
    ensures forall k :: i <= k < j ==> IsSpace(s[k])
    ensures j == |s| || !IsSpace(s[j])
    decreases |s| - i
  {
    if i < |s| && IsSpace(s[i]) then SpaceRunEnd(s, i + 1) else i
  }

  /** The start of the run of whitespace in `s[lo..j]` that ends at `j`. */
  function SpaceRunStart(s: string, lo: nat, j: nat): (i: nat)
    requires lo <= j <= |s|
    ensures lo <= i <= j
    ensures forall k :: i <= k < j ==> IsSpace(s[k])
    ensures i == lo || !IsSpace(s[i - 1])
  {
    if lo < j && IsSpace(s[j - 1]) then SpaceRunStart(s, lo, j - 1) else j
  }

  /** `r` is `s[i..]` cut short by whitespace only: what lies before and
      after it in `s` is all whitespace. */
  predicate Trims(s: string, r: string, i: nat) {
    && i + |r| <= |s|
    && r == s[i..i + |r|]
    && (forall k :: 0 <= k < i ==> IsSpace(s[k]))
    && (forall k :: i + |r| <= k < |s| ==> IsSpace(s[k]))
  }

  /** `s.strip()`: `s` with leading and trailing whitespace removed. */
  function Strip(s: string): (r: string)
    ensures IsStripped(r)
    ensures exists i: nat :: Trims(s, r, i)
  {
    var i := SpaceRunEnd(s, 0);
    var e := SpaceRunStart(s, i, |s|);
    assert Trims(s, s[i..e], i);
    assert e > i ==> s[i..e][0] == s[i] && s[i..e][e - i - 1] == s[e - 1];
    s[i..e]
  }

  /** `s.split(sep)` for a non-empty separator: the pieces between the
      occurrences of `sep`, which are found left to right without overlap. */
  function Split(s: string, sep: string): (r: seq<string>)
    requires sep != []
    ensures |r| >= 1
    decreases |s|
  {
    if |s| < |sep| then [s]
    else if StartsWith(s, sep) then [[]] + Split(s[|sep|..], sep)
    else
      var rest := Split(s[1..], sep);
      [[s[0]] + rest[0]] + rest[1..]
  }

  /** `sep.join(xs)` */
  function Join(xs: seq<string>, sep: string): string {
    if |xs| == 0 then []
    else if |xs| == 1 then xs[0]
    else xs[0] + sep + Join(xs[1..], sep)
  }

  /** A separator at the front cuts off an empty first piece. */
  lemma SplitAtSeparator(sep: string, t: string)
    requires sep != []
    ensures Split(sep + t, sep) == [[]] + Split(t, sep)
  {
    var s := sep + t;
    assert StartsWith(s, sep) && s[|sep|..] == t;
  }

  /** A character that does not start a separator joins the first piece. */
  lemma SplitAtChar(c: char, t: string, sep: string)
    requires sep != [] && |sep| <= 1 + |t| && !StartsWith([c] + t, sep)
    ensures Split([c] + t, sep) == [[c] + Split(t, sep)[0]] + Split(t, sep)[1..]
  {
    var s := [c] + t;
    assert s[0] == c && s[1..] == t;
  }

  lemma JoinCons(x: string, xs: seq<string>, sep: string)
    requires xs != []
    ensures Join([x] + xs, sep) == x + sep + Join(xs, sep)
  {
    assert ([x] + xs)[1..] == xs;
  }

  /** Prefixing one character to the first piece prefixes it to the join. */
  lemma JoinExtendFirst(c: char, xs: seq<string>, sep: string)
    requires xs != []
    ensures Join([[c] + xs[0]] + xs[1..], sep) == [c] + Join(xs, sep)
  {
    if |xs| > 1 {
      assert xs == [xs[0]] + xs[1..];
      JoinCons([c] + xs[0], xs[1..], sep);
      JoinCons(xs[0], xs[1..], sep);
    }
  }

  /** Joining the pieces of a split with the same separator gives back the
      original string. */
  lemma {:induction false} JoinSplit(s: string, sep: string)
    requires sep != []
    ensures Join(Split(s, sep), sep) == s
    decreases |s|
  {
    if |s| < |sep| {
    } else if StartsWith(s, sep) {
      var t := s[|sep|..];
      assert s == sep + t;
      JoinSplit(t, sep);
      SplitAtSeparator(sep, t);
      JoinCons([], Split(t, sep), sep);
    } else {
      var t := s[1..];
      assert s == [s[0]] + t;
      JoinSplit(t, sep);
      SplitAtChar(s[0], t, sep);
      JoinExtendFirst(s[0], Split(t, sep), sep);
    }
  }

  /** No piece of a split at a one-character separator contains that
      character. */
  lemma {:induction false} SplitPiecesFree(s: string, c: char)
    ensures forall k :: 0 <= k < |Split(s, [c])| ==> c !in Split(s, [c])[k]
    decreases |s|
  {
    if |s| >= 1 {
      var t := s[1..];
      SplitPiecesFree(t, c);
      if s[0] == c {
        assert s == [c] + t;
        SplitAtSeparator([c], t);
      } else {
        assert s == [s[0]] + t;
        SplitAtChar(s[0], t, [c]);
      }
    }
  }

  /** Past a first character that does not start `sub`, `sub` occurs in
      `s` exactly when it occurs in the rest of `s`. */
  lemma ContainsPastFirst(s: string, sub: string)
    requires s != [] && !OccursAt(s, sub, 0)
    ensures Contains(s, sub) <==> Contains(s[1..], sub)
  {
    var t := s[1..];
    assert s == [s[0]] + t;
    forall i: nat | i + |sub| <= |t|
      ensures OccursAt(s, sub, i + 1) <==> OccursAt(t, sub, i)
    {
      assert s[i + 1..i + 1 + |sub|] == t[i..i + |sub|];
    }
    if Contains(s, sub) {
      var i: nat :| i <= |s| && OccursAt(s, sub, i);
      assert OccursAt(t, sub, i - 1);
    }
    if Contains(t, sub) {
      var i: nat :| i <= |t| && OccursAt(t, sub, i);
      assert OccursAt(s, sub, i + 1);
    }
  }

  /** A string splits into more than one piece exactly when it contains the
      separator, and into itself alone otherwise. */
  lemma {:induction false} SplitPieces(s: string, sep: string)
    requires sep != []
    ensures |Split(s, sep)| >= 2 <==> Contains(s, sep)
    ensures !Contains(s, sep) ==> Split(s, sep) == [s]
    decreases |s|
  {
    if |s| < |sep| {
      assert forall i: nat :: !OccursAt(s, sep, i);
    } else if StartsWith(s, sep) {
      var t := s[|sep|..];
      assert s == sep + t;
      SplitAtSeparator(sep, t);
      assert OccursAt(s, sep, 0);
    } else {
      var t := s[1..];
      assert s == [s[0]] + t;
      SplitPieces(t, sep);
      SplitAtChar(s[0], t, sep);
      ContainsPastFirst(s, sep);
    }
  }

  /** Splitting `a + sep + b`, where `sep` occurs nowhere before the end of
      `a`, cuts at that `sep` first. */
  lemma {:induction false} SplitAfter(a: string, sep: string, b: string)
    requires sep != []
    requires forall i: nat :: i < |a| ==> !OccursAt(a + sep + b, sep, i)
    ensures Split(a + sep + b, sep) == [a] + Split(b, sep)
    decreases |a|
  {
    var s := a + sep + b;
    if a == [] {
      assert s == sep + b;
      SplitAtSeparator(sep, b);
    } else {
      var t := a[1..] + sep + b;
      assert s == [a[0]] + t;
      assert !OccursAt(s, sep, 0);
      forall i: nat | i < |a[1..]|
        ensures !OccursAt(t, sep, i)
      {
        assert !OccursAt(s, sep, i + 1);
        assert s[i + 1..i + 1 + |sep|] == t[i..i + |sep|];
      }
      SplitAfter(a[1..], sep, b);
      SplitAtChar(a[0], t, sep);
      assert [a[0]] + a[1..] == a;
    }
  }

  lemma TrailingSeparatorAtSeparator(t: string, sep: string)
    requires |sep| == 1 && Split(t + sep, sep) == Split(t, sep) + [[]]
    ensures Split(sep + t + sep, sep) == Split(sep + t, sep) + [[]]
  {
    assert sep + t + sep == sep + (t + sep);
    SplitAtSeparator(sep, t + sep);
    SplitAtSeparator(sep, t);
  }

  lemma TrailingSeparatorAtChar(c: char, t: string, sep: string)
    requires |sep| == 1 && c != sep[0] && Split(t + sep, sep) == Split(t, sep) + [[]]
    ensures Split([c] + t + sep, sep) == Split([c] + t, sep) + [[]]
  {
    assert [c] + t + sep == [c] + (t + sep);
    SplitAtChar(c, t + sep, sep);
    SplitAtChar(c, t, sep);
    var y := Split(t, sep);
    assert (y + [[]])[0] == y[0] && (y + [[]])[1..] == y[1..] + [[]];
  }

  /** A string ending in a one-character separator splits into the pieces of
      the string before it, followed by one empty piece. */
  lemma {:induction false} SplitTrailingSeparator(s: string, sep: string)
    requires |sep| == 1
    ensures Split(s + sep, sep) == Split(s, sep) + [[]]
    decreases |s|
  {
    if s == [] {
      assert s + sep == sep + [];
      SplitAtSeparator(sep, []);
    } else {
      var t := s[1..];
      SplitTrailingSeparator(t, sep);
      if s[0] == sep[0] {
        assert s == sep + t;
        TrailingSeparatorAtSeparator(t, sep);
      } else {
        assert s == [s[0]] + t;
        TrailingSeparatorAtChar(s[0], t, sep);
      }
    }
  }

  /** A stripped `r` that `s` trims to, with a non-space character at `lo`
      and at `hi - 1` and only whitespace outside `lo..hi`, is exactly
      `s[lo..hi]`. */
  lemma TrimsBounds(s: string, r: string, i: nat, lo: nat, hi: nat)
    requires Trims(s, r, i) && IsStripped(r)
    requires lo < hi <= |s| && !IsSpace(s[lo]) && !IsSpace(s[hi - 1])
    requires forall k :: 0 <= k < lo ==> IsSpace(s[k])
    requires forall k :: hi <= k < |s| ==> IsSpace(s[k])
    ensures i == lo && i + |r| == hi && r == s[lo..hi]
  {
    assert i <= lo < i + |r|;
    assert i < hi <= i + |r|;
    assert r[0] == s[i] && r[|r| - 1] == s[i + |r| - 1];
  }

  /** Stripping a string made of whitespace, a stripped core and whitespace
      gives the core: `strip` removes whitespace at both ends and no more. */
  lemma StripUnique(a: string, m: string, b: string)
    requires AllSpace(a) && AllSpace(b) && IsStripped(m)
    ensures Strip(a + m + b) == m
  {
    var s := a + m + b;
    var r := Strip(s);
    var i: nat :| Trims(s, r, i);
    var lo, hi := |a|, |a| + |m|;
    assert forall k :: 0 <= k < lo ==> s[k] == a[k];
    assert forall k :: hi <= k < |s| ==> s[k] == b[k - hi];
    if m == [] {
      assert forall k :: 0 <= k < |s| ==> IsSpace(s[k]);
    } else {
      assert s[lo] == m[0] && s[hi - 1] == m[|m| - 1];
      TrimsBounds(s, r, i, lo, hi);
      assert s[lo..hi] == m;
    }
  }

  /** `strip` leaves a stripped string unchanged. */
  lemma StripOfStripped(s: string)
    requires IsStripped(s)
    ensures Strip(s) == s
  {
    StripUnique([], s, []);
    assert [] + s + [] == s;
  }

  /** `strip` is idempotent. */
  lemma StripIdempotent(s: string)
    ensures Strip(Strip(s)) == Strip(s)
  {
    StripOfStripped(Strip(s));
  }

  /** An occurrence of a substring with no whitespace at either end lies
      inside the part that `Trims` keeps. */
  lemma TrimsKeepsOccurrence(s: string, r: string, i: nat, sub: string, p: nat)
    requires Trims(s, r, i)
    requires sub != [] && IsStripped(sub) && OccursAt(s, sub, p)
    ensures i <= p && OccursAt(r, sub, p - i)
  {
    var q := p + |sub| - 1;
    assert s[p..p + |sub|][0] == s[p];
    assert s[p..p + |sub|][|sub| - 1] == s[q];
    assert i <= p && q < i + |r|;
    forall k | 0 <= k < |sub|
      ensures r[p - i + k] == sub[k]
    {
      assert r[p - i + k] == s[p + k];
      assert s[p..p + |sub|][k] == s[p + k];
    }
    assert r[p - i..p - i + |sub|] == sub;
  }

  /** A non-empty substring with no whitespace at either end survives
      `strip`. */
  lemma StripKeepsInnerOccurrence(s: string, sub: string)
    requires sub != [] && IsStripped(sub) && Contains(s, sub)
    ensures Contains(Strip(s), sub)
  {
    var r := Strip(s);
    var i: nat :| Trims(s, r, i);
    var p: nat :| p <= |s| && OccursAt(s, sub, p);
    TrimsKeepsOccurrence(s, r, i, sub, p);
  }
}
