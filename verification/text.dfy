/**
 * The Python string operations the output parser relies on: `str.strip()`
 * with no argument, `str.split("\n")`, `startswith` and `endswith`, plus a
 * substring test (`Contains`) used to state properties of the parser.
 * Strings are sequences of Unicode scalar values; Python strings can also
 * hold lone surrogates, which this model does not represent.
 */
module Text {

  /** `str.isspace` for a single character: the characters `str.strip()` removes. */
  predicate IsSpace(c: char) {
    var n := c as int;
    || n == 0x20
    || 0x09 <= n <= 0x0D
    || 0x1C <= n <= 0x1F
    || n == 0x85
    || n == 0xA0
    || n == 0x1680
    || 0x2000 <= n <= 0x200A
    || n == 0x2028
    || n == 0x2029
    || n == 0x202F
    || n == 0x205F
    || n == 0x3000
  }

  /** Every character of `s` at a position in `[lo, hi)` is whitespace. */
  predicate SpaceIn(s: string, lo: int, hi: int) {
    forall i :: lo <= i < hi && 0 <= i < |s| ==> IsSpace(s[i])
  }

  predicate AllSpace(s: string) {
    SpaceIn(s, 0, |s|)
  }

  predicate StartsWith(s: string, prefix: string) {
    |prefix| <= |s| && s[..|prefix|] == prefix
  }

  predicate EndsWith(s: string, suffix: string) {
    |suffix| <= |s| && s[|s| - |suffix|..] == suffix
  }

  /** Number of whitespace characters `s` starts with (see `LeadSpec`). */
  function Lead(s: string): (n: nat)
    ensures n <= |s|
  {
    if |s| > 0 && IsSpace(s[0]) then Lead(s[1..]) + 1 else 0
  }

  /** `Lead(s)` counts the whitespace prefix of `s` and stops at the first other character. */
  lemma {:induction false} LeadSpec(s: string)
    ensures SpaceIn(s, 0, Lead(s))
    ensures Lead(s) < |s| ==> !IsSpace(s[Lead(s)])
    decreases |s|
  {
    if |s| > 0 && IsSpace(s[0]) {
      LeadSpec(s[1..]);
      assert forall i :: 1 <= i < Lead(s) ==> s[i] == s[1..][i - 1];
    }
  }

  /** Number of whitespace characters `s` ends with (see `TrailSpec`). */
  function Trail(s: string): (n: nat)
    ensures n <= |s|
  {
    if |s| > 0 && IsSpace(s[|s| - 1]) then Trail(s[..|s| - 1]) + 1 else 0
  }

  /** `Trail(s)` counts the whitespace suffix of `s` and stops at the last other character. */
  lemma {:induction false} TrailSpec(s: string)
    ensures SpaceIn(s, |s| - Trail(s), |s|)
    ensures Trail(s) < |s| ==> !IsSpace(s[|s| - Trail(s) - 1])
    decreases |s|
  {
    if |s| > 0 && IsSpace(s[|s| - 1]) {
      TrailSpec(s[..|s| - 1]);
      assert forall i :: |s| - Trail(s) <= i < |s| - 1 ==> s[i] == s[..|s| - 1][i];
    }
  }

  /**
   * `s.strip()`: `s` without its leading and trailing whitespace. The result
   * is the slice of `s` between a whitespace prefix and a whitespace suffix;
   * when it is non-empty it neither starts nor ends with whitespace, and it is
   * empty exactly when `s` is all whitespace (`StripSpec`).
   */
  function Strip(s: string): string {
    var t := s[Lead(s)..];
    t[..|t| - Trail(t)]
  }

  /** What `Strip` returns, in terms of `s`. */
  lemma StripSpec(s: string)
    ensures Lead(s) + |Strip(s)| <= |s|
    ensures Strip(s) == s[Lead(s)..Lead(s) + |Strip(s)|]
    ensures SpaceIn(s, 0, Lead(s)) && SpaceIn(s, Lead(s) + |Strip(s)|, |s|)
    ensures Strip(s) != [] ==> !IsSpace(Strip(s)[0]) && !IsSpace(Strip(s)[|Strip(s)| - 1])
    ensures Strip(s) == [] <==> AllSpace(s)
  {
    var t := s[Lead(s)..];
    var r := t[..|t| - Trail(t)];
    assert r == Strip(s);
    LeadSpec(s);
    SliceOfSlice(s, Lead(s), t, |t| - Trail(t), r);
    StripShape(s, t, r);
    StripEnds(s, t, r);
    StripEmpty(s, t, r);
  }

  lemma SliceOfSlice(s: string, n: nat, t: string, m: nat, r: string)
    requires n <= |s| && t == s[n..] && m <= |t| && r == t[..m]
    ensures n + m <= |s| && r == s[n..n + m]
  {
  }

  /** A non-empty `Strip` result starts and ends with non-whitespace. */
  lemma StripEnds(s: string, t: string, r: string)
    requires t == s[Lead(s)..] && r == t[..|t| - Trail(t)]
    ensures r != [] ==> !IsSpace(r[0]) && !IsSpace(r[|r| - 1])
  {
    LeadSpec(s);
    TrailSpec(t);
  }

  /** `Strip` gives the empty string exactly for all-whitespace input. */
  lemma {:induction false} StripEmpty(s: string, t: string, u: string)
    requires t == s[Lead(s)..] && u == t[..|t| - Trail(t)]
    ensures u == [] <==> AllSpace(s)
  {
    LeadSpec(s);
    TrailSpec(t);
  }

  /** The whitespace suffix `Strip` drops, stated on `s` itself. */
  lemma {:induction false} StripShape(s: string, t: string, u: string)
    requires t == s[Lead(s)..] && u == t[..|t| - Trail(t)]
    ensures SpaceIn(s, Lead(s) + |u|, |s|)
  {
    TrailSpec(t);
    SuffixSpace(s, Lead(s), t, Trail(t), u);
  }

  lemma SuffixSpace(s: string, n: nat, t: string, k: nat, r: string)
    requires n <= |s| && t == s[n..] && k <= |t| && r == t[..|t| - k]
    requires SpaceIn(t, |t| - k, |t|)
    ensures SpaceIn(s, n + |r|, |s|)
  {
    forall i | n + |r| <= i < |s| ensures IsSpace(s[i]) {
      assert s[i] == t[i - n];
    }
  }

  /** A range of whitespace positions is an all-whitespace slice. */
  lemma SliceSpace(s: string, lo: nat, hi: nat)
    requires lo <= hi <= |s| && SpaceIn(s, lo, hi)
    ensures AllSpace(s[lo..hi])
  {
    assert forall i :: 0 <= i < hi - lo ==> s[lo..hi][i] == s[lo + i];
  }

  /** Whitespace in front of `x` adds exactly its length to `Lead`. */
  lemma {:induction false} LeadAfterSpace(p: string, x: string)
    requires AllSpace(p)
    ensures Lead(p + x) == |p| + Lead(x)
    decreases |p|
  {
    if p == [] {
      assert p + x == x;
    } else {
      assert (p + x)[0] == p[0];
      assert (p + x)[1..] == p[1..] + x;
      assert forall i :: 0 <= i < |p| - 1 ==> p[1..][i] == p[i + 1];
      LeadAfterSpace(p[1..], x);
    }
  }

  /** Whitespace after `x` adds exactly its length to `Trail`. */
  lemma {:induction false} TrailBeforeSpace(x: string, q: string)
    requires AllSpace(q)
    ensures Trail(x + q) == |q| + Trail(x)
    decreases |q|
  {
    if q == [] {
      assert x + q == x;
    } else {
      var u := x + q;
      assert u[|u| - 1] == q[|q| - 1];
      assert u[..|u| - 1] == x + q[..|q| - 1];
      assert forall i :: 0 <= i < |q| - 1 ==> q[..|q| - 1][i] == q[i];
      TrailBeforeSpace(x, q[..|q| - 1]);
    }
  }

  /**
   * Anything that is `s` minus a whitespace prefix and a whitespace suffix,
   * and that does not itself start or end with whitespace, is `Strip(s)`.
   */
  lemma StripUnique(p: string, r: string, q: string)
    requires AllSpace(p) && AllSpace(q)
    requires r != [] ==> !IsSpace(r[0]) && !IsSpace(r[|r| - 1])
    ensures Strip(p + r + q) == r
  {
    var s := p + r + q;
    if r == [] {
      assert s == p + q;
      SpaceConcat(p, q);
      StripSpec(s);
    } else {
      assert s == p + (r + q);
      LeadAfterSpace(p, r + q);
      assert (r + q)[0] == r[0];
      var t := s[|p|..];
      assert t == r + q;
      TrailBeforeSpace(r, q);
      assert t[..|t| - |q|] == r;
    }
  }

  /** Whitespace added around a string does not change what `strip` returns. */
  lemma StripPadded(a: string, s: string, b: string)
    requires AllSpace(a) && AllSpace(b)
    ensures Strip(a + s + b) == Strip(s)
  {
    var n := Lead(s);
    var r := Strip(s);
    StripSpec(s);
    SliceSpace(s, 0, n);
    SliceSpace(s, n + |r|, |s|);
    var p := s[..n];
    var q := s[n + |r|..];
    SliceAround(s, n, r);
    PaddedAround(a, p, r, q, b);
  }

  lemma SliceAround(s: string, n: nat, r: string)
    requires n + |r| <= |s| && r == s[n..n + |r|]
    ensures s == s[..n] + r + s[n + |r|..]
  {
  }

  lemma PaddedAround(a: string, p: string, r: string, q: string, b: string)
    requires AllSpace(a) && AllSpace(p) && AllSpace(q) && AllSpace(b)
    requires r != [] ==> !IsSpace(r[0]) && !IsSpace(r[|r| - 1])
    ensures Strip(a + (p + r + q) + b) == r
  {
    assert a + (p + r + q) + b == (a + p) + r + (q + b);
    SpaceConcat(a, p);
    SpaceConcat(q, b);
    StripUnique(a + p, r, q + b);
  }

  lemma SpaceConcat(x: string, y: string)
    requires AllSpace(x) && AllSpace(y)
    ensures AllSpace(x + y)
  {
    forall i | 0 <= i < |x + y| ensures IsSpace((x + y)[i]) {
      if i < |x| {
        assert (x + y)[i] == x[i];
      } else {
        assert (x + y)[i] == y[i - |x|];
      }
    }
  }

  /** Stripping twice is stripping once. */
  lemma StripIdempotent(s: string)
    ensures Strip(Strip(s)) == Strip(s)
  {
    var r := Strip(s);
    StripSpec(s);
    assert [] + r + [] == r;
    StripUnique([], r, []);
  }

  /**
   * `s.split("\n")`: the pieces between newline characters, in order. There
   * is always at least one piece (the empty string gives `[""]`).
   */
  function Split(s: string): (r: seq<string>)
    ensures |r| >= 1
  {
    if s == [] then [[]]
    else
      var rest := Split(s[1..]);
      if s[0] == '\n' then [[]] + rest
      else [[s[0]] + rest[0]] + rest[1..]
  }

  /**
   * No piece of `Split(s)` holds a newline, the first piece is a prefix of
   * `s`, and joining the pieces with newlines gives back `s`.
   */
  lemma {:induction false} SplitSpec(s: string)
    ensures forall i :: 0 <= i < |Split(s)| ==> '\n' !in Split(s)[i]
    ensures |Split(s)[0]| <= |s| && Split(s)[0] == s[..|Split(s)[0]|]
    ensures Join(Split(s)) == s
    decreases |s|
  {
    if s != [] {
      var rest := Split(s[1..]);
      SplitSpec(s[1..]);
      var r := Split(s);
      if s[0] == '\n' {
        assert r == [[]] + rest;
        assert r[1..] == rest;
        assert forall i :: 1 <= i < |r| ==> r[i] == rest[i - 1];
      } else {
        assert r == [[s[0]] + rest[0]] + rest[1..];
        SplitStep(s, rest, r);
        assert forall i :: 1 <= i < |r| ==> r[i] == rest[i];
        assert s[..|r[0]|] == [s[0]] + s[1..][..|rest[0]|];
      }
    }
  }

  /** Joining the pieces of `s` when it starts with a character other than a newline. */
  lemma SplitStep(s: string, rest: seq<string>, r: seq<string>)
    requires s != [] && s[0] != '\n' && |rest| >= 1 && Join(rest) == s[1..]
    requires r == [[s[0]] + rest[0]] + rest[1..]
    ensures Join(r) == s
  {
    assert r[1..] == rest[1..];
    assert s == [s[0]] + s[1..];
    if |rest| == 1 {
      assert Join(r) == r[0] == [s[0]] + Join(rest);
    } else {
      var tail := Join(rest[1..]);
      assert Join(rest) == rest[0] + "\n" + tail;
      assert Join(r) == r[0] + "\n" + tail;
      assert r[0] + "\n" + tail == [s[0]] + (rest[0] + "\n" + tail);
    }
  }

  /** `"\n".join(lines)`. */
  function Join(lines: seq<string>): string
    requires |lines| >= 1
  {
    if |lines| == 1 then lines[0] else lines[0] + "\n" + Join(lines[1..])
  }

  /** A newline-free prefix joins onto the first piece of what follows it. */
  lemma {:induction false} SplitAfterPrefix(a: string, t: string)
    requires '\n' !in a
    ensures Split(a + t) == [a + Split(t)[0]] + Split(t)[1..]
    decreases |a|
  {
    if a == [] {
      assert a + t == t;
      assert a + Split(t)[0] == Split(t)[0];
      assert Split(t) == [Split(t)[0]] + Split(t)[1..];
    } else {
      assert (a + t)[1..] == a[1..] + t;
      assert a[0] in a;
      SplitAfterPrefix(a[1..], t);
      var rest := Split(a[1..] + t);
      assert rest[0] == a[1..] + Split(t)[0];
      assert rest[1..] == Split(t)[1..];
      assert a + t != [] && (a + t)[0] == a[0];
      assert [a[0]] + rest[0] == a + Split(t)[0];
    }
  }

  /** Splitting undoes joining, for pieces that hold no newline. */
  lemma {:induction false} SplitJoin(lines: seq<string>)
    requires |lines| >= 1
    requires forall i :: 0 <= i < |lines| ==> '\n' !in lines[i]
    ensures Split(Join(lines)) == lines
    decreases |lines|
  {
    if |lines| == 1 {
      SplitAfterPrefix(lines[0], []);
      assert lines[0] + [] == lines[0];
    } else {
      var j := Join(lines[1..]);
      SplitJoin(lines[1..]);
      assert "\n" + j != [] && ("\n" + j)[0] == '\n' && ("\n" + j)[1..] == j;
      assert Split("\n" + j) == [[]] + lines[1..];
      SplitAfterPrefix(lines[0], "\n" + j);
      assert lines[0] + "\n" + j == lines[0] + ("\n" + j);
      assert lines[0] + [] == lines[0];
    }
  }

  /** `p` occurs somewhere in `s` as a contiguous piece (Python's `p in s`). */
  predicate Contains(s: string, p: string)
    decreases |s|
  {
    StartsWith(s, p) || (|s| > 0 && Contains(s[1..], p))
  }

  lemma {:induction false} ContainsExtendLeft(a: string, s: string, p: string)
    requires Contains(s, p)
    ensures Contains(a + s, p)
    decreases |a|
  {
    if a != [] {
      assert (a + s)[1..] == a[1..] + s;
      ContainsExtendLeft(a[1..], s, p);
    } else {
      assert a + s == s;
    }
  }

  lemma {:induction false} ContainsExtendRight(s: string, b: string, p: string)
    requires Contains(s, p)
    ensures Contains(s + b, p)
    decreases |s|
  {
    if StartsWith(s, p) {
      assert (s + b)[..|p|] == s[..|p|];
    } else {
      assert (s + b)[1..] == s[1..] + b;
      ContainsExtendRight(s[1..], b, p);
    }
  }

  /** What occurs in a slice of `s` occurs in `s`. */
  lemma ContainsSlice(s: string, i: nat, j: nat, p: string)
    requires i <= j <= |s| && Contains(s[i..j], p)
    ensures Contains(s, p)
  {
    ContainsExtendLeft(s[..i], s[i..j], p);
    ContainsExtendRight(s[..i] + s[i..j], s[j..], p);
    assert s[..i] + s[i..j] + s[j..] == s;
  }

  /** What occurs in one piece of `s.split("\n")` occurs in `s`. */
  lemma {:induction false} ContainsSplitPiece(s: string, k: nat, p: string)
    requires k < |Split(s)| && Contains(Split(s)[k], p)
    ensures Contains(s, p)
    decreases |s|
  {
    var pieces := Split(s);
    if k == 0 {
      SplitSpec(s);
      ContainsSlice(s, 0, |pieces[0]|, p);
    } else {
      var rest := Split(s[1..]);
      if s[0] == '\n' {
        assert pieces == [[]] + rest;
        assert pieces[k] == rest[k - 1];
        ContainsSplitPiece(s[1..], k - 1, p);
      } else {
        assert pieces == [[s[0]] + rest[0]] + rest[1..];
        assert pieces[k] == rest[k];
        ContainsSplitPiece(s[1..], k, p);
      }
    }
  }

  /** What occurs in `s.strip()` occurs in `s`. */
  lemma ContainsStrip(s: string, p: string)
    requires Contains(Strip(s), p)
    ensures Contains(s, p)
  {
    StripSpec(s);
    ContainsSlice(s, Lead(s), Lead(s) + |Strip(s)|, p);
  }
}
