/** Character classes and the whitespace handling the userscript applies to
    every piece of text it reads or produces: `sanitizeText` (every run of
    `\s` becomes one space, then `trim`) and `truncate`. */
module Text {

  /** JavaScript's `\s`, which is also the set `String.prototype.trim`
      removes: the WhiteSpace and LineTerminator code points of ECMAScript. */
  predicate IsSpace(c: char) {
    c == '\t' || c == '\n' || c == '\U{B}' || c == '\U{C}' || c == '\r' || c == ' '
    || c == '\U{A0}' || c == '\U{1680}' || ('\U{2000}' <= c <= '\U{200A}')
    || c == '\U{2028}' || c == '\U{2029}' || c == '\U{202F}' || c == '\U{205F}'
    || c == '\U{3000}' || c == '\U{FEFF}'
  }

  /** `\w` of a regular expression without the `i` flag: [A-Za-z0-9_]. */
  predicate IsWordChar(c: char) {
    ('a' <= c <= 'z') || ('A' <= c <= 'Z') || ('0' <= c <= '9') || c == '_'
  }

  /** ASCII lower-casing; it stands for the case folding of the `i` flag
      and for `toLowerCase`. */
  function LowerChar(c: char): char {
    if 'A' <= c <= 'Z' then (c as int + 32) as char else c
  }

  function Lower(s: string): (r: string)
    ensures |r| == |s|
    ensures forall i :: 0 <= i < |s| ==> r[i] == LowerChar(s[i])
  {
    seq(|s|, i requires 0 <= i < |s| => LowerChar(s[i]))
  }

  /** Lower-casing works character by character, so it distributes over
      concatenation. */
  lemma LowerAppend(a: string, b: string)
    ensures Lower(a + b) == Lower(a) + Lower(b)
  {
    var l := Lower(a + b);
    forall i | 0 <= i < |l|
      ensures l[i] == (Lower(a) + Lower(b))[i]
    {
      if i < |a| {
        assert (a + b)[i] == a[i];
      } else {
        assert (a + b)[i] == b[i - |a|];
      }
    }
  }

  /** Lower-casing twice is lower-casing once. */
  lemma LowerIdempotent(s: string)
    ensures Lower(Lower(s)) == Lower(s)
  {
    forall i | 0 <= i < |s|
      ensures Lower(Lower(s))[i] == Lower(s)[i]
    {
      assert Lower(s)[i] == LowerChar(s[i]);
    }
  }

  /** Only the ASCII capitals change: text without them is its own lower case. */
  lemma LowerOfNoCapitals(s: string)
    requires forall i :: 0 <= i < |s| ==> !('A' <= s[i] <= 'Z')
    ensures Lower(s) == s
  {
  }

  /** `p` is a prefix of `s` when letters are compared without case. */
  predicate StartsWithIgnoringCase(s: string, p: string) {
    |p| <= |s| && Lower(s[..|p|]) == Lower(p)
  }

  predicate IsInfix(u: string, s: string) {
    exists i, j | 0 <= i <= j <= |s| :: u == s[i..j]
  }

  lemma InfixOfSlice(s: string, i: nat, j: nat)
    requires i <= j <= |s|
    ensures IsInfix(s[i..j], s)
  {
  }

  lemma InfixOfWhole(s: string)
    ensures IsInfix(s, s)
  {
    assert s == s[0..|s|];
  }

  /** `r` is what is left of `s` once some of its first characters are dropped. */
  predicate IsSuffix(r: string, s: string)
    decreases |s|
  {
    r == s || (s != [] && IsSuffix(r, s[1..]))
  }

  /** A suffix is the slice of the last `|r|` characters. */
  lemma {:induction false} SuffixSlice(r: string, s: string)
    ensures IsSuffix(r, s) <==> |r| <= |s| && r == s[|s| - |r|..]
    decreases |s|
  {
    if s != [] {
      SuffixSlice(r, s[1..]);
      if |r| < |s| {
        assert s[1..][|s| - 1 - |r|..] == s[|s| - |r|..];
      }
    }
  }

  lemma SuffixOfDrop(s: string, k: nat)
    requires k <= |s|
    ensures IsSuffix(s[k..], s)
  {
    SuffixSlice(s[k..], s);
  }

  lemma SuffixTransitive(u: string, v: string, w: string)
    requires IsSuffix(u, v) && IsSuffix(v, w)
    ensures IsSuffix(u, w)
  {
    SuffixSlice(u, v);
    SuffixSlice(v, w);
    SuffixSlice(u, w);
    assert w[|w| - |v|..][|v| - |u|..] == w[|w| - |u|..];
  }

  /** The first `n` characters and the whitespace after them removed. */
  function DropAndTrim(s: string, n: nat): (r: string)
    requires n <= |s|
    ensures IsSuffix(r, s)
    ensures r == [] || !IsSpace(r[0])
  {
    SuffixOfDrop(s, n);
    SuffixTransitive(TrimStart(s[n..]), s[n..], s);
    TrimStart(s[n..])
  }

  lemma SuffixIsInfix(r: string, s: string)
    requires IsSuffix(r, s)
    ensures IsInfix(r, s)
  {
    SuffixSlice(r, s);
    InfixOfSlice(s, |s| - |r|, |s|);
  }

  lemma InfixTransitive(u: string, v: string, w: string)
    requires IsInfix(u, v) && IsInfix(v, w)
    ensures IsInfix(u, w)
  {
    var i, j :| 0 <= i <= j <= |v| && u == v[i..j];
    var a, b :| 0 <= a <= b <= |w| && v == w[a..b];
    forall k | 0 <= k < j - i
      ensures u[k] == w[a + i + k]
    {
      assert u[k] == v[i + k];
    }
    assert u == w[a + i..a + j];
  }

  /** Leading whitespace removed: `trimStart`, and also what a leading
      greedy `\s*` matches. */
  function TrimStart(s: string): (r: string)
    ensures |r| <= |s| && IsSuffix(r, s)
    ensures r == [] || !IsSpace(r[0])
    ensures forall i :: 0 <= i < |s| - |r| ==> IsSpace(s[i])
  {
    if s != [] && IsSpace(s[0]) then TrimStart(s[1..]) else s
  }

  /** Trailing whitespace removed. */
  function TrimEnd(s: string): (r: string)
    ensures |r| <= |s| && r == s[..|r|]
    ensures r == [] || !IsSpace(r[|r| - 1])
    ensures forall i :: |r| <= i < |s| ==> IsSpace(s[i])
  {
    if s != [] && IsSpace(s[|s| - 1]) then TrimEnd(s[..|s| - 1]) else s
  }

  /** `String.prototype.trim`. */
  function Trim(s: string): (r: string)
    ensures IsInfix(r, s)
    ensures r == [] || (!IsSpace(r[0]) && !IsSpace(r[|r| - 1]))
    ensures NonSpace(r) == NonSpace(s)
  {
    var t := TrimStart(s);
    NonSpaceOfTrimStart(s);
    NonSpaceOfTrimEnd(t);
    SuffixSlice(t, s);
    InfixOfSlice(s, |s| - |t|, |s|);
    InfixOfSlice(t, 0, |TrimEnd(t)|);
    InfixTransitive(TrimEnd(t), t, s);
    TrimEnd(t)
  }

  /** The characters of `s` that are not whitespace, in order. */
  function NonSpace(s: string): string {
    if s == [] then [] else (if IsSpace(s[0]) then [] else [s[0]]) + NonSpace(s[1..])
  }

  /** Every whitespace character is a plain space and none follows another. */
  predicate NoRuns(s: string) {
    forall i :: 0 <= i < |s| ==> NoRunAt(s, i)
  }

  /** Whitespace at position `i` is a plain space not followed by whitespace. */
  predicate NoRunAt(s: string, i: nat)
    requires i < |s|
  {
    IsSpace(s[i]) ==> s[i] == ' ' && (i + 1 == |s| || !IsSpace(s[i + 1]))
  }

  /** The shape `sanitizeText` gives: no runs and no whitespace at either end. */
  predicate Sanitized(s: string) {
    NoRuns(s) && (s != [] ==> !IsSpace(s[0]) && !IsSpace(s[|s| - 1]))
  }

  lemma {:induction false} NonSpaceAppend(a: string, b: string)
    ensures NonSpace(a + b) == NonSpace(a) + NonSpace(b)
  {
    if a == [] {
      assert a + b == b;
    } else {
      assert (a + b)[0] == a[0];
      assert (a + b)[1..] == a[1..] + b;
      NonSpaceAppend(a[1..], b);
    }
  }

  lemma {:induction false} NonSpaceOfSpaces(s: string)
    ensures NonSpace(s) == [] <==> forall i :: 0 <= i < |s| ==> IsSpace(s[i])
  {
    if s != [] {
      NonSpaceOfSpaces(s[1..]);
      assert forall i :: 1 <= i < |s| ==> s[i] == s[1..][i - 1];
    }
  }

  lemma NonSpaceOfTrimStart(s: string)
    ensures NonSpace(TrimStart(s)) == NonSpace(s)
  {
    var t := TrimStart(s);
    SuffixSlice(t, s);
    assert s == s[..|s| - |t|] + t;
    NonSpaceAppend(s[..|s| - |t|], t);
    NonSpaceOfSpaces(s[..|s| - |t|]);
  }

  lemma NonSpaceOfTrimEnd(s: string)
    ensures NonSpace(TrimEnd(s)) == NonSpace(s)
  {
    var t := TrimEnd(s);
    assert s == t + s[|t|..];
    NonSpaceAppend(t, s[|t|..]);
    NonSpaceOfSpaces(s[|t|..]);
  }

  /** `replace(/\s+/g, ' ')`: each maximal run of whitespace becomes one space. */
  function Collapse(s: string): (r: string)
    ensures r == [] <==> s == []
    ensures r != [] ==> (IsSpace(r[0]) <==> IsSpace(s[0]))
    decreases |s|
  {
    if s == [] then []
    else if IsSpace(s[0]) then " " + Collapse(TrimStart(s[1..]))
    else [s[0]] + Collapse(s[1..])
  }

  /** Collapsing leaves no runs and keeps every other character, in order. */
  lemma {:induction false} CollapseShape(s: string)
    ensures NoRuns(Collapse(s))
    ensures NonSpace(Collapse(s)) == NonSpace(s)
    decreases |s|
  {
    if s != [] {
      if IsSpace(s[0]) {
        var t := TrimStart(s[1..]);
        var rest := Collapse(t);
        CollapseShape(t);
        NonSpaceOfTrimStart(s[1..]);
        assert NonSpace(s) == NonSpace(s[1..]);
        assert (" " + rest)[1..] == rest;
        var r := " " + rest;
        forall i | 0 <= i < |r|
          ensures NoRunAt(r, i)
        {
          if i > 0 { assert r[i] == rest[i - 1]; assert NoRunAt(rest, i - 1); }
          if i + 1 < |r| { assert r[i + 1] == rest[i]; }
        }
      } else {
        var rest := Collapse(s[1..]);
        CollapseShape(s[1..]);
        assert ([s[0]] + rest)[1..] == rest;
        var r := [s[0]] + rest;
        forall i | 0 <= i < |r|
          ensures NoRunAt(r, i)
        {
          if i > 0 { assert r[i] == rest[i - 1]; assert NoRunAt(rest, i - 1); }
          if i + 1 < |r| { assert r[i + 1] == rest[i]; }
        }
      }
    }
  }

  lemma {:induction false} NoRunsInfix(s: string, i: nat, j: nat)
    requires NoRuns(s) && i <= j <= |s|
    ensures NoRuns(s[i..j])
  {
    var t := s[i..j];
    forall k | 0 <= k < |t|
      ensures NoRunAt(t, k)
    {
      assert t[k] == s[i + k];
      assert NoRunAt(s, i + k);
      if k + 1 < |t| { assert t[k + 1] == s[i + k + 1]; }
    }
  }

  /** Trimming text without runs leaves it sanitized and drops only whitespace. */
  lemma TrimOfNoRuns(c: string)
    requires NoRuns(c)
    ensures Sanitized(Trim(c))
    ensures NonSpace(Trim(c)) == NonSpace(c)
  {
    var t := TrimStart(c);
    SuffixSlice(t, c);
    NoRunsInfix(c, |c| - |t|, |c|);
    assert c[|c| - |t|..|c|] == t;
    var r := TrimEnd(t);
    NoRunsInfix(t, 0, |r|);
    NonSpaceOfTrimStart(c);
    NonSpaceOfTrimEnd(t);
    assert r != [] ==> r[0] == t[0];
  }

  /** `sanitizeText`. */
  function Sanitize(s: string): (r: string)
    ensures Sanitized(r)
    ensures NonSpace(r) == NonSpace(s)
  {
    CollapseShape(s);
    TrimOfNoRuns(Collapse(s));
    Trim(Collapse(s))
  }

  lemma {:induction false} CollapseKeepsNoRuns(s: string)
    requires NoRuns(s)
    ensures Collapse(s) == s
    decreases |s|
  {
    if s != [] {
      var t := s[1..];
      NoRunsInfix(s, 1, |s|);
      assert s[1..|s|] == t;
      CollapseKeepsNoRuns(t);
      if IsSpace(s[0]) {
        assert NoRunAt(s, 0);
        assert s[0] == ' ';
        if t != [] {
          assert t[0] == s[1];
        }
        assert TrimStart(t) == t;
      }
      assert s == [s[0]] + t;
    }
  }

  /** `sanitizeText` leaves text it has already cleaned unchanged. */
  lemma SanitizeOfSanitized(s: string)
    requires Sanitized(s)
    ensures Sanitize(s) == s
  {
    CollapseKeepsNoRuns(s);
    assert TrimStart(s) == s;
    assert TrimEnd(s) == s;
  }

  lemma SanitizeIdempotent(s: string)
    ensures Sanitize(Sanitize(s)) == Sanitize(s)
  {
    SanitizeOfSanitized(Sanitize(s));
  }

  /** `sanitizeText` yields the empty string exactly for all-whitespace input. */
  lemma SanitizeEmpty(s: string)
    ensures Sanitize(s) == [] <==> forall i :: 0 <= i < |s| ==> IsSpace(s[i])
  {
    var r := Sanitize(s);
    NonSpaceOfSpaces(s);
    NonSpaceOfSpaces(r);
    if r != [] {
      assert !IsSpace(r[0]);
    }
  }

  /** On text without whitespace runs `sanitizeText` only trims, so its
      result is a piece of its input. */
  lemma SanitizeNoRunsInfix(s: string)
    requires NoRuns(s)
    ensures IsInfix(Sanitize(s), s)
  {
    CollapseKeepsNoRuns(s);
  }

  /** `trim` leaves text with non-whitespace ends unchanged. */
  lemma TrimOfEdges(s: string)
    requires s == [] || (!IsSpace(s[0]) && !IsSpace(s[|s| - 1]))
    ensures Trim(s) == s
  {
  }

  /** Leading whitespace is trimmed within the first part when that part
      holds a non-whitespace character. */
  lemma TrimStartAppend(x: string, y: string)
    requires exists i :: 0 <= i < |x| && !IsSpace(x[i])
    ensures TrimStart(x + y) == TrimStart(x) + y
    decreases |x|
  {
    var i :| 0 <= i < |x| && !IsSpace(x[i]);
    assert (x + y)[0] == x[0];
    if IsSpace(x[0]) {
      assert (x + y)[1..] == x[1..] + y;
      assert x[1..][i - 1] == x[i];
      TrimStartAppend(x[1..], y);
    }
  }

  /** Collapsing works part by part when no run spans the boundary, that
      is when the first part ends in a non-whitespace character. */
  lemma {:induction false} CollapseAppend(a: string, b: string)
    requires a != [] && !IsSpace(a[|a| - 1])
    ensures Collapse(a + b) == Collapse(a) + Collapse(b)
    decreases |a|
  {
    assert (a + b)[0] == a[0];
    if |a| == 1 {
      assert (a + b)[1..] == b;
    } else if IsSpace(a[0]) {
      assert (a + b)[1..] == a[1..] + b;
      assert a[1..][|a| - 2] == a[|a| - 1];
      TrimStartAppend(a[1..], b);
      var t := TrimStart(a[1..]);
      SuffixSlice(t, a[1..]);
      assert t != [] && t[|t| - 1] == a[|a| - 1];
      CollapseAppend(t, b);
    } else {
      assert (a + b)[1..] == a[1..] + b;
      CollapseAppend(a[1..], b);
    }
  }

  /** Whitespace before a text that opens with a non-whitespace character
      is all `trimStart` drops. */
  lemma {:induction false} TrimStartSpaces(w: string, x: string)
    requires forall i :: 0 <= i < |w| ==> IsSpace(w[i])
    requires x == [] || !IsSpace(x[0])
    ensures TrimStart(w + x) == x
    decreases |w|
  {
    if w == [] {
      assert w + x == x;
    } else {
      assert (w + x)[0] == w[0];
      assert (w + x)[1..] == w[1..] + x;
      TrimStartSpaces(w[1..], x);
    }
  }

  /** Trailing whitespace is trimmed within the second part when that part
      holds a non-whitespace character. */
  lemma {:induction false} TrimEndAppend(x: string, y: string)
    requires exists i :: 0 <= i < |y| && !IsSpace(y[i])
    ensures TrimEnd(x + y) == x + TrimEnd(y)
    decreases |y|
  {
    var i :| 0 <= i < |y| && !IsSpace(y[i]);
    var s := x + y;
    assert s[|s| - 1] == y[|y| - 1];
    if IsSpace(y[|y| - 1]) {
      var y' := y[..|y| - 1];
      assert s[..|s| - 1] == x + y';
      assert y'[i] == y[i];
      TrimEndAppend(x, y');
    }
  }

  /** Collapsing keeps a non-whitespace last character. */
  lemma {:induction false} CollapseLast(s: string)
    requires s != [] && !IsSpace(s[|s| - 1])
    ensures Collapse(s) != [] && Collapse(s)[|Collapse(s)| - 1] == s[|s| - 1]
    decreases |s|
  {
    if IsSpace(s[0]) {
      var t := TrimStart(s[1..]);
      SuffixSlice(t, s[1..]);
      assert t != [] && t[|t| - 1] == s[|s| - 1];
      CollapseLast(t);
    } else if |s| > 1 {
      assert s[1..][|s| - 2] == s[|s| - 1];
      CollapseLast(s[1..]);
    }
  }

  /** A run of whitespace between a piece ending and a piece starting with
      non-whitespace collapses to one space. */
  lemma CollapseJoin(a: string, w: string, b: string)
    requires a != [] && !IsSpace(a[|a| - 1])
    requires w != [] && forall i :: 0 <= i < |w| ==> IsSpace(w[i])
    requires b != [] && !IsSpace(b[0])
    ensures Collapse(a + w + b) == Collapse(a) + " " + Collapse(b)
  {
    CollapseAppend(a, w + b);
    assert a + w + b == a + (w + b);
    assert (w + b)[0] == w[0];
    assert (w + b)[1..] == w[1..] + b;
    TrimStartSpaces(w[1..], b);
  }

  lemma TrimStartJoin(x: string, y: string)
    requires x != [] && !IsSpace(x[|x| - 1])
    ensures TrimStart(x + " " + y) == TrimStart(x) + " " + y
  {
    assert x + " " + y == x + (" " + y);
    TrimStartAppend(x, " " + y);
  }

  lemma TrimEndJoin(u: string, y: string)
    requires y != [] && !IsSpace(y[0])
    ensures TrimEnd(u + " " + y) == u + " " + TrimEnd(y)
  {
    assert u + " " + y == (u + " ") + y;
    TrimEndAppend(u + " ", y);
  }

  /** `trim` of two pieces joined by a space trims only the outer ends. */
  lemma TrimJoin(x: string, y: string)
    requires x != [] && !IsSpace(x[|x| - 1])
    requires y != [] && !IsSpace(y[0])
    ensures Trim(x + " " + y) == TrimStart(x) + " " + TrimEnd(y)
  {
    TrimStartJoin(x, y);
    TrimEndJoin(TrimStart(x), y);
  }

  /** Between two pieces that meet it with non-whitespace characters, a run
      of whitespace becomes exactly one space, and each piece is sanitized
      on its own. */
  lemma SanitizeJoin(a: string, w: string, b: string)
    requires a != [] && !IsSpace(a[|a| - 1])
    requires w != [] && forall i :: 0 <= i < |w| ==> IsSpace(w[i])
    requires b != [] && !IsSpace(b[0])
    ensures Sanitize(a + w + b) == Sanitize(a) + " " + Sanitize(b)
  {
    CollapseJoin(a, w, b);
    var x := Collapse(a);
    var y := Collapse(b);
    CollapseLast(a);
    TrimJoin(x, y);
    var u := TrimStart(x);
    SuffixSlice(u, x);
    assert u != [] && u[|u| - 1] == x[|x| - 1];
    assert TrimEnd(u) == u;
    assert TrimStart(y) == y;
  }

  function Min(a: int, b: int): int { if a <= b then a else b }

  function Max(a: int, b: int): int { if a >= b then a else b }

  /** `truncate`: text that fits is returned unchanged; longer text keeps
      its first `limit` characters and gains the marker "...". */
  function Truncate(s: string, limit: nat): (r: string)
    ensures |s| <= limit ==> r == s
    ensures |s| > limit ==> |r| == limit + 3 && r[limit..] == "..."
    ensures |r| <= limit + 3
    ensures r[..Min(|s|, limit)] == s[..Min(|s|, limit)]
  {
    if |s| <= limit then s else s[..limit] + "..."
  }
}
