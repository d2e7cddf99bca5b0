/** The parts of Go's strings package that the models use, on sequences of characters. */
module GoStrings {

  predicate HasPrefix(s: string, p: string) {
    |p| <= |s| && s[..|p|] == p
  }

  predicate HasSuffix(s: string, p: string) {
    |p| <= |s| && s[|s| - |p|..] == p
  }

  /** Go's < on strings. */
  predicate Less(a: string, b: string) {
    b != [] && (a == [] || a[0] < b[0] || (a[0] == b[0] && Less(a[1..], b[1..])))
  }

  /** a is less than b exactly when it is a proper prefix of b or has the smaller character where they
      first differ. */
  lemma {:induction false} LessMeaning(a: string, b: string)
    ensures Less(a, b) <==> exists n: nat :: FirstLess(a, b, n)
  {
    if a != [] && b != [] && a[0] == b[0] {
      LessMeaning(a[1..], b[1..]);
      if n: nat :| FirstLess(a[1..], b[1..], n) {
        assert a[..n + 1] == [a[0]] + a[1..][..n] && b[..n + 1] == [b[0]] + b[1..][..n];
        assert FirstLess(a, b, n + 1);
      }
      if n: nat :| FirstLess(a, b, n) {
        assert n > 0;
        assert a[1..][..n - 1] == a[..n][1..] && b[1..][..n - 1] == b[..n][1..];
        assert FirstLess(a[1..], b[1..], n - 1);
      }
    } else if b != [] && (a == [] || a[0] < b[0]) {
      assert FirstLess(a, b, 0);
    } else {
      forall n: nat ensures !FirstLess(a, b, n) {
        if 0 < n <= |a| && n < |b| { assert a[..n][0] == a[0] && b[..n][0] == b[0]; }
      }
    }
  }

  ghost predicate FirstLess(a: string, b: string, n: nat) {
    n <= |a| && n < |b| && a[..n] == b[..n] && (n == |a| || a[n] < b[n])
  }

  lemma {:induction false} LessTotal(a: string, b: string)
    ensures a == b || Less(a, b) || Less(b, a)
  {
    if a != [] && b != [] && a[0] == b[0] {
      LessTotal(a[1..], b[1..]);
      assert a == [a[0]] + a[1..] && b == [b[0]] + b[1..];
    }
  }

  lemma {:induction false} LessTransitive(a: string, b: string, c: string)
    requires Less(a, b) && Less(b, c)
    ensures Less(a, c)
  {
    if a != [] && a[0] == b[0] == c[0] {
      LessTransitive(a[1..], b[1..], c[1..]);
    }
  }

  lemma {:induction false} LessIrreflexive(a: string)
    ensures !Less(a, a)
  {
    if a != [] {
      LessIrreflexive(a[1..]);
    }
  }

  /** unicode.IsSpace. */
  predicate IsSpace(c: char) {
    || '\t' <= c <= '\r' || c == ' ' || c == '\U{85}' || c == '\U{A0}' || c == '\U{1680}'
    || '\U{2000}' <= c <= '\U{200A}' || c == '\U{2028}' || c == '\U{2029}' || c == '\U{202F}'
    || c == '\U{205F}' || c == '\U{3000}'
  }

  function TrimSpaceLeft(s: string): (r: string) {
    if s != [] && IsSpace(s[0]) then TrimSpaceLeft(s[1..]) else s
  }

  function TrimSpaceRight(s: string): (r: string) {
    if s != [] && IsSpace(s[|s| - 1]) then TrimSpaceRight(s[..|s| - 1]) else s
  }

  /** strings.TrimSpace. */
  function TrimSpace(s: string): (r: string) {
    TrimSpaceLeft(TrimSpaceRight(s))
  }

  lemma {:induction false} TrimKeeps(s: string, c: char)
    requires c in s && !IsSpace(c)
    ensures c in TrimSpaceLeft(s) && c in TrimSpaceRight(s)
  {
    if IsSpace(s[0]) {
      assert s == [s[0]] + s[1..];
      TrimKeeps(s[1..], c);
    }
    if IsSpace(s[|s| - 1]) {
      assert s == s[..|s| - 1] + [s[|s| - 1]];
      TrimKeeps(s[..|s| - 1], c);
    }
  }

  // ----- White space -----

  ghost predicate AllSpace(s: string) {
    forall i :: 0 <= i < |s| ==> IsSpace(s[i])
  }

  /** White space at neither end. */
  predicate Solid(s: string) {
    s != [] && !IsSpace(s[0]) && !IsSpace(s[|s| - 1])
  }

  lemma {:induction false} LeftParts(s: string) returns (h: string)
    ensures AllSpace(h) && s == h + TrimSpaceLeft(s) && (TrimSpaceLeft(s) != "" ==> !IsSpace(TrimSpaceLeft(s)[0]))
  {
    h := "";
    if s != [] && IsSpace(s[0]) {
      h := LeftParts(s[1..]);
      h := [s[0]] + h;
    }
  }

  lemma {:induction false} RightParts(s: string) returns (t: string)
    ensures AllSpace(t) && s == TrimSpaceRight(s) + t
    ensures TrimSpaceRight(s) != "" ==> !IsSpace(TrimSpaceRight(s)[|TrimSpaceRight(s)| - 1])
  {
    t := "";
    if s != [] && IsSpace(s[|s| - 1]) {
      t := RightParts(s[..|s| - 1]);
      t := t + [s[|s| - 1]];
    }
  }

  lemma {:induction false} LeftTrimmed(h: string, core: string)
    requires AllSpace(h) && (core == "" || !IsSpace(core[0]))
    ensures TrimSpaceLeft(h + core) == core
  {
    if h == "" {
      assert h + core == core;
    } else {
      LeftTrimmed(h[1..], core);
      assert (h + core)[1..] == h[1..] + core;
    }
  }

  lemma {:induction false} RightTrimmed(core: string, t: string)
    requires AllSpace(t) && (core == "" || !IsSpace(core[|core| - 1]))
    ensures TrimSpaceRight(core + t) == core
  {
    if t == "" {
      assert core + t == core;
    } else {
      RightTrimmed(core, t[..|t| - 1]);
      assert (core + t)[..|core + t| - 1] == core + t[..|t| - 1];
    }
  }

  lemma TrimAllSpace(s: string)
    requires AllSpace(s)
    ensures TrimSpaceRight(s) == "" && TrimSpace(s) == ""
  {
    RightTrimmed("", s);
    assert "" + s == s;
  }

  lemma Trims(h: string, core: string, t: string)
    requires AllSpace(h) && AllSpace(t) && Solid(core)
    ensures TrimSpace(h + core + t) == core
  {
    RightTrimmed(h + core, t);
    LeftTrimmed(h, core);
  }

  lemma TrimParts(s: string) returns (h: string, t: string)
    ensures AllSpace(h) && AllSpace(t) && s == h + TrimSpace(s) + t && (TrimSpace(s) == "" || Solid(TrimSpace(s)))
  {
    t := RightParts(s);
    h := LeftParts(TrimSpaceRight(s));
  }

  /** The core, within white space. */
  ghost predicate Around(s: string, core: string) {
    exists h, t :: AllSpace(h) && AllSpace(t) && s == h + core + t
  }

  /** TrimSpace gives the text with no white space at either end that is s within white space. */
  lemma TrimMeaning(s: string, core: string)
    ensures TrimSpace(s) == core <==> (core == "" || Solid(core)) && Around(s, core)
  {
    var h0, t0 := TrimParts(s);
    if h, t :| AllSpace(h) && AllSpace(t) && s == h + core + t {
      if core == "" {
        assert AllSpace(s);
        TrimAllSpace(s);
      } else if Solid(core) {
        Trims(h, core, t);
      }
    }
  }
}
