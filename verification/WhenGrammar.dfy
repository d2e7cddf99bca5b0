/** The `when` guard language as a grammar: exactly which texts the parser reads, and as what. */
module WhenGrammar {
  import opened Collections
  import opened GoStrings
  import opened WhenGuards

  // ----- Splitting -----

  ghost predicate NoPair(s: string, a: char, b: char) {
    forall i :: 0 <= i < |s| - 1 ==> s[i] != a || s[i + 1] != b
  }

  lemma {:induction false} PairMeaning(s: string, a: char, b: char)
    ensures HasPair(s, a, b) <==> !NoPair(s, a, b)
  {
    if |s| >= 2 {
      var rest := s[1..];
      PairMeaning(rest, a, b);
      assert forall i :: 1 <= i < |s| ==> s[i] == rest[i - 1];
      if !NoPair(rest, a, b) {
        var i :| 0 <= i < |rest| - 1 && rest[i] == a && rest[i + 1] == b;
        assert s[i + 1] == a && s[i + 2] == b;
      }
    }
  }

  /** The pieces with cc between them. */
  ghost function Glued(ps: seq<string>, c: char): string
    requires ps != []
  {
    if |ps| == 1 then ps[0] else ps[0] + [c, c] + Glued(ps[1..], c)
  }

  /** A piece holds no separator, and the one after it starts as early as it can. */
  ghost predicate IsPiece(p: string, c: char, last: bool) {
    NoPair(p, c, c) && (!last && p != "" ==> p[|p| - 1] != c)
  }

  ghost predicate SplitsInto(s: string, c: char, ps: seq<string>) {
    && ps != [] && s == Glued(ps, c)
    && forall i :: 0 <= i < |ps| ==> IsPiece(ps[i], c, i == |ps| - 1)
  }

  lemma GluedPrepend(d: char, ps: seq<string>, c: char)
    requires ps != []
    ensures Glued(Prepend(d, ps), c) == [d] + Glued(ps, c)
  {
    var qs := Prepend(d, ps);
    assert qs[1..] == ps[1..];
  }

  lemma PrependSplits(d: char, s: string, c: char, ps: seq<string>)
    requires SplitsInto(s, c, ps) && !(s != "" && d == c && s[0] == c)
    ensures SplitsInto([d] + s, c, Prepend(d, ps))
  {
    var qs := Prepend(d, ps);
    GluedPrepend(d, ps, c);
    assert qs[0] == [d] + ps[0] && |qs| == |ps|;
    assert ps[0] != "" ==> s[0] == ps[0][0];
    assert ps[0] == "" && |ps| > 1 ==> s[0] == c;
    forall i | 0 <= i < |qs| ensures IsPiece(qs[i], c, i == |qs| - 1) {
      assert IsPiece(ps[i], c, i == |ps| - 1);
      assert i > 0 ==> qs[i] == ps[i];
    }
  }

  lemma PairSplits(s: string, c: char, ps: seq<string>)
    requires SplitsInto(s, c, ps)
    ensures SplitsInto([c, c] + s, c, [""] + ps)
  {
    assert ([""] + ps)[1..] == ps;
    assert "" + [c, c] + s == [c, c] + s;
  }

  lemma {:induction false} SplitIsOne(s: string, c: char)
    ensures SplitsInto(s, c, Split(s, c))
  {
    if |s| >= 2 && s[0] == c && s[1] == c {
      SplitIsOne(s[2..], c);
      PairSplits(s[2..], c, Split(s[2..], c));
      assert s == [c, c] + s[2..];
    } else if s != [] {
      SplitIsOne(s[1..], c);
      PrependSplits(s[0], s[1..], c, Split(s[1..], c));
      assert s == [s[0]] + s[1..];
    }
  }

  lemma TailSplits(s: string, c: char, ps: seq<string>)
    requires SplitsInto(s, c, ps) && |ps| > 1
    ensures SplitsInto(s[|ps[0]| + 2..], c, ps[1..])
  {
    assert forall i :: 1 <= i < |ps| ==> IsPiece(ps[i], c, i == |ps| - 1);
    assert forall i :: 0 <= i < |ps[1..]| ==> ps[1..][i] == ps[i + 1];
  }

  lemma EarliestSeparator(s: string, c: char, ps: seq<string>)
    requires SplitsInto(s, c, ps) && |s| >= 2 && s[0] == c && s[1] == c
    ensures |ps| > 1 && ps[0] == ""
  {
    assert IsPiece(ps[0], c, 0 == |ps| - 1);
  }

  lemma HeadSplits(s: string, c: char, ps: seq<string>) returns (qs: seq<string>)
    requires SplitsInto(s, c, ps) && s != "" && !(|s| >= 2 && s[0] == c && s[1] == c)
    ensures SplitsInto(s[1..], c, qs) && ps == Prepend(s[0], qs)
  {
    assert ps[0] != "";
    qs := [ps[0][1..]] + ps[1..];
    assert ps[0][0] == s[0] && ps[0] == [s[0]] + ps[0][1..];
    assert ps == [ps[0]] + ps[1..] && qs[1..] == ps[1..];
    assert ps == Prepend(s[0], qs);
    GluedPrepend(s[0], qs, c);
    forall i | 0 <= i < |qs| ensures IsPiece(qs[i], c, i == |qs| - 1) {
      assert IsPiece(ps[i], c, i == |ps| - 1);
      assert i > 0 ==> qs[i] == ps[i];
    }
  }

  lemma {:induction false} SplitIsOnly(s: string, c: char, ps: seq<string>)
    requires SplitsInto(s, c, ps)
    ensures Split(s, c) == ps
    decreases |s|
  {
    if |s| >= 2 && s[0] == c && s[1] == c {
      EarliestSeparator(s, c, ps);
      TailSplits(s, c, ps);
      SplitIsOnly(s[2..], c, ps[1..]);
      assert ps == [""] + ps[1..];
    } else if s != [] {
      var qs := HeadSplits(s, c, ps);
      SplitIsOnly(s[1..], c, qs);
    } else {
      assert ps == [""];
    }
  }

  /** Splitting gives the pieces that glue back to the text, none holding a separator and each cut at
      the earliest separator; there is one way to do so. */
  lemma SplitMeaning(s: string, c: char, ps: seq<string>)
    ensures Split(s, c) == ps <==> SplitsInto(s, c, ps)
  {
    SplitIsOne(s, c);
    if SplitsInto(s, c, ps) { SplitIsOnly(s, c, ps); }
  }

  // ----- One comparison -----

  ghost predicate Unquoted(v: string) {
    '"' !in v && '\'' !in v
  }

  ghost function OpText(op: Op): string {
    if op == Eq then "==" else "!="
  }

  ghost predicate QuotedIn(s: string, v: string) {
    s == "\"" + v + "\"" || s == "'" + v + "'"
  }

  /** A known fact, the operator and a quoted literal, each within white space. The literal holds no
      quote; that of a != comparison holds no == either. */
  ghost predicate WrittenWith(text: string, c: Comparison, left: string, right: string, quoted: string) {
    && KnownFact(c.fact) && Around(left, c.fact)
    && Unquoted(c.value) && (c.op == Ne ==> NoPair(c.value, '=', '=')) && QuotedIn(quoted, c.value) && Around(right, quoted)
    && text == left + OpText(c.op) + right
  }

  ghost predicate Written(text: string, c: Comparison) {
    exists left, right, quoted :: WrittenWith(text, c, left, right, quoted)
  }

  lemma UnquoteMeaning(s: string, v: string)
    ensures Unquote(s) == Some(v) <==> Unquoted(v) && QuotedIn(s, v)
  {
    if Unquote(s) == Some(v) {
      assert s == [s[0]] + v + [s[|s| - 1]];
    }
    if QuotedIn(s, v) {
      assert s[1..|s| - 1] == v;
    }
  }

  /** Nothing within text that has no == has one. */
  lemma Within(s: string, a: string, v: string, e: string)
    requires s == a + v + e && NoPair(s, '=', '=')
    ensures NoPair(v, '=', '=')
  {
    forall i | 0 <= i < |v| - 1 ensures v[i] != '=' || v[i + 1] != '=' {
      assert s[|a| + i] == v[i] && s[|a| + i + 1] == v[i + 1];
    }
  }

  lemma LiteralWithin(left: string, op: string, right: string, quoted: string, v: string)
    requires NoPair(left + op + right, '=', '=') && Around(right, quoted) && QuotedIn(quoted, v)
    ensures NoPair(v, '=', '=')
  {
    assert left + op + right == (left + op) + right + "";
    Within(left + op + right, left + op, right, "");
    var h, t :| AllSpace(h) && AllSpace(t) && right == h + quoted + t;
    Within(right, h, quoted, t);
    assert quoted == [quoted[0]] + v + [quoted[|quoted| - 1]];
    Within(quoted, [quoted[0]], v, [quoted[|quoted| - 1]]);
  }

  lemma TrimmedIsWritten(s: string, op: Op, o: char, c: Comparison) returns (left: string, right: string, quoted: string)
    requires HasPair(s, o, '=') && ParseWith(s, op, o, '=') == Some(c) && OpText(op) == [o, '=']
    requires op == Ne ==> NoPair(s, '=', '=')
    ensures WrittenWith(s, c, left, right, quoted)
  {
    left, right := Cut(s, o, '=').0, Cut(s, o, '=').1;
    CutParts(s, o, '=');
    quoted := TrimSpace(right);
    TrimMeaning(left, c.fact);
    TrimMeaning(right, quoted);
    UnquoteMeaning(quoted, c.value);
    if op == Ne { LiteralWithin(left, OpText(op), right, quoted, c.value); }
  }

  lemma AroundMore(h: string, s: string, t: string, core: string)
    requires AllSpace(h) && AllSpace(t) && Around(s, core)
    ensures Around(h + s + t, core)
  {
    var h', t' :| AllSpace(h') && AllSpace(t') && s == h' + core + t';
    assert h + s + t == (h + h') + core + (t' + t);
    assert AllSpace(h + h') && AllSpace(t' + t);
  }

  lemma WithinSpaces(h: string, s: string, t: string, c: Comparison, left: string, right: string, quoted: string)
    requires AllSpace(h) && AllSpace(t) && WrittenWith(s, c, left, right, quoted)
    ensures Written(h + s + t, c)
  {
    AroundMore(h, left, "", c.fact);
    AroundMore("", right, t, quoted);
    assert h + left + "" == h + left && "" + right + t == right + t;
    assert h + s + t == (h + left) + OpText(c.op) + (right + t);
    assert WrittenWith(h + s + t, c, h + left, right + t, quoted);
  }

  lemma ReadIsWritten(text: string, c: Comparison)
    requires ParseComparison(text) == Some(c)
    ensures Written(text, c)
  {
    var s := TrimSpace(text);
    var h, t := TrimParts(text);
    PairMeaning(s, '=', '=');
    var op, o := if HasPair(s, '=', '=') then Eq else Ne, if HasPair(s, '=', '=') then '=' else '!';
    var left, right, quoted := TrimmedIsWritten(s, op, o, c);
    WithinSpaces(h, s, t, c, left, right, quoted);
  }

  /** A comparison that starts with its fact and ends with its literal. */
  ghost predicate Bare(s: string, c: Comparison, b: string, d: string, quoted: string) {
    && KnownFact(c.fact) && AllSpace(b) && AllSpace(d)
    && Unquoted(c.value) && (c.op == Ne ==> NoPair(c.value, '=', '=')) && QuotedIn(quoted, c.value)
    && s == (c.fact + b) + (OpText(c.op) + (d + quoted))
  }

  lemma Regrouped(a: string, fact: string, b: string, op: string, d: string, quoted: string, e: string)
    ensures (a + fact + b) + op + (d + quoted + e) == a + ((fact + b) + (op + (d + quoted))) + e
  {
  }

  lemma BareSolid(s: string, c: Comparison, b: string, d: string, quoted: string)
    requires Bare(s, c, b, d, quoted)
    ensures Solid(s)
  {
    FactShape(c.fact);
    assert s[0] == c.fact[0];
    assert s[|s| - 1] == quoted[|quoted| - 1];
  }

  lemma WrittenTrims(text: string, c: Comparison, left: string, right: string, quoted: string)
    returns (b: string, d: string)
    requires WrittenWith(text, c, left, right, quoted)
    ensures Bare(TrimSpace(text), c, b, d, quoted)
  {
    var a, e;
    a, b :| AllSpace(a) && AllSpace(b) && left == a + c.fact + b;
    d, e :| AllSpace(d) && AllSpace(e) && right == d + quoted + e;
    var core := (c.fact + b) + (OpText(c.op) + (d + quoted));
    BareSolid(core, c, b, d, quoted);
    Regrouped(a, c.fact, b, OpText(c.op), d, quoted, e);
    Trims(a, core, e);
  }

  lemma FactFirst(fact: string, b: string)
    requires KnownFact(fact) && AllSpace(b)
    ensures '=' !in fact + b && '!' !in fact + b && TrimSpace(fact + b) == fact
  {
    FactShape(fact);
    Trims("", fact, b);
    assert "" + fact + b == fact + b;
  }

  lemma LiteralLast(d: string, quoted: string, v: string)
    requires AllSpace(d) && QuotedIn(quoted, v) && Unquoted(v)
    ensures Unquote(TrimSpace(d + quoted)) == Some(v)
  {
    Trims(d, quoted, "");
    assert d + quoted + "" == d + quoted;
    UnquoteMeaning(quoted, v);
  }

  lemma BareReads(s: string, c: Comparison, b: string, d: string, quoted: string)
    requires Bare(s, c, b, d, quoted)
    ensures var o := if c.op == Eq then '=' else '!';
            HasPair(s, o, '=') && ParseWith(s, c.op, o, '=') == Some(c)
  {
    var o := if c.op == Eq then '=' else '!';
    FactFirst(c.fact, b);
    LiteralLast(d, quoted, c.value);
    CutAt(c.fact + b, d + quoted, o, '=');
    assert OpText(c.op) == [o, '='];
  }

  lemma LiteralNoPair(d: string, quoted: string, v: string)
    requires AllSpace(d) && QuotedIn(quoted, v) && NoPair(v, '=', '=')
    ensures !HasPair(d + quoted, '=', '=') && (d + quoted)[0] != '='
  {
    var s := d + quoted;
    forall i | 0 <= i < |s| - 1 ensures s[i] != '=' || s[i + 1] != '=' {
      if |d| < i < |s| - 2 { assert s[i] == v[i - |d| - 1] && s[i + 1] == v[i - |d|]; }
    }
    PairMeaning(s, '=', '=');
  }

  lemma NeNoPair(s: string, c: Comparison, b: string, d: string, quoted: string)
    requires Bare(s, c, b, d, quoted) && c.op == Ne
    ensures !HasPair(s, '=', '=')
  {
    var x, y := c.fact + b, d + quoted;
    FactFirst(c.fact, b);
    LiteralNoPair(d, quoted, c.value);
    NoPairWithout(x, '=', '=');
    PairInConcat("!=", y, '=', '=');
    PairInConcat(x, "!=" + y, '=', '=');
  }

  /** The parser reads exactly the written comparisons, as what they say. */
  lemma ComparisonMeaning(text: string, c: Comparison)
    ensures ParseComparison(text) == Some(c) <==> Written(text, c)
  {
    if ParseComparison(text) == Some(c) { ReadIsWritten(text, c); }
    if left, right, quoted :| WrittenWith(text, c, left, right, quoted) {
      var b, d := WrittenTrims(text, c, left, right, quoted);
      BareReads(TrimSpace(text), c, b, d, quoted);
      if c.op == Ne { NeNoPair(TrimSpace(text), c, b, d, quoted); }
    }
  }

  // ----- Guards -----

  ghost predicate AllWritten(ands: seq<string>, cs: seq<Comparison>) {
    |ands| == |cs| && forall j :: 0 <= j < |cs| ==> Written(ands[j], cs[j])
  }

  /** Written comparisons with && between them. */
  ghost predicate TermWritten(part: string, cs: seq<Comparison>) {
    exists ands :: SplitsInto(part, '&', ands) && AllWritten(ands, cs)
  }

  ghost predicate AllTermsWritten(ors: seq<string>, g: Guard) {
    |ors| == |g| && forall i :: 0 <= i < |g| ==> TermWritten(ors[i], g[i])
  }

  /** Terms with || between them. */
  ghost predicate GuardWritten(s: string, g: Guard) {
    exists ors :: SplitsInto(s, '|', ors) && AllTermsWritten(ors, g)
  }

  lemma AllMeaning(ands: seq<string>, cs: seq<Comparison>)
    ensures ParseAll(ands) == Some(cs) <==> AllWritten(ands, cs)
  {
    var all := Comparisons(ands);
    CollectEach(all, cs);
    forall j | 0 <= j < |ands| && j < |cs| ensures all[j] == Some(cs[j]) <==> Written(ands[j], cs[j]) {
      ComparisonMeaning(ands[j], cs[j]);
    }
  }

  lemma TermMeaning(part: string, cs: seq<Comparison>)
    ensures ParseTerm(part) == Some(cs) <==> TermWritten(part, cs)
  {
    AllMeaning(Split(part, '&'), cs);
    SplitIsOne(part, '&');
    if TermWritten(part, cs) {
      var ands :| SplitsInto(part, '&', ands) && AllWritten(ands, cs);
      SplitIsOnly(part, '&', ands);
    }
  }

  lemma AllTermsMeaning(ors: seq<string>, g: Guard)
    ensures ParseTerms(ors) == Some(g) <==> AllTermsWritten(ors, g)
  {
    var all := ParsedTerms(ors);
    CollectEach(all, g);
    forall i | 0 <= i < |ors| && i < |g| ensures all[i] == Some(g[i]) <==> TermWritten(ors[i], g[i]) {
      TermMeaning(ors[i], g[i]);
    }
  }

  lemma TermsMeaning(s: string, g: Guard)
    ensures ParseTerms(Split(s, '|')) == Some(g) <==> GuardWritten(s, g)
  {
    AllTermsMeaning(Split(s, '|'), g);
    SplitIsOne(s, '|');
    if GuardWritten(s, g) {
      var ors :| SplitsInto(s, '|', ors) && AllTermsWritten(ors, g);
      SplitIsOnly(s, '|', ors);
    }
  }

  lemma NothingParsesEmpty()
    ensures ParseTerms(Split("", '|')) == None
  {
    CollectNone(Comparisons([""]), 0);
    assert Split("", '&') == [""] && Split("", '|') == [""];
    CollectNone(ParsedTerms([""]), 0);
  }

  /** The parser reads exactly the texts of the grammar, as the guards they spell; it refuses every
      other text. */
  lemma ParseMeaning(text: string, g: Guard)
    ensures Parse(text) == Some(g) <==> GuardWritten(TrimSpace(text), g)
  {
    TermsMeaning(TrimSpace(text), g);
    NothingParsesEmpty();
  }
}
