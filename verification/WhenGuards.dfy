/** The `when` guard language: parsing, printing and evaluation. */
module WhenGuards {

  import opened Collections
  import opened GoStrings

  datatype Op = Eq | Ne

  datatype Comparison = Comparison(fact: string, op: Op, value: string)

  /** Outer sequence: OR terms; inner: AND terms. */
  type Guard = seq<seq<Comparison>>

  predicate KnownFact(f: string) {
    f == "os_family" || f == "os_id" || f == "os_major" || f == "arch"
  }

  // ----- Text -----

  /** Two equal or unequal characters in a row. */
  predicate HasPair(s: string, a: char, b: char) {
    |s| >= 2 && ((s[0] == a && s[1] == b) || HasPair(s[1..], a, b))
  }

  /** strings.Split(s, cc) for a separator of two equal characters. */
  function Split(s: string, c: char): (r: seq<string>)
    ensures r != []
  {
    if |s| >= 2 && s[0] == c && s[1] == c then [""] + Split(s[2..], c)
    else if s == [] then [""]
    else Prepend(s[0], Split(s[1..], c))
  }

  /** The first piece gains a character. */
  function Prepend(d: char, pieces: seq<string>): (r: seq<string>)
    requires pieces != []
    ensures r != []
  {
    [[d] + pieces[0]] + pieces[1..]
  }

  /** strings.SplitN(s, ab, 2) when ab occurs in s. */
  function Cut(s: string, a: char, b: char): (r: (string, string))
    requires HasPair(s, a, b)
  {
    if s[0] == a && s[1] == b then ("", s[2..])
    else
      var (head, tail) := Cut(s[1..], a, b);
      ([s[0]] + head, tail)
  }

  predicate IsQuote(c: char) {
    c == '"' || c == '\''
  }

  predicate HasQuote(s: string) {
    exists i :: 0 <= i < |s| && IsQuote(s[i])
  }

  function Unquote(s: string): (r: Option<string>) {
    if |s| < 2 || !IsQuote(s[0]) || s[0] != s[|s| - 1] || HasQuote(s[1..|s| - 1]) then None
    else Some(s[1..|s| - 1])
  }

  // ----- Parsing -----

  function ParseWith(s: string, op: Op, a: char, b: char): (r: Option<Comparison>)
    requires HasPair(s, a, b)
  {
    var (head, tail) := Cut(s, a, b);
    var fact := TrimSpace(head);
    if !KnownFact(fact) then None
    else match Unquote(TrimSpace(tail))
         case None => None
         case Some(v) => Some(Comparison(fact, op, v))
  }

  function ParseComparison(text: string): (r: Option<Comparison>) {
    var s := TrimSpace(text);
    if HasPair(s, '=', '=') then ParseWith(s, Eq, '=', '=')
    else if HasPair(s, '!', '=') then ParseWith(s, Ne, '!', '=')
    else None
  }

  function Comparisons(parts: seq<string>): (r: seq<Option<Comparison>>) {
    seq(|parts|, i requires 0 <= i < |parts| => ParseComparison(parts[i]))
  }

  /** Parses each part; None if one fails. */
  function ParseAll(parts: seq<string>): (r: Option<seq<Comparison>>) {
    Collect(Comparisons(parts))
  }

  function ParseTerm(part: string): (r: Option<seq<Comparison>>) {
    ParseAll(Split(part, '&'))
  }

  function ParsedTerms(parts: seq<string>): (r: seq<Option<seq<Comparison>>>) {
    seq(|parts|, i requires 0 <= i < |parts| => ParseTerm(parts[i]))
  }

  function ParseTerms(parts: seq<string>): (r: Option<Guard>) {
    Collect(ParsedTerms(parts))
  }

  function Parse(text: string): (r: Option<Guard>) {
    var s := TrimSpace(text);
    if s == "" then None else ParseTerms(Split(s, '|'))
  }

  lemma ComparisonAt(parts: seq<string>, j: nat)
    requires j < |parts|
    ensures Comparisons(parts)[j] == ParseComparison(parts[j])
  {
  }

  /** The inner loop of parseWhen. */
  method ParseParts(parts: seq<string>) returns (r: Option<seq<Comparison>>)
    ensures r == ParseAll(parts)
  {
    ghost var all := Comparisons(parts);
    var ands: seq<Comparison> := [];
    for j := 0 to |parts|
      invariant Each(all[..j], ands)
    {
      var c := ParseComparison(parts[j]);
      assert all[j] == c by { ComparisonAt(parts, j); }
      if c.None? {
        CollectNone(all, j);
        return None;
      }
      EachMore(all, ands, j);
      ands := ands + [c.value];
    }
    EachAll(all, ands);
    return Some(ands);
  }

  method ParseAnds(part: string) returns (r: Option<seq<Comparison>>)
    ensures r == ParseTerm(part)
  {
    r := ParseParts(Split(part, '&'));
  }

  /** The outer loop of parseWhen. */
  method ParseOrs(terms: seq<string>) returns (r: Option<Guard>)
    ensures r == ParseTerms(terms)
  {
    ghost var all := ParsedTerms(terms);
    var g: Guard := [];
    for i := 0 to |terms|
      invariant Each(all[..i], g)
    {
      var ands := ParseAnds(terms[i]);
      assert all[i] == ands;
      if ands.None? {
        CollectNone(all, i);
        return None;
      }
      EachMore(all, g, i);
      g := g + [ands.value];
    }
    EachAll(all, g);
    return Some(g);
  }

  /** parseWhen. */
  method ParseWhen(text: string) returns (r: Option<Guard>)
    ensures r == Parse(text)
  {
    var s := TrimSpace(text);
    if s == "" {
      return None;
    }
    r := ParseOrs(Split(s, '|'));
  }

  // ----- Printing -----

  function Symbol(op: Op): (r: string) {
    if op == Eq then " == " else " != "
  }

  function Quoted(v: string): (r: string) {
    ['"'] + v + ['"']
  }

  function PrintComparison(c: Comparison): (r: string) {
    c.fact + Symbol(c.op) + Quoted(c.value)
  }

  /** The parts with " cc " between them. */
  function Joined(parts: seq<string>, c: char): (r: string)
    requires parts != []
  {
    if |parts| == 1 then parts[0]
    else Joined(parts[..|parts| - 1], c) + [' ', c, c, ' '] + parts[|parts| - 1]
  }

  function Texts(cs: seq<Comparison>): (r: seq<string>) {
    seq(|cs|, i requires 0 <= i < |cs| => PrintComparison(cs[i]))
  }

  function PrintTerm(cs: seq<Comparison>): (r: string)
    requires cs != []
  {
    Joined(Texts(cs), '&')
  }

  ghost predicate WellFormed(g: Guard) {
    g != [] && forall i :: 0 <= i < |g| ==> g[i] != [] && forall j :: 0 <= j < |g[i]| ==> KnownFact(g[i][j].fact)
  }

  function Terms(g: Guard): (r: seq<string>)
    requires WellFormed(g)
  {
    seq(|g|, i requires 0 <= i < |g| => PrintTerm(g[i]))
  }

  function Print(g: Guard): (r: string)
    requires WellFormed(g)
  {
    Joined(Terms(g), '|')
  }

  /** The literals that survive printing: no quote, no separator, and no == after !=. */
  predicate Printable(c: Comparison) {
    && !HasQuote(c.value) && !HasPair(c.value, '&', '&') && !HasPair(c.value, '|', '|')
    && (c.op == Ne ==> !HasPair(c.value, '=', '='))
  }

  // ----- Pairs and separators in concatenations -----

  lemma {:induction false} PairInConcat(x: string, y: string, a: char, b: char)
    ensures HasPair(x + y, a, b) <==>
            HasPair(x, a, b) || HasPair(y, a, b) || (x != [] && y != [] && x[|x| - 1] == a && y[0] == b)
  {
    if x == [] {
      assert x + y == y;
    } else if |x| == 1 {
      assert (x + y)[1..] == y;
    } else {
      PairInConcat(x[1..], y, a, b);
      assert (x + y)[1..] == x[1..] + y;
    }
  }

  lemma {:induction false} NoPairWithout(s: string, a: char, b: char)
    requires a !in s
    ensures !HasPair(s, a, b)
  {
    if |s| >= 2 {
      NoPairWithout(s[1..], a, b);
    }
  }

  lemma PrependConcat(d: char, a: seq<string>, b: seq<string>)
    requires a != []
    ensures Prepend(d, a + b) == Prepend(d, a) + b
  {
    assert (a + b)[1..] == a[1..] + b;
  }

  lemma SplitPair(y: string, c: char)
    ensures Split([c, c] + y, c) == [""] + Split(y, c)
  {
    assert ([c, c] + y)[2..] == y;
  }

  lemma SplitChar(d: char, y: string, c: char)
    requires d != c || y == [] || y[0] != c
    ensures Split([d] + y, c) == Prepend(d, Split(y, c))
  {
    assert ([d] + y)[1..] == y;
  }

  lemma SplitConcatAfterPair(rest: string, y: string, c: char)
    requires Split(rest + ([c, c] + y), c) == Split(rest, c) + Split(y, c)
    ensures Split([c, c] + rest + ([c, c] + y), c) == Split([c, c] + rest, c) + Split(y, c)
  {
    SplitConcatPair(rest, [c, c] + y, c);
    SplitPair(rest, c);
  }

  lemma SplitConcatAfterChar(d: char, rest: string, y: string, c: char)
    requires d != c || (rest != [] && rest[0] != c)
    requires Split(rest + ([c, c] + y), c) == Split(rest, c) + Split(y, c)
    ensures Split([d] + rest + ([c, c] + y), c) == Split([d] + rest, c) + Split(y, c)
  {
    SplitConcatChar(d, rest, [c, c] + y, c);
    SplitChar(d, rest, c);
    PrependConcat(d, Split(rest, c), Split(y, c));
  }

  lemma {:induction false} SplitConcat(x: string, y: string, c: char)
    requires x != [] ==> x[|x| - 1] != c
    ensures Split(x + ([c, c] + y), c) == Split(x, c) + Split(y, c)
  {
    if x == [] {
      SplitPair(y, c);
      assert x + ([c, c] + y) == [c, c] + y;
    } else if |x| >= 2 && x[0] == c && x[1] == c {
      SplitConcat(x[2..], y, c);
      SplitConcatAfterPair(x[2..], y, c);
      assert x == [c, c] + x[2..];
    } else {
      SplitConcat(x[1..], y, c);
      SplitConcatAfterChar(x[0], x[1..], y, c);
      assert x == [x[0]] + x[1..];
    }
  }

  lemma SplitConcatPair(rest: string, tail: string, c: char)
    ensures Split([c, c] + rest + tail, c) == [""] + Split(rest + tail, c)
  {
    SplitPair(rest + tail, c);
    assert [c, c] + rest + tail == [c, c] + (rest + tail);
  }

  lemma SplitConcatChar(d: char, rest: string, tail: string, c: char)
    requires d != c || (rest != [] && rest[0] != c)
    ensures Split([d] + rest + tail, c) == Prepend(d, Split(rest + tail, c))
  {
    SplitChar(d, rest + tail, c);
    assert [d] + rest + tail == [d] + (rest + tail);
  }

  lemma {:induction false} SplitCount(s: string, c: char)
    ensures !HasPair(s, c, c) ==> Split(s, c) == [s]
    ensures HasPair(s, c, c) ==> |Split(s, c)| >= 2
  {
    if |s| >= 2 && s[0] == c && s[1] == c {
    } else if s != [] {
      SplitCount(s[1..], c);
      assert s == [s[0]] + s[1..];
    }
  }

  // ----- Splitting what was joined -----

  predicate Blank(s: string) {
    s == "" || s == " "
  }

  /** The core with at most one space on either side. */
  ghost predicate Padded(p: string, core: string) {
    exists h, t :: Blank(h) && Blank(t) && p == h + core + t
  }

  lemma IsPadded(core: string, h: string, t: string)
    requires Blank(h) && Blank(t)
    ensures Padded(h + core + t, core)
  {
  }

  lemma PadPair(core: string, h: string, t: string, c: char)
    requires Blank(h) && Blank(t) && c != ' '
    ensures HasPair(h + core + t, c, c) <==> HasPair(core, c, c)
  {
    PairInConcat(h, core, c, c);
    PairInConcat(h + core, t, c, c);
  }

  lemma PadSplit(core: string, h: string, t: string, c: char)
    requires Blank(h) && Blank(t) && c != ' '
    ensures !HasPair(core, c, c) ==> Split(h + core + t, c) == [h + core + t]
    ensures HasPair(core, c, c) ==> |Split(h + core + t, c)| >= 2
  {
    PadPair(core, h, t, c);
    SplitCount(h + core + t, c);
  }

  lemma JoinedSplit(parts: seq<string>, c: char, h: string, t: string)
    requires |parts| > 1 && c != ' '
    ensures var init, last := parts[..|parts| - 1], parts[|parts| - 1];
            Split(h + Joined(parts, c) + t, c) == Split(h + Joined(init, c) + " ", c) + Split(" " + last + t, c)
  {
    var init, last := parts[..|parts| - 1], parts[|parts| - 1];
    var left, right := h + Joined(init, c) + " ", " " + last + t;
    assert h + Joined(parts, c) + t == left + ([c, c] + right);
    SplitConcat(left, right, c);
  }

  lemma OnePad(last: string, c: char, h: string, t: string)
    requires c != ' ' && Blank(h) && Blank(t) && !HasPair(last, c, c)
    ensures var ps := Split(h + last + t, c); |ps| == 1 && Padded(ps[0], last)
  {
    PadSplit(last, h, t, c);
    assert Padded(h + last + t, last);
  }

  ghost predicate EachPadded(ps: seq<string>, parts: seq<string>) {
    |ps| == |parts| && forall i :: 0 <= i < |parts| ==> Padded(ps[i], parts[i])
  }

  lemma PaddedMore(ps: seq<string>, parts: seq<string>, p: seq<string>, last: string)
    requires EachPadded(ps, parts) && |p| == 1 && Padded(p[0], last)
    ensures EachPadded(ps + p, parts + [last])
  {
  }

  /** Without the separator inside a part, splitting gives back the parts, padded. */
  lemma {:induction false} JoinedSplits(parts: seq<string>, c: char, h: string, t: string)
    requires parts != [] && c != ' ' && Blank(h) && Blank(t)
    requires forall i :: 0 <= i < |parts| ==> !HasPair(parts[i], c, c)
    ensures EachPadded(Split(h + Joined(parts, c) + t, c), parts)
  {
    var init, last := parts[..|parts| - 1], parts[|parts| - 1];
    assert parts == init + [last];
    if init == [] {
      OnePad(last, c, h, t);
    } else {
      JoinedSplits(init, c, h, " ");
      JoinedSplit(parts, c, h, t);
      OnePad(last, c, " ", t);
      PaddedMore(Split(h + Joined(init, c) + " ", c), init, Split(" " + last + t, c), last);
    }
  }

  lemma JoinedCount(parts: seq<string>, c: char, h: string, t: string)
    requires |parts| > 1 && c != ' '
    ensures var init, last := parts[..|parts| - 1], parts[|parts| - 1];
            |Split(h + Joined(parts, c) + t, c)| == |Split(h + Joined(init, c) + " ", c)| + |Split(" " + last + t, c)|
  {
    JoinedSplit(parts, c, h, t);
  }

  ghost predicate SomeHolds(parts: seq<string>, c: char) {
    exists i :: 0 <= i < |parts| && HasPair(parts[i], c, c)
  }

  lemma SomeHoldsLast(parts: seq<string>, c: char)
    requires parts != [] && SomeHolds(parts, c)
    ensures HasPair(parts[|parts| - 1], c, c) || SomeHolds(parts[..|parts| - 1], c)
  {
    var i :| 0 <= i < |parts| && HasPair(parts[i], c, c);
    assert i < |parts| - 1 ==> HasPair(parts[..|parts| - 1][i], c, c);
  }

  /** With the separator inside some part, splitting gives too many pieces. */
  lemma {:induction false} JoinedSplitsMore(parts: seq<string>, c: char, h: string, t: string)
    requires parts != [] && c != ' ' && Blank(h) && Blank(t)
    ensures |Split(h + Joined(parts, c) + t, c)| >= |parts| + if SomeHolds(parts, c) then 1 else 0
  {
    var last := parts[|parts| - 1];
    if SomeHolds(parts, c) { SomeHoldsLast(parts, c); }
    if |parts| == 1 {
      PadSplit(last, h, t, c);
    } else {
      JoinedSplitsMore(parts[..|parts| - 1], c, h, " ");
      JoinedCount(parts, c, h, t);
      PadSplit(last, " ", t, c);
    }
  }

  lemma {:induction false} JoinedHasPair(parts: seq<string>, c: char, d: char)
    requires parts != [] && d != c && d != ' '
    ensures HasPair(Joined(parts, c), d, d) <==> exists i :: 0 <= i < |parts| && HasPair(parts[i], d, d)
  {
    if |parts| > 1 {
      var init, last := parts[..|parts| - 1], parts[|parts| - 1];
      var sep := [' ', c, c, ' '];
      JoinedHasPair(init, c, d);
      NoPairWithout(sep, d, d);
      PairInConcat(Joined(init, c), sep, d, d);
      PairInConcat(Joined(init, c) + sep, last, d, d);
      assert parts[|init|] == last && forall i :: 0 <= i < |init| ==> parts[i] == init[i];
      if i :| 0 <= i < |init| && HasPair(init[i], d, d) {
        assert HasPair(parts[i], d, d);
      }
      if i :| 0 <= i < |parts| && HasPair(parts[i], d, d) {
        assert i < |init| ==> HasPair(init[i], d, d);
      }
    }
  }

  lemma {:induction false} JoinedSolid(parts: seq<string>, c: char)
    requires parts != [] && forall i :: 0 <= i < |parts| ==> Solid(parts[i])
    ensures Solid(Joined(parts, c))
  {
    if |parts| > 1 {
      JoinedSolid(parts[..|parts| - 1], c);
    }
  }

  lemma TrimSolid(s: string)
    requires Solid(s)
    ensures TrimSpace(s) == s
  {
  }

  lemma TrimPadded(p: string, core: string)
    requires Solid(core) && Padded(p, core)
    ensures TrimSpace(p) == core
  {
    var h, t :| Blank(h) && Blank(t) && p == h + core + t;
    Trims(h, core, t);
  }

  // ----- One comparison -----

  predicate Plain(c: char) {
    c == '_' || 'a' <= c <= 'z'
  }

  lemma FactShape(f: string)
    requires KnownFact(f)
    ensures f != [] && forall i :: 0 <= i < |f| ==> Plain(f[i])
  {
  }

  lemma {:induction false} CutAt(x: string, y: string, a: char, b: char)
    requires a !in x
    ensures HasPair(x + ([a, b] + y), a, b) && Cut(x + ([a, b] + y), a, b) == (x, y)
  {
    var s := x + ([a, b] + y);
    if x == [] {
      assert s == [a, b] + y;
    } else {
      CutAt(x[1..], y, a, b);
      assert s[1..] == x[1..] + ([a, b] + y);
      assert x == [x[0]] + x[1..];
    }
  }

  /** What the text of a comparison reads back as, before its literal is unquoted. */
  lemma ParseWithAt(fact: string, op: Op, a: char, b: char, v: string)
    requires KnownFact(fact) && !Plain(a) && a != ' '
    ensures var s := fact + " " + ([a, b] + (" " + Quoted(v)));
            HasPair(s, a, b) && ParseWith(s, op, a, b) == if HasQuote(v) then None else Some(Comparison(fact, op, v))
  {
    FactShape(fact);
    CutAt(fact + " ", " " + Quoted(v), a, b);
    assert Solid(fact);
    IsPadded(fact, "", " ");
    assert "" + fact + " " == fact + " ";
    TrimPadded(fact + " ", fact);
    QuotedBack(v);
  }

  lemma QuotedBack(v: string)
    ensures Unquote(TrimSpace(" " + Quoted(v))) == if HasQuote(v) then None else Some(v)
  {
    var q := Quoted(v);
    assert Solid(q);
    IsPadded(q, " ", "");
    assert " " + q + "" == " " + q;
    TrimPadded(" " + q, q);
    assert q[1..|q| - 1] == v;
  }

  lemma {:induction false} CutParts(s: string, a: char, b: char)
    requires HasPair(s, a, b)
    ensures var (head, tail) := Cut(s, a, b); s == head + [a, b] + tail
  {
    if !(s[0] == a && s[1] == b) {
      CutParts(s[1..], a, b);
    }
  }

  lemma BangInHead(fact: string, rest: string)
    requires KnownFact(fact) && HasPair(fact + " != " + rest, '=', '=')
    ensures '!' in Cut(fact + " != " + rest, '=', '=').0
  {
    var s, n := fact + " != " + rest, |fact|;
    var (head, tail) := Cut(s, '=', '=');
    CutParts(s, '=', '=');
    FactShape(fact);
    assert s[n..n + 4] == " != ";
    assert s[n + 1] == s[n..n + 4][1] && s[n + 2] == s[n..n + 4][2] && s[n + 3] == s[n..n + 4][3] && s[n] == s[n..n + 4][0];
    assert s[|head|] == '=' && s[|head| + 1] == '=';
    assert forall i :: 0 <= i < n ==> s[i] == fact[i];
    assert |head| > n + 1;
    assert head[n + 1] == s[n + 1] == '!';
  }

  lemma BangIsNoFact(head: string)
    requires '!' in head
    ensures !KnownFact(TrimSpace(head))
  {
    TrimKeeps(head, '!');
    TrimKeeps(TrimSpaceRight(head), '!');
    if KnownFact(TrimSpace(head)) { FactShape(TrimSpace(head)); }
  }

  /** A != comparison whose literal holds == is read as a == comparison of no known fact. */
  lemma NeReadAsEq(fact: string, v: string)
    requires KnownFact(fact) && HasPair(fact + " != " + Quoted(v), '=', '=')
    ensures ParseWith(fact + " != " + Quoted(v), Eq, '=', '=') == None
  {
    BangInHead(fact, Quoted(v));
    BangIsNoFact(Cut(fact + " != " + Quoted(v), '=', '=').0);
  }

  lemma PairInPrinted(prefix: string, v: string, a: char, b: char)
    requires prefix != [] && prefix[|prefix| - 1] == ' ' && !HasPair(prefix, a, b) && a != ' ' && a != '"' && b != '"'
    ensures HasPair(prefix + Quoted(v), a, b) <==> HasPair(v, a, b)
  {
    PairInConcat(['"'], v, a, b);
    PairInConcat(['"'] + v, ['"'], a, b);
    PairInConcat(prefix, Quoted(v), a, b);
  }

  predicate ReadsBack(c: Comparison) {
    !HasQuote(c.value) && (c.op == Ne ==> !HasPair(c.value, '=', '='))
  }

  lemma PrintedSolid(c: Comparison)
    requires KnownFact(c.fact)
    ensures Solid(PrintComparison(c))
  {
    FactShape(c.fact);
  }

  lemma ReadEq(c: Comparison)
    requires KnownFact(c.fact) && c.op == Eq
    ensures ParseComparison(PrintComparison(c)) == if ReadsBack(c) then Some(c) else None
  {
    var s := PrintComparison(c);
    PrintedSolid(c);
    TrimSolid(s);
    ParseWithAt(c.fact, Eq, '=', '=', c.value);
    assert s == c.fact + " " + (['=', '='] + (" " + Quoted(c.value)));
  }

  lemma ReadNe(c: Comparison)
    requires KnownFact(c.fact) && c.op == Ne
    ensures ParseComparison(PrintComparison(c)) == if ReadsBack(c) then Some(c) else None
  {
    var s := PrintComparison(c);
    PrintedSolid(c);
    TrimSolid(s);
    NePrefix(c.fact);
    PairInPrinted(c.fact + " != ", c.value, '=', '=');
    if HasPair(s, '=', '=') {
      NeReadAsEq(c.fact, c.value);
    } else {
      ParseWithAt(c.fact, Ne, '!', '=', c.value);
      NeText(c);
    }
  }

  lemma NeText(c: Comparison)
    requires c.op == Ne
    ensures PrintComparison(c) == c.fact + " " + (['!', '='] + (" " + Quoted(c.value)))
  {
  }

  lemma NePrefix(fact: string)
    requires KnownFact(fact)
    ensures !HasPair(fact + " != ", '=', '=')
  {
    FactShape(fact);
    NoPairWithout(fact, '=', '=');
    PairInConcat(fact, " != ", '=', '=');
    assert " != "[1..] == "!= " && "!= "[1..] == "= " && "= "[1..] == " ";
  }

  lemma ReadComparison(c: Comparison, piece: string)
    requires KnownFact(c.fact) && Padded(piece, PrintComparison(c))
    ensures ParseComparison(piece) == if ReadsBack(c) then Some(c) else None
  {
    var s := PrintComparison(c);
    PrintedSolid(c);
    TrimPadded(piece, s);
    TrimSolid(s);
    if c.op == Eq { ReadEq(c); } else { ReadNe(c); }
  }

  /** A separator shows up in a printed comparison exactly when the literal holds it. */
  lemma SeparatorInPrinted(c: Comparison, d: char)
    requires KnownFact(c.fact) && (d == '&' || d == '|')
    ensures HasPair(PrintComparison(c), d, d) <==> HasPair(c.value, d, d)
  {
    FactShape(c.fact);
    NoPairWithout(c.fact + Symbol(c.op), d, d);
    PairInPrinted(c.fact + Symbol(c.op), c.value, d, d);
  }

  // ----- Whole guards -----

  ghost predicate AllKnown(cs: seq<Comparison>) {
    cs != [] && forall j :: 0 <= j < |cs| ==> KnownFact(cs[j].fact)
  }

  lemma ParseAllEach(parts: seq<string>, cs: seq<Comparison>)
    ensures ParseAll(parts) == Some(cs) <==>
            |cs| == |parts| && forall j :: 0 <= j < |cs| ==> ParseComparison(parts[j]) == Some(cs[j])
  {
    CollectEach(Comparisons(parts), cs);
    assert Each(Comparisons(parts), cs) ==> forall j :: 0 <= j < |cs| ==> Comparisons(parts)[j] == Some(cs[j]);
  }

  lemma ParseTermsEach(parts: seq<string>, g: Guard)
    ensures ParseTerms(parts) == Some(g) <==>
            |g| == |parts| && forall i :: 0 <= i < |g| ==> ParseTerm(parts[i]) == Some(g[i])
  {
    CollectEach(ParsedTerms(parts), g);
    assert Each(ParsedTerms(parts), g) ==> forall i :: 0 <= i < |g| ==> ParsedTerms(parts)[i] == Some(g[i]);
  }

  /** A term reads back exactly when each literal holds no quote, no && and, after !=, no ==. */
  lemma TermRoundTrip(cs: seq<Comparison>, piece: string)
    requires AllKnown(cs) && Padded(piece, PrintTerm(cs))
    ensures ParseTerm(piece) == Some(cs) <==>
            forall j :: 0 <= j < |cs| ==> !HasPair(cs[j].value, '&', '&') && ReadsBack(cs[j])
  {
    var h, t :| Blank(h) && Blank(t) && piece == h + PrintTerm(cs) + t;
    var texts, ps := Texts(cs), Split(piece, '&');
    assert PrintTerm(cs) == Joined(texts, '&');
    forall j | 0 <= j < |cs| ensures HasPair(texts[j], '&', '&') <==> HasPair(cs[j].value, '&', '&') {
      SeparatorInPrinted(cs[j], '&');
    }
    ParseAllEach(ps, cs);
    if j :| 0 <= j < |cs| && HasPair(cs[j].value, '&', '&') {
      assert HasPair(texts[j], '&', '&');
      JoinedSplitsMore(texts, '&', h, t);
    } else {
      JoinedSplits(texts, '&', h, t);
      forall j | 0 <= j < |cs| ensures ParseComparison(ps[j]) == if ReadsBack(cs[j]) then Some(cs[j]) else None {
        ReadComparison(cs[j], ps[j]);
      }
    }
  }

  lemma TermShape(cs: seq<Comparison>)
    requires AllKnown(cs)
    ensures Solid(PrintTerm(cs))
    ensures HasPair(PrintTerm(cs), '|', '|') <==> exists j :: 0 <= j < |cs| && HasPair(cs[j].value, '|', '|')
  {
    var texts := Texts(cs);
    assert PrintTerm(cs) == Joined(texts, '&');
    forall j | 0 <= j < |cs| ensures Solid(texts[j]) && (HasPair(texts[j], '|', '|') <==> HasPair(cs[j].value, '|', '|')) {
      PrintedSolid(cs[j]);
      SeparatorInPrinted(cs[j], '|');
    }
    JoinedSolid(texts, '&');
    JoinedHasPair(texts, '&', '|');
    if j :| 0 <= j < |cs| && HasPair(cs[j].value, '|', '|') {
      assert HasPair(texts[j], '|', '|');
    }
  }

  ghost predicate AllPrintable(g: Guard) {
    forall i, j :: 0 <= i < |g| && 0 <= j < |g[i]| ==> Printable(g[i][j])
  }

  lemma TermsShape(g: Guard)
    requires WellFormed(g)
    ensures Print(g) == Joined(Terms(g), '|')
    ensures TrimSpace(Print(g)) == Print(g) && Print(g) != ""
    ensures forall i :: 0 <= i < |g| ==> (HasPair(Terms(g)[i], '|', '|') <==> HoldsBar(g[i]))
  {
    var terms := Terms(g);
    forall i | 0 <= i < |g| ensures Solid(terms[i]) && (HasPair(terms[i], '|', '|') <==> HoldsBar(g[i])) {
      TermShape(g[i]);
    }
    JoinedSolid(terms, '|');
    TrimSolid(Print(g));
  }

  /** Some literal of the term holds ||. */
  ghost predicate HoldsBar(cs: seq<Comparison>) {
    exists j :: 0 <= j < |cs| && HasPair(cs[j].value, '|', '|')
  }

  lemma BarBreaksGuard(g: Guard, i: nat)
    requires WellFormed(g) && i < |g| && HoldsBar(g[i])
    ensures Parse(Print(g)) != Some(g)
  {
    var terms := Terms(g);
    TermsShape(g);
    assert HasPair(terms[i], '|', '|');
    JoinedSplitsMore(terms, '|', "", "");
    assert "" + Print(g) + "" == Print(g);
    ParseTermsEach(Split(Print(g), '|'), g);
  }

  lemma GuardWithoutBars(g: Guard)
    requires WellFormed(g) && forall i :: 0 <= i < |g| ==> !HoldsBar(g[i])
    ensures Parse(Print(g)) == Some(g) <==> AllPrintable(g)
  {
    var ps := Split(Print(g), '|');
    TermsShape(g);
    PrintedPieces(g);
    ParseTermsEach(ps, g);
    forall i | 0 <= i < |g| ensures ParseTerm(ps[i]) == Some(g[i]) <==> TermPrintable(g[i]) {
      assert Padded(ps[i], Terms(g)[i]);
      TermReadsBack(g[i], ps[i]);
    }
    assert AllPrintable(g) <==> forall i :: 0 <= i < |g| ==> TermPrintable(g[i]);
  }

  ghost predicate TermPrintable(cs: seq<Comparison>) {
    forall j :: 0 <= j < |cs| ==> Printable(cs[j])
  }

  lemma PrintedPieces(g: Guard)
    requires WellFormed(g) && forall i :: 0 <= i < |g| ==> !HoldsBar(g[i])
    ensures EachPadded(Split(Print(g), '|'), Terms(g))
  {
    TermsShape(g);
    JoinedSplits(Terms(g), '|', "", "");
    assert "" + Print(g) + "" == Print(g);
  }

  lemma TermReadsBack(cs: seq<Comparison>, piece: string)
    requires AllKnown(cs) && Padded(piece, PrintTerm(cs)) && !HoldsBar(cs)
    ensures ParseTerm(piece) == Some(cs) <==> TermPrintable(cs)
  {
    TermRoundTrip(cs, piece);
  }

  /** Printing a guard and parsing the text gives the guard back exactly when its literals hold no
      quotes, no && or ||, and no == in a != comparison. */
  lemma GuardRoundTrip(g: Guard)
    requires WellFormed(g)
    ensures Parse(Print(g)) == Some(g) <==> AllPrintable(g)
  {
    if i :| 0 <= i < |g| && HoldsBar(g[i]) {
      BarBreaksGuard(g, i);
      var j :| 0 <= j < |g[i]| && HasPair(g[i][j].value, '|', '|');
      assert !Printable(g[i][j]);
    } else {
      GuardWithoutBars(g);
    }
  }

  // ----- What the parser returns -----

  /** part occurs in whole. */
  ghost predicate Inside(part: string, whole: string) {
    exists h, t :: whole == h + part + t
  }

  lemma InsidePair(part: string, whole: string, a: char, b: char)
    requires Inside(part, whole) && HasPair(part, a, b)
    ensures HasPair(whole, a, b)
  {
    var h, t :| whole == h + part + t;
    PairInConcat(h, part, a, b);
    PairInConcat(h + part, t, a, b);
  }

  lemma InsideInside(x: string, y: string, z: string)
    requires Inside(x, y) && Inside(y, z)
    ensures Inside(x, z)
  {
    var h, t :| y == h + x + t;
    var h', t' :| z == h' + y + t';
    assert z == (h' + h) + x + (t + t');
  }

  lemma {:induction false} LeftInside(s: string)
    ensures Inside(TrimSpaceLeft(s), s)
  {
    if s != [] && IsSpace(s[0]) {
      LeftInside(s[1..]);
      assert s == [s[0]] + s[1..] + "";
      InsideInside(TrimSpaceLeft(s), s[1..], s);
    } else {
      assert s == "" + s + "";
    }
  }

  lemma {:induction false} RightInside(s: string)
    ensures Inside(TrimSpaceRight(s), s)
  {
    if s != [] && IsSpace(s[|s| - 1]) {
      var init := s[..|s| - 1];
      RightInside(init);
      assert s == "" + init + [s[|s| - 1]];
      InsideInside(TrimSpaceRight(s), init, s);
    } else {
      assert s == "" + s + "";
    }
  }

  lemma TrimInside(s: string)
    ensures Inside(TrimSpace(s), s)
  {
    RightInside(s);
    LeftInside(TrimSpaceRight(s));
    InsideInside(TrimSpace(s), TrimSpaceRight(s), s);
  }

  lemma {:induction false} FirstPiece(s: string, c: char)
    ensures Split(s, c)[0] <= s
  {
    if s != [] && !(|s| >= 2 && s[0] == c && s[1] == c) {
      FirstPiece(s[1..], c);
    }
  }

  lemma InsideTail(part: string, n: nat, s: string)
    requires n <= |s| && Inside(part, s[n..])
    ensures Inside(part, s)
  {
    assert s == s[..n] + s[n..] + "";
    InsideInside(part, s[n..], s);
  }

  lemma FirstPieceInside(s: string, c: char)
    ensures Inside(Split(s, c)[0], s)
  {
    FirstPiece(s, c);
    var p := Split(s, c)[0];
    assert s == "" + p + s[|p|..];
  }

  lemma FirstPieceGrows(s: string, c: char)
    requires s != [] && !(|s| >= 2 && s[0] == c && s[1] == c) && !HasPair(Split(s[1..], c)[0], c, c)
    ensures !HasPair(Split(s, c)[0], c, c)
  {
    var p := Split(s[1..], c)[0];
    FirstPiece(s[1..], c);
    assert Split(s, c)[0] == [s[0]] + p;
    PairInConcat([s[0]], p, c, c);
  }

  lemma {:induction false} PieceInside(s: string, c: char, i: nat)
    requires i < |Split(s, c)|
    ensures Inside(Split(s, c)[i], s) && !HasPair(Split(s, c)[i], c, c)
  {
    if i == 0 { FirstPieceInside(s, c); }
    if |s| >= 2 && s[0] == c && s[1] == c {
      if i > 0 {
        PieceInside(s[2..], c, i - 1);
        InsideTail(Split(s, c)[i], 2, s);
      }
    } else if s != [] {
      PieceInside(s[1..], c, i);
      if i == 0 {
        FirstPieceGrows(s, c);
      } else {
        InsideTail(Split(s, c)[i], 1, s);
      }
    }
  }

  lemma ValueInside(s: string, op: Op, a: char, b: char)
    requires HasPair(s, a, b) && ParseWith(s, op, a, b).Some?
    ensures var c := ParseWith(s, op, a, b).value;
            KnownFact(c.fact) && c.op == op && Inside(c.value, s) && !HasQuote(c.value)
  {
    var (head, tail) := Cut(s, a, b);
    CutParts(s, a, b);
    assert s == head + [a, b] + tail;
    assert s == (head + [a, b]) + tail + "";
    TrimInside(tail);
    InsideInside(TrimSpace(tail), tail, s);
    var quoted := TrimSpace(tail);
    var v := quoted[1..|quoted| - 1];
    assert quoted == quoted[..1] + v + quoted[|quoted| - 1..];
    InsideInside(v, quoted, s);
  }

  lemma ParsedComparison(text: string)
    requires ParseComparison(text).Some?
    ensures var c := ParseComparison(text).value;
            && KnownFact(c.fact) && Inside(c.value, text) && !HasQuote(c.value)
            && (c.op == Ne ==> !HasPair(c.value, '=', '='))
  {
    var s, c := TrimSpace(text), ParseComparison(text).value;
    TrimInside(text);
    if HasPair(s, '=', '=') {
      ValueInside(s, Eq, '=', '=');
    } else {
      ValueInside(s, Ne, '!', '=');
      if HasPair(c.value, '=', '=') { InsidePair(c.value, s, '=', '='); }
    }
    InsideInside(c.value, s, text);
  }

  lemma ParsedTerm(part: string, cs: seq<Comparison>, j: nat)
    requires ParseTerm(part) == Some(cs) && !HasPair(part, '|', '|') && j < |cs|
    ensures KnownFact(cs[j].fact) && Printable(cs[j])
  {
    var ps := Split(part, '&');
    ParseAllEach(ps, cs);
    ParsedComparison(ps[j]);
    PieceInside(part, '&', j);
    InsideInside(cs[j].value, ps[j], part);
    if HasPair(cs[j].value, '&', '&') { InsidePair(cs[j].value, ps[j], '&', '&'); }
    if HasPair(cs[j].value, '|', '|') { InsidePair(cs[j].value, part, '|', '|'); }
  }

  /** Every guard the parser returns is well formed and printable. */
  lemma ParsedIsPrintable(text: string, g: Guard)
    requires Parse(text) == Some(g)
    ensures WellFormed(g) && AllPrintable(g)
  {
    var s := TrimSpace(text);
    var ps := Split(s, '|');
    ParseTermsEach(ps, g);
    forall i | 0 <= i < |g|
      ensures g[i] != [] && forall j :: 0 <= j < |g[i]| ==> KnownFact(g[i][j].fact) && Printable(g[i][j])
    {
      assert ParseTerm(ps[i]) == Some(g[i]);
      PieceInside(s, '|', i);
      ParseAllEach(Split(ps[i], '&'), g[i]);
      forall j | 0 <= j < |g[i]| ensures KnownFact(g[i][j].fact) && Printable(g[i][j]) {
        ParsedTerm(ps[i], g[i], j);
      }
    }
  }

  /** The parser's range is exactly the printable guards, and parsing the printed form of a parsed
      guard gives that guard again. */
  lemma ParserRange(g: Guard)
    ensures (exists text :: Parse(text) == Some(g)) <==> WellFormed(g) && AllPrintable(g)
    ensures (exists text :: Parse(text) == Some(g)) ==> WellFormed(g) && Parse(Print(g)) == Some(g)
  {
    if text :| Parse(text) == Some(g) {
      ParsedIsPrintable(text, g);
    }
    if WellFormed(g) && AllPrintable(g) {
      GuardRoundTrip(g);
    }
  }

  // ----- Evaluation -----

  /** An answer, or Unknown when a fact that is needed could not be probed. */
  datatype Verdict = Answer(holds: bool) | Unknown

  predicate Holds(c: Comparison, value: string) {
    if c.op == Eq then value == c.value else value != c.value
  }

  /** The AND terms, left to right, up to the first that does not hold. */
  function EvalTerm(cs: seq<Comparison>, facts: map<string, string>): (r: Verdict) {
    if cs == [] then Answer(true)
    else if cs[0].fact !in facts then Unknown
    else if !Holds(cs[0], facts[cs[0].fact]) then Answer(false)
    else EvalTerm(cs[1..], facts)
  }

  /** The OR terms, left to right, up to the first that holds. */
  function EvalGuard(g: Guard, facts: map<string, string>): (r: Verdict) {
    if g == [] then Answer(false)
    else
      match EvalTerm(g[0], facts)
      case Unknown => Unknown
      case Answer(true) => Answer(true)
      case Answer(false) => EvalGuard(g[1..], facts)
  }

  /** eval. */
  method Eval(g: Guard, facts: map<string, string>) returns (r: Verdict)
    ensures r == EvalGuard(g, facts)
  {
    for i := 0 to |g|
      invariant EvalGuard(g, facts) == EvalGuard(g[i..], facts)
    {
      assert g[i..][0] == g[i] && g[i..][1..] == g[i + 1..];
      var ands, all, j := g[i], true, 0;
      while j < |ands|
        invariant 0 <= j <= |ands|
        invariant EvalTerm(ands, facts) == if all then EvalTerm(ands[j..], facts) else Answer(false)
      {
        assert ands[j..][0] == ands[j] && ands[j..][1..] == ands[j + 1..];
        var c := ands[j];
        if c.fact !in facts {
          return Unknown;
        }
        if !Holds(c, facts[c.fact]) {
          all := false;
          break;
        }
        j := j + 1;
      }
      if all {
        return Answer(true);
      }
    }
    return Answer(false);
  }

  /** The plain meaning of a guard when every fact it names is known. */
  ghost predicate Satisfied(g: Guard, facts: map<string, string>)
    requires Probed(g, facts)
  {
    exists i :: 0 <= i < |g| && AllHold(g[i], facts)
  }

  /** Each fact equals its literal where the guard says ==, and differs from it where it says !=. */
  ghost predicate AllHold(cs: seq<Comparison>, facts: map<string, string>)
    requires forall j :: 0 <= j < |cs| ==> cs[j].fact in facts
  {
    forall j :: 0 <= j < |cs| ==> (facts[cs[j].fact] == cs[j].value <==> cs[j].op == Eq)
  }

  ghost predicate Probed(g: Guard, facts: map<string, string>) {
    forall i, j :: 0 <= i < |g| && 0 <= j < |g[i]| ==> g[i][j].fact in facts
  }

  ghost predicate Extends(facts: map<string, string>, more: map<string, string>) {
    forall f :: f in facts ==> f in more && more[f] == facts[f]
  }

  lemma {:induction false} TermAnswerStays(cs: seq<Comparison>, facts: map<string, string>, more: map<string, string>)
    requires Extends(facts, more) && EvalTerm(cs, facts).Answer?
    ensures EvalTerm(cs, more) == EvalTerm(cs, facts)
  {
    if cs != [] && Holds(cs[0], facts[cs[0].fact]) {
      TermAnswerStays(cs[1..], facts, more);
    }
  }

  /** A definite answer never changes when more facts become known. */
  lemma {:induction false} AnswerStays(g: Guard, facts: map<string, string>, more: map<string, string>)
    requires Extends(facts, more) && EvalGuard(g, facts).Answer?
    ensures EvalGuard(g, more) == EvalGuard(g, facts)
  {
    if g != [] {
      TermAnswerStays(g[0], facts, more);
      if EvalTerm(g[0], facts) == Answer(false) {
        AnswerStays(g[1..], facts, more);
      }
    }
  }

  lemma {:induction false} TermAnswer(cs: seq<Comparison>, facts: map<string, string>)
    requires forall j :: 0 <= j < |cs| ==> cs[j].fact in facts
    ensures EvalTerm(cs, facts) == Answer(AllHold(cs, facts))
  {
    if cs != [] {
      TermAnswer(cs[1..], facts);
      assert forall j :: 1 <= j < |cs| ==> cs[1..][j - 1] == cs[j];
    }
  }

  /** With every fact known, eval decides the plain OR of ANDs. */
  lemma {:induction false} KnownFactsDecide(g: Guard, facts: map<string, string>)
    requires Probed(g, facts)
    ensures EvalGuard(g, facts) == Answer(Satisfied(g, facts))
  {
    if g != [] {
      var rest := g[1..];
      assert forall i :: 1 <= i < |g| ==> rest[i - 1] == g[i];
      TermAnswer(g[0], facts);
      KnownFactsDecide(rest, facts);
      if Satisfied(rest, facts) {
        var i :| 0 <= i < |rest| && AllHold(rest[i], facts);
        assert g[i + 1] == rest[i];
      }
    }
  }

  /** The first n comparisons are all known and hold. */
  ghost predicate HoldUpTo(cs: seq<Comparison>, facts: map<string, string>, n: nat) {
    n <= |cs| && forall j :: 0 <= j < n ==> cs[j].fact in facts && (facts[cs[j].fact] == cs[j].value <==> cs[j].op == Eq)
  }

  /** The first comparison that is unknown or does not hold is at n, and it is unknown. */
  ghost predicate StuckAt(cs: seq<Comparison>, facts: map<string, string>, n: nat) {
    n < |cs| && HoldUpTo(cs, facts, n) && cs[n].fact !in facts
  }

  ghost predicate Stuck(cs: seq<Comparison>, facts: map<string, string>) {
    exists n: nat :: StuckAt(cs, facts, n)
  }

  ghost predicate FailsAt(cs: seq<Comparison>, facts: map<string, string>, n: nat) {
    && n < |cs| && HoldUpTo(cs, facts, n) && cs[n].fact in facts
    && (facts[cs[n].fact] == cs[n].value <==> cs[n].op == Ne)
  }

  ghost predicate Fails(cs: seq<Comparison>, facts: map<string, string>) {
    exists n: nat :: FailsAt(cs, facts, n)
  }

  lemma LaterStuck(cs: seq<Comparison>, facts: map<string, string>)
    requires cs != [] && HoldUpTo(cs, facts, 1)
    ensures Stuck(cs, facts) <==> Stuck(cs[1..], facts)
  {
    var rest := cs[1..];
    assert forall j :: 1 <= j < |cs| ==> cs[j] == rest[j - 1];
    if n: nat :| StuckAt(cs, facts, n) {
      assert n > 0 && StuckAt(rest, facts, n - 1);
    }
    if n: nat :| StuckAt(rest, facts, n) {
      assert StuckAt(cs, facts, n + 1);
    }
  }

  lemma LaterFails(cs: seq<Comparison>, facts: map<string, string>)
    requires cs != [] && HoldUpTo(cs, facts, 1)
    ensures Fails(cs, facts) <==> Fails(cs[1..], facts)
  {
    var rest := cs[1..];
    assert forall j :: 1 <= j < |cs| ==> cs[j] == rest[j - 1];
    if n: nat :| FailsAt(cs, facts, n) {
      assert n > 0 && FailsAt(rest, facts, n - 1);
    }
    if n: nat :| FailsAt(rest, facts, n) {
      assert FailsAt(cs, facts, n + 1);
    }
  }

  lemma LaterHolds(cs: seq<Comparison>, facts: map<string, string>)
    requires cs != [] && HoldUpTo(cs, facts, 1)
    ensures HoldUpTo(cs, facts, |cs|) <==> HoldUpTo(cs[1..], facts, |cs| - 1)
  {
    assert forall j :: 1 <= j < |cs| ==> cs[j] == cs[1..][j - 1];
  }

  lemma FirstStops(cs: seq<Comparison>, facts: map<string, string>)
    requires cs != [] && !HoldUpTo(cs, facts, 1)
    ensures Stuck(cs, facts) <==> cs[0].fact !in facts
    ensures Fails(cs, facts) <==> cs[0].fact in facts
    ensures !HoldUpTo(cs, facts, |cs|)
  {
    if cs[0].fact !in facts {
      assert StuckAt(cs, facts, 0);
    } else {
      assert FailsAt(cs, facts, 0);
    }
  }

  lemma {:induction false} TermMeaning(cs: seq<Comparison>, facts: map<string, string>)
    ensures EvalTerm(cs, facts) == Unknown <==> Stuck(cs, facts)
    ensures EvalTerm(cs, facts) == Answer(false) <==> Fails(cs, facts)
    ensures EvalTerm(cs, facts) == Answer(true) <==> HoldUpTo(cs, facts, |cs|)
  {
    if cs != [] && HoldUpTo(cs, facts, 1) {
      TermMeaning(cs[1..], facts);
      LaterStuck(cs, facts);
      LaterFails(cs, facts);
      LaterHolds(cs, facts);
    } else if cs != [] {
      FirstStops(cs, facts);
    }
  }

  /** All OR terms before i were found not to hold. */
  ghost predicate Reached(g: Guard, facts: map<string, string>, i: nat) {
    i <= |g| && forall k :: 0 <= k < i ==> Fails(g[k], facts)
  }

  lemma ReachedMore(g: Guard, facts: map<string, string>, i: nat)
    requires g != [] && Fails(g[0], facts)
    ensures Reached(g, facts, i + 1) <==> Reached(g[1..], facts, i)
  {
    assert forall k :: 1 <= k < |g| ==> g[k] == g[1..][k - 1];
  }

  ghost predicate StuckTerm(g: Guard, facts: map<string, string>, i: nat) {
    Reached(g, facts, i) && i < |g| && Stuck(g[i], facts)
  }

  ghost predicate HoldingTerm(g: Guard, facts: map<string, string>, i: nat) {
    Reached(g, facts, i) && i < |g| && HoldUpTo(g[i], facts, |g[i]|)
  }

  /** For any facts: eval gives up exactly when the first comparison, in reading order, that decides
      nothing is of an unknown fact; it answers true exactly when a term holds and all before it fail;
      it answers false exactly when every term fails on known facts. */
  lemma {:induction false} EvalMeaning(g: Guard, facts: map<string, string>)
    ensures EvalGuard(g, facts) == Unknown <==> exists i: nat :: StuckTerm(g, facts, i)
    ensures EvalGuard(g, facts) == Answer(true) <==> exists i: nat :: HoldingTerm(g, facts, i)
    ensures EvalGuard(g, facts) == Answer(false) <==> Reached(g, facts, |g|)
  {
    if g != [] {
      TermMeaning(g[0], facts);
      if Fails(g[0], facts) {
        var rest := g[1..];
        EvalMeaning(rest, facts);
        ReachedMore(g, facts, |rest|);
        forall i: nat ensures StuckTerm(g, facts, i + 1) <==> StuckTerm(rest, facts, i) { ReachedMore(g, facts, i); }
        forall i: nat ensures HoldingTerm(g, facts, i + 1) <==> HoldingTerm(rest, facts, i) { ReachedMore(g, facts, i); }
        if i: nat :| StuckTerm(g, facts, i) { assert i > 0 && StuckTerm(rest, facts, i - 1); }
        if i: nat :| HoldingTerm(g, facts, i) { assert i > 0 && HoldingTerm(rest, facts, i - 1); }
      } else {
        forall i: nat | i > 0 ensures !Reached(g, facts, i) {}
        assert StuckTerm(g, facts, 0) <==> Stuck(g[0], facts);
        assert HoldingTerm(g, facts, 0) <==> HoldUpTo(g[0], facts, |g[0]|);
      }
    }
  }
}
