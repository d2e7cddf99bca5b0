/** Taking the SQL text out of a command line that wraps it: shell quoting undone.

Text is ASCII, where lowering keeps every character in its place; the arguments are otherwise
arbitrary. */
module ShellQuote {

  import opened Collections
  import opened GoStrings

  predicate OccursAt(s: string, p: string, i: int) {
    0 <= i <= |s| - |p| && s[i..i + |p|] == p
  }

  lemma OccursInTail(s: string, p: string, i: int)
    requires s != [] && i >= 1
    ensures OccursAt(s, p, i) <==> OccursAt(s[1..], p, i - 1)
  {
    if i <= |s| - |p| {
      assert s[1..][i - 1..i - 1 + |p|] == s[i..i + |p|];
    }
  }

  lemma OccursInInit(s: string, p: string, i: int)
    requires s != [] && i < |s| - |p|
    ensures OccursAt(s, p, i) <==> OccursAt(s[..|s| - 1], p, i)
  {
    if 0 <= i {
      assert s[..|s| - 1][i..i + |p|] == s[i..i + |p|];
    }
  }

  lemma OccursAtEnds(s: string, p: string)
    ensures OccursAt(s, p, 0) <==> HasPrefix(s, p)
    ensures OccursAt(s, p, |s| - |p|) <==> HasSuffix(s, p)
  {
    if |p| <= |s| {
      assert s[0..|p|] == s[..|p|] && s[|s| - |p|..|s|] == s[|s| - |p|..];
    }
  }

  /** strings.Index. */
  function Index(s: string, p: string): (r: int)
    ensures -1 <= r <= |s| - |p| || r == -1
  {
    if HasPrefix(s, p) then 0
    else if s == [] then -1
    else
      var r := Index(s[1..], p);
      if r < 0 then -1 else r + 1
  }

  /** strings.LastIndex. */
  function LastIndex(s: string, p: string): (r: int)
    ensures -1 <= r <= |s| - |p| || r == -1
  {
    if HasSuffix(s, p) then |s| - |p|
    else if s == [] then -1
    else LastIndex(s[..|s| - 1], p)
  }

  /** Index is the first occurrence. */
  lemma {:induction false} IndexIsFirst(s: string, p: string)
    ensures var r := Index(s, p);
            && (r >= 0 ==> OccursAt(s, p, r))
            && (forall i :: 0 <= i && (i < r || r < 0) ==> !OccursAt(s, p, i))
  {
    OccursAtEnds(s, p);
    if !HasPrefix(s, p) && s != [] {
      IndexIsFirst(s[1..], p);
      forall i: int | 1 <= i ensures OccursAt(s, p, i) <==> OccursAt(s[1..], p, i - 1) {
        OccursInTail(s, p, i);
      }
    }
  }

  /** LastIndex is the last one. */
  lemma {:induction false} LastIndexIsLast(s: string, p: string)
    ensures var r := LastIndex(s, p);
            && (r >= 0 ==> OccursAt(s, p, r))
            && (forall i :: i > r ==> !OccursAt(s, p, i))
  {
    OccursAtEnds(s, p);
    if !HasSuffix(s, p) && s != [] {
      LastIndexIsLast(s[..|s| - 1], p);
      forall i: int | i < |s| - |p| ensures OccursAt(s, p, i) <==> OccursAt(s[..|s| - 1], p, i) {
        OccursInInit(s, p, i);
      }
    }
  }

  predicate Ascii(s: string) {
    forall i :: 0 <= i < |s| ==> s[i] < '\U{80}'
  }

  function Lower(s: string): (r: string)
    ensures |r| == |s|
  {
    seq(|s|, i requires 0 <= i < |s| => if 'A' <= s[i] <= 'Z' then (s[i] as int + 32) as char else s[i])
  }

  function Upper(s: string): (r: string)
    ensures |r| == |s|
  {
    seq(|s|, i requires 0 <= i < |s| => if 'a' <= s[i] <= 'z' then (s[i] as int - 32) as char else s[i])
  }

  // ----- Quoting and its inverse -----

  /** A character in a single-quoted word: a quote closes the word, stands escaped, and reopens it. */
  function Written(c: char): (r: string) {
    if c == '\'' then "'\\''" else [c]
  }

  /** The inside of a shell single-quoted word. */
  function Escaped(s: string): (r: string) {
    if s == [] then []
    else Written(s[0]) + Escaped(s[1..])
  }

  function Quote(s: string): (r: string) {
    "'" + Escaped(s) + "'"
  }

  lemma Regroup(a: string, b: string, c: string)
    ensures a + b + c == a + (b + c)
  {
  }

  lemma Reassociate(a: string, b: string, c: string, d: string)
    ensures a + b + c + d == a + (b + c + d)
  {
  }

  function Then(s: string, more: Option<string>): (r: Option<string>) {
    if more.None? then None else Some(s + more.value)
  }

  lemma ThenThen(a: string, b: string, more: Option<string>)
    ensures Then(a, Then(b, more)) == Then(a + b, more)
    ensures Then("", more) == more
  {
    if more.Some? {
      assert a + (b + more.value) == a + b + more.value && "" + more.value == more.value;
    }
  }

  /** The word whose opening quote has just been read; None when it is never closed. */
  function Unquoted(inner: string): (r: Option<string>) {
    var end := Index(inner, "'");
    if end < 0 then None
    else
      var rest := inner[end + 1..];
      if HasPrefix(rest, "\\''") then Then(inner[..end] + "'", Unquoted(rest[3..]))
      else Some(inner[..end])
  }

  /** What a word is read as, by what stands after it. */
  ghost function ReadAs(s: string, tail: string): (r: Option<string>) {
    if HasPrefix(tail, "\\''") then Then(s + "'", Unquoted(tail[3..])) else Some(s)
  }

  lemma UnquotedClose(x: string)
    ensures Unquoted("'" + x) == ReadAs("", x)
  {
    var s := "'" + x;
    assert s[..1] == "'";
    assert s[1..] == x && s[..0] == "";
  }

  lemma UnquotedEscape(x: string)
    ensures Unquoted("'\\''" + x) == Then("'", Unquoted(x))
  {
    var y := "\\''" + x;
    assert "'\\''" + x == "'" + y;
    UnquotedClose(y);
    assert y[..3] == "\\''" && y[3..] == x;
    assert "" + "'" == "'";
  }

  lemma IndexPast(c: char, x: string)
    requires c != '\''
    ensures Index([c] + x, "'") == if Index(x, "'") < 0 then -1 else Index(x, "'") + 1
  {
    assert ([c] + x)[1..] == x;
  }

  lemma SlicesPast(c: char, x: string, end: nat)
    requires end < |x|
    ensures ([c] + x)[end + 2..] == x[end + 1..] && ([c] + x)[..end + 1] == [c] + x[..end]
  {
  }

  lemma UnquotedChar(c: char, x: string)
    requires c != '\''
    ensures Unquoted([c] + x) == Then([c], Unquoted(x))
  {
    var end := Index(x, "'");
    IndexPast(c, x);
    if end >= 0 {
      var head, rest := x[..end], x[end + 1..];
      SlicesPast(c, x, end);
      if HasPrefix(rest, "\\''") {
        ThenThen([c], head + "'", Unquoted(rest[3..]));
        Regroup([c], head, "'");
      }
    }
  }

  lemma ReadAsMore(c: char, s: string, tail: string)
    ensures ReadAs([c] + s, tail) == Then([c], ReadAs(s, tail))
  {
    if HasPrefix(tail, "\\''") {
      ThenThen([c], s + "'", Unquoted(tail[3..]));
      assert [c] + (s + "'") == [c] + s + "'";
    }
  }

  lemma UnquotedHead(c: char, x: string)
    ensures Unquoted(Written(c) + x) == Then([c], Unquoted(x))
  {
    if c == '\'' {
      UnquotedEscape(x);
    } else {
      UnquotedChar(c, x);
    }
  }

  lemma {:induction false} UnquotedEscaped(s: string, tail: string)
    ensures Unquoted(Escaped(s) + "'" + tail) == ReadAs(s, tail)
  {
    if s == [] {
      assert Escaped(s) + "'" + tail == "'" + tail;
      UnquotedClose(tail);
    } else {
      var c, rest := s[0], s[1..];
      UnquotedEscaped(rest, tail);
      Reassociate(Written(c), Escaped(rest), "'", tail);
      UnquotedHead(c, Escaped(rest) + "'" + tail);
      ReadAsMore(c, rest, tail);
      assert s == [c] + rest;
    }
  }

  // ----- extractFlagArg -----

  function FirstField(s: string): (r: string)
    ensures r <= s && (forall i :: 0 <= i < |r| ==> !IsSpace(r[i]))
    ensures |r| < |s| ==> IsSpace(s[|r|])
  {
    if s == [] || IsSpace(s[0]) then []
    else
      var r := FirstField(s[1..]);
      assert s == [s[0]] + s[1..];
      [s[0]] + r
  }

  /** The argument that begins the text. */
  function Argument(argPart: string): (r: string) {
    if argPart == [] then ""
    else if argPart[0] == '"' then
      var end := Index(argPart[1..], "\"");
      if end < 0 then "" else argPart[1..end + 1]
    else if argPart[0] == '\'' then
      match Unquoted(argPart[1..])
      case None => ""
      case Some(s) => s
    else FirstField(argPart)
  }

  /** The argument after the flag's first occurrence. */
  function FlagArg(original: string, lowered: string, flag: string): (r: string)
    requires |lowered| == |original|
  {
    var i := Index(lowered, flag);
    if i < 0 then "" else Argument(TrimSpace(original[i + |flag|..]))
  }

  lemma FlagArgAt(original: string, lowered: string, flag: string, argPart: string)
    requires |lowered| == |original| && Index(lowered, flag) >= 0 && argPart == TrimSpace(original[Index(lowered, flag) + |flag|..])
    ensures FlagArg(original, lowered, flag) == Argument(argPart)
  {
  }

  method ExtractFlagArg(original: string, lowered: string, flag: string) returns (arg: string)
    requires |lowered| == |original|
    ensures arg == FlagArg(original, lowered, flag)
  {
    var i := Index(lowered, flag);
    if i < 0 {
      return "";
    }
    var argPart := TrimSpace(original[i + |flag|..]);
    arg := ReadArgument(argPart);
    FlagArgAt(original, lowered, flag, argPart);
  }

  method ReadArgument(argPart: string) returns (arg: string)
    ensures arg == Argument(argPart)
  {
    if |argPart| == 0 {
      return "";
    }
    if argPart[0] == '"' {
      var end := Index(argPart[1..], "\"");
      if end < 0 {
        return "";
      }
      return argPart[1..end + 1];
    }
    if argPart[0] == '\'' {
      arg := ReadQuoted(argPart[1..]);
      return;
    }
    return FirstField(argPart);
  }

  /** The loop over the pieces of a single-quoted argument. */
  method ReadQuoted(start: string) returns (arg: string)
    ensures arg == match Unquoted(start) case None => "" case Some(s) => s
  {
    var inner, result := start, "";
    ThenThen("", "", Unquoted(start));
    while true
      invariant Unquoted(start) == Then(result, Unquoted(inner))
      decreases |inner|
    {
      var end := Index(inner, "'");
      if end < 0 {
        return "";
      }
      ghost var before, piece := result, inner[..end] + "'";
      result := result + inner[..end];
      var rest := inner[end + 1..];
      if !HasPrefix(rest, "\\''") {
        return result;
      }
      result := result + "'";
      inner := rest[3..];
      assert result == before + piece;
      ThenThen(before, piece, Unquoted(inner));
    }
  }

  lemma {:induction false} TrimRightConcat(x: string, t: string)
    requires x != [] && !IsSpace(x[|x| - 1])
    ensures TrimSpaceRight(x + t) == x + TrimSpaceRight(t)
  {
    if t == [] {
      assert x + t == x;
    } else {
      var init := t[..|t| - 1];
      assert (x + t)[..|x + t| - 1] == x + init;
      if IsSpace(t[|t| - 1]) {
        TrimRightConcat(x, init);
      }
    }
  }

  lemma TrimWord(gap: string, w: string, tail: string)
    requires AllSpace(gap) && w != [] && !IsSpace(w[0]) && !IsSpace(w[|w| - 1])
    ensures TrimSpace(gap + w + tail) == w + TrimSpaceRight(tail)
  {
    var rest := TrimSpaceRight(tail);
    TrimRightConcat(gap + w, tail);
    Regroup(gap, w, rest);
    LeftTrimmed(gap, w + rest);
  }

  lemma QuoteShape(s: string)
    ensures Quote(s) != [] && Quote(s)[0] == '\'' && Quote(s)[|Quote(s)| - 1] == '\''
    ensures Quote(s)[1..] == Escaped(s) + "'"
  {
  }

  lemma TrimKeepsEscape(tail: string)
    ensures HasPrefix(TrimSpaceRight(tail), "\\''") <==> HasPrefix(tail, "\\''")
  {
    TrimIsPrefix(tail);
    if HasPrefix(tail, "\\''") {
      assert tail == "\\''" + tail[3..];
      TrimRightConcat("\\''", tail[3..]);
    }
  }

  lemma {:induction false} TrimIsPrefix(s: string)
    ensures TrimSpaceRight(s) <= s
  {
    if s != [] && IsSpace(s[|s| - 1]) {
      TrimIsPrefix(s[..|s| - 1]);
    }
  }

  ghost function OrEmpty(o: Option<string>): (r: string) {
    if o.None? then "" else o.value
  }

  lemma QuotedArgument(s: string, tail: string)
    ensures Argument(Quote(s) + tail) == OrEmpty(ReadAs(s, tail))
  {
    var q := Quote(s);
    QuoteShape(s);
    assert (q + tail)[1..] == q[1..] + tail;
    UnquotedEscaped(s, tail);
  }

  /** The text up to its first double quote. */
  function BeforeQuote(s: string): (r: string)
    ensures r <= s && '"' !in r && (r == s <==> '"' !in s)
  {
    if s == [] || s[0] == '"' then [] else [s[0]] + BeforeQuote(s[1..])
  }

  lemma {:induction false} IndexQuote(s: string, tail: string)
    ensures Index(s + "\"" + tail, "\"") == |BeforeQuote(s)|
  {
    var a := s + "\"" + tail;
    if s == [] {
      assert a[..1] == "\"";
    } else if s[0] == '"' {
      assert a[..1] == "\"";
    } else {
      IndexQuote(s[1..], tail);
      assert a[1..] == s[1..] + "\"" + tail;
      assert a[..1] == [s[0]];
    }
  }

  /** A double-quoted argument ends at its first double quote. */
  lemma DoubleQuotedArgument(s: string, tail: string)
    ensures Argument("\"" + s + "\"" + tail) == BeforeQuote(s)
  {
    var a := "\"" + s + "\"" + tail;
    assert a[1..] == s + "\"" + tail;
    IndexQuote(s, tail);
    assert a[1..|BeforeQuote(s)| + 1] == s[..|BeforeQuote(s)|];
  }

  datatype Style = Single | Double

  function Quoted(style: Style, word: string): (r: string) {
    if style.Single? then Quote(word) else "\"" + word + "\""
  }

  /** A command line: the flag's text, blanks, the quoted word, and whatever follows. */
  datatype Line = Line(pre: string, mark: string, gap: string, style: Style, word: string, tail: string)

  ghost function Text(l: Line): (r: string) {
    l.pre + l.mark + l.gap + Quoted(l.style, l.word) + l.tail
  }

  /** The quoting can be undone: nothing continues a single-quoted word, and a double-quoted one holds
      no double quote. */
  ghost predicate Intact(l: Line) {
    if l.style.Single? then !HasPrefix(l.tail, "\\''") else '"' !in l.word
  }

  /** What the word is read as. */
  ghost function WordRead(l: Line): (r: string) {
    if l.style.Single? then OrEmpty(ReadAs(l.word, TrimSpaceRight(l.tail))) else BeforeQuote(l.word)
  }

  /** original is the line, and the flag's first occurrence is the one before the word. */
  ghost predicate Wraps(original: string, lowered: string, flag: string, l: Line) {
    && original == Text(l) && |lowered| == |original| && Index(lowered, flag) == |l.pre|
    && |l.mark| == |flag| && AllSpace(l.gap)
  }

  lemma Drop(a: string, b: string, c: string, d: string, e: string)
    ensures (a + b + c + d + e)[|a| + |b|..] == c + d + e
  {
  }

  lemma {:induction false} EscapedLength(s: string)
    ensures |Escaped(s)| >= |s|
  {
    if s != [] {
      EscapedLength(s[1..]);
    }
  }

  lemma QuotedShape(style: Style, word: string)
    ensures var w := Quoted(style, word);
            |w| > |word| && !IsSpace(w[0]) && !IsSpace(w[|w| - 1])
  {
    EscapedLength(word);
    QuoteShape(word);
  }

  lemma AfterMark(l: Line)
    ensures |Text(l)| > |l.pre| + |l.mark| && |Text(l)| > |l.word|
    ensures Text(l)[|l.pre| + |l.mark|..] == l.gap + Quoted(l.style, l.word) + l.tail
  {
    QuotedShape(l.style, l.word);
    Drop(l.pre, l.mark, l.gap, Quoted(l.style, l.word), l.tail);
  }

  lemma ArgumentOf(l: Line)
    requires AllSpace(l.gap)
    ensures Argument(TrimSpace(l.gap + Quoted(l.style, l.word) + l.tail)) == WordRead(l)
  {
    QuotedShape(l.style, l.word);
    TrimWord(l.gap, Quoted(l.style, l.word), l.tail);
    if l.style.Single? {
      QuotedArgument(l.word, TrimSpaceRight(l.tail));
    } else {
      DoubleQuotedArgument(l.word, TrimSpaceRight(l.tail));
    }
  }

  lemma WrappedArgument(original: string, lowered: string, flag: string, l: Line)
    requires Wraps(original, lowered, flag, l)
    ensures FlagArg(original, lowered, flag) == WordRead(l)
  {
    AfterMark(l);
    ArgumentOf(l);
  }

  lemma ReadIntact(l: Line)
    ensures Intact(l) ==> WordRead(l) == l.word
    ensures l.word != "" ==> (WordRead(l) == l.word <==> Intact(l))
  {
    if l.style.Single? {
      TrimKeepsEscape(l.tail);
      var read := ReadAs(l.word, TrimSpaceRight(l.tail));
      if HasPrefix(l.tail, "\\''") && read.Some? {
        assert |read.value| > |l.word|;
      }
    }
  }

  /** Quoting is undone; for non-empty text exactly when it is intact. */
  lemma ArgumentRecovered(original: string, lowered: string, flag: string, l: Line)
    requires Wraps(original, lowered, flag, l)
    ensures Intact(l) ==> FlagArg(original, lowered, flag) == l.word
    ensures l.word != "" ==> (FlagArg(original, lowered, flag) == l.word <==> Intact(l))
  {
    WrappedArgument(original, lowered, flag, l);
    ReadIntact(l);
  }

  lemma FirstWord(w: string, tail: string)
    requires w != "" && (forall i :: 0 <= i < |w| ==> !IsSpace(w[i])) && (tail == "" || IsSpace(tail[0]))
    ensures FirstField(w + tail) == w
  {
    var s, r := w + tail, FirstField(w + tail);
    assert forall i :: 0 <= i < |w| ==> !IsSpace(s[i]);
    assert tail != "" ==> IsSpace(s[|w|]);
    assert |r| == |w|;
  }

  lemma PlainWord(gap: string, w: string, tail: string)
    requires w != "" && (forall i :: 0 <= i < |w| ==> !IsSpace(w[i])) && w[0] != '"' && w[0] != '\''
    requires AllSpace(gap) && (tail == "" || IsSpace(tail[0]))
    ensures Argument(TrimSpace(gap + w + tail)) == w
  {
    var rest := TrimSpaceRight(tail);
    TrimWord(gap, w, tail);
    TrimIsPrefix(tail);
    FirstWord(w, rest);
    assert (w + rest)[0] == w[0];
  }

  /** A plain word after the flag is taken as it is, up to white space. */
  lemma PlainArgument(original: string, lowered: string, flag: string, pre: string, mark: string, gap: string, w: string, tail: string)
    requires |lowered| == |original| && original == pre + mark + gap + w + tail && |mark| == |flag| && Index(lowered, flag) == |pre|
    requires w != "" && (forall i :: 0 <= i < |w| ==> !IsSpace(w[i])) && w[0] != '"' && w[0] != '\''
    requires AllSpace(gap) && (tail == "" || IsSpace(tail[0]))
    ensures FlagArg(original, lowered, flag) == w
  {
    assert original[|pre| + |flag|..] == gap + w + tail by { Drop(pre, mark, gap, w, tail); }
    assert Argument(TrimSpace(gap + w + tail)) == w by { PlainWord(gap, w, tail); }
  }

  // ----- sanitizeQuery -----

  function StripQuotes(s: string): (r: string) {
    if |s| >= 2 && s[0] == s[|s| - 1] && (s[0] == '"' || s[0] == '\'') then s[1..|s| - 1] else s
  }

  predicate EndsStatement(c: char) {
    c == ';' || c == ' ' || c == '\t' || c == '\n'
  }

  /** strings.TrimRight(s, "; \t\n"). */
  function TrimEnd(s: string): (r: string)
    ensures r <= s && (r != [] ==> !EndsStatement(r[|r| - 1]))
    ensures forall i :: |r| <= i < |s| ==> EndsStatement(s[i])
  {
    if s != [] && EndsStatement(s[|s| - 1]) then TrimEnd(s[..|s| - 1]) else s
  }

  function CopySource(q: string, arg: string): (r: string) {
    var open := Index(arg, "(");
    var close := LastIndex(Upper(arg), ") TO");
    if open < 0 || close <= open then q else TrimSpace(arg[open + 1..close])
  }

  function OrWhole(arg: string, q: string): (r: string) {
    if arg == "" then q else arg
  }

  function SanitizeQuery(query: string): (r: string)
    requires Ascii(query)
  {
    var q := TrimSpace(query);
    var lower := Lower(q);
    if HasPrefix(lower, "psql") then
      var arg := FlagArg(q, lower, " -c ");
      if arg != "" && HasPrefix(Lower(arg), "\\copy") then CopySource(q, arg) else OrWhole(arg, q)
    else if HasPrefix(lower, "mariadb") || HasPrefix(lower, "mysql") then OrWhole(FlagArg(q, lower, " -e "), q)
    else if HasPrefix(lower, "sqlcmd") then OrWhole(FlagArg(q, lower, " -q "), q)
    else if Index(lower, "| sqlplus") >= 0 then
      var prefix := TrimSpace(q[..Index(lower, "| sqlplus")]);
      if HasPrefix(Lower(prefix), "echo ") then StripQuotes(TrimSpace(prefix[5..])) else q
    else if HasPrefix(lower, "sqlplus") then
      var arg := FlagArg(q, lower, " -q ");
      if arg != "" then TrimEnd(arg)
      else if Index(q, "<<<") >= 0 then StripQuotes(TrimSpace(q[Index(q, "<<<") + 3..]))
      else q
    else q
  }

  /** The clients whose argument is passed on as it stands, with the flag that carries it. */
  predicate Carries(lower: string, flag: string) {
    || (flag == " -c " && HasPrefix(lower, "psql"))
    || (flag == " -e " && (HasPrefix(lower, "mariadb") || HasPrefix(lower, "mysql")))
    || (flag == " -q " && HasPrefix(lower, "sqlcmd"))
  }

  lemma OnePrefix(lower: string)
    ensures HasPrefix(lower, "psql") ==> lower[0] == 'p'
    ensures HasPrefix(lower, "mariadb") ==> lower[0] == 'm'
    ensures HasPrefix(lower, "mysql") ==> lower[0] == 'm'
    ensures HasPrefix(lower, "sqlcmd") ==> lower[0] == 's'
  {
    assert forall p :: HasPrefix(lower, p) && p != [] ==> lower[0] == p[0];
  }

  lemma StillNoCopy(s: string, more: string)
    ensures HasPrefix(Lower(s + "'" + more), "\\copy") ==> HasPrefix(Lower(s), "\\copy")
  {
    var t := s + "'" + more;
    if |s| >= 5 {
      assert Lower(t)[..5] == Lower(s)[..5];
    } else {
      assert Lower(t)[|s|] == '\'';
      assert |t| >= 5 ==> Lower(t)[..5][|s|] != "\\copy"[|s|];
    }
  }

  lemma ReadNoCopy(l: Line)
    ensures HasPrefix(Lower(WordRead(l)), "\\copy") ==> HasPrefix(Lower(l.word), "\\copy")
  {
    var read, tail := WordRead(l), TrimSpaceRight(l.tail);
    if l.style.Double? {
      assert |read| >= 5 ==> Lower(read)[..5] == Lower(l.word)[..5];
    } else if HasPrefix(tail, "\\''") && Unquoted(tail[3..]).Some? {
      StillNoCopy(l.word, Unquoted(tail[3..]).value);
    }
  }

  /** A quoted query reaches the database as written exactly when its quoting is intact. */
  lemma WrappedQuery(query: string, flag: string, l: Line)
    requires Ascii(query) && Carries(Lower(TrimSpace(query)), flag)
    requires Wraps(TrimSpace(query), Lower(TrimSpace(query)), flag, l)
    requires l.word != "" && !(flag == " -c " && HasPrefix(Lower(l.word), "\\copy"))
    ensures SanitizeQuery(query) == l.word <==> Intact(l)
  {
    var q := TrimSpace(query);
    OnePrefix(Lower(q));
    WrappedArgument(q, Lower(q), flag, l);
    ReadIntact(l);
    ReadNoCopy(l);
    AfterMark(l);
    assert SanitizeQuery(query) == OrWhole(FlagArg(q, Lower(q), flag), q);
  }

  ghost predicate Holds(s: string, p: string) {
    exists i :: OccursAt(s, p, i)
  }

  lemma IndexHolds(s: string, p: string)
    requires p != ""
    ensures Index(s, p) >= 0 <==> Holds(s, p)
  {
    IndexIsFirst(s, p);
  }

  /** A query whose client is not given its flag stays as it is but for the white space around it. */
  lemma WithoutFlag(query: string, flag: string)
    requires Ascii(query) && Carries(Lower(TrimSpace(query)), flag) && !Holds(Lower(TrimSpace(query)), flag)
    ensures SanitizeQuery(query) == TrimSpace(query)
  {
    var lower := Lower(TrimSpace(query));
    OnePrefix(lower);
    IndexHolds(lower, flag);
    assert FlagArg(TrimSpace(query), lower, flag) == "";
  }

  lemma SqlplusWithoutQuery(query: string)
    requires Ascii(query) && OnlySqlplus(Lower(TrimSpace(query)))
    requires !Holds(Lower(TrimSpace(query)), " -q ") && !Holds(TrimSpace(query), "<<<")
    ensures SanitizeQuery(query) == TrimSpace(query)
  {
    var q := TrimSpace(query);
    SqlplusPrefix(Lower(q));
    IndexHolds(Lower(q), " -q ");
    IndexHolds(q, "<<<");
    assert FlagArg(q, Lower(q), " -q ") == "";
  }

  /** So does one that names no client. */
  lemma WithoutClient(query: string)
    requires Ascii(query) && !Holds(Lower(TrimSpace(query)), "| sqlplus")
    requires var lower := Lower(TrimSpace(query));
             && !HasPrefix(lower, "psql") && !HasPrefix(lower, "mariadb") && !HasPrefix(lower, "mysql")
             && !HasPrefix(lower, "sqlcmd") && !HasPrefix(lower, "sqlplus")
    ensures SanitizeQuery(query) == TrimSpace(query)
  {
    IndexHolds(Lower(TrimSpace(query)), "| sqlplus");
  }

  /** The branches of sanitizeQuery that serve sqlplus. */
  ghost predicate OnlySqlplus(lower: string) {
    HasPrefix(lower, "sqlplus") && Index(lower, "| sqlplus") < 0
  }

  lemma SqlplusPrefix(lower: string)
    requires HasPrefix(lower, "sqlplus")
    ensures !HasPrefix(lower, "psql") && !HasPrefix(lower, "mariadb") && !HasPrefix(lower, "mysql") && !HasPrefix(lower, "sqlcmd")
  {
    assert lower[0] == lower[..7][0] == 's' && lower[3] == lower[..7][3] == 'p';
    OnePrefix(lower);
  }

  /** sqlplus -Q: the query without its closing semicolons and blanks. */
  lemma WrappedForSqlplus(query: string, l: Line)
    requires Ascii(query) && OnlySqlplus(Lower(TrimSpace(query)))
    requires Wraps(TrimSpace(query), Lower(TrimSpace(query)), " -q ", l) && l.word != "" && Intact(l)
    ensures SanitizeQuery(query) == TrimEnd(l.word)
  {
    var q := TrimSpace(query);
    SqlplusPrefix(Lower(q));
    ArgumentRecovered(q, Lower(q), " -q ", l);
  }

  predicate IsQuoteMark(c: char) {
    c == '"' || c == '\''
  }

  lemma StripsPair(c: char, sql: string)
    requires IsQuoteMark(c)
    ensures StripQuotes([c] + sql + [c]) == sql
  {
    var w := [c] + sql + [c];
    assert w[1..|w| - 1] == sql;
  }

  lemma TrimPair(gap: string, c: char, sql: string, end: string)
    requires AllSpace(gap) && IsQuoteMark(c) && AllSpace(end)
    ensures TrimSpace(gap + ([c] + sql + [c]) + end) == [c] + sql + [c]
  {
    TrimWord(gap, [c] + sql + [c], end);
    TrimAllSpace(end);
    assert [c] + sql + [c] + "" == [c] + sql + [c];
  }

  /** sqlplus with a here-string: the quoted query, whatever quotes it holds. */
  lemma HereString(query: string, pre: string, gap: string, c: char, sql: string)
    requires Ascii(query) && OnlySqlplus(Lower(TrimSpace(query))) && IsQuoteMark(c) && AllSpace(gap)
    requires TrimSpace(query) == pre + "<<<" + (gap + ([c] + sql + [c]))
    requires FlagArg(TrimSpace(query), Lower(TrimSpace(query)), " -q ") == "" && Index(TrimSpace(query), "<<<") == |pre|
    ensures SanitizeQuery(query) == sql
  {
    var q := TrimSpace(query);
    SqlplusPrefix(Lower(q));
    assert q[|pre| + 3..] == gap + ([c] + sql + [c]);
    assert gap + ([c] + sql + [c]) + "" == gap + ([c] + sql + [c]);
    TrimPair(gap, c, sql, "");
    StripsPair(c, sql);
  }

  lemma EchoPrefix(lower: string)
    requires HasPrefix(lower, "echo ")
    ensures !HasPrefix(lower, "psql") && !HasPrefix(lower, "mariadb") && !HasPrefix(lower, "mysql") && !HasPrefix(lower, "sqlcmd")
  {
    assert lower[0] == lower[..5][0] == 'e';
    OnePrefix(lower);
  }

  lemma PipedFrom(query: string, n: nat, prefix: string)
    requires Ascii(query) && HasPrefix(Lower(TrimSpace(query)), "echo ") && Index(Lower(TrimSpace(query)), "| sqlplus") == n
    requires n <= |TrimSpace(query)| && TrimSpace(TrimSpace(query)[..n]) == prefix && |prefix| >= 5 && HasPrefix(Lower(prefix), "echo ")
    ensures SanitizeQuery(query) == StripQuotes(TrimSpace(prefix[5..]))
  {
    EchoPrefix(Lower(TrimSpace(query)));
  }

  lemma EchoFirst(echo: string, more: string)
    requires Lower(echo) == "echo "
    ensures HasPrefix(Lower(echo + more), "echo ")
  {
    assert Lower(echo + more)[..5] == Lower(echo);
  }

  /** echo piped into sqlplus: the quoted query, whatever quotes it holds. */
  lemma EchoPiped(query: string, echo: string, c: char, sql: string, gap: string, rest: string)
    requires Ascii(query) && IsQuoteMark(c) && AllSpace(gap) && Lower(echo) == "echo "
    requires TrimSpace(query) == echo + ([c] + sql + [c]) + gap + rest
    requires Index(Lower(TrimSpace(query)), "| sqlplus") == |echo + ([c] + sql + [c]) + gap|
    ensures SanitizeQuery(query) == sql
  {
    var q, w := TrimSpace(query), [c] + sql + [c];
    assert q == echo + (w + gap + rest);
    EchoFirst(echo, w + gap + rest);
    EchoFirst(echo, w);
    EchoWord(echo, c, sql, gap);
    assert q[..|echo + w + gap|] == echo + w + gap;
    PipedFrom(query, |echo + w + gap|, echo + w);
    assert (echo + w)[5..] == w;
    TrimPair("", c, sql, "");
    assert "" + w + "" == w;
    StripsPair(c, sql);
  }

  lemma EchoWord(echo: string, c: char, sql: string, gap: string)
    requires IsQuoteMark(c) && AllSpace(gap) && Lower(echo) == "echo "
    ensures TrimSpace(echo + ([c] + sql + [c]) + gap) == echo + ([c] + sql + [c])
  {
    var w := echo + ([c] + sql + [c]);
    assert !IsSpace(echo[0]) by { assert Lower(echo)[0] == 'e'; }
    TrimWord("", w, gap);
    TrimAllSpace(gap);
    assert "" + w + gap == w + gap && w + "" == w;
  }

  lemma CopyParts(q: string, head: string, sql: string, rest: string)
    requires '(' !in head && HasPrefix(Upper(rest), " TO") && ')' !in rest
    ensures CopySource(q, head + "(" + sql + ")" + rest) == TrimSpace(sql)
  {
    var arg := head + "(" + sql + ")" + rest;
    Reassociate(head + "(", sql, ")", rest);
    FirstParen(head, sql + ")" + rest);
    LastClose(head + "(" + sql, rest);
    assert arg[|head| + 1..|head + "(" + sql|] == sql;
  }

  lemma CopyBegins(head: string, sql: string, rest: string)
    requires HasPrefix(Lower(head), "\\copy")
    ensures HasPrefix(Lower(head + "(" + sql + ")" + rest), "\\copy")
  {
    var arg := head + "(" + sql + ")" + rest;
    assert Lower(arg)[..5] == Lower(head)[..5];
  }

  lemma PsqlCopy(query: string, arg: string)
    requires Ascii(query) && HasPrefix(Lower(TrimSpace(query)), "psql")
    requires FlagArg(TrimSpace(query), Lower(TrimSpace(query)), " -c ") == arg
    requires arg != "" && HasPrefix(Lower(arg), "\\copy")
    ensures SanitizeQuery(query) == CopySource(TrimSpace(query), arg)
  {
  }

  /** psql's \copy (SQL) TO ...: the SQL alone is kept, whatever parentheses it holds. */
  lemma WrappedCopy(query: string, l: Line, head: string, sql: string, rest: string)
    requires Ascii(query) && HasPrefix(Lower(TrimSpace(query)), "psql")
    requires Wraps(TrimSpace(query), Lower(TrimSpace(query)), " -c ", l) && Intact(l)
    requires l.word == head + "(" + sql + ")" + rest
    requires HasPrefix(Lower(head), "\\copy") && '(' !in head
    requires HasPrefix(Upper(rest), " TO") && ')' !in rest
    ensures SanitizeQuery(query) == TrimSpace(sql)
  {
    var q := TrimSpace(query);
    ArgumentRecovered(q, Lower(q), " -c ", l);
    CopyBegins(head, sql, rest);
    PsqlCopy(query, l.word);
    CopyParts(q, head, sql, rest);
  }

  lemma FirstParen(head: string, x: string)
    requires '(' !in head
    ensures Index(head + "(" + x, "(") == |head|
  {
    var s := head + "(" + x;
    IndexIsFirst(s, "(");
    assert OccursAt(s, "(", |head|);
    forall i | 0 <= i < |head| ensures !OccursAt(s, "(", i) {
      assert s[i..i + 1] == [head[i]];
    }
  }

  lemma OccursFirst(s: string, p: string, i: int)
    requires 0 <= i < |s| && p != [] && s[i] != p[0]
    ensures !OccursAt(s, p, i)
  {
    if i + |p| <= |s| {
      assert s[i..i + |p|][0] == s[i];
    }
  }

  lemma CloseOccurs(x: string, rest: string)
    requires HasPrefix(Upper(rest), " TO")
    ensures OccursAt(Upper(x + ")" + rest), ") TO", |x|)
  {
    var u := Upper(x + ")" + rest);
    assert u == Upper(x) + ")" + Upper(rest);
    assert u[|x|..|x| + 4] == ")" + Upper(rest)[..3];
  }

  lemma NoLaterClose(x: string, rest: string, i: int)
    requires ')' !in rest && i > |x|
    ensures !OccursAt(Upper(x + ")" + rest), ") TO", i)
  {
    var s := x + ")" + rest;
    if i < |s| {
      assert s[i] == rest[i - |x| - 1] != ')';
      OccursFirst(Upper(s), ") TO", i);
    }
  }

  lemma LastClose(x: string, rest: string)
    requires HasPrefix(Upper(rest), " TO") && ')' !in rest
    ensures LastIndex(Upper(x + ")" + rest), ") TO") == |x|
  {
    var u := Upper(x + ")" + rest);
    LastIndexIsLast(u, ") TO");
    CloseOccurs(x, rest);
    var r := LastIndex(u, ") TO");
    if r > |x| { NoLaterClose(x, rest, r); }
  }
}
