/** The bytes a content pack signature covers, and the document that `pack sign` writes. */
module PackSigning {
  import opened GoStrings

  // ----- Line endings -----

  /** strings.ReplaceAll(s, "\r\n", "\n"). */
  function CrlfToLf(s: string): (r: string) {
    if s == [] then []
    else if |s| >= 2 && s[0] == '\r' && s[1] == '\n' then "\n" + CrlfToLf(s[2..])
    else [s[0]] + CrlfToLf(s[1..])
  }

  /** strings.ReplaceAll with a one-character pattern. */
  function Replace(s: string, c: char, t: string): (r: string) {
    if s == [] then [] else (if s[0] == c then t else [s[0]]) + Replace(s[1..], c, t)
  }

  function Normalize(s: string): (r: string) {
    Replace(CrlfToLf(s), '\r', "\n")
  }

  // ----- Lines -----

  /** strings.Split(s, "\n"). */
  function Lines(s: string): (r: seq<string>)
    ensures r != []
  {
    if s == [] then [""] else Grown(Lines(s[..|s| - 1]), s[|s| - 1])
  }

  /** The lines of a text that gains one character. */
  function Grown(ls: seq<string>, c: char): (r: seq<string>)
    requires ls != []
    ensures r != []
  {
    if c == '\n' then ls + [""] else ls[..|ls| - 1] + [ls[|ls| - 1] + [c]]
  }

  /** strings.Join(ls, "\n"). */
  function Join(ls: seq<string>): (r: string) {
    if ls == [] then ""
    else if |ls| == 1 then ls[0]
    else Join(ls[..|ls| - 1]) + "\n" + ls[|ls| - 1]
  }

  predicate IsBlank(c: char) {
    c == ' ' || c == '\t'
  }

  predicate ColonAfterBlanks(s: string) {
    s != [] && (s[0] == ':' || (IsBlank(s[0]) && ColonAfterBlanks(s[1..])))
  }

  /** The pattern ^signature[ \t]*: */
  predicate IsSignatureLine(line: string) {
    HasPrefix(line, "signature") && ColonAfterBlanks(line[9..])
  }

  function Kept(ls: seq<string>): (r: seq<string>) {
    if ls == [] then []
    else
      var last := ls[|ls| - 1];
      Kept(ls[..|ls| - 1]) + if IsSignatureLine(last) then [] else [last]
  }

  function Removed(ls: seq<string>): (r: nat) {
    if ls == [] then 0 else Removed(ls[..|ls| - 1]) + if IsSignatureLine(ls[|ls| - 1]) then 1 else 0
  }

  predicate Trimmed(c: char) {
    c == ' ' || c == '\t' || c == '\n'
  }

  /** strings.TrimRight(s, " \t\n"). */
  function TrimRight(s: string): (r: string)
    ensures r <= s && (r != [] ==> !Trimmed(r[|r| - 1]))
  {
    if s != [] && Trimmed(s[|s| - 1]) then TrimRight(s[..|s| - 1]) else s
  }

  function SignedBytes(raw: string): (r: string) {
    TrimRight(Join(Kept(Lines(Normalize(raw)))))
  }

  function SignatureLines(raw: string): (r: nat) {
    Removed(Lines(Normalize(raw)))
  }

  /** splitSignatureLine: the signed bytes and the number of signature lines taken out. */
  method SplitSignatureLine(raw: string) returns (body: string, removed: nat)
    ensures body == SignedBytes(raw) && removed == SignatureLines(raw)
  {
    var lines := Lines(Normalize(raw));
    var kept: seq<string> := [];
    removed := 0;
    for n := 0 to |lines|
      invariant kept == Kept(lines[..n]) && removed == Removed(lines[..n])
    {
      assert lines[..n + 1][..n] == lines[..n];
      if IsSignatureLine(lines[n]) {
        removed := removed + 1;
        continue;
      }
      kept := kept + [lines[n]];
    }
    assert lines[..|lines|] == lines;
    body := TrimRight(Join(kept));
  }

  function SignatureLine(sig: string): (r: string) {
    "signature: " + sig
  }

  /** The document cmdPackSign writes; sig is the base64 text of the signature over SignedBytes. */
  function SignedDocument(raw: string, sig: string): (r: string) {
    SignedBytes(raw) + "\n" + SignatureLine(sig) + "\n"
  }

  // ----- Lines and text -----

  lemma LinesSnoc(s: string, c: char)
    ensures Lines(s + [c]) == Grown(Lines(s), c)
  {
    assert (s + [c])[..|s|] == s;
  }

  lemma GrownAfter(front: seq<string>, ls: seq<string>, c: char)
    requires ls != []
    ensures Grown(front + ls, c) == front + Grown(ls, c)
  {
    assert (front + ls)[..|front + ls| - 1] == front + ls[..|ls| - 1];
  }

  lemma {:induction false} LinesOfConcat(a: string, b: string)
    ensures Lines(a + "\n" + b) == Lines(a) + Lines(b)
  {
    if b == [] {
      LinesSnoc(a, '\n');
      assert a + "\n" + b == a + ['\n'];
    } else {
      var init, c := b[..|b| - 1], b[|b| - 1];
      LinesOfConcat(a, init);
      LinesSnoc(a + "\n" + init, c);
      assert a + "\n" + b == a + "\n" + init + [c];
      GrownAfter(Lines(a), Lines(init), c);
    }
  }

  lemma {:induction false} LineOf(s: string)
    requires '\n' !in s
    ensures Lines(s) == [s]
  {
    if s != [] {
      var init, c := s[..|s| - 1], s[|s| - 1];
      assert '\n' !in init && c != '\n';
      LineOf(init);
      assert Grown([init], c) == [init + [c]];
      assert s == init + [c];
    }
  }

  lemma {:induction false} JoinLines(s: string)
    ensures Join(Lines(s)) == s
  {
    if s != [] {
      var init, c := s[..|s| - 1], s[|s| - 1];
      JoinLines(init);
      var ls := Lines(init);
      assert s == init + [c];
      if c == '\n' {
        assert (ls + [""])[..|ls|] == ls;
      } else {
        var front, last := ls[..|ls| - 1], ls[|ls| - 1];
        assert (front + [last + [c]])[..|front|] == front;
        assert ls == front + [last];
        if front != [] {
          assert Join(front) + "\n" + (last + [c]) == Join(front) + "\n" + last + [c];
        }
      }
    }
  }

  ghost predicate NoNewlines(ls: seq<string>) {
    forall i :: 0 <= i < |ls| ==> '\n' !in ls[i]
  }

  lemma {:induction false} LinesJoin(ls: seq<string>)
    requires ls != [] && NoNewlines(ls)
    ensures Lines(Join(ls)) == ls
  {
    var init, last := ls[..|ls| - 1], ls[|ls| - 1];
    LineOf(last);
    assert ls == init + [last];
    if init != [] {
      LinesJoin(init);
      LinesOfConcat(Join(init), last);
    }
  }

  lemma {:induction false} LinesHaveNoNewlines(s: string)
    ensures NoNewlines(Lines(s))
  {
    if s != [] {
      LinesHaveNoNewlines(s[..|s| - 1]);
    }
  }

  // ----- Signature lines -----

  lemma {:induction false} ColonStays(s: string, more: string)
    requires ColonAfterBlanks(s)
    ensures ColonAfterBlanks(s + more)
  {
    if s[0] != ':' {
      ColonStays(s[1..], more);
      assert (s + more)[1..] == s[1..] + more;
    }
  }

  /** Cutting a line short never turns it into a signature line. */
  lemma SignatureLineStays(line: string, more: string)
    requires IsSignatureLine(line)
    ensures IsSignatureLine(line + more)
  {
    ColonStays(line[9..], more);
    assert (line + more)[9..] == line[9..] + more;
    assert (line + more)[..9] == line[..9];
  }

  ghost predicate NoneSigned(ls: seq<string>) {
    forall i :: 0 <= i < |ls| ==> !IsSignatureLine(ls[i])
  }

  /** The text has no signature line. */
  ghost predicate Clean(s: string) {
    NoneSigned(Lines(s))
  }

  lemma CleanWithoutLast(s: string)
    requires s != [] && Clean(s)
    ensures Clean(s[..|s| - 1])
  {
    var init, c := s[..|s| - 1], s[|s| - 1];
    var ls := Lines(init);
    forall i | 0 <= i < |ls| ensures !IsSignatureLine(ls[i]) {
      if c == '\n' || i < |ls| - 1 {
        assert Lines(s)[i] == ls[i];
      } else {
        assert Lines(s)[i] == ls[i] + [c];
        if IsSignatureLine(ls[i]) { SignatureLineStays(ls[i], [c]); }
      }
    }
  }

  lemma {:induction false} CleanTrimmed(s: string)
    requires Clean(s)
    ensures Clean(TrimRight(s))
  {
    if s != [] && Trimmed(s[|s| - 1]) {
      CleanWithoutLast(s);
      CleanTrimmed(s[..|s| - 1]);
    }
  }

  lemma {:induction false} KeptNoneSigned(ls: seq<string>)
    ensures NoneSigned(Kept(ls)) && (NoNewlines(ls) ==> NoNewlines(Kept(ls)))
  {
    if ls != [] {
      KeptNoneSigned(ls[..|ls| - 1]);
    }
  }

  lemma {:induction false} KeptAll(ls: seq<string>)
    requires NoneSigned(ls)
    ensures Kept(ls) == ls && Removed(ls) == 0
  {
    if ls != [] {
      KeptAll(ls[..|ls| - 1]);
      assert ls == ls[..|ls| - 1] + [ls[|ls| - 1]];
    }
  }

  lemma KeptSnoc(ls: seq<string>, line: string)
    ensures Kept(ls + [line]) == Kept(ls) + (if IsSignatureLine(line) then [] else [line])
    ensures Removed(ls + [line]) == Removed(ls) + (if IsSignatureLine(line) then 1 else 0)
  {
    assert (ls + [line])[..|ls|] == ls;
  }

  // ----- What is signed -----

  /** The line reads "signature", then n blanks, then a colon, from its first column on. */
  ghost predicate NamesSignature(line: string, n: nat) {
    && |line| > 9 + n && line[..9] == "signature" && line[9 + n] == ':'
    && forall i :: 9 <= i < 9 + n ==> line[i] == ' ' || line[i] == '\t'
  }

  ghost predicate Signs(line: string) {
    exists n: nat :: NamesSignature(line, n)
  }

  lemma {:induction false} ColonFound(s: string)
    ensures ColonAfterBlanks(s) <==>
            exists n: nat :: n < |s| && s[n] == ':' && forall i :: 0 <= i < n ==> s[i] == ' ' || s[i] == '\t'
  {
    if s != [] && s[0] != ':' {
      ColonFound(s[1..]);
      if n: nat :| n < |s[1..]| && s[1..][n] == ':' && forall i :: 0 <= i < n ==> s[1..][i] == ' ' || s[1..][i] == '\t' {
        assert s[n + 1] == ':';
        assert IsBlank(s[0]) ==> forall i :: 0 <= i < n + 1 ==> s[i] == ' ' || s[i] == '\t' by {
          assert forall i :: 1 <= i < n + 1 ==> s[i] == s[1..][i - 1];
        }
      }
      if n: nat :| n < |s| && s[n] == ':' && forall i :: 0 <= i < n ==> s[i] == ' ' || s[i] == '\t' {
        assert s[1..][n - 1] == ':';
      }
    }
  }

  lemma SignatureLineMeaning(line: string)
    ensures IsSignatureLine(line) <==> Signs(line)
  {
    if |line| >= 9 {
      var rest := line[9..];
      ColonFound(rest);
      if n: nat :| NamesSignature(line, n) {
        assert rest[n] == ':';
        assert forall i :: 0 <= i < n ==> rest[i] == line[9 + i];
      }
      if IsSignatureLine(line) {
        var n: nat :| n < |rest| && rest[n] == ':' && forall i :: 0 <= i < n ==> rest[i] == ' ' || rest[i] == '\t';
        assert forall i :: 9 <= i < 9 + n ==> line[i] == rest[i - 9];
        assert NamesSignature(line, n);
      }
    }
  }

  /** at lists in increasing order the positions of the lines that do not name a signature, and kept
      holds those lines. */
  ghost predicate Unsigned(ls: seq<string>, at: seq<nat>, kept: seq<string>) {
    && |kept| == |at| && (forall k :: 0 <= k < |at| ==> at[k] < |ls| && kept[k] == ls[at[k]])
    && (forall j, k :: 0 <= j < k < |at| ==> at[j] < at[k])
    && (forall i: nat :: i < |ls| ==> (i in at <==> !Signs(ls[i])))
  }

  lemma UnsignedMore(ls: seq<string>, at: seq<nat>, kept: seq<string>, line: string)
    requires Unsigned(ls, at, kept)
    ensures IsSignatureLine(line) ==> Unsigned(ls + [line], at, kept)
    ensures !IsSignatureLine(line) ==> Unsigned(ls + [line], at + [|ls|], kept + [line])
  {
    SignatureLineMeaning(line);
    assert |ls| !in at;
    assert forall i: nat :: i < |ls| ==> (ls + [line])[i] == ls[i];
  }

  lemma {:induction false} KeptInOrder(ls: seq<string>) returns (at: seq<nat>)
    ensures Unsigned(ls, at, Kept(ls)) && Removed(ls) == |ls| - |at|
  {
    at := [];
    if ls != [] {
      var init, last := ls[..|ls| - 1], ls[|ls| - 1];
      at := KeptInOrder(init);
      UnsignedMore(init, at, Kept(init), last);
      assert ls == init + [last];
      if IsSignatureLine(last) {
        assert Kept(ls) == Kept(init);
      } else {
        at := at + [|init|];
      }
    }
  }

  /** The signed bytes are the lines that do not name a signature, joined, less the blanks and newlines
      at the end; the other lines are counted. */
  lemma SignedBytesMeaning(raw: string) returns (at: seq<nat>, kept: seq<string>)
    ensures var ls, body := Lines(Normalize(raw)), SignedBytes(raw);
            && Unsigned(ls, at, kept) && SignatureLines(raw) == |ls| - |at|
            && body <= Join(kept)
            && (forall i :: |body| <= i < |Join(kept)| ==> Join(kept)[i] == ' ' || Join(kept)[i] == '\t' || Join(kept)[i] == '\n')
            && (body == "" || (body[|body| - 1] != ' ' && body[|body| - 1] != '\t' && body[|body| - 1] != '\n'))
  {
    at := KeptInOrder(Lines(Normalize(raw)));
    kept := Kept(Lines(Normalize(raw)));
    TrimmedOnly(Join(kept));
  }

  lemma {:induction false} TrimmedOnly(s: string)
    ensures forall i :: |TrimRight(s)| <= i < |s| ==> s[i] == ' ' || s[i] == '\t' || s[i] == '\n'
  {
    if s != [] && Trimmed(s[|s| - 1]) {
      TrimmedOnly(s[..|s| - 1]);
    }
  }

  // ----- Line endings of signed bytes -----

  lemma {:induction false} CrlfToLfNone(s: string)
    requires '\r' !in s || '\n' !in s
    ensures CrlfToLf(s) == s
  {
    if s != [] {
      CrlfToLfNone(s[1..]);
    }
  }

  lemma {:induction false} ReplaceNone(s: string, c: char, t: string)
    requires c !in s
    ensures Replace(s, c, t) == s
  {
    if s != [] {
      ReplaceNone(s[1..], c, t);
    }
  }

  lemma NormalizeNone(s: string)
    requires '\r' !in s
    ensures Normalize(s) == s
  {
    CrlfToLfNone(s);
    ReplaceNone(s, '\r', "\n");
  }

  lemma {:induction false} ReplaceLeavesNone(s: string, c: char, t: string)
    requires c !in t
    ensures c !in Replace(s, c, t)
  {
    if s != [] {
      ReplaceLeavesNone(s[1..], c, t);
    }
  }

  lemma {:induction false} LinesWithin(s: string)
    requires '\r' !in s
    ensures forall i :: 0 <= i < |Lines(s)| ==> '\r' !in Lines(s)[i]
  {
    if s != [] {
      LinesWithin(s[..|s| - 1]);
    }
  }

  lemma {:induction false} JoinKeptWithin(ls: seq<string>)
    requires forall i :: 0 <= i < |ls| ==> '\r' !in ls[i]
    ensures forall i :: 0 <= i < |Kept(ls)| ==> '\r' !in Kept(ls)[i]
    ensures '\r' !in Join(Kept(ls))
  {
    if ls != [] {
      JoinKeptWithin(ls[..|ls| - 1]);
      var kept, last := Kept(ls[..|ls| - 1]), ls[|ls| - 1];
      if IsSignatureLine(last) {
        assert kept + [] == kept;
      } else {
        assert (kept + [last])[..|kept|] == kept;
      }
    }
  }

  /** Signed bytes have \n line endings only, no signature line and no trailing white space. */
  lemma SignedBytesShape(raw: string)
    ensures var body := SignedBytes(raw);
            '\r' !in body && Clean(body) && TrimRight(body) == body
  {
    var text := Normalize(raw);
    ReplaceLeavesNone(CrlfToLf(raw), '\r', "\n");
    LinesWithin(text);
    JoinKeptWithin(Lines(text));
    LinesHaveNoNewlines(text);
    var kept := Kept(Lines(text));
    KeptNoneSigned(Lines(text));
    if kept == [] {
      LineOf("");
    } else {
      LinesJoin(kept);
    }
    CleanTrimmed(Join(kept));
  }

  /** Taking the signed bytes of signed bytes changes nothing. */
  lemma SignedBytesIdempotent(raw: string)
    ensures SignedBytes(SignedBytes(raw)) == SignedBytes(raw) && SignatureLines(SignedBytes(raw)) == 0
  {
    var body := SignedBytes(raw);
    SignedBytesShape(raw);
    NormalizeNone(body);
    KeptAll(Lines(body));
    JoinLines(body);
  }

  lemma LinesOfSigned(body: string, line: string)
    requires '\n' !in line
    ensures Lines(body + "\n" + line + "\n") == Lines(body) + [line] + [""]
  {
    LineOf(line);
    LineOf("");
    LinesOfConcat(body, line);
    LinesOfConcat(body + "\n" + line, "");
    assert body + "\n" + line + "\n" == body + "\n" + line + "\n" + "";
  }

  lemma JoinWithBlank(body: string)
    ensures Join(Lines(body) + [""]) == body + "\n"
  {
    JoinLines(body);
    assert (Lines(body) + [""])[..|Lines(body)|] == Lines(body);
  }

  lemma KeptOfSigned(ls: seq<string>, line: string)
    requires NoneSigned(ls) && IsSignatureLine(line) && !IsSignatureLine("")
    ensures Kept(ls + [line] + [""]) == ls + [""] && Removed(ls + [line] + [""]) == 1
  {
    KeptAll(ls);
    KeptSnoc(ls, line);
    KeptSnoc(ls + [line], "");
  }

  lemma TrimNewline(body: string)
    requires TrimRight(body) == body
    ensures TrimRight(body + "\n") == body
  {
    assert (body + "\n")[..|body|] == body;
  }

  lemma NoCarriageReturn(body: string, line: string)
    requires '\r' !in body && '\r' !in line
    ensures '\r' !in body + "\n" + line + "\n"
  {
  }

  lemma BodySplits(body: string, line: string)
    requires '\r' !in body && Clean(body) && TrimRight(body) == body
    requires '\r' !in line && '\n' !in line && IsSignatureLine(line)
    ensures SignedBytes(body + "\n" + line + "\n") == body && SignatureLines(body + "\n" + line + "\n") == 1
  {
    var doc, ls := body + "\n" + line + "\n", Lines(body);
    assert Normalize(doc) == doc by {
      NoCarriageReturn(body, line);
      NormalizeNone(doc);
    }
    assert Lines(doc) == ls + [line] + [""] by { LinesOfSigned(body, line); }
    assert Kept(Lines(doc)) == ls + [""] && Removed(Lines(doc)) == 1 by { KeptOfSigned(ls, line); }
    assert TrimRight(Join(ls + [""])) == body by {
      JoinWithBlank(body);
      TrimNewline(body);
    }
  }

  lemma SignatureLineRecognised(sig: string)
    requires '\r' !in sig && '\n' !in sig
    ensures IsSignatureLine(SignatureLine(sig)) && '\r' !in SignatureLine(sig) && '\n' !in SignatureLine(sig)
  {
    var line := SignatureLine(sig);
    assert line[..9] == "signature";
    assert line[9..] == ": " + sig;
  }

  /** What pack sign writes has exactly one signature line and splits back into exactly the bytes
      that were signed. */
  lemma SignedDocumentSplits(raw: string, sig: string)
    requires '\r' !in sig && '\n' !in sig
    ensures SignedBytes(SignedDocument(raw, sig)) == SignedBytes(raw)
    ensures SignatureLines(SignedDocument(raw, sig)) == 1
  {
    SignedBytesShape(raw);
    SignatureLineRecognised(sig);
    BodySplits(SignedBytes(raw), SignatureLine(sig));
  }

  /** Signing a signed pack again replaces the signature. */
  lemma ResigningReplaces(raw: string, first: string, second: string)
    requires '\r' !in first && '\n' !in first
    ensures SignedDocument(SignedDocument(raw, first), second) == SignedDocument(raw, second)
  {
    SignedDocumentSplits(raw, first);
  }

  lemma {:induction false} CrlfRoundTrip(s: string)
    requires '\r' !in s
    ensures CrlfToLf(Replace(s, '\n', "\r\n")) == s
  {
    if s != [] {
      CrlfRoundTrip(s[1..]);
      var rest := Replace(s[1..], '\n', "\r\n");
      if s[0] == '\n' {
        assert ("\r\n" + rest)[2..] == rest;
      } else {
        assert ([s[0]] + rest)[1..] == rest;
      }
    }
  }

  lemma {:induction false} CrToLfRoundTrip(s: string)
    requires '\r' !in s
    ensures '\n' !in Replace(s, '\n', "\r")
    ensures Replace(Replace(s, '\n', "\r"), '\r', "\n") == s
  {
    if s != [] {
      CrToLfRoundTrip(s[1..]);
      var rest := Replace(s[1..], '\n', "\r");
      assert Replace(s, '\n', "\r")[1..] == rest;
    }
  }

  /** Rewriting the line endings of a pack to \r\n or \r leaves its signed bytes and its signature
      lines as they were. */
  lemma LineEndingsDoNotMatter(doc: string)
    requires '\r' !in doc
    ensures var crlf := Replace(doc, '\n', "\r\n");
            SignedBytes(crlf) == SignedBytes(doc) && SignatureLines(crlf) == SignatureLines(doc)
    ensures var cr := Replace(doc, '\n', "\r");
            SignedBytes(cr) == SignedBytes(doc) && SignatureLines(cr) == SignatureLines(doc)
  {
    NormalizeNone(doc);
    CrlfRoundTrip(doc);
    ReplaceNone(doc, '\r', "\n");
    CrToLfRoundTrip(doc);
    CrlfToLfNone(Replace(doc, '\n', "\r"));
  }
}
