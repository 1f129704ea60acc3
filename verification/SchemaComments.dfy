/**
 What the schema parser of `tools/generate_raw_schema.py` reads out of a text: its characters, lines, words
 and heads written out, what a comment does not change, and the errors.
 */
module SchemaComments {
  import opened Wrappers
  import opened Strings
  import opened SchemaParser

  // ---------------------------------------------------------------- characters

  const DECIMALS := "0123456789"
  const DIGITS := "0123456789abcdef"
  const UPPER := "ABCDEFGHIJKLMNOPQRSTUVWXYZ"
  const LOWER := "abcdefghijklmnopqrstuvwxyz"

  /** The whitespace of Python's `str`, which is also that of its regular expressions. */
  const SPACES: set<int> := {
    0x09, 0x0A, 0x0B, 0x0C, 0x0D, 0x1C, 0x1D, 0x1E, 0x1F, 0x20, 0x85, 0xA0, 0x1680,
    0x2000, 0x2001, 0x2002, 0x2003, 0x2004, 0x2005, 0x2006, 0x2007, 0x2008, 0x2009, 0x200A,
    0x2028, 0x2029, 0x202F, 0x205F, 0x3000 }

  /** What ends a line of it. */
  const BREAKS: set<int> := { 0x0A, 0x0B, 0x0C, 0x0D, 0x1C, 0x1D, 0x1E, 0x85, 0x2028, 0x2029 }

  lemma CharacterClasses(c: char)
    ensures IsSpace(c) <==> c as int in SPACES
    ensures IsLineBreak(c) <==> c as int in BREAKS
    ensures IsHex(c) ==> DIGITS[HexDigit(c)] == c
    ensures IsHex(c) <==> c in DIGITS
  {
  }

  lemma UpperLetters(c: char)
    ensures 'A' <= c <= 'Z' <==> c in UPPER
  {
    if 'A' <= c <= 'Z' {
      assert UPPER[c as int - 'A' as int] == c;
    }
  }

  lemma LowerLetters(c: char)
    ensures 'a' <= c <= 'z' <==> c in LOWER
  {
    if 'a' <= c <= 'z' {
      assert LOWER[c as int - 'a' as int] == c;
    }
  }

  /** A name is letters, decimal digits, underscores and dots. */
  lemma NameCharacters(c: char)
    ensures IsName(c) <==> c in UPPER || c in LOWER || c in DECIMALS || c == '_' || c == '.'
  {
    UpperLetters(c);
    LowerLetters(c);
  }

  // ---------------------------------------------------------------- words

  /** Whitespace separates words, and */
  lemma {:induction false} WordsConcat(p: string, w: char, q: string)
    requires IsSpace(w)
    ensures Words(p + [w] + q) == Words(p) + Words(q)
    decreases |p|
  {
    var s := p + [w] + q;
    if p == [] {
      assert s[1..] == q;
    } else if IsSpace(p[0]) {
      assert s[1..] == p[1..] + [w] + q;
      WordsConcat(p[1..], w, q);
    } else {
      var n := Until(p, IsSpace);
      var tail := p[n..] + [w] + q;
      assert s == p[..n] + tail;
      assert tail[0] == if n < |p| then p[n] else w;
      CutAfter(p[..n], tail, IsSpace);
      assert s[n..] == tail;
      WordsConcat(p[n..], w, q);
      assert [p[..n]] + (Words(p[n..]) + Words(q)) == ([p[..n]] + Words(p[n..])) + Words(q);
    }
  }

  /** what has none in it is a word. */
  lemma WordOfRun(s: string)
    requires s != [] && forall i | 0 <= i < |s| :: !IsSpace(s[i])
    ensures Words(s) == [s]
  {
    assert Until(s, IsSpace) == |s|;
    assert s[|s|..] == [] && s[..|s|] == s;
  }

  lemma SpaceNextToSpace(p: string, q: string)
    requires q == [] || q[0] == '\n'
    ensures Words(p + "\n" + q) == Words(p + q)
  {
    WordsConcat(p, '\n', q);
    if q == [] {
      assert p + q == p && Words(p) + Words(q) == Words(p);
    } else {
      WordsConcat(p, '\n', q[1..]);
      assert p + q == p + ['\n'] + q[1..];
    }
  }

  lemma FirstSemicolon(p: string) returns (d: string, rest: string)
    requires ';' in p
    ensures p == d + ";" + rest && ';' !in d && |rest| < |p|
  {
    var n := Until(p, IsSemicolon);
    d, rest := p[..n], p[n + 1..];
  }

  /** A line break next to another, or at the end, changes nothing that is kept. */
  lemma {:induction false} RedundantBreak(p: string, q: string)
    requires q == [] || q[0] == '\n'
    ensures Kept(SplitSemicolons(p + "\n" + q)) == Kept(SplitSemicolons(p + q))
    decreases |p|
  {
    if ';' in p {
      var d, rest := FirstSemicolon(p);
      RedundantBreak(rest, q);
      BreakAfterPart(d, rest, q);
    } else {
      BreakInPart(p, q);
    }
  }

  /** What follows the first part. */
  lemma PartThen(d: string, rest: string, x: string)
    requires ';' !in d
    ensures SplitSemicolons((d + ";" + rest) + x) == [d] + SplitSemicolons(rest + x)
  {
    ConcatAssociates(d + ";", rest, x);
    FirstPart(d, rest + x);
  }

  lemma BreakAfterPart(d: string, rest: string, q: string)
    requires ';' !in d
    requires Kept(SplitSemicolons(rest + "\n" + q)) == Kept(SplitSemicolons(rest + q))
    ensures Kept(SplitSemicolons(d + ";" + rest + "\n" + q)) == Kept(SplitSemicolons(d + ";" + rest + q))
  {
    ConcatAssociates(d + ";", rest, "\n");
    PartThen(d, rest + "\n", q);
    PartThen(d, rest, q);
    SameKept(d, d, SplitSemicolons(rest + "\n" + q), SplitSemicolons(rest + q));
  }

  lemma BreakInPart(p: string, q: string)
    requires ';' !in p && (q == [] || q[0] == '\n')
    ensures Kept(SplitSemicolons(p + "\n" + q)) == Kept(SplitSemicolons(p + q))
  {
    var m := Until(q, IsSemicolon);
    assert q == q[..m] + q[m..];
    BreakBefore(p, q[..m], q[m..]);
    ConcatAssociates(p + "\n", q[..m], q[m..]);
    ConcatAssociates(p, q[..m], q[m..]);
  }

  lemma BreakBefore(p: string, q: string, later: string)
    requires ';' !in p && ';' !in q && (q == [] || q[0] == '\n') && (later == [] || later[0] == ';')
    ensures Kept(SplitSemicolons((p + "\n" + q) + later)) == Kept(SplitSemicolons((p + q) + later))
  {
    CutFirst(p + "\n" + q, later);
    CutFirst(p + q, later);
    SpaceNextToSpace(p, q);
    SameKept(p + "\n" + q, p + q, AfterFirst(later), AfterFirst(later));
  }

  /** The parts after the first. */
  function AfterFirst(later: string): (parts: seq<string>) {
    if later == [] then [] else SplitSemicolons(later[1..])
  }

  lemma CutFirst(d: string, later: string)
    requires ';' !in d && (later == [] || later[0] == ';')
    ensures SplitSemicolons(d + later) == [d] + AfterFirst(later)
  {
    if later == [] {
      assert d + later == d;
      CutAfter(d, [], IsSemicolon);
      assert d + [] == d;
    } else {
      assert d + later == d + ";" + later[1..];
      FirstPart(d, later[1..]);
    }
  }

  lemma SameKept(d: string, e: string, ds: seq<string>, es: seq<string>)
    requires Words(d) == Words(e) && Kept(ds) == Kept(es)
    ensures Kept([d] + ds) == Kept([e] + es)
  {
    assert ([d] + ds)[1..] == ds && ([e] + es)[1..] == es;
    assert Normalise(d) == Normalise(e);
  }

  /** A part is kept exactly when it has an equals sign, normalised and in its place. */
  lemma {:induction false} KeptIsFilter(a: seq<string>, d: string, b: seq<string>)
    ensures Kept(a + b) == Kept(a) + Kept(b)
    ensures Kept([d]) == if '=' in Normalise(d) then [Normalise(d)] else []
  {
    if a == [] {
      assert a + b == b;
    } else {
      assert (a + b)[1..] == a[1..] + b;
      KeptIsFilter(a[1..], d, b);
      var n := Normalise(a[0]);
      ConcatAssociates(if n == [] || '=' !in n then [] else [n], Kept(a[1..]), Kept(b));
    }
  }

  /** The parts are what stands between semicolons. */
  lemma PartsAre(d: string, rest: string)
    requires ';' !in d
    ensures SplitSemicolons(d) == [d]
    ensures SplitSemicolons(d + ";" + rest) == [d] + SplitSemicolons(rest)
  {
    CutFirst(d, []);
    assert d + [] == d;
    FirstPart(d, rest);
  }

  // ---------------------------------------------------------------- lines

  lemma {:induction false} JoinConcat(x: seq<string>, y: seq<string>)
    requires x != [] && y != []
    ensures Join('\n', x + y) == Join('\n', x) + "\n" + Join('\n', y)
  {
    if |x| == 1 {
      assert (x + y)[1..] == y;
    } else {
      assert (x + y)[1..] == x[1..] + y;
      JoinConcat(x[1..], y);
    }
  }

  /** What later lines add to the text. */
  function Below(y: seq<string>): (q: string) {
    if y == [] then [] else "\n" + Join('\n', y)
  }

  lemma JoinBelow(x: seq<string>, y: seq<string>)
    requires x != []
    ensures Join('\n', x + y) == Join('\n', x) + Below(y)
  {
    if y == [] {
      assert x + y == x && Join('\n', x) + [] == Join('\n', x);
    } else {
      JoinConcat(x, y);
      ConcatAssociates(Join('\n', x), "\n", Join('\n', y));
    }
  }

  lemma BelowEmpty(y: seq<string>)
    ensures Below([[]] + y) == "\n" + Below(y)
  {
    JoinBelow([[]], y);
    assert [] + Below(y) == Below(y);
  }

  lemma EmptyFirstLine(y: seq<string>)
    ensures Kept(SplitSemicolons(Join('\n', [[]] + y))) == Kept(SplitSemicolons(Join('\n', y)))
  {
    JoinBelow([[]], y);
    assert [] + Below(y) == Below(y);
    if y != [] {
      LeadingBreak(Join('\n', y));
    }
  }

  lemma EmptyLaterLine(x: seq<string>, y: seq<string>)
    requires x != []
    ensures Kept(SplitSemicolons(Join('\n', x + ([[]] + y)))) == Kept(SplitSemicolons(Join('\n', x + y)))
  {
    var p := Join('\n', x);
    JoinBelow(x, [[]] + y);
    JoinBelow(x, y);
    BelowEmpty(y);
    ConcatAssociates(p, "\n", Below(y));
    RedundantBreak(p, Below(y));
  }

  /** An empty line among the others changes nothing that is kept. */
  lemma EmptyLineIsIgnored(x: seq<string>, y: seq<string>)
    ensures Kept(SplitSemicolons(Join('\n', x + [[]] + y))) == Kept(SplitSemicolons(Join('\n', x + y)))
  {
    ConcatAssociates(x, [[]], y);
    if x == [] {
      assert x + ([[]] + y) == [[]] + y && x + y == y;
      EmptyFirstLine(y);
    } else {
      EmptyLaterLine(x, y);
    }
  }

  lemma {:induction false} UncommentedConcat(x: seq<string>, y: seq<string>)
    ensures Uncommented(x + y) == Uncommented(x) + Uncommented(y)
  {
    if x == [] {
      assert x + y == y;
    } else {
      assert (x + y)[1..] == x[1..] + y;
      UncommentedConcat(x[1..], y);
    }
  }

  /** The text ends its last line, and what follows is not the rest of that line's end. */
  predicate EndsLine(a: string, x: string) {
    a == [] || (IsLineBreak(a[|a| - 1]) && !(a[|a| - 1] == '\r' && x != [] && x[0] == '\n'))
  }

  /** One line and its end, if it has one. */
  lemma LineThen(l: string, z: string)
    requires (forall i | 0 <= i < |l| :: !IsLineBreak(l[i])) && (z == [] || IsLineBreak(z[0]))
    ensures SplitLines(l + z) == if l + z == [] then [] else [l] + SplitLines(AfterBreak(z))
  {
    CutAfter(l, z, IsLineBreak);
    if z == [] {
      assert l + z == l;
    } else {
      var width := if z[0] == '\r' && |z| > 1 && z[1] == '\n' then 2 else 1;
      assert (l + z)[|l|] == z[0] && (|z| > 1 ==> (l + z)[|l| + 1] == z[1]);
      assert (l + z)[|l| + width..] == z[width..];
    }
  }

  function AfterBreak(z: string): (rest: string) {
    if z == [] then [] else if z[0] == '\r' && |z| > 1 && z[1] == '\n' then z[2..] else z[1..]
  }

  lemma BreakThen(z: string, x: string)
    requires z != [] && EndsLine(z, x)
    ensures AfterBreak(z + x) == AfterBreak(z) + x && EndsLine(AfterBreak(z), x)
  {
    assert |z| > 1 ==> (z + x)[1] == z[1];
    assert |z| == 1 && x != [] ==> (z + x)[1] == x[0];
  }

  /** The first line of such a text, and the rest from its end on. */
  lemma FirstLine(a: string, x: string) returns (l: string, z: string)
    requires a != [] && EndsLine(a, x)
    ensures a == l + z && z != [] && IsLineBreak(z[0]) && EndsLine(z, x)
    ensures forall i | 0 <= i < |l| :: !IsLineBreak(l[i])
  {
    var n := Until(a, IsLineBreak);
    l, z := a[..n], a[n..];
  }

  lemma FirstLineConcat(l: string, z: string, x: string)
    requires (forall i | 0 <= i < |l| :: !IsLineBreak(l[i])) && z != [] && IsLineBreak(z[0])
    requires AfterBreak(z + x) == AfterBreak(z) + x
    requires SplitLines(AfterBreak(z) + x) == SplitLines(AfterBreak(z)) + SplitLines(x)
    ensures SplitLines((l + z) + x) == SplitLines(l + z) + SplitLines(x)
  {
    LineThen(l, z);
    LineThen(l, z + x);
    ConcatAssociates(l, z, x);
    ConcatAssociates([l], SplitLines(AfterBreak(z)), SplitLines(x));
  }

  /** The lines of a text that ends its last line, and of what follows it. */
  lemma {:induction false} LinesConcat(a: string, x: string)
    requires EndsLine(a, x)
    ensures SplitLines(a + x) == SplitLines(a) + SplitLines(x)
    decreases |a|
  {
    if a == [] {
      assert a + x == x;
    } else {
      var l, z := FirstLine(a, x);
      BreakThen(z, x);
      LinesConcat(AfterBreak(z), x);
      FirstLineConcat(l, z, x);
    }
  }

  // ---------------------------------------------------------------- comments

  /** What stands before the first comment mark is kept, and nothing else. */
  lemma {:induction false} BeforeCommentIs(a: string, b: string)
    requires NoComment(a + "/")
    ensures BeforeComment(a + ("//" + b)) == a
  {
    var s := a + ("//" + b);
    if a == [] {
      assert s[0] == '/' && s[1] == '/';
    } else {
      assert s[1..] == a[1..] + ("//" + b) && s[0] == a[0];
      assert s[1] == if |a| > 1 then a[1] else '/';
      assert (a + "/")[0] == a[0] && (a + "/")[1] == s[1];
      assert (a + "/")[1..] == a[1..] + "/";
      BeforeCommentIs(a[1..], b);
    }
  }

  /** The line, the same with a comment, and what is kept of both. */
  lemma LineWithComment(l: string, c: string)
    requires NoComment(l + "/")
    ensures BeforeComment(l) == l && BeforeComment(l + ("//" + c)) == l
  {
    BeforeCommentIs(l, c);
    forall i | 0 <= i < |l| - 1
      ensures !(l[i] == '/' && l[i + 1] == '/')
    {
      assert (l + "/")[i] == l[i] && (l + "/")[i + 1] == l[i + 1];
    }
    NoCommentIsKept(l);
  }

  /** What is left of a text of two lots of lines with a line between them. */
  lemma WithoutCommentsOf(source: string, x: seq<string>, l: string, y: seq<string>)
    requires SplitLines(source) == x + [l] + y
    ensures WithoutComments(source) == Join('\n', Uncommented(x) + [BeforeComment(l)] + Uncommented(y))
  {
    UncommentedConcat(x + [l], y);
    UncommentedConcat(x, [l]);
    assert Uncommented([l]) == [BeforeComment(l)];
  }

  lemma WithoutCommentsOfNone(source: string, x: seq<string>, y: seq<string>)
    requires SplitLines(source) == x + y
    ensures WithoutComments(source) == Join('\n', Uncommented(x) + Uncommented(y))
  {
    UncommentedConcat(x, y);
  }

  /** The lines with the comment. */
  lemma CommentedLines(a: string, l: string, c: string, z: string)
    requires a == [] || IsLineBreak(a[|a| - 1])
    requires (forall i | 0 <= i < |l| :: !IsLineBreak(l[i])) && forall i | 0 <= i < |c| :: !IsLineBreak(c[i])
    requires z == [] || IsLineBreak(z[0])
    ensures SplitLines(a + ((l + ("//" + c)) + z)) == SplitLines(a) + [l + ("//" + c)] + SplitLines(AfterBreak(z))
  {
    var line := l + ("//" + c);
    assert forall i | 0 <= i < |line| :: !IsLineBreak(line[i]) by {
      forall i | 0 <= i < |line|
        ensures !IsLineBreak(line[i])
      {
        assert i < |l| ==> line[i] == l[i];
        assert i >= |l| + 2 ==> line[i] == c[i - |l| - 2];
      }
    }
    assert (line + z)[0] == line[0];
    LinesConcat(a, line + z);
    LineThen(line, z);
    ConcatAssociates(SplitLines(a), [line], SplitLines(AfterBreak(z)));
  }

  /** The lines without it, unless the line has nothing else on it and its end joins another. */
  lemma PlainLines(a: string, l: string, z: string)
    requires EndsLine(a, l + z)
    requires (forall i | 0 <= i < |l| :: !IsLineBreak(l[i])) && (z == [] || IsLineBreak(z[0]))
    ensures SplitLines(a + (l + z)) ==
            SplitLines(a) + (if l + z == [] then [] else [l] + SplitLines(AfterBreak(z)))
  {
    LinesConcat(a, l + z);
    LineThen(l, z);
  }

  /** A carriage return before a line feed ends the same lines as one alone. */
  lemma ReturnAndFeed(a: string, rest: string)
    requires a != [] && a[|a| - 1] == '\r'
    ensures SplitLines(a + ("\n" + rest)) == SplitLines(a) + SplitLines(rest)
  {
    var b := a + "\n";
    assert a + ("\n" + rest) == b + rest;
    LinesConcat(b, rest);
    ReturnThenFeed(a);
  }

  lemma BreakFeed(z: string)
    requires z != [] && z[|z| - 1] == '\r'
    ensures |z| == 1 ==> AfterBreak(z) == [] == AfterBreak(z + "\n")
    ensures |z| > 1 ==> AfterBreak(z + "\n") == AfterBreak(z) + "\n"
    ensures |z| > 1 ==> AfterBreak(z) != [] && AfterBreak(z)[|AfterBreak(z)| - 1] == '\r'
  {
    assert |z| > 1 ==> (z + "\n")[1] == z[1];
  }

  lemma FirstLineFeed(l: string, z: string)
    requires (forall i | 0 <= i < |l| :: !IsLineBreak(l[i])) && z != [] && IsLineBreak(z[0])
    requires z[|z| - 1] == '\r' && (|z| > 1 ==> SplitLines(AfterBreak(z) + "\n") == SplitLines(AfterBreak(z)))
    ensures SplitLines((l + z) + "\n") == SplitLines(l + z)
  {
    BreakFeed(z);
    LineThen(l, z);
    LineThen(l, z + "\n");
    ConcatAssociates(l, z, "\n");
  }

  lemma {:induction false} ReturnThenFeed(a: string)
    requires a != [] && a[|a| - 1] == '\r'
    ensures SplitLines(a + "\n") == SplitLines(a)
    decreases |a|
  {
    var l, z := FirstLine(a, []);
    assert z[|z| - 1] == '\r';
    BreakFeed(z);
    if |z| > 1 {
      ReturnThenFeed(AfterBreak(z));
    }
    FirstLineFeed(l, z);
  }

  /** What is left when the line has nothing else on it and its end becomes that of the line before. */
  lemma OnlyACommentAfterReturn(a: string, rest: string)
    requires a != [] && a[|a| - 1] == '\r'
    ensures Kept(SplitSemicolons(WithoutComments(a + ("\n" + rest)))) ==
            Kept(SplitSemicolons(Join('\n', Uncommented(SplitLines(a)) + [[]] + Uncommented(SplitLines(rest)))))
  {
    ReturnAndFeed(a, rest);
    WithoutCommentsOfNone(a + ("\n" + rest), SplitLines(a), SplitLines(rest));
    EmptyLineIsIgnored(Uncommented(SplitLines(a)), Uncommented(SplitLines(rest)));
  }

  /** What is left when it was the last line. */
  lemma OnlyACommentAtTheEnd(a: string)
    requires EndsLine(a, [])
    ensures Kept(SplitSemicolons(WithoutComments(a + []))) ==
            Kept(SplitSemicolons(Join('\n', Uncommented(SplitLines(a)) + [[]] + [])))
  {
    var lines := Uncommented(SplitLines(a));
    assert a + [] == a && lines + [] == lines;
    EmptyLineIsIgnored(lines, []);
  }

  /** What is left of a line otherwise. */
  lemma PlainLineIs(a: string, l: string, z: string)
    requires EndsLine(a, l + z) && l + z != []
    requires (forall i | 0 <= i < |l| :: !IsLineBreak(l[i])) && (z == [] || IsLineBreak(z[0]))
    ensures WithoutComments(a + (l + z)) ==
            Join('\n', Uncommented(SplitLines(a)) + [BeforeComment(l)] + Uncommented(SplitLines(AfterBreak(z))))
  {
    PlainLines(a, l, z);
    ConcatAssociates(SplitLines(a), [l], SplitLines(AfterBreak(z)));
    WithoutCommentsOf(a + (l + z), SplitLines(a), l, SplitLines(AfterBreak(z)));
  }

  lemma CommentedLineIs(a: string, l: string, c: string, z: string)
    requires a == [] || IsLineBreak(a[|a| - 1])
    requires (forall i | 0 <= i < |l| :: !IsLineBreak(l[i])) && forall i | 0 <= i < |c| :: !IsLineBreak(c[i])
    requires z == [] || IsLineBreak(z[0])
    requires NoComment(l + "/")
    ensures BeforeComment(l) == l
    ensures WithoutComments(a + ((l + ("//" + c)) + z)) ==
            Join('\n', Uncommented(SplitLines(a)) + [l] + Uncommented(SplitLines(AfterBreak(z))))
  {
    LineWithComment(l, c);
    CommentedLines(a, l, c, z);
    WithoutCommentsOf(a + ((l + ("//" + c)) + z), SplitLines(a), l + ("//" + c), SplitLines(AfterBreak(z)));
  }

  /**
   A comment changes nothing: for every text and every place at the end of a line, the declarations of the
   source with a comment there are those of the source without it.
   */
  lemma CommentIsIgnored(a: string, l: string, c: string, z: string)
    requires a == [] || IsLineBreak(a[|a| - 1])
    requires (forall i | 0 <= i < |l| :: !IsLineBreak(l[i])) && forall i | 0 <= i < |c| :: !IsLineBreak(c[i])
    requires z == [] || IsLineBreak(z[0])
    requires NoComment(l + "/")
    ensures Declarations(a + ((l + ("//" + c)) + z)) == Declarations(a + (l + z))
  {
    CommentedLineIs(a, l, c, z);
    if l == [] && z == [] {
      OnlyACommentAtTheEnd(a);
      assert l + z == [];
    } else if l == [] && z[0] == '\n' && a != [] && a[|a| - 1] == '\r' {
      assert l + z == "\n" + AfterBreak(z);
      OnlyACommentAfterReturn(a, AfterBreak(z));
    } else {
      PlainLineIs(a, l, z);
    }
  }

  // ---------------------------------------------------------------- heads and errors

  ghost predicate AllNames(s: string) {
    forall i | 0 <= i < |s| :: IsName(s[i])
  }

  /** A head is a name, a number sign, digits, and then nothing or whitespace. */
  ghost predicate IsHead(left: string, name: string, digits: string, tail: string) {
    && left == name + ("#" + (digits + tail))
    && name != [] && AllNames(name) && digits != [] && AllHex(digits)
    && (tail == [] || IsSpace(tail[0]))
  }

  /** The match a head gives. */
  ghost predicate Matches(left: string, m: Match, tail: string) {
    IsHead(left, m.name, m.digits, tail) && m.end == if tail == [] then |left| else |m.name| + |m.digits| + 2
  }

  lemma MatchedHead(left: string) returns (tail: string)
    requires NameMatch(left).Some?
    ensures Matches(left, NameMatch(left).value, tail)
  {
    var n := Until(left, NotName);
    var rest := left[n + 1..];
    var k := Until(rest, NotHex);
    tail := rest[k..];
    HeadInParts(left, n, k);
  }

  lemma HeadInParts(left: string, n: nat, k: nat)
    requires n < |left| && left[n] == '#' && k <= |left| - n - 1
    ensures var rest := left[n + 1..]; left == left[..n] + ("#" + (rest[..k] + rest[k..]))
  {
    CutAt(left, n);
    CutIn(left[n + 1..], k);
  }

  lemma CutAt(s: string, n: nat)
    requires n < |s|
    ensures s == s[..n] + ([s[n]] + s[n + 1..])
  {
  }

  lemma CutIn(s: string, k: nat)
    requires k <= |s|
    ensures s == s[..k] + s[k..] && (k < |s| ==> s[k..][0] == s[k])
  {
  }

  lemma HeadMatches(left: string, m: Match, tail: string)
    requires Matches(left, m, tail)
    ensures NameMatch(left) == Some(m)
  {
    NameMatchOfHead(m.name, m.digits, tail);
  }

  /** What the regular expression matches, both ways: any head, and nothing else. */
  lemma NameMatchIff(left: string, m: Match)
    ensures NameMatch(left) == Some(m) <==> exists tail :: Matches(left, m, tail)
  {
    if exists tail :: Matches(left, m, tail) {
      var tail :| Matches(left, m, tail);
      HeadMatches(left, m, tail);
    } else if NameMatch(left) == Some(m) {
      var tail := MatchedHead(left);
    }
  }

  /** A declaration is refused exactly when what stands before its first equals sign has no head. */
  lemma RefusedIff(before: string, after: string)
    requires '=' !in before
    ensures var d := before + ("=" + after);
            && '=' in d
            && (ParseOne(d) == Err(MissingConstructorId(d)) <==>
                forall name, digits, tail :: !IsHead(Strip(before), name, digits, tail))
            && (ParseOne(d).Ok? || ParseOne(d) == Err(MissingConstructorId(d)))
  {
    ParseOneOf(before, after);
    var left := Strip(before);
    if NameMatch(left).Some? {
      var tail := MatchedHead(left);
      assert IsHead(left, NameMatch(left).value.name, NameMatch(left).value.digits, tail);
    }
    forall name, digits, tail | IsHead(left, name, digits, tail)
      ensures NameMatch(left).Some?
    {
      NameMatchOfHead(name, digits, tail);
    }
  }

  /** The first declaration that is refused. */
  ghost predicate FirstRefused(ds: seq<string>, i: nat, e: Error)
    requires forall d | d in ds :: '=' in d
  {
    && i < |ds| && ParseOne(ds[i]) == Err(e)
    && forall j | 0 <= j < i :: ParseOne(ds[j]).Ok?
  }

  lemma FirstRefusedCons(ds: seq<string>, i: nat, e: Error)
    requires ds != [] && forall d | d in ds :: '=' in d
    ensures FirstRefused(ds, 0, e) <==> ParseOne(ds[0]) == Err(e)
    ensures FirstRefused(ds, i + 1, e) <==> ParseOne(ds[0]).Ok? && FirstRefused(ds[1..], i, e)
  {
    var rest := ds[1..];
    assert i < |rest| ==> rest[i] == ds[i + 1];
    if ParseOne(ds[0]).Ok? && FirstRefused(rest, i, e) {
      forall j | 0 <= j < i + 1
        ensures ParseOne(ds[j]).Ok?
      {
        assert j > 0 ==> ds[j] == rest[j - 1];
      }
    }
    if FirstRefused(ds, i + 1, e) {
      assert forall j | 0 <= j < i :: rest[j] == ds[j + 1];
    }
  }

  lemma {:induction false} ParseAllFails(ds: seq<string>, e: Error)
    requires forall d | d in ds :: '=' in d
    ensures ParseAll(ds) == Err(e) <==> exists i: nat :: FirstRefused(ds, i, e)
  {
    if ds != [] {
      ParseAllFails(ds[1..], e);
      FirstRefusedCons(ds, 0, e);
      if exists i: nat :: FirstRefused(ds[1..], i, e) {
        var i: nat :| FirstRefused(ds[1..], i, e);
        FirstRefusedCons(ds, i, e);
      }
      if exists i: nat :: FirstRefused(ds, i, e) {
        var i: nat :| FirstRefused(ds, i, e);
        if i > 0 {
          FirstRefusedCons(ds, i - 1, e);
        }
      }
    }
  }

  /** A source fails exactly with the error of its first declaration refused, or for having none at all. */
  lemma ParseFailsIff(source: string, e: Error)
    ensures Parsed(source) == Err(e) <==>
            if Declarations(source) == [] then e == NoDeclarations
            else exists i: nat :: FirstRefused(Declarations(source), i, e)
  {
    ParseAllFails(Declarations(source), e);
  }
}
