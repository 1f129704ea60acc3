/**
 The schema parser of `tools/generate_raw_schema.py`: the declarations of a TL schema, and the text the
 manifest keeps of each. Python's `str.splitlines`, `str.split` and `str.strip` are written out.
 */
module SchemaParser {
  import opened Wrappers
  import opened Strings

  // ---------------------------------------------------------------- characters

  /** Where `str.splitlines` ends a line. */
  predicate IsLineBreak(c: char) {
    || '\U{000A}' <= c <= '\U{000D}' || '\U{001C}' <= c <= '\U{001E}'
    || c == '\U{0085}' || c == '\U{2028}' || c == '\U{2029}'
  }

  /** `str.isspace`, which is also what `\s` matches. */
  predicate IsSpace(c: char) {
    || '\U{0009}' <= c <= '\U{000D}' || '\U{001C}' <= c <= '\U{0020}'
    || c == '\U{0085}' || c == '\U{00A0}' || c == '\U{1680}' || '\U{2000}' <= c <= '\U{200A}'
    || c == '\U{2028}' || c == '\U{2029}' || c == '\U{202F}' || c == '\U{205F}' || c == '\U{3000}'
  }

  predicate IsName(c: char) {
    'A' <= c <= 'Z' || 'a' <= c <= 'z' || '0' <= c <= '9' || c == '_' || c == '.'
  }

  predicate IsHex(c: char) {
    '0' <= c <= '9' || 'a' <= c <= 'f'
  }

  predicate NotName(c: char) { !IsName(c) }
  predicate NotHex(c: char) { !IsHex(c) }
  predicate IsSemicolon(c: char) { c == ';' }
  predicate IsEquals(c: char) { c == '=' }

  // ---------------------------------------------------------------- strings

  function SplitLines(s: string): (lines: seq<string>)
    decreases |s|
  {
    if s == [] then []
    else
      var n := Until(s, IsLineBreak);
      if n == |s| then [s]
      else
        var width := if s[n] == '\r' && n + 1 < |s| && s[n + 1] == '\n' then 2 else 1;
        [s[..n]] + SplitLines(s[n + width..])
  }

  function SplitSemicolons(s: string): (parts: seq<string>)
    ensures |parts| > 0
    decreases |s|
  {
    var n := Until(s, IsSemicolon);
    if n == |s| then [s] else [s[..n]] + SplitSemicolons(s[n + 1..])
  }

  /** The maximal runs of characters that are not whitespace. */
  function Words(s: string): (words: seq<string>)
    decreases |s|
  {
    if s == [] then []
    else if IsSpace(s[0]) then Words(s[1..])
    else
      var n := Until(s, IsSpace);
      [s[..n]] + Words(s[n..])
  }

  function Join(separator: char, parts: seq<string>): (s: string) {
    if |parts| == 0 then []
    else if |parts| == 1 then parts[0]
    else parts[0] + [separator] + Join(separator, parts[1..])
  }

  function Strip(s: string): (t: string)
    ensures Tight(t)
  {
    if s != [] && IsSpace(s[0]) then Strip(s[1..])
    else if s != [] && IsSpace(s[|s| - 1]) then Strip(s[..|s| - 1])
    else s
  }

  /** `line.split("//", 1)[0]` */
  function BeforeComment(line: string): (t: string) {
    if |line| < 2 then line
    else if line[0] == line[1] == '/' then []
    else [line[0]] + BeforeComment(line[1..])
  }

  function Uncommented(lines: seq<string>): (r: seq<string>)
    ensures |r| == |lines|
  {
    if lines == [] then [] else [BeforeComment(lines[0])] + Uncommented(lines[1..])
  }

  function WithoutComments(source: string): (s: string) {
    Join('\n', Uncommented(SplitLines(source)))
  }

  function Normalise(s: string): (t: string) {
    Join(' ', Words(s))
  }

  // ---------------------------------------------------------------- records

  datatype Record = Record(name: string, constructorId: int, parameters: string, result: string, declaration: string)

  datatype Error = MissingConstructorId(declaration: string) | NoDeclarations

  function HexDigit(c: char): (v: nat)
    requires IsHex(c)
    ensures v < 16
  {
    if '0' <= c <= '9' then c as int - '0' as int else c as int - 'a' as int + 10
  }

  ghost predicate AllHex(s: string) {
    forall i | 0 <= i < |s| :: IsHex(s[i])
  }

  /** `int(digits, 16)` */
  function HexValue(digits: string): (v: nat)
    requires AllHex(digits)
  {
    if digits == [] then 0 else 16 * HexValue(digits[..|digits| - 1]) + HexDigit(digits[|digits| - 1])
  }

  function SignedId(v: nat): (id: int) {
    if v >= 0x8000_0000 then v - 0x1_0000_0000 else v
  }

  /** What the regular expression matched: the two groups and where the match ends. */
  datatype Match = Match(name: string, digits: string, end: nat)

  /** `^([A-Za-z0-9_.]+)#([0-9a-f]+)(?:\s|$)`, matched at the start of `left`. */
  function NameMatch(left: string): (r: Option<Match>)
    ensures r.Some? ==> AllHex(r.value.digits) && r.value.end <= |left|
  {
    var n := Until(left, NotName);
    if n == 0 || n == |left| || left[n] != '#' then None
    else
      var rest := left[n + 1..];
      var m := Until(rest, NotHex);
      if m == 0 || (m < |rest| && !IsSpace(rest[m])) then None
      else Some(Match(left[..n], rest[..m], if m == |rest| then |left| else n + m + 2))
  }

  /** One declaration, already normalised. */
  function ParseOne(d: string): (r: Result<Record, Error>)
    requires '=' in d
  {
    var eq := Until(d, IsEquals);
    OfParts(d, Strip(d[..eq]), Strip(d[eq + 1..]))
  }

  /** The record of what stands left and right of the equals sign. */
  function OfParts(d: string, left: string, result: string): (r: Result<Record, Error>) {
    match NameMatch(left)
    case None => Err(MissingConstructorId(d))
    case Some(m) => Ok(Record(m.name, SignedId(HexValue(m.digits)), Strip(left[m.end..]), result, d + ";"))
  }

  /** The normalised candidates that are declarations at all. */
  function Kept(candidates: seq<string>): (ds: seq<string>)
    ensures forall d | d in ds :: '=' in d
  {
    if candidates == [] then []
    else
      var d := Normalise(candidates[0]);
      (if d == [] || '=' !in d then [] else [d]) + Kept(candidates[1..])
  }

  function Declarations(source: string): (ds: seq<string>)
    ensures forall d | d in ds :: '=' in d
  {
    Kept(SplitSemicolons(WithoutComments(source)))
  }

  function ParseAll(ds: seq<string>): (r: Result<seq<Record>, Error>)
    requires forall d | d in ds :: '=' in d
    ensures r.Ok? ==> |r.value| == |ds|
  {
    if ds == [] then Ok([])
    else
      var first :- ParseOne(ds[0]);
      var rest :- ParseAll(ds[1..]);
      Ok([first] + rest)
  }

  function Parsed(source: string): (r: Result<seq<Record>, Error>) {
    var records :- ParseAll(Declarations(source));
    if records == [] then Err(NoDeclarations) else Ok(records)
  }

  /** `parse_declarations`: its loop, */
  method ParseDeclarations(source: string) returns (r: Result<seq<Record>, Error>)
    ensures r == Parsed(source)
  {
    var declarations: seq<Record> := [];
    var pending := SplitSemicolons(WithoutComments(source));
    RemainingStarts(source);
    while pending != []
      invariant Parsed(source) == Finished(Remaining(declarations, pending))
    {
      var declaration := Normalise(pending[0]);
      RemainingStep(declarations, pending);
      pending := pending[1..];
      if declaration == [] || '=' !in declaration {
        continue;
      }
      var record :- ParseDeclaration(declaration);
      declarations := declarations + [record];
    }
    RemainingEnds(declarations);
    if declarations == [] {
      return Err(NoDeclarations);
    }
    return Ok(declarations);
  }

  /** and one turn of it. */
  method ParseDeclaration(declaration: string) returns (r: Result<Record, Error>)
    requires '=' in declaration
    ensures r == ParseOne(declaration)
  {
    var eq := Until(declaration, IsEquals);
    var left, result := Strip(declaration[..eq]), Strip(declaration[eq + 1..]);
    var nameMatch := NameMatch(left);
    if nameMatch.None? {
      return Err(MissingConstructorId(declaration));
    }
    var constructorId: int := HexValue(nameMatch.value.digits);
    if constructorId >= 0x8000_0000 {
      constructorId := constructorId - 0x1_0000_0000;
    }
    var parameters := Strip(left[nameMatch.value.end..]);
    return Ok(Record(nameMatch.value.name, constructorId, parameters, result, declaration + ";"));
  }

  /** What parsing ends in, with some records made and some candidates to go. */
  function Remaining(done: seq<Record>, pending: seq<string>): (r: Result<seq<Record>, Error>) {
    var rest :- ParseAll(Kept(pending));
    Ok(done + rest)
  }

  function Finished(r: Result<seq<Record>, Error>): (f: Result<seq<Record>, Error>) {
    if r.Ok? && r.value == [] then Err(NoDeclarations) else r
  }

  lemma RemainingStarts(source: string)
    ensures Parsed(source) == Finished(Remaining([], SplitSemicolons(WithoutComments(source))))
  {
    var all := ParseAll(Kept(SplitSemicolons(WithoutComments(source))));
    assert all.Ok? ==> [] + all.value == all.value;
  }

  lemma RemainingEnds(done: seq<Record>)
    ensures Remaining(done, []) == Ok(done)
  {
    assert ParseAll(Kept([])) == Ok([]);
    assert done + [] == done;
  }

  lemma RemainingStep(done: seq<Record>, pending: seq<string>)
    requires pending != []
    ensures var d := Normalise(pending[0]);
            Remaining(done, pending) ==
            if d == [] || '=' !in d then Remaining(done, pending[1..])
            else if ParseOne(d).Err? then Err(ParseOne(d).error)
            else Remaining(done + [ParseOne(d).value], pending[1..])
  {
    var d, later := Normalise(pending[0]), Kept(pending[1..]);
    if d == [] || '=' !in d {
      assert Kept(pending) == later;
    } else {
      assert Kept(pending) == [d] + later && (Kept(pending))[1..] == later;
      if ParseOne(d).Ok? && ParseAll(later).Ok? {
        ConcatAssociates(done, [ParseOne(d).value], ParseAll(later).value);
      }
    }
  }

  // ---------------------------------------------------------------- what survives the parser

  /** Whitespace is single spaces, */
  ghost predicate SingleSpaced(s: string) {
    && (forall i | 0 <= i < |s| :: IsSpace(s[i]) ==> s[i] == ' ')
    && (forall i | 0 <= i < |s| - 1 :: IsSpace(s[i]) ==> !IsSpace(s[i + 1]))
  }

  /** and none of it at either end. */
  predicate Tight(s: string) {
    s != [] ==> !IsSpace(s[0]) && !IsSpace(s[|s| - 1])
  }

  ghost predicate NoComment(s: string) {
    forall i | 0 <= i < |s| - 1 :: !(s[i] == '/' && s[i + 1] == '/')
  }

  /** A text the comment stripping, the splitting and the normalising all leave alone. */
  ghost predicate Clean(s: string) {
    SingleSpaced(s) && Tight(s) && NoComment(s) && ';' !in s
  }

  lemma {:induction false} BeforeCommentHasNone(line: string)
    ensures NoComment(BeforeComment(line)) && BeforeComment(line) <= line
  {
    if |line| >= 2 && !(line[0] == line[1] == '/') {
      BeforeCommentHasNone(line[1..]);
      var t := BeforeComment(line[1..]);
      assert t != [] ==> t[0] == line[1];
      assert NoComment([line[0]] + t);
    }
  }

  lemma {:induction false} NoCommentIsKept(line: string)
    requires NoComment(line)
    ensures BeforeComment(line) == line
  {
    if |line| >= 2 {
      assert NoComment(line[1..]);
      NoCommentIsKept(line[1..]);
    }
  }

  lemma {:induction false} JoinNoComment(separator: char, parts: seq<string>)
    requires separator != '/' && forall p | p in parts :: NoComment(p)
    ensures NoComment(Join(separator, parts))
  {
    if |parts| > 1 {
      JoinNoComment(separator, parts[1..]);
      NoCommentAround(parts[0], separator, Join(separator, parts[1..]));
    }
  }

  lemma NoCommentAround(a: string, c: char, b: string)
    requires c != '/' && NoComment(a) && NoComment(b)
    ensures NoComment(a + [c] + b)
  {
    var s := a + [c] + b;
    forall i | 0 <= i < |s| - 1
      ensures !(s[i] == '/' && s[i + 1] == '/')
    {
      if i + 1 < |a| {
        assert s[i] == a[i] && s[i + 1] == a[i + 1];
      } else if i > |a| {
        assert s[i] == b[i - |a| - 1] && s[i + 1] == b[i - |a|];
      }
    }
  }

  lemma {:induction false} UncommentedHasNone(lines: seq<string>)
    ensures forall p | p in Uncommented(lines) :: NoComment(p)
  {
    if lines != [] {
      BeforeCommentHasNone(lines[0]);
      UncommentedHasNone(lines[1..]);
    }
  }

  lemma {:induction false} PartsAreClean(s: string)
    requires NoComment(s)
    ensures forall p | p in SplitSemicolons(s) :: NoComment(p) && ';' !in p
    decreases |s|
  {
    var n := Until(s, IsSemicolon);
    if n < |s| {
      PartsAreClean(s[n + 1..]);
    }
  }

  lemma {:induction false} WordsAreRuns(s: string)
    ensures forall w | w in Words(s) :: w != [] && forall i | 0 <= i < |w| :: !IsSpace(w[i])
    decreases |s|
  {
    if s != [] {
      WordsAreRuns(if IsSpace(s[0]) then s[1..] else s[Until(s, IsSpace)..]);
    }
  }

  /** What the text has none of, the words have none of. */
  lemma {:induction false} WordsAreParts(s: string)
    requires NoComment(s) && ';' !in s
    ensures forall w | w in Words(s) :: ';' !in w && NoComment(w)
    decreases |s|
  {
    if s != [] {
      WordsAreParts(if IsSpace(s[0]) then s[1..] else s[Until(s, IsSpace)..]);
    }
  }

  lemma Glue(a: string, b: string)
    requires a != [] && b != [] && Clean(a) && Clean(b)
    ensures Clean(a + [' '] + b)
  {
    NoCommentAround(a, ' ', b);
    var s := a + [' '] + b;
    assert s[0] == a[0] && s[|s| - 1] == b[|b| - 1];
    forall i | 0 <= i < |s| - 1
      ensures IsSpace(s[i]) ==> !IsSpace(s[i + 1])
    {
      if i < |a| {
        assert s[i] == a[i] && (i + 1 < |a| ==> s[i + 1] == a[i + 1]);
      } else {
        assert s[i + 1] == b[i - |a|] && (i > |a| ==> s[i] == b[i - |a| - 1]);
      }
    }
  }

  lemma {:induction false} JoinIsClean(words: seq<string>)
    requires forall w | w in words :: w != []
    requires forall w | w in words :: Clean(w)
    ensures Clean(Join(' ', words)) && (words != [] ==> Join(' ', words) != [])
  {
    if |words| > 1 {
      forall w | w in words[1..]
        ensures w != [] && Clean(w)
      {
        assert w in words;
      }
      JoinIsClean(words[1..]);
      assert words[0] in words;
      Glue(words[0], Join(' ', words[1..]));
    } else if |words| == 1 {
      assert words[0] in words;
    }
  }

  lemma NormaliseIsClean(s: string)
    requires NoComment(s) && ';' !in s
    ensures Clean(Normalise(s))
  {
    WordsAreRuns(s);
    WordsAreParts(s);
    forall w | w in Words(s)
      ensures w != [] && Clean(w)
    {
    }
    JoinIsClean(Words(s));
  }

  lemma {:induction false} CleanIsNormal(s: string)
    requires Clean(s)
    ensures Normalise(s) == s
    decreases |s|
  {
    var n := Until(s, IsSpace);
    FirstWord(s);
    if n < |s| {
      CleanAfterWord(s, n);
      CleanIsNormal(s[n + 1..]);
      assert Words(s[n + 1..]) != [];
    }
  }

  lemma CleanAfterWord(s: string, n: nat)
    requires Clean(s) && n < |s| && IsSpace(s[n])
    ensures n + 1 < |s| && Clean(s[n + 1..]) && s == s[..n] + [' '] + s[n + 1..]
  {
    assert n + 1 < |s|;
    CleanSuffix(s, n + 1);
  }

  /** Taking the first word off a text that starts with one. */
  lemma FirstWord(s: string)
    requires s != [] ==> !IsSpace(s[0])
    ensures var n := Until(s, IsSpace);
            Normalise(s) == if n + 1 >= |s| || Words(s[n + 1..]) == [] then s[..n]
                            else s[..n] + [' '] + Normalise(s[n + 1..])
  {
    if s != [] {
      var n := Until(s, IsSpace);
      WordsAfterSpace(s, n);
      var rest := Words(s[n..]);
      assert Words(s) == [s[..n]] + rest;
      assert ([s[..n]] + rest)[1..] == rest;
    }
  }

  lemma WordsAfterSpace(s: string, n: nat)
    requires n <= |s| && (n < |s| ==> IsSpace(s[n]))
    ensures Words(s[n..]) == if n < |s| then Words(s[n + 1..]) else []
  {
    if n < |s| {
      assert s[n..][1..] == s[n + 1..];
    }
  }

  lemma CleanSuffix(s: string, k: nat)
    requires Clean(s) && k < |s| && !IsSpace(s[k])
    ensures Clean(s[k..])
  {
    assert s[|s| - 1] == s[k..][|s| - k - 1];
  }

  lemma {:induction false} KeptAreClean(candidates: seq<string>)
    requires forall p | p in candidates :: NoComment(p) && ';' !in p
    ensures forall d | d in Kept(candidates) :: Clean(d)
  {
    if candidates != [] {
      NormaliseIsClean(candidates[0]);
      KeptAreClean(candidates[1..]);
    }
  }

  /** No declaration kept has a comment, a semicolon, a line break or more than single spaces in it. */
  lemma DeclarationsAreClean(source: string)
    ensures forall d | d in Declarations(source) :: Clean(d)
  {
    UncommentedHasNone(SplitLines(source));
    JoinNoComment('\n', Uncommented(SplitLines(source)));
    PartsAreClean(WithoutComments(source));
    KeptAreClean(SplitSemicolons(WithoutComments(source)));
  }

  // ---------------------------------------------------------------- parsing the emitted text

  function Terminated(ds: seq<string>): (r: seq<string>)
    ensures |r| == |ds|
  {
    if ds == [] then [] else [ds[0] + ";"] + Terminated(ds[1..])
  }

  /** The declarations one a line, as the records keep them. */
  function Text(ds: seq<string>): (s: string) {
    Join('\n', Terminated(ds))
  }

  lemma TextCons(ds: seq<string>)
    requires |ds| > 1
    ensures Text(ds) == ds[0] + ";" + "\n" + Text(ds[1..])
  {
    assert Terminated(ds)[1..] == Terminated(ds[1..]);
  }

  lemma {:induction false} TextLines(ds: seq<string>)
    requires forall d | d in ds :: Clean(d)
    ensures SplitLines(Text(ds)) == Terminated(ds)
  {
    if ds != [] {
      assert Clean(ds[0]);
      var line := ds[0] + ";";
      var s := Text(ds);
      assert forall i | 0 <= i < |line| :: !IsLineBreak(line[i]);
      if |ds| == 1 {
        assert s == line;
      } else {
        TextCons(ds);
        assert s == line + "\n" + Text(ds[1..]);
        assert s[|line|] == '\n' && forall i | 0 <= i < |line| :: s[i] == line[i];
        assert Until(s, IsLineBreak) == |line|;
        assert s[..|line|] == line && s[|line| + 1..] == Text(ds[1..]);
        TextLines(ds[1..]);
      }
    }
  }

  lemma {:induction false} TextHasNoComments(ds: seq<string>)
    requires forall d | d in ds :: Clean(d)
    ensures Uncommented(Terminated(ds)) == Terminated(ds)
  {
    if ds != [] {
      assert Clean(ds[0]);
      NoCommentAround(ds[0], ';', []);
      assert ds[0] + ";" + [] == ds[0] + ";";
      NoCommentIsKept(ds[0] + ";");
      TextHasNoComments(ds[1..]);
    }
  }

  /** A semicolon after text that has none ends the first part. */
  lemma FirstPart(d: string, rest: string)
    requires ';' !in d
    ensures SplitSemicolons(d + ";" + rest) == [d] + SplitSemicolons(rest)
  {
    var s := d + ";" + rest;
    assert s[|d|] == ';' && forall i | 0 <= i < |d| :: s[i] == d[i];
    assert Until(s, IsSemicolon) == |d|;
    assert s[..|d|] == d && s[|d| + 1..] == rest;
  }

  /** A line break before a text changes nothing that is kept of it. */
  lemma LeadingBreak(s: string)
    ensures Kept(SplitSemicolons("\n" + s)) == Kept(SplitSemicolons(s))
  {
    var t := "\n" + s;
    var n := Until(s, IsSemicolon);
    assert Until(t, IsSemicolon) == n + 1 by { assert t[1..] == s; }
    var parts, there := SplitSemicolons(s), SplitSemicolons(t);
    assert t[..n + 1] == "\n" + s[..n];
    assert n < |s| ==> t[n + 2..] == s[n + 1..];
    assert there[0] == "\n" + parts[0] && there[1..] == parts[1..];
    assert Words("\n" + parts[0]) == Words(parts[0]) by { assert ("\n" + parts[0])[1..] == parts[0]; }
  }

  lemma {:induction false} TextParts(ds: seq<string>)
    requires forall d | d in ds :: Clean(d) && '=' in d
    ensures Kept(SplitSemicolons(Text(ds))) == ds
  {
    if ds == [] {
      NothingIsKeptOfNothing();
    } else {
      assert ds[0] in ds && ds == [ds[0]] + ds[1..];
      var rest := if |ds| == 1 then [] else "\n" + Text(ds[1..]);
      TextPartsCons(ds, rest);
      if |ds| == 1 {
        NothingIsKeptOfNothing();
      } else {
        LeadingBreak(Text(ds[1..]));
        TextParts(ds[1..]);
      }
    }
  }

  lemma TextPartsCons(ds: seq<string>, rest: string)
    requires ds != [] && Clean(ds[0]) && '=' in ds[0]
    requires rest == if |ds| == 1 then [] else "\n" + Text(ds[1..])
    ensures Kept(SplitSemicolons(Text(ds))) == [ds[0]] + Kept(SplitSemicolons(rest))
  {
    var d := ds[0];
    if |ds| > 1 {
      TextCons(ds);
    }
    assert Text(ds) == d + ";" + rest;
    CleanIsNormal(d);
    FirstPart(d, rest);
    KeptCons(d, SplitSemicolons(rest));
  }

  lemma NothingIsKeptOfNothing()
    ensures Kept(SplitSemicolons([])) == []
  {
    assert SplitSemicolons([]) == [[]];
    assert Normalise([]) == [];
    assert Kept([[]]) == [];
  }

  lemma KeptCons(d: string, candidates: seq<string>)
    requires Normalise(d) == d && '=' in d
    ensures Kept([d] + candidates) == [d] + Kept(candidates)
  {
    assert ([d] + candidates)[1..] == candidates;
  }

  /** Clean declarations written one a line are exactly what is read back. */
  lemma TextReadsBack(ds: seq<string>)
    requires forall d | d in ds :: Clean(d) && '=' in d
    ensures Declarations(Text(ds)) == ds
  {
    TextLines(ds);
    TextHasNoComments(ds);
    TextParts(ds);
  }

  /** The `declaration` strings of the records. */
  function Emitted(records: seq<Record>): (lines: seq<string>) {
    if records == [] then [] else [records[0].declaration] + Emitted(records[1..])
  }

  lemma {:induction false} EmittedIsText(ds: seq<string>)
    requires forall d | d in ds :: '=' in d
    requires ParseAll(ds).Ok?
    ensures Emitted(ParseAll(ds).value) == Terminated(ds)
  {
    if ds != [] {
      EmittedIsText(ds[1..]);
      var record, rest := ParseOne(ds[0]).value, ParseAll(ds[1..]).value;
      assert ([record] + rest)[1..] == rest;
    }
  }

  /** Whatever a source parses to, its emitted declarations parse to the very same records. */
  lemma ReparseGivesTheSameRecords(source: string)
    requires Parsed(source).Ok?
    ensures Parsed(Join('\n', Emitted(Parsed(source).value))) == Parsed(source)
  {
    var ds := Declarations(source);
    DeclarationsAreClean(source);
    EmittedIsText(ds);
    TextReadsBack(ds);
  }

  // ---------------------------------------------------------------- constructor ids

  /** A value's hexadecimal digits, without leading zeros. */
  function Hex(v: nat): (s: string)
    ensures s != [] && AllHex(s)
  {
    var last := if v % 16 < 10 then '0' + (v % 16) as char else 'a' + (v % 16 - 10) as char;
    if v < 16 then [last] else Hex(v / 16) + [last]
  }

  lemma {:induction false} HexReadsBack(v: nat)
    ensures HexValue(Hex(v)) == v
  {
    var s := Hex(v);
    if v < 16 {
      assert s[..|s| - 1] == [];
    } else {
      HexReadsBack(v / 16);
      assert s[..|s| - 1] == Hex(v / 16);
    }
  }

  function WithoutZeros(digits: string): (s: string) {
    if digits != [] && digits[0] == '0' then WithoutZeros(digits[1..]) else digits
  }

  lemma {:induction false} WithoutZerosSnoc(digits: string, c: char)
    ensures WithoutZeros(digits + [c]) ==
            if WithoutZeros(digits) == [] && c == '0' then [] else WithoutZeros(digits) + [c]
  {
    if digits == [] {
      assert digits + [c] == [c];
      assert [c][1..] == [];
    } else if digits[0] == '0' {
      assert (digits + [c])[1..] == digits[1..] + [c];
      WithoutZerosSnoc(digits[1..], c);
    }
  }

  /** The digits of a constructor id are its value's own, but for leading zeros. */
  lemma {:induction false} DigitsOfValue(digits: string)
    requires AllHex(digits)
    ensures WithoutZeros(digits) == if HexValue(digits) == 0 then [] else Hex(HexValue(digits))
  {
    if digits != [] {
      var before, c := digits[..|digits| - 1], digits[|digits| - 1];
      DigitsOfValue(before);
      assert digits == before + [c];
      WithoutZerosSnoc(before, c);
      HexSnoc(HexValue(before), c);
    }
  }

  lemma HexSnoc(v: nat, c: char)
    requires IsHex(c)
    ensures Hex(16 * v + HexDigit(c)) == if v == 0 then [c] else Hex(v) + [c]
  {
    var d := HexDigit(c);
    assert (16 * v + d) / 16 == v && (16 * v + d) % 16 == d;
  }

  lemma {:induction false} HexBound(digits: string, width: nat)
    requires AllHex(digits) && |digits| <= width
    ensures HexValue(digits) < Power16(width)
  {
    if digits != [] {
      HexBound(digits[..|digits| - 1], width - 1);
    } else {
      Power16Positive(width);
    }
  }

  function Power16(n: nat): (p: nat) {
    if n == 0 then 1 else 16 * Power16(n - 1)
  }

  lemma {:induction false} Power16Positive(n: nat)
    ensures Power16(n) > 0
  {
    if n > 0 {
      Power16Positive(n - 1);
    }
  }

  /**
   For ids of at most eight digits the constructor id is the two's-complement reading of the digits in
   32 bits, and two ids are equal only when the digits are, leading zeros aside.
   */
  lemma EightDigitIds(a: string, b: string)
    requires AllHex(a) && AllHex(b) && |a| <= 8 && |b| <= 8
    ensures -0x8000_0000 <= SignedId(HexValue(a)) < 0x8000_0000
    ensures SignedId(HexValue(a)) % 0x1_0000_0000 == HexValue(a)
    ensures SignedId(HexValue(a)) == SignedId(HexValue(b)) <==> WithoutZeros(a) == WithoutZeros(b)
  {
    assert Power16(8) == 0x1_0000_0000;
    HexBound(a, 8);
    HexBound(b, 8);
    SignedIdInRange(HexValue(a), HexValue(b));
    SameValueSameDigits(a, b);
  }

  lemma SignedIdInRange(v: nat, w: nat)
    requires v < 0x1_0000_0000 && w < 0x1_0000_0000
    ensures -0x8000_0000 <= SignedId(v) < 0x8000_0000
    ensures SignedId(v) % 0x1_0000_0000 == v
    ensures SignedId(v) == SignedId(w) <==> v == w
  {
  }

  lemma SameValueSameDigits(a: string, b: string)
    requires AllHex(a) && AllHex(b)
    ensures HexValue(a) == HexValue(b) <==> WithoutZeros(a) == WithoutZeros(b)
  {
    DigitsOfValue(a);
    DigitsOfValue(b);
    HexReadsBack(HexValue(a));
    HexReadsBack(HexValue(b));
  }

  // ---------------------------------------------------------------- ids of any length

  /** Dropping leading zeros keeps the value. */
  lemma SignificantValue(a: string)
    requires AllHex(a)
    ensures AllHex(WithoutZeros(a)) && HexValue(WithoutZeros(a)) == HexValue(a)
    ensures WithoutZeros(a) != [] ==> WithoutZeros(a)[0] != '0'
  {
    ZerosDrop(a);
    ZerosDrop(WithoutZeros(a));
    SameValueSameDigits(a, WithoutZeros(a));
  }

  lemma {:induction false} ZerosDrop(a: string)
    requires AllHex(a)
    ensures var s := WithoutZeros(a); AllHex(s) && (s != [] ==> s[0] != '0') && WithoutZeros(s) == s
  {
    if a != [] && a[0] == '0' {
      ZerosDrop(a[1..]);
    }
  }

  /** The first digit's place. */
  lemma {:induction false} HexCons(c: char, z: string)
    requires IsHex(c) && AllHex(z)
    ensures AllHex([c] + z) && HexValue([c] + z) == HexDigit(c) * Power16(|z|) + HexValue(z)
  {
    var s := [c] + z;
    if z == [] {
      assert s[..0] == [] && s == [c];
    } else {
      var before, last := z[..|z| - 1], z[|z| - 1];
      HexCons(c, before);
      assert s[..|s| - 1] == [c] + before && s[|s| - 1] == last;
      PlaceUp(HexDigit(c), Power16(|before|));
    }
  }

  lemma PlaceUp(d: nat, p: nat)
    ensures 16 * (d * p) == d * (16 * p)
  {
  }

  lemma HexLow(a: string)
    requires AllHex(a) && a != [] && a[0] != '0'
    ensures Power16(|a| - 1) <= HexValue(a)
  {
    HexCons(a[0], a[1..]);
    assert [a[0]] + a[1..] == a;
    assert HexDigit(a[0]) >= 1;
    TimesAtLeast(HexDigit(a[0]), Power16(|a| - 1));
  }

  lemma TimesAtLeast(d: nat, p: nat)
    requires d >= 1
    ensures d * p >= p
  {
  }

  lemma {:induction false} Power16Grows(m: nat, n: nat)
    requires m <= n
    ensures Power16(m) <= Power16(n)
  {
    if m < n {
      Power16Grows(m, n - 1);
    }
  }

  lemma Powers()
    ensures Power16(7) == 0x1000_0000 && Power16(8) == 0x1_0000_0000 && Power16(9) == 0x10_0000_0000
  {
    assert Power16(4) == 0x1_0000;
    assert Power16(7) == 0x1000_0000;
  }

  /** A value is below 16^n exactly when it has at most n significant digits. */
  lemma SignificantDigitsIff(a: string, n: nat)
    requires AllHex(a)
    ensures HexValue(a) < Power16(n) <==> |WithoutZeros(a)| <= n
  {
    SignificantValue(a);
    var s := WithoutZeros(a);
    if |s| <= n {
      HexBound(s, n);
    } else {
      HexLow(s);
      Power16Grows(n, |s| - 1);
    }
  }

  lemma SignedIdsOfAnyLength(v: nat, w: nat)
    ensures SignedId(v) % 0x1_0000_0000 == v <==> v < 0x1_0000_0000
    ensures v < w ==> (SignedId(v) == SignedId(w) <==> v < 0x8000_0000 && w == v + 0x1_0000_0000)
  {
  }

  /** The id is the digits' two's complement exactly when at most eight of them are significant. */
  lemma IdIsTwosComplementIff(a: string)
    requires AllHex(a)
    ensures SignedId(HexValue(a)) % 0x1_0000_0000 == HexValue(a) <==> |WithoutZeros(a)| <= 8
  {
    Powers();
    SignificantDigitsIff(a, 8);
    SignedIdsOfAnyLength(HexValue(a), HexValue(a));
  }

  /** Nine significant digits, a one and then eight from below 80000000 that are the shorter id's own. */
  predicate NinthDigitHides(short: string, long: string) {
    var y := WithoutZeros(long);
    |y| == 9 && y[0] == '1' && y[1] < '8' && WithoutZeros(y[1..]) == WithoutZeros(short)
  }

  /** Eight digits are below 2^31 exactly when the first is below 8. */
  lemma TopBitIff(z: string)
    requires AllHex(z) && |z| == 8
    ensures HexValue(z) < 0x8000_0000 <==> z[0] < '8'
  {
    Powers();
    HexCons(z[0], z[1..]);
    assert [z[0]] + z[1..] == z;
    HexBound(z[1..], 7);
    assert z[0] < '8' <==> HexDigit(z[0]) < 8;
  }

  lemma NinthDigitIff(a: string, b: string)
    requires AllHex(a) && AllHex(b)
    ensures NinthDigitHides(a, b) <==> HexValue(a) < 0x8000_0000 && HexValue(b) == HexValue(a) + 0x1_0000_0000
  {
    Powers();
    SignificantValue(b);
    SignificantDigitsIff(b, 8);
    SignificantDigitsIff(b, 9);
    var y := WithoutZeros(b);
    if |y| == 9 {
      HexCons(y[0], y[1..]);
      assert [y[0]] + y[1..] == y;
      HexBound(y[1..], 8);
      TopBitIff(y[1..]);
      SameValueSameDigits(y[1..], a);
      assert HexDigit(y[0]) == 1 <==> y[0] == '1';
    }
  }

  /**
   Of two ids, whatever their lengths: they are equal exactly when their significant digits are, or one
   has nine of them, the ninth a one that the sign adjustment takes off the other's.
   */
  lemma IdsCollideIff(a: string, b: string)
    requires AllHex(a) && AllHex(b)
    ensures SignedId(HexValue(a)) == SignedId(HexValue(b)) <==>
            WithoutZeros(a) == WithoutZeros(b) || NinthDigitHides(a, b) || NinthDigitHides(b, a)
  {
    SameValueSameDigits(a, b);
    NinthDigitIff(a, b);
    NinthDigitIff(b, a);
    SignedIdsOfAnyLength(HexValue(a), HexValue(b));
    SignedIdsOfAnyLength(HexValue(b), HexValue(a));
  }

  /** A ninth digit is not refused, and breaks this: `1` and `100000001` are one id. */
  lemma NineDigitsCollide()
    ensures AllHex("1") && AllHex("100000001")
    ensures SignedId(HexValue("1")) == SignedId(HexValue("100000001"))
  {
    assert Hex(1) == "1";
    HexReadsBack(1);
    assert Hex(0x1_0000_0001) == "100000001" by {
      assert Hex(0x1) == "1" && Hex(0x10) == "10" && Hex(0x100) == "100" && Hex(0x1000) == "1000";
      assert Hex(0x1_0000) == "10000" && Hex(0x10_0000) == "100000" && Hex(0x100_0000) == "1000000";
      assert Hex(0x1000_0000) == "10000000";
    }
    HexReadsBack(0x1_0000_0001);
  }

  // ---------------------------------------------------------------- canonical text

  /** Two texts a space apart, or the first alone. */
  function Spaced(a: string, b: string): (s: string) {
    if b == [] then a else a + [' '] + b
  }

  /** The head of a declaration: name, id and parameters. */
  function Left(r: Record): (s: string) {
    Spaced(r.name + "#" + Hex(r.constructorId % 0x1_0000_0000), r.parameters)
  }

  /** A declaration written from the four fields. */
  function Written(r: Record): (s: string) {
    Spaced(Left(r) + " =", r.result)
  }

  ghost predicate Writable(r: Record) {
    && r.name != [] && (forall i | 0 <= i < |r.name| :: IsName(r.name[i]))
    && -0x8000_0000 <= r.constructorId < 0x8000_0000
    && Clean(r.parameters) && '=' !in r.parameters
    && Clean(r.result)
  }

  lemma SpacedIsClean(a: string, b: string)
    requires a != [] && Clean(a) && Clean(b)
    ensures Clean(Spaced(a, b))
  {
    if b != [] {
      Glue(a, b);
    }
  }

  lemma HeadIsClean(name: string, digits: string)
    requires name != [] && (forall i | 0 <= i < |name| :: IsName(name[i])) && AllHex(digits) && digits != []
    ensures Clean(name + "#" + digits) && '=' !in name + "#" + digits
  {
    var s := name + "#" + digits;
    forall i | 0 <= i < |s|
      ensures !IsSpace(s[i]) && s[i] != '/' && s[i] != ';' && s[i] != '='
    {
      if i < |name| {
        assert IsName(s[i]);
      } else if i > |name| {
        assert IsHex(digits[i - |name| - 1]);
      }
    }
  }

  lemma WrittenIsClean(r: Record)
    requires Writable(r)
    ensures Clean(Left(r)) && Left(r) != [] && '=' !in Left(r)
    ensures Clean(Written(r)) && '=' in Written(r)
  {
    var head := r.name + "#" + Hex(r.constructorId % 0x1_0000_0000);
    HeadIsClean(r.name, Hex(r.constructorId % 0x1_0000_0000));
    SpacedIsClean(head, r.parameters);
    Glue(Left(r), "=");
    assert Left(r) + [' '] + "=" == Left(r) + " =";
    SpacedIsClean(Left(r) + " =", r.result);
    assert Written(r)[|Left(r)| + 1] == '=';
  }

  lemma StripSpaced(s: string)
    requires Tight(s)
    ensures Strip(s) == s && Strip([' '] + s) == s && (s != [] ==> Strip(s + [' ']) == s)
  {
    assert ([' '] + s)[1..] == s;
    assert s != [] ==> (s + [' '])[..|s|] == s;
  }

  lemma NameMatchOfHead(name: string, digits: string, tail: string)
    requires name != [] && (forall i | 0 <= i < |name| :: IsName(name[i])) && AllHex(digits) && digits != []
    requires tail == [] || IsSpace(tail[0])
    ensures var left := name + ("#" + (digits + tail));
            NameMatch(left) == Some(Match(name, digits, if tail == [] then |left| else |name| + |digits| + 2))
  {
    var rest := digits + tail;
    var left := name + ("#" + rest);
    CutAfter(name, "#" + rest, NotName);
    assert left[|name|] == '#';
    assert ("#" + rest)[1..] == rest;
    CutAfter(digits, tail, NotHex);
    assert tail != [] ==> rest[|digits|] == tail[0];
  }

  lemma OfKnownParts(d: string, left: string, result: string, m: Match, parameters: string)
    requires NameMatch(left) == Some(m) && Tight(parameters) && left[m.end..] == parameters
    ensures OfParts(d, left, result) == Ok(Record(m.name, SignedId(HexValue(m.digits)), parameters, result, d + ";"))
  {
  }

  /** The head of a written declaration is taken apart again. */
  lemma LeftParsesBack(r: Record, d: string)
    requires Writable(r)
    ensures OfParts(d, Left(r), r.result) == Ok(r.(declaration := d + ";"))
  {
    var id: nat := r.constructorId % 0x1_0000_0000;
    IdReadsBack(r.constructorId);
    LeftMatches(r.name, Hex(id), r.parameters);
    OfKnownParts(d, Left(r), r.result, NameMatch(Left(r)).value, r.parameters);
  }

  lemma IdReadsBack(id: int)
    requires -0x8000_0000 <= id < 0x8000_0000
    ensures SignedId(HexValue(Hex(id % 0x1_0000_0000))) == id
  {
    HexReadsBack(id % 0x1_0000_0000);
  }

  lemma LeftMatches(name: string, digits: string, parameters: string)
    requires name != [] && (forall i | 0 <= i < |name| :: IsName(name[i])) && AllHex(digits) && digits != []
    requires Tight(parameters)
    ensures var left := Spaced(name + "#" + digits, parameters);
            var m := NameMatch(left);
            && m.Some? && m.value.name == name && m.value.digits == digits
            && left[m.value.end..] == parameters
  {
    var tail := if parameters == [] then [] else [' '] + parameters;
    var left := name + ("#" + (digits + tail));
    assert Spaced(name + "#" + digits, parameters) == left;
    NameMatchOfHead(name, digits, tail);
  }

  lemma ParseOneOf(before: string, after: string)
    requires '=' !in before
    ensures var d := before + ("=" + after);
            '=' in d && ParseOne(d) == OfParts(d, Strip(before), Strip(after))
  {
    var d := before + ("=" + after);
    CutAfter(before, "=" + after, IsEquals);
    assert ("=" + after)[1..] == after;
    assert d[|before|] == '=';
  }

  /** A written declaration is parsed back to the four fields it was written from. */
  lemma WrittenParsesBack(r: Record)
    requires Writable(r)
    ensures '=' in Written(r)
    ensures ParseOne(Written(r)) == Ok(r.(declaration := Written(r) + ";"))
  {
    WrittenIsClean(r);
    var before := Left(r) + [' '];
    var after := if r.result == [] then [] else [' '] + r.result;
    assert Written(r) == before + ("=" + after);
    ParseOneOf(before, after);
    StripSpaced(Left(r));
    StripSpaced(r.result);
    LeftParsesBack(r, Written(r));
  }

  /** Equal but for the text kept of the declaration. */
  ghost predicate SameFields(a: seq<Record>, b: seq<Record>) {
    |a| == |b| && forall i | 0 <= i < |a| :: a[i] == b[i].(declaration := a[i].declaration)
  }

  function WrittenAll(records: seq<Record>): (ds: seq<string>)
    ensures |ds| == |records|
  {
    if records == [] then [] else [Written(records[0])] + WrittenAll(records[1..])
  }

  lemma {:induction false} WrittenAllAreClean(records: seq<Record>)
    requires forall r | r in records :: Writable(r)
    ensures forall d | d in WrittenAll(records) :: Clean(d) && '=' in d
  {
    if records != [] {
      assert records[0] in records;
      WrittenIsClean(records[0]);
      WrittenAllAreClean(records[1..]);
    }
  }

  lemma {:induction false} WrittenAllParse(records: seq<Record>)
    requires forall r | r in records :: Writable(r)
    requires forall d | d in WrittenAll(records) :: '=' in d
    ensures ParseAll(WrittenAll(records)).Ok? && SameFields(ParseAll(WrittenAll(records)).value, records)
  {
    if records != [] {
      assert records[0] in records;
      WrittenParsesBack(records[0]);
      var ds := WrittenAll(records);
      assert ds[0] == Written(records[0]) && ds[1..] == WrittenAll(records[1..]);
      WrittenAllParse(records[1..]);
      SameFieldsCons(ParseOne(ds[0]).value, ParseAll(ds[1..]).value, records);
    }
  }

  lemma SameFieldsCons(first: Record, rest: seq<Record>, records: seq<Record>)
    requires records != [] && SameFields(rest, records[1..])
    requires first == records[0].(declaration := first.declaration)
    ensures SameFields([first] + rest, records)
  {
    var all := [first] + rest;
    forall i | 0 <= i < |records|
      ensures all[i] == records[i].(declaration := all[i].declaration)
    {
      assert i > 0 ==> all[i] == rest[i - 1] && records[i] == records[1..][i - 1];
    }
  }

  /** Any list of records that can be written, written in canonical form one a line, parses to itself. */
  lemma CanonicalTextParses(records: seq<Record>)
    requires records != [] && forall r | r in records :: Writable(r)
    ensures var again := Parsed(Text(WrittenAll(records)));
            again.Ok? && SameFields(again.value, records)
  {
    WrittenAllAreClean(records);
    WrittenAllParse(records);
    TextReadsBack(WrittenAll(records));
  }

  /** A part of a single-spaced text is single-spaced; stripping leaves a part. */
  lemma {:induction false} StripIsPart(s: string) returns (i: nat, j: nat)
    ensures i <= j <= |s| && Strip(s) == s[i..j]
    decreases |s|
  {
    if s != [] && IsSpace(s[0]) {
      i, j := StripIsPart(s[1..]);
      i, j := i + 1, j + 1;
    } else if s != [] && IsSpace(s[|s| - 1]) {
      i, j := StripIsPart(s[..|s| - 1]);
    } else {
      i, j := 0, |s|;
      assert s[i..j] == s;
    }
  }

  lemma PartIsClean(s: string, i: nat, j: nat)
    requires SingleSpaced(s) && NoComment(s) && ';' !in s && i <= j <= |s| && Tight(s[i..j])
    ensures Clean(s[i..j])
  {
    var t := s[i..j];
    assert forall k | 0 <= k < |t| :: t[k] == s[i + k];
    forall k | 0 <= k < |t| - 1
      ensures IsSpace(t[k]) ==> !IsSpace(t[k + 1])
      ensures !(t[k] == '/' && t[k + 1] == '/')
    {
      assert t[k] == s[i + k] && t[k + 1] == s[i + k + 1];
    }
  }

  lemma CleanPart(s: string, i: nat, j: nat)
    requires Clean(s) && i <= j <= |s|
    ensures Clean(Strip(s[i..j])) && forall c | c in Strip(s[i..j]) :: c in s[i..j]
  {
    var k, l := StripIsPart(s[i..j]);
    SliceOfSlice(s, i, j, k, l);
    PartIsClean(s, i + k, i + l);
  }

  lemma SliceOfSlice(s: string, i: nat, j: nat, k: nat, l: nat)
    requires i <= j <= |s| && k <= l <= j - i
    ensures s[i..j][k..l] == s[i + k..i + l]
  {
    var a, b := s[i..j][k..l], s[i + k..i + l];
    assert forall x | 0 <= x < |a| :: a[x] == b[x];
    assert a == b;
  }

  /** The record of clean parts can be written once its id is cut to 32 bits. */
  lemma PartsAreWritable(d: string, left: string, result: string)
    requires Clean(left) && '=' !in left && Clean(result) && OfParts(d, left, result).Ok?
    ensures var r := OfParts(d, left, result).value; -0x8000_0000 <= r.constructorId && Writable(In32(r))
  {
    var m := NameMatch(left).value;
    CleanPart(left, m.end, |left|);
    assert left[m.end..|left|] == left[m.end..];
  }

  lemma ParsedIsWritable(d: string)
    requires Clean(d) && '=' in d && ParseOne(d).Ok?
    ensures -0x8000_0000 <= ParseOne(d).value.constructorId && Writable(In32(ParseOne(d).value))
  {
    var eq := Until(d, IsEquals);
    CleanPart(d, 0, eq);
    assert d[0..eq] == d[..eq];
    CleanPart(d, eq + 1, |d|);
    assert d[eq + 1..|d|] == d[eq + 1..];
    PartsAreWritable(d, Strip(d[..eq]), Strip(d[eq + 1..]));
  }

  /** The record with the id its 32 bits stand for. */
  function In32(r: Record): (t: Record) {
    r.(constructorId := SignedId(r.constructorId % 0x1_0000_0000))
  }

  function AllIn32(records: seq<Record>): (r: seq<Record>)
    ensures |r| == |records| && forall i | 0 <= i < |records| :: r[i] == In32(records[i])
  {
    if records == [] then [] else [In32(records[0])] + AllIn32(records[1..])
  }

  lemma {:induction false} In32IsWritten(records: seq<Record>)
    ensures WrittenAll(AllIn32(records)) == WrittenAll(records)
  {
    if records != [] {
      In32IsWritten(records[1..]);
      var cut := AllIn32(records);
      assert cut[0] == In32(records[0]) && cut[1..] == AllIn32(records[1..]);
      SameWritten(records[0]);
    }
  }

  lemma SameWritten(r: Record)
    ensures Written(In32(r)) == Written(r)
  {
    assert In32(r).constructorId % 0x1_0000_0000 == r.constructorId % 0x1_0000_0000;
  }

  /** Every record of clean declarations can be written once its id is cut to 32 bits. */
  lemma {:induction false} AllParsedAreWritable(ds: seq<string>)
    requires forall d | d in ds :: Clean(d) && '=' in d
    requires ParseAll(ds).Ok?
    ensures forall r | r in ParseAll(ds).value :: Writable(In32(r)) && -0x8000_0000 <= r.constructorId
  {
    if ds != [] {
      var first, rest := ParseOne(ds[0]).value, ParseAll(ds[1..]).value;
      assert ParseAll(ds).value == [first] + rest;
      assert ds[0] in ds;
      ParsedIsWritable(ds[0]);
      AllParsedAreWritable(ds[1..]);
    }
  }

  /**
   The four fields of a manifest lose nothing: whatever a source parses to, the declarations written
   afresh from name, id, parameters and result parse to the same if and only if the ids fit in 32 bits.
   */
  lemma FieldsDetermineDeclarationsIff(source: string)
    requires Parsed(source).Ok?
    ensures var records := Parsed(source).value;
            var again := Parsed(Text(WrittenAll(records)));
            && again.Ok?
            && (SameFields(again.value, records) <==> forall r | r in records :: r.constructorId < 0x8000_0000)
  {
    var records := Parsed(source).value;
    DeclarationsAreClean(source);
    AllParsedAreWritable(Declarations(source));
    var cut := AllIn32(records);
    forall r | r in cut
      ensures Writable(r)
    {
      var i :| 0 <= i < |cut| && cut[i] == r;
      assert records[i] in records;
    }
    CanonicalTextParses(cut);
    In32IsWritten(records);
    SameFieldsIff(Parsed(Text(WrittenAll(records))).value, records);
  }

  lemma SameFieldsIff(again: seq<Record>, records: seq<Record>)
    requires SameFields(again, AllIn32(records))
    requires forall r | r in records :: -0x8000_0000 <= r.constructorId
    ensures SameFields(again, records) <==> forall r | r in records :: r.constructorId < 0x8000_0000
  {
    forall i | 0 <= i < |records|
      ensures again[i] == records[i].(declaration := again[i].declaration) <==> records[i].constructorId < 0x8000_0000
    {
      assert records[i] in records && again[i] == In32(records[i]).(declaration := again[i].declaration);
      assert SignedId(records[i].constructorId % 0x1_0000_0000) == records[i].constructorId <==>
             records[i].constructorId < 0x8000_0000;
    }
    if SameFields(again, records) {
      forall r | r in records
        ensures r.constructorId < 0x8000_0000
      {
        var i :| 0 <= i < |records| && records[i] == r;
        assert again[i] == records[i].(declaration := again[i].declaration);
      }
    }
  }
}
