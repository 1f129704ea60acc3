/**
 The two readers of private invite links: `invite_hash` of `native/src/ops/chats.rs`, which takes a URL
 apart, and `slug_of` of `native/src/dto/chatlists.rs`, which looks for a marker in it.
 */
module InviteLinks {
  import opened Wrappers
  import opened Strings

  predicate IsQuery(c: char) { c == '?' || c == '#' }
  predicate IsSlash(c: char) { c == '/' }
  predicate IsColon(c: char) { c == ':' }
  predicate IsEnd(c: char) { c == '?' || c == '#' || c == '/' }

  function LowerChar(c: char): (d: char) {
    if 'A' <= c <= 'Z' then (c as int - 'A' as int + 'a' as int) as char else c
  }

  /** `to_ascii_lowercase` */
  function Lower(s: string): (t: string)
    ensures |t| == |s| && forall i | 0 <= i < |s| :: t[i] == LowerChar(s[i])
  {
    if s == [] then [] else [LowerChar(s[0])] + Lower(s[1..])
  }

  /** `rsplit(c).next()` */
  function AfterLast(s: string, c: char): (t: string) {
    if s == [] || s[|s| - 1] == c then [] else AfterLast(s[..|s| - 1], c) + [s[|s| - 1]]
  }

  function Segments(path: string): (parts: seq<string>)
    ensures |parts| > 0
    decreases |path|
  {
    var n := Until(path, IsSlash);
    if n == |path| then [path] else [path[..n]] + Segments(path[n + 1..])
  }

  /** `replace('+', "")` */
  function WithoutPlus(s: string): (t: string) {
    if s == [] then [] else (if s[0] == '+' then [] else [s[0]]) + WithoutPlus(s[1..])
  }

  const HOSTS := ["t.me", "telegram.me", "telegram.dog", "tg.dev", "telesco.pe"]

  predicate WebScheme(scheme: string) {
    Lower(scheme) == "https" || Lower(scheme) == "http"
  }

  predicate HostListed(authority: string) {
    var host := AfterLast(authority, '@');
    Lower(host[..Until(host, IsColon)]) in HOSTS
  }

  function HashOfPath(path: string): (r: Option<string>) {
    var segments := Segments(path);
    var first := segments[0];
    if |segments| == 1 then
      if first != [] && first[0] == '+' then Some(WithoutPlus(first[1..])) else None
    else if "joinchat" <= first then Some(segments[1])
    else if first != [] && first[0] == '+' then Some(WithoutPlus(first))
    else None
  }

  /** What follows the scheme: the authority and the path, cut at the query or the fragment. */
  function HashOfRest(all: string): (r: Option<string>) {
    var rest := all[..Until(all, IsQuery)];
    var s := Until(rest, IsSlash);
    var path := if s == |rest| then [] else rest[s + 1..];
    if HostListed(rest[..s]) then HashOfPath(path) else None
  }

  function InviteHash(link: string): (r: Option<string>) {
    var c := Find(link, "://");
    if c == |link| || !WebScheme(link[..c]) then None else HashOfRest(link[c + 3..])
  }

  function SlugOfTail(tail: string): (r: Result<string, string>) {
    var slug := tail[..Until(tail, IsEnd)];
    if slug == [] then Err("carries no slug") else Ok(slug)
  }

  function SlugOf(url: string): (r: Result<string, string>) {
    var n, m := Find(url, "/+"), Find(url, "joinchat/");
    if n < |url| then SlugOfTail(url[n + 2..])
    else if m < |url| then SlugOfTail(url[m + 9..])
    else Err("carries no slug")
  }

  // ---------------------------------------------------------------- the parts of a link

  function Url(scheme: string, authority: string, path: string, tail: string): (link: string) {
    scheme + ("://" + (authority + ("/" + path) + tail))
  }

  /** The parts are what the names say: none runs into the next. */
  ghost predicate IsUrl(scheme: string, authority: string, path: string, tail: string) {
    && Find(scheme, "://") == |scheme|
    && (forall i | 0 <= i < |authority| :: !IsEnd(authority[i]))
    && (forall i | 0 <= i < |path| :: !IsQuery(path[i]))
    && (tail == [] || IsQuery(tail[0]))
  }

  predicate SchemeMark(s: string, k: nat) {
    k + 3 <= |s| && s[k] == ':' && s[k + 1] == '/' && s[k + 2] == '/'
  }

  lemma SchemeMarkIs(s: string, k: nat)
    ensures At(s, k, "://") <==> SchemeMark(s, k)
  {
    if k + 3 <= |s| {
      var found := s[k..k + 3];
      assert found[0] == s[k] && found[1] == s[k + 1] && found[2] == s[k + 2];
      assert SchemeMark(s, k) ==> found == "://";
    }
  }

  /** Where the scheme ends, character by character. */
  lemma SchemeEndIff(s: string, n: nat)
    requires n <= |s|
    ensures Find(s, "://") == n <==> (n < |s| ==> SchemeMark(s, n)) && forall k: nat | k < n :: !SchemeMark(s, k)
  {
    forall k: nat
      ensures At(s, k, "://") <==> SchemeMark(s, k)
    {
      SchemeMarkIs(s, k);
    }
  }

  /** The first `://` of a link is where the scheme was said to end. */
  lemma SchemeEnds(scheme: string, rest: string)
    requires Find(scheme, "://") == |scheme|
    ensures Find(scheme + ("://" + rest), "://") == |scheme|
    ensures (scheme + ("://" + rest))[..|scheme|] == scheme
    ensures (scheme + ("://" + rest))[|scheme| + 3..] == rest
  {
    MarkedRest(rest);
    MarkAfter(scheme, "://" + rest);
    DropFront(scheme, "://" + rest, 3);
  }

  lemma MarkedRest(rest: string)
    ensures var marked := "://" + rest; SchemeMark(marked, 0) && marked[3..] == rest
  {
  }

  lemma MarkAfter(scheme: string, marked: string)
    requires Find(scheme, "://") == |scheme| && SchemeMark(marked, 0)
    ensures Find(scheme + marked, "://") == |scheme|
  {
    var link := scheme + marked;
    SchemeEndIff(scheme, |scheme|);
    SchemeEndIff(link, |scheme|);
    assert link[|scheme|] == marked[0] && link[|scheme| + 1] == marked[1] && link[|scheme| + 2] == marked[2];
    forall k: nat | k < |scheme|
      ensures !SchemeMark(link, k)
    {
      assert link[k] == scheme[k] && (k + 1 < |scheme| ==> link[k + 1] == scheme[k + 1]);
      assert k + 2 < |scheme| ==> link[k + 2] == scheme[k + 2];
      assert !SchemeMark(scheme, k);
    }
  }

  lemma HashAfterScheme(link: string, c: nat)
    requires c < |link| && Find(link, "://") == c
    ensures InviteHash(link) == if WebScheme(link[..c]) then HashOfRest(link[c + 3..]) else None
  {
  }

  lemma HashOfParts(authority: string, path: string, tail: string)
    requires forall i | 0 <= i < |authority| :: !IsEnd(authority[i])
    requires (forall i | 0 <= i < |path| :: !IsQuery(path[i])) && (tail == [] || IsQuery(tail[0]))
    ensures HashOfRest(authority + ("/" + path) + tail) == if HostListed(authority) then HashOfPath(path) else None
  {
    CutAfter(authority + ("/" + path), tail, IsQuery);
    CutAfter(authority, "/" + path, IsSlash);
    assert ("/" + path)[1..] == path;
  }

  /** What the hash of a link is, in terms of its parts. */
  lemma HashOfUrl(scheme: string, authority: string, path: string, tail: string)
    requires IsUrl(scheme, authority, path, tail)
    ensures InviteHash(Url(scheme, authority, path, tail)) ==
            if WebScheme(scheme) && HostListed(authority) then HashOfPath(path) else None
  {
    SchemeEnds(scheme, authority + ("/" + path) + tail);
    HashAfterScheme(Url(scheme, authority, path, tail), |scheme|);
    HashOfParts(authority, path, tail);
  }

  /** Only links of this form have a hash at all. */
  lemma HashOnlyOfUrls(link: string) returns (scheme: string, authority: string, path: string, tail: string)
    requires InviteHash(link).Some?
    ensures IsUrl(scheme, authority, path, tail) && link == Url(scheme, authority, path, tail)
    ensures WebScheme(scheme) && HostListed(authority) && InviteHash(link) == HashOfPath(path)
  {
    var c := Find(link, "://");
    scheme := link[..c];
    var all := link[c + 3..];
    SchemeSplits(link);
    NoHashOfNothing();
    authority, path, tail := RestSplits(all);
    assert link == Url(scheme, authority, path, tail);
    HashOfUrl(scheme, authority, path, tail);
  }

  lemma InThree(s: string, i: nat, j: nat)
    requires i <= j <= |s|
    ensures s == s[..i] + (s[i..j] + s[j..])
  {
  }

  lemma SchemeSplits(link: string)
    requires Find(link, "://") < |link|
    ensures var c := Find(link, "://");
            link == link[..c] + ("://" + link[c + 3..]) && Find(link[..c], "://") == c
  {
    var c := Find(link, "://");
    InThree(link, c, c + 3);
    MarkFreePrefix(link, c);
  }

  lemma MarkFreePrefix(link: string, c: nat)
    requires c <= |link| && Find(link, "://") == c
    ensures Find(link[..c], "://") == c
  {
    SchemeEndIff(link, c);
    var scheme := link[..c];
    SchemeEndIff(scheme, c);
    forall k: nat | k < c
      ensures !SchemeMark(scheme, k)
    {
      assert !SchemeMark(link, k);
    }
  }

  /** What follows the scheme, cut at its query and at its first slash. */
  lemma RestSplits(all: string) returns (authority: string, path: string, tail: string)
    requires var rest := all[..Until(all, IsQuery)]; Until(rest, IsSlash) < |rest|
    ensures all == authority + ("/" + path) + tail
    ensures forall i | 0 <= i < |authority| :: !IsEnd(authority[i])
    ensures (forall i | 0 <= i < |path| :: !IsQuery(path[i])) && (tail == [] || IsQuery(tail[0]))
  {
    var rest;
    rest, tail := FirstQuery(all);
    authority, path := FirstSlash(rest);
  }

  lemma FirstQuery(all: string) returns (rest: string, tail: string)
    ensures rest == all[..Until(all, IsQuery)] && all == rest + tail
    ensures forall i | 0 <= i < |rest| :: !IsQuery(rest[i])
    ensures tail == [] || IsQuery(tail[0])
  {
    var n := Until(all, IsQuery);
    rest, tail := all[..n], all[n..];
  }

  lemma FirstSlash(rest: string) returns (authority: string, path: string)
    requires Until(rest, IsSlash) < |rest| && forall i | 0 <= i < |rest| :: !IsQuery(rest[i])
    ensures authority == rest[..Until(rest, IsSlash)] && rest == authority + ("/" + path)
    ensures forall i | 0 <= i < |authority| :: !IsEnd(authority[i])
    ensures forall i | 0 <= i < |path| :: !IsQuery(path[i])
  {
    var s := Until(rest, IsSlash);
    authority, path := rest[..s], rest[s + 1..];
    InThree(rest, s, s + 1);
    assert rest[s..s + 1] == [rest[s]] == "/";
  }

  lemma NoHashOfNothing()
    ensures HashOfPath([]) == None
  {
    assert Segments([]) == [[]];
  }

  // ---------------------------------------------------------------- what does not matter

  /** A query or a fragment never matters, for any text at all. */
  lemma TailIsIgnored(link: string, tail: string)
    requires tail != [] && IsQuery(tail[0])
    ensures InviteHash(link + tail) == InviteHash(link)
  {
    var c := Find(link, "://");
    SameUntilTail(link, tail);
    if c < |link| {
      TailAfterScheme(link, tail, c);
    } else {
      NoSchemeInTail(link, tail, Find(link + tail, "://"));
    }
  }

  lemma TailAfterScheme(link: string, tail: string, c: nat)
    requires tail != [] && IsQuery(tail[0])
    requires c < |link| && Find(link, "://") == c == Find(link + tail, "://")
    ensures InviteHash(link + tail) == InviteHash(link)
  {
    HashAfterScheme(link, c);
    HashAfterScheme(link + tail, c);
    DropOfSum(link, tail, c);
    BeforeQuery(link[c + 3..], tail);
  }

  lemma DropOfSum(link: string, tail: string, c: nat)
    requires c + 3 <= |link|
    ensures (link + tail)[c + 3..] == link[c + 3..] + tail && (link + tail)[..c] == link[..c]
  {
  }

  lemma NoSchemeInTail(link: string, tail: string, d: nat)
    requires tail != [] && IsQuery(tail[0])
    requires Find(link, "://") == |link| && Find(link + tail, "://") == d && d > |link|
    ensures InviteHash(link + tail) == InviteHash(link) == None
  {
    NoWebSchemeWith((link + tail)[..d], |link|);
  }

  lemma BeforeQuery(all: string, tail: string)
    requires tail != [] && IsQuery(tail[0])
    ensures HashOfRest(all + tail) == HashOfRest(all)
  {
    SameCut(all, tail);
  }

  lemma SameCut(all: string, tail: string)
    requires tail != [] && IsQuery(tail[0])
    ensures (all + tail)[..Until(all + tail, IsQuery)] == all[..Until(all, IsQuery)]
  {
    var n := Until(all, IsQuery);
    InTwo(all, n);
    ConcatAssociates(all[..n], all[n..], tail);
    CutAfter(all[..n], all[n..] + tail, IsQuery);
  }

  /** A marker found in the longer text is either in the shorter or begins past its end. */
  lemma SameUntilTail(link: string, tail: string)
    requires tail != [] && IsQuery(tail[0])
    ensures var c, d := Find(link, "://"), Find(link + tail, "://");
            if c < |link| then d == c else d == |link + tail| || d > |link|
  {
    forall k: nat | k <= |link|
      ensures At(link + tail, k, "://") <==> At(link, k, "://")
    {
      var long := link + tail;
      if k + 3 <= |link| {
        assert long[k..k + 3] == link[k..k + 3];
      } else if k + 3 <= |long| {
        assert long[k..k + 3][|link| - k] == tail[0];
      }
    }
    var c := Find(link, "://");
    assert c < |link| ==> At(link + tail, c, "://");
    assert !At(link, |link|, "://");
  }

  lemma NoWebSchemeWith(scheme: string, i: nat)
    requires i < |scheme| && IsQuery(scheme[i])
    ensures !WebScheme(scheme)
  {
    assert IsQuery(Lower(scheme)[i]);
  }

  /** Where the authority ends, or the text if it has no scheme. */
  function HostEnd(link: string): (n: nat)
    ensures n <= |link|
  {
    var c := Find(link, "://");
    if c == |link| then |link| else c + 3 + Until(link[c + 3..], IsEnd)
  }

  /** Letter case up to the end of the authority never matters, for any text at all. */
  lemma CaseIsIgnored(link: string, other: string)
    requires Lower(link) == Lower(other) && link[HostEnd(link)..] == other[HostEnd(link)..]
    ensures InviteHash(other) == InviteHash(link)
  {
    var c := Find(link, "://");
    SameSchemeEnd(link, other);
    if c < |link| {
      HostEndIs(link, c);
      SameAfterScheme(link, other, c, Until(link[c + 3..], IsEnd));
    } else {
      NoSchemeNoHash(link);
      NoSchemeNoHash(other);
    }
  }

  lemma HostEndIs(link: string, c: nat)
    requires c < |link| && Find(link, "://") == c
    ensures c + 3 <= |link| && HostEnd(link) == c + 3 + Until(link[c + 3..], IsEnd)
  {
  }

  lemma NoSchemeNoHash(link: string)
    requires Find(link, "://") == |link|
    ensures InviteHash(link) == None
  {
  }

  lemma SameAfterScheme(link: string, other: string, c: nat, n: nat)
    requires Lower(link) == Lower(other) && |link| == |other|
    requires Find(link, "://") == c == Find(other, "://") && c < |link| && n == Until(link[c + 3..], IsEnd)
    requires link[c + 3 + n..] == other[c + 3 + n..]
    ensures InviteHash(other) == InviteHash(link)
  {
    SameScheme(link, other, c);
    DropTwice(link, c + 3, n);
    DropTwice(other, c + 3, n);
    SameRest(link[c + 3..], other[c + 3..], n);
    HashAfterScheme(link, c);
    HashAfterScheme(other, c);
  }

  lemma DropTwice(s: string, m: nat, n: nat)
    requires m + n <= |s|
    ensures s[m..][n..] == s[m + n..]
  {
  }

  lemma SameSchemeEnd(link: string, other: string)
    requires Lower(link) == Lower(other)
    ensures |link| == |other| && Find(link, "://") == Find(other, "://")
  {
    LowerKeepsMarks(link, other);
    var c := Find(link, "://");
    SchemeEndIff(link, c);
    SchemeEndIff(other, c);
    forall k: nat | k < c
      ensures !SchemeMark(other, k)
    {
      assert !SchemeMark(link, k);
    }
  }

  lemma SameScheme(link: string, other: string, c: nat)
    requires Lower(link) == Lower(other) && c + 3 <= |link| == |other|
    ensures WebScheme(link[..c]) == WebScheme(other[..c])
    ensures Lower(link[c + 3..]) == Lower(other[c + 3..])
  {
    LowerPrefix(link, c);
    LowerPrefix(other, c);
    LowerSuffix(link, c + 3);
    LowerSuffix(other, c + 3);
  }

  lemma LowerSuffix(s: string, n: nat)
    requires n <= |s|
    ensures Lower(s[n..]) == Lower(s)[n..]
  {
  }

  /** The path in what follows an authority. */
  function PathAfter(rest: string): (path: string) {
    var r := rest[..Until(rest, IsQuery)];
    if r == [] then [] else r[1..]
  }

  lemma CutAtQuery(authority: string, rest: string)
    requires forall i | 0 <= i < |authority| :: !IsEnd(authority[i])
    ensures (authority + rest)[..Until(authority + rest, IsQuery)] == authority + rest[..Until(rest, IsQuery)]
  {
    var q := Until(rest, IsQuery);
    InTwo(rest, q);
    ConcatAssociates(authority, rest[..q], rest[q..]);
    CutAfter(authority + rest[..q], rest[q..], IsQuery);
  }

  lemma InTwo(s: string, n: nat)
    requires n <= |s|
    ensures s == s[..n] + s[n..]
  {
  }

  lemma CutAtSlash(authority: string, r: string)
    requires (forall i | 0 <= i < |authority| :: !IsEnd(authority[i])) && (r == [] || r[0] == '/')
    ensures var all := authority + r;
            var s := Until(all, IsSlash);
            && all[..s] == authority
            && (if s == |all| then [] else all[s + 1..]) == (if r == [] then [] else r[1..])
  {
    CutAfter(authority, r, IsSlash);
  }

  lemma HashOfAuthority(authority: string, rest: string)
    requires (forall i | 0 <= i < |authority| :: !IsEnd(authority[i])) && (rest == [] || IsEnd(rest[0]))
    ensures HashOfRest(authority + rest) == if HostListed(authority) then HashOfPath(PathAfter(rest)) else None
  {
    CutAtQuery(authority, rest);
    CutAtSlash(authority, rest[..Until(rest, IsQuery)]);
  }

  lemma SameRest(all: string, other: string, n: nat)
    requires Lower(all) == Lower(other) && n == Until(all, IsEnd) && |all| == |other|
    requires all[n..] == other[n..]
    ensures HashOfRest(all) == HashOfRest(other)
  {
    SameAuthority(all, other, n);
    InTwo(all, n);
    InTwo(other, n);
    HashOfAuthority(all[..n], all[n..]);
    HashOfAuthority(other[..n], all[n..]);
  }

  lemma SameAuthority(all: string, other: string, n: nat)
    requires Lower(all) == Lower(other) && n == Until(all, IsEnd) && |all| == |other|
    ensures HostListed(all[..n]) == HostListed(other[..n])
    ensures forall i | 0 <= i < n :: !IsEnd(all[..n][i]) && !IsEnd(other[..n][i])
  {
    LowerKeepsMarks(all, other);
    LowerPrefix(all, n);
    LowerPrefix(other, n);
    SameHost(all[..n], other[..n]);
  }

  predicate IsMark(c: char) {
    c == ':' || c == '/' || c == '?' || c == '#' || c == '@'
  }

  lemma LowerKeepsMark(c: char, d: char)
    requires LowerChar(c) == LowerChar(d)
    ensures c == d || (!IsMark(c) && !IsMark(d))
  {
  }

  lemma LowerKeepsMarks(s: string, t: string)
    requires Lower(s) == Lower(t)
    ensures |s| == |t|
    ensures forall i | 0 <= i < |s| :: s[i] == t[i] || (!IsMark(s[i]) && !IsMark(t[i]))
  {
    assert |Lower(s)| == |Lower(t)|;
    forall i | 0 <= i < |s|
      ensures s[i] == t[i] || (!IsMark(s[i]) && !IsMark(t[i]))
    {
      assert Lower(s)[i] == Lower(t)[i];
      LowerKeepsMark(s[i], t[i]);
    }
  }

  lemma LowerPrefix(s: string, n: nat)
    requires n <= |s|
    ensures Lower(s[..n]) == Lower(s)[..n]
  {
  }

  lemma LowerSnoc(s: string, c: char)
    ensures Lower(s + [c]) == Lower(s) + [LowerChar(c)]
  {
  }

  lemma SameHost(a: string, b: string)
    requires Lower(a) == Lower(b)
    ensures HostListed(a) == HostListed(b)
  {
    SameAfterLast(a, b);
    var c, d := AfterLast(a, '@'), AfterLast(b, '@');
    SameUntilColon(c, d);
    LowerPrefix(c, Until(c, IsColon));
    LowerPrefix(d, Until(c, IsColon));
  }

  lemma SameUntilColon(c: string, d: string)
    requires Lower(c) == Lower(d)
    ensures |c| == |d| && Until(c, IsColon) == Until(d, IsColon)
  {
    LowerKeepsMarks(c, d);
    var n := Until(c, IsColon);
    forall i | 0 <= i < |c|
      ensures IsColon(c[i]) <==> IsColon(d[i])
    {
      assert c[i] == d[i] || (!IsMark(c[i]) && !IsMark(d[i]));
    }
    assert d == d[..n] + d[n..];
    CutAfter(d[..n], d[n..], IsColon);
  }

  lemma {:induction false} SameAfterLast(a: string, b: string)
    requires Lower(a) == Lower(b)
    ensures Lower(AfterLast(a, '@')) == Lower(AfterLast(b, '@'))
  {
    LowerKeepsMarks(a, b);
    if a != [] && a[|a| - 1] != '@' {
      var n := |a| - 1;
      LowerPrefix(a, n);
      LowerPrefix(b, n);
      SameAfterLast(a[..n], b[..n]);
      assert Lower(a)[n] == Lower(b)[n];
      LowerSnoc(AfterLast(a[..n], '@'), a[n]);
      LowerSnoc(AfterLast(b[..n], '@'), b[n]);
    }
  }

  // ---------------------------------------------------------------- what a hash looks like

  lemma {:induction false} SegmentsAreParts(path: string)
    ensures forall p | p in Segments(path) :: '/' !in p && forall c | c in p :: c in path
    decreases |path|
  {
    var n := Until(path, IsSlash);
    if n < |path| {
      SegmentsAreParts(path[n + 1..]);
    }
  }

  lemma {:induction false} WithoutPlusIsPart(s: string)
    ensures '+' !in WithoutPlus(s) && forall c | c in WithoutPlus(s) :: c in s
    ensures WithoutPlus(s) == s <==> '+' !in s
  {
    if s != [] {
      WithoutPlusIsPart(s[1..]);
      assert s == [s[0]] + s[1..];
    }
  }

  lemma HashIsPart(path: string, c: char)
    requires HashOfPath(path).Some? && c in HashOfPath(path).value
    ensures c != '/' && c in path
  {
    SegmentsAreParts(path);
    var segments := Segments(path);
    assert forall i | 0 <= i < |segments| :: segments[i] in segments;
    if segments[0] != [] {
      WithoutPlusIsPart(segments[0]);
      WithoutPlusIsPart(segments[0][1..]);
    }
  }

  /** Whatever the link, a hash found in it is in it, and has no slash, question mark or number sign. */
  lemma HashHasNoDelimiters(link: string)
    requires InviteHash(link).Some?
    ensures forall c | c in InviteHash(link).value :: c in link && !IsEnd(c)
  {
    var scheme, authority, path, tail := HashOnlyOfUrls(link);
    forall c | c in InviteHash(link).value
      ensures c in link && !IsEnd(c)
    {
      HashIsPart(path, c);
    }
  }

  // ---------------------------------------------------------------- the two readers

  lemma LastOfPath(first: string, h: string)
    requires '/' !in first && '/' !in h
    ensures Segments(first) == [first] && Segments(first + ("/" + h)) == [first, h]
  {
    CutAfter(first, [], IsSlash);
    assert first + [] == first;
    CutAfter(h, [], IsSlash);
    assert h + [] == h;
    CutAfter(first, "/" + h, IsSlash);
    assert ("/" + h)[1..] == h;
  }

  lemma HashOfPlusPath(h: string)
    requires '/' !in h
    ensures HashOfPath("+" + h) == Some(WithoutPlus(h))
  {
    LastOfPath("+" + h, []);
    assert ("+" + h)[1..] == h;
  }

  lemma HashOfJoinchatPath(h: string)
    requires '/' !in h
    ensures HashOfPath("joinchat" + ("/" + h)) == Some(h)
  {
    LastOfPath("joinchat", h);
  }

  /** A tail is read up to its first delimiter. */
  lemma SlugOfHash(h: string, tail: string)
    requires (forall i | 0 <= i < |h| :: !IsEnd(h[i])) && (tail == [] || IsQuery(tail[0]))
    ensures SlugOfTail(h + tail) == if h == [] then Err("carries no slug") else Ok(h)
  {
    CutAfter(h, tail, IsEnd);
  }

  /** Everything before the slash of the path. */
  function Origin(scheme: string, authority: string): (o: string) {
    scheme + ("://" + authority)
  }

  /** No credentials, and no port spelled `joinchat`. */
  ghost predicate Plain(authority: string) {
    && HostListed(authority) && '@' !in authority
    && !(|authority| >= 8 && authority[|authority| - 8..] == "joinchat")
  }

  predicate SlashPlus(s: string, k: nat) {
    k + 2 <= |s| && s[k] == '/' && s[k + 1] == '+'
  }

  lemma SlashPlusIs(s: string, k: nat)
    ensures At(s, k, "/+") <==> SlashPlus(s, k)
  {
    if k + 2 <= |s| {
      var found := s[k..k + 2];
      assert found[0] == s[k] && found[1] == s[k + 1];
      assert SlashPlus(s, k) ==> found == "/+";
    }
  }

  lemma SlashPlusIff(s: string, n: nat)
    requires n <= |s|
    ensures Find(s, "/+") == n <==> (n < |s| ==> SlashPlus(s, n)) && forall k: nat | k < n :: !SlashPlus(s, k)
  {
    forall k: nat
      ensures At(s, k, "/+") <==> SlashPlus(s, k)
    {
      SlashPlusIs(s, k);
    }
  }

  lemma {:induction false} AfterLastOfNone(s: string, c: char)
    requires c !in s
    ensures AfterLast(s, c) == s
  {
    if s != [] {
      AfterLastOfNone(s[..|s| - 1], c);
      assert s == s[..|s| - 1] + [s[|s| - 1]];
    }
  }

  lemma PlainStarts(authority: string)
    requires Plain(authority)
    ensures authority != [] && authority[0] != '+'
  {
    AfterLastOfNone(authority, '@');
    var host := authority[..Until(authority, IsColon)];
    assert Lower(host) in HOSTS;
    assert Lower(host)[0] == 't';
  }

  lemma WebSchemeHasNoSlash(scheme: string)
    requires WebScheme(scheme)
    ensures '/' !in scheme
  {
    forall i | 0 <= i < |scheme|
      ensures scheme[i] != '/'
    {
      assert Lower(scheme)[i] != '/';
    }
  }

  lemma OriginSlashes(scheme: string, authority: string, i: nat)
    requires WebScheme(scheme) && '/' !in authority && i < |Origin(scheme, authority)|
    ensures Origin(scheme, authority)[i] == '/' <==> i == |scheme| + 1 || i == |scheme| + 2
  {
    WebSchemeHasNoSlash(scheme);
    var o := Origin(scheme, authority);
    assert i < |scheme| ==> o[i] == scheme[i];
    assert i >= |scheme| + 3 ==> o[i] == authority[i - |scheme| - 3];
  }

  /** No `/+` begins in the origin of a plain link. */
  lemma NoPlusInOrigin(scheme: string, authority: string, rest: string, k: nat)
    requires WebScheme(scheme) && Plain(authority) && '/' !in authority && k < |Origin(scheme, authority)|
    ensures !SlashPlus(Origin(scheme, authority) + rest, k)
  {
    PlainStarts(authority);
    var o := Origin(scheme, authority);
    var link := o + rest;
    OriginSlashes(scheme, authority, k);
    assert link[k] == o[k] && (k + 1 < |o| ==> link[k + 1] == o[k + 1]);
    assert o[|scheme| + 2] == '/' && o[|scheme| + 3] == authority[0];
  }

  lemma PlusSlug(scheme: string, authority: string, h: string, tail: string)
    requires WebScheme(scheme) && Plain(authority) && '/' !in authority
    requires (forall i | 0 <= i < |h| :: !IsEnd(h[i])) && (tail == [] || IsQuery(tail[0]))
    ensures SlugOf(Origin(scheme, authority) + ("/+" + (h + tail))) == if h == [] then Err("carries no slug") else Ok(h)
  {
    var o := Origin(scheme, authority);
    var link := o + ("/+" + (h + tail));
    forall k: nat | k < |o|
      ensures !SlashPlus(link, k)
    {
      NoPlusInOrigin(scheme, authority, "/+" + (h + tail), k);
    }
    SlashPlusIff(link, |o|);
    assert link[|o| + 2..] == h + tail;
    SlugOfHash(h, tail);
  }

  /** What the search for `joinchat/` needs to know about that word, and about what is before it. */
  ghost predicate Findable(word: string, authority: string) {
    && word != [] && '/' !in word && '+' !in word && word[|word| - 1] != ':'
    && !(|authority| >= |word| && authority[|authority| - |word|..] == word)
  }

  /** Nor does one begin in the slash and the word after it, if a slash follows. */
  lemma NoPlusInFront(scheme: string, authority: string, word: string, w: string, k: nat)
    requires WebScheme(scheme) && Plain(authority) && '/' !in authority
    requires word != [] && '/' !in word && '+' !in word && (w == [] || w[0] != '+')
    requires k < |Origin(scheme, authority)| + 1 + |word|
    ensures !SlashPlus(Origin(scheme, authority) + ("/" + word) + w, k)
  {
    var o := Origin(scheme, authority);
    var front := o + ("/" + word);
    if k < |o| {
      NoPlusInOrigin(scheme, authority, ("/" + word) + w, k);
      assert front + w == o + (("/" + word) + w);
    } else if k == |o| {
      assert (front + w)[k + 1] == front[k + 1] == word[0];
    } else {
      assert (front + w)[k] == front[k] == word[k - |o| - 1];
    }
  }

  /** So the first `/+` of the whole is the first of what follows. */
  lemma PlusInTail(front: string, w: string)
    requires forall k: nat | k < |front| :: !SlashPlus(front + w, k)
    ensures Find(front + w, "/+") == |front| + Find(w, "/+")
  {
    var n := Find(w, "/+");
    SlashPlusIff(w, n);
    SlashPlusIff(front + w, |front| + n);
    forall k: nat | k <= n
      ensures SlashPlus(front + w, |front| + k) <==> SlashPlus(w, k)
    {
      assert k + 2 <= |w| ==> (front + w)[|front| + k] == w[k] && (front + w)[|front| + k + 1] == w[k + 1];
    }
    forall k: nat | |front| <= k < |front| + n
      ensures !SlashPlus(front + w, k)
    {
      assert !SlashPlus(w, k - |front|);
      assert SlashPlus(front + w, |front| + (k - |front|)) <==> SlashPlus(w, k - |front|);
    }
  }

  lemma PlusAfterWord(scheme: string, authority: string, word: string, w: string)
    requires WebScheme(scheme) && Plain(authority) && '/' !in authority
    requires word != [] && '/' !in word && '+' !in word && (w == [] || w[0] != '+')
    ensures Find(Origin(scheme, authority) + ("/" + word) + w, "/+")
            == |Origin(scheme, authority)| + 1 + |word| + Find(w, "/+")
  {
    var front := Origin(scheme, authority) + ("/" + word);
    forall k: nat | k < |front|
      ensures !SlashPlus(front + w, k)
    {
      NoPlusInFront(scheme, authority, word, w, k);
    }
    PlusInTail(front, w);
  }

  lemma NoEarlierWord(scheme: string, authority: string, word: string, w: string, k: nat)
    requires WebScheme(scheme) && '/' !in authority && Findable(word, authority)
    requires k <= |Origin(scheme, authority)|
    ensures !At(Origin(scheme, authority) + ("/" + (word + w)), k, word + "/")
  {
    var o := Origin(scheme, authority);
    var link := o + ("/" + (word + w));
    var e := k + |word|;
    if e < |link| {
      var found := link[k..e + 1];
      assert found[|word|] == link[e] && (word + "/")[|word|] == '/';
      if link[e] == '/' {
        var i := Differs(scheme, authority, word, link, k);
        assert found[i - k] == link[i] && (word + "/")[i - k] == word[i - k];
      }
    }
  }

  /** Where the word is not what ends at a slash no later than the path's own. */
  lemma Differs(scheme: string, authority: string, word: string, link: string, k: nat) returns (i: nat)
    requires WebScheme(scheme) && '/' !in authority && Findable(word, authority)
    requires var o := Origin(scheme, authority); k <= |o| && o + "/" <= link
    requires k + |word| < |link| && link[k + |word|] == '/'
    ensures k <= i < k + |word| && link[i] != word[i - k]
  {
    var o := Origin(scheme, authority);
    var e := k + |word|;
    assert link[|scheme|] == ':' && link[|scheme| + 1] == '/' && link[|scheme| + 2] == '/' && link[|o|] == '/';
    if e < |o| {
      OriginSlashes(scheme, authority, e);
      i := e - 1;
    } else if |o| < e {
      i := |o|;
    } else if |authority| >= |word| {
      var suffix := authority[|authority| - |word|..];
      var j := FirstDifference(suffix, word);
      i := k + j;
      assert link[i] == o[i] == suffix[j];
    } else {
      i := |scheme| + 2;
    }
  }

  lemma {:induction false} FirstDifference(a: string, b: string) returns (j: nat)
    requires |a| == |b| && a != b
    ensures j < |a| && a[j] != b[j]
  {
    if a[0] != b[0] {
      j := 0;
    } else {
      assert a == [a[0]] + a[1..] && b == [b[0]] + b[1..];
      j := FirstDifference(a[1..], b[1..]);
      j := j + 1;
    }
  }

  lemma FirstWord(scheme: string, authority: string, word: string, w: string)
    requires WebScheme(scheme) && '/' !in authority && Findable(word, authority) && w != [] && w[0] == '/'
    ensures Find(Origin(scheme, authority) + ("/" + (word + w)), word + "/") == |Origin(scheme, authority)| + 1
  {
    var o := Origin(scheme, authority);
    forall k: nat | k <= |o|
      ensures !At(o + ("/" + (word + w)), k, word + "/")
    {
      NoEarlierWord(scheme, authority, word, w, k);
    }
    WordAt(o, word, w);
  }

  lemma WordAt(o: string, word: string, w: string)
    requires w != [] && w[0] == '/'
    ensures At(o + ("/" + (word + w)), |o| + 1, word + "/")
  {
    var link, needle := o + ("/" + (word + w)), word + "/";
    var p := |o| + 1;
    var found := link[p..p + |needle|];
    forall i | 0 <= i < |needle|
      ensures found[i] == needle[i]
    {
      assert found[i] == (word + w)[i];
    }
    assert found == needle;
  }

  /** A slug after `/+`, and one after `joinchat/` when there is no `/+`. */
  lemma SlugAfter(link: string, n: nat, m: nat, rest: string)
    requires n <= |link| && Find(link, "/+") == n && Find(link, "joinchat/") == m
    requires n < |link| ==> link[n + 2..] == rest
    requires n == |link| ==> m < |link| && link[m + 9..] == rest
    ensures SlugOf(link) == SlugOfTail(rest)
  {
  }

  lemma JoinchatAfterOrigin(scheme: string, authority: string, rest: string)
    requires WebScheme(scheme) && Plain(authority) && '/' !in authority
    ensures var o := Origin(scheme, authority);
            var link := o + ("/" + "joinchat") + ("/" + rest);
            Find(link, "joinchat/") == |o| + 1 && link[|o| + 10..] == rest
  {
    var o, word, w := Origin(scheme, authority), "joinchat", "/" + rest;
    FirstWord(scheme, authority, word, w);
    assert o + ("/" + word) + w == o + ("/" + (word + w));
    assert word + "/" == "joinchat/";
  }

  /**
   The slug of a plain link whose path begins with `joinchat/`: read from the first `/+` after that word
   if there is one, be it in the query, and from the slash after the word if not.
   */
  lemma JoinchatSlug(scheme: string, authority: string, rest: string)
    requires WebScheme(scheme) && Plain(authority) && '/' !in authority
    ensures var w := "/" + rest;
            var n := Find(w, "/+");
            SlugOf(Origin(scheme, authority) + ("/" + "joinchat") + w)
            == SlugOfTail(if n < |w| then w[n + 2..] else rest)
  {
    var word, w := "joinchat", "/" + rest;
    PlusAfterWord(scheme, authority, word, w);
    JoinchatAfterOrigin(scheme, authority, rest);
    SlugAfterFront(Origin(scheme, authority) + ("/" + word), w, rest);
  }

  /** The slug of a text whose first `/+`, if any, is in its second part, and whose word ends the first. */
  lemma SlugAfterFront(front: string, w: string, rest: string)
    requires Find(front + w, "/+") == |front| + Find(w, "/+")
    requires Find(front + w, "joinchat/") < |front + w|
    requires (front + w)[Find(front + w, "joinchat/") + 9..] == rest
    ensures SlugOf(front + w) == SlugOfTail(if Find(w, "/+") < |w| then w[Find(w, "/+") + 2..] else rest)
  {
    var n := Find(w, "/+");
    if n < |w| {
      DropFront(front, w, n + 2);
      SlugAfter(front + w, |front| + n, Find(front + w, "joinchat/"), w[n + 2..]);
    } else {
      SlugAfter(front + w, |front| + n, Find(front + w, "joinchat/"), rest);
    }
  }

  lemma DropFront(front: string, w: string, n: nat)
    requires n <= |w|
    ensures (front + w)[|front| + n..] == w[n..]
  {
  }

  lemma UrlFromOrigin(scheme: string, authority: string, path: string, tail: string)
    ensures Url(scheme, authority, path, tail) == Origin(scheme, authority) + ("/" + (path + tail))
  {
  }

  ghost predicate CanonicalParts(scheme: string, authority: string, h: string, tail: string) {
    && WebScheme(scheme) && Plain(authority) && (forall i | 0 <= i < |authority| :: !IsEnd(authority[i]))
    && (forall i | 0 <= i < |h| :: !IsEnd(h[i])) && (tail == [] || IsQuery(tail[0]))
  }

  lemma CanonicalIsUrl(scheme: string, authority: string, h: string, tail: string, path: string)
    requires CanonicalParts(scheme, authority, h, tail) && path in ["+" + h, "joinchat" + ("/" + h)]
    ensures IsUrl(scheme, authority, path, tail)
  {
    WebSchemeHasNoSlash(scheme);
    forall k: nat | k < |scheme|
      ensures !At(scheme, k, "://")
    {
      SchemeMarkIs(scheme, k);
    }
    forall i | 0 <= i < |path|
      ensures !IsQuery(path[i])
    {
      assert path == "+" + h && i > 0 ==> path[i] == h[i - 1];
      assert path == "joinchat" + ("/" + h) && i > 8 ==> path[i] == h[i - 9];
    }
  }

  lemma PlusReads(scheme: string, authority: string, h: string, tail: string)
    requires CanonicalParts(scheme, authority, h, tail)
    ensures InviteHash(Url(scheme, authority, "+" + h, tail)) == Some(WithoutPlus(h))
  {
    CanonicalIsUrl(scheme, authority, h, tail, "+" + h);
    HashOfUrl(scheme, authority, "+" + h, tail);
    HashOfPlusPath(h);
  }

  lemma PlusUrl(scheme: string, authority: string, h: string, tail: string)
    ensures Url(scheme, authority, "+" + h, tail) == Origin(scheme, authority) + ("/+" + (h + tail))
  {
    UrlFromOrigin(scheme, authority, "+" + h, tail);
    assert "/" + (("+" + h) + tail) == "/+" + (h + tail);
  }

  /**
   On a `/+h` link of a listed host the hash is `h` without its plus signs and the slug is `h`, if not
   empty; so the two readers agree exactly when `h` is not empty and has no plus sign.
   */
  lemma ReadersOnPlusLinks(scheme: string, authority: string, h: string, tail: string)
    requires CanonicalParts(scheme, authority, h, tail)
    ensures InviteHash(Url(scheme, authority, "+" + h, tail)) == Some(WithoutPlus(h))
    ensures SlugOf(Url(scheme, authority, "+" + h, tail)) == if h == [] then Err("carries no slug") else Ok(h)
    ensures h == WithoutPlus(h) <==> '+' !in h
  {
    PlusReads(scheme, authority, h, tail);
    WithoutPlusIsPart(h);
    PlusSlug(scheme, authority, h, tail);
    PlusUrl(scheme, authority, h, tail);
  }

  lemma JoinchatReads(scheme: string, authority: string, h: string, tail: string)
    requires CanonicalParts(scheme, authority, h, tail)
    ensures InviteHash(Url(scheme, authority, "joinchat" + ("/" + h), tail)) == Some(h)
  {
    CanonicalIsUrl(scheme, authority, h, tail, "joinchat" + ("/" + h));
    HashOfUrl(scheme, authority, "joinchat" + ("/" + h), tail);
    HashOfJoinchatPath(h);
  }

  lemma WordUrl(scheme: string, authority: string, word: string, h: string, tail: string)
    ensures Url(scheme, authority, word + ("/" + h), tail)
            == Origin(scheme, authority) + ("/" + word) + ("/" + (h + tail))
  {
    UrlFromOrigin(scheme, authority, word + ("/" + h), tail);
    assert (word + ("/" + h)) + tail == word + ("/" + (h + tail));
  }

  /** On a `/joinchat/h` link with no `/+` from the slash before `h` on, both read `h`, if not empty. */
  lemma ReadersOnJoinchatLinks(scheme: string, authority: string, h: string, tail: string)
    requires CanonicalParts(scheme, authority, h, tail)
    requires Find("/" + (h + tail), "/+") == |"/" + (h + tail)|
    ensures InviteHash(Url(scheme, authority, "joinchat" + ("/" + h), tail)) == Some(h)
    ensures SlugOf(Url(scheme, authority, "joinchat" + ("/" + h), tail))
            == if h == [] then Err("carries no slug") else Ok(h)
  {
    JoinchatReads(scheme, authority, h, tail);
    JoinchatSlug(scheme, authority, h + tail);
    WordUrl(scheme, authority, "joinchat", h, tail);
    SlugOfHash(h, tail);
  }

  /** What stands between a place and the next delimiter. */
  function UpToEnd(tail: string): (piece: string) {
    tail[..Until(tail, IsEnd)]
  }

  lemma SlugOfTailIff(tail: string, h: string)
    ensures SlugOfTail(tail) == Ok(h) <==> h != [] && UpToEnd(tail) == h
  {
  }

  lemma JoinchatSlugOfUrl(scheme: string, authority: string, h: string, tail: string)
    requires CanonicalParts(scheme, authority, h, tail)
    ensures var w := "/" + (h + tail);
            var n := Find(w, "/+");
            SlugOf(Url(scheme, authority, "joinchat" + ("/" + h), tail))
            == SlugOfTail(if n < |w| then w[n + 2..] else h + tail)
  {
    WordUrl(scheme, authority, "joinchat", h, tail);
    JoinchatSlug(scheme, authority, h + tail);
  }

  /**
   On every `/joinchat/h` link of a plain listed host the two readers agree if and only if `h` is not empty
   and either no `/+` follows the word, or what stands between the first `/+` and the next delimiter is `h`.
   */
  lemma ReadersAgreeOnJoinchatIff(scheme: string, authority: string, h: string, tail: string)
    requires CanonicalParts(scheme, authority, h, tail)
    ensures InviteHash(Url(scheme, authority, "joinchat" + ("/" + h), tail)) == Some(h)
    ensures var w := "/" + (h + tail);
            var n := Find(w, "/+");
            SlugOf(Url(scheme, authority, "joinchat" + ("/" + h), tail)) == Ok(h) <==>
            h != [] && (n == |w| || UpToEnd(w[n + 2..]) == h)
  {
    JoinchatReads(scheme, authority, h, tail);
    JoinchatSlugOfUrl(scheme, authority, h, tail);
    AgreesIff(h, tail);
  }

  lemma AgreesIff(h: string, tail: string)
    requires (forall i | 0 <= i < |h| :: !IsEnd(h[i])) && (tail == [] || IsQuery(tail[0]))
    ensures var w := "/" + (h + tail);
            var n := Find(w, "/+");
            SlugOfTail(if n < |w| then w[n + 2..] else h + tail) == Ok(h) <==>
            h != [] && (n == |w| || UpToEnd(w[n + 2..]) == h)
  {
    var w := "/" + (h + tail);
    var n := Find(w, "/+");
    if n < |w| {
      SlugOfTailIff(w[n + 2..], h);
    } else {
      SlugOfHash(h, tail);
    }
  }

  /** With one the two can differ: `joinchat/a?/+b` has the hash `a` and the slug `b`. */
  lemma ReadersDifferAfterPlus(scheme: string, authority: string)
    requires CanonicalParts(scheme, authority, "a", "?/+b")
    ensures InviteHash(Url(scheme, authority, "joinchat" + ("/" + "a"), "?/+b")) == Some("a")
    ensures SlugOf(Url(scheme, authority, "joinchat" + ("/" + "a"), "?/+b")) == Ok("b")
  {
    JoinchatReads(scheme, authority, "a", "?/+b");
    JoinchatSlug(scheme, authority, "a" + "?/+b");
    WordUrl(scheme, authority, "joinchat", "a", "?/+b");
    SlugInQuery();
  }

  lemma SlugInQuery()
    ensures var w := "/" + ("a" + "?/+b");
            Find(w, "/+") == 3 && SlugOfTail(w[5..]) == Ok("b")
  {
    var w := "/" + ("a" + "?/+b");
    SlashPlusIff(w, 3);
    assert w[5..] == "b" + [];
    SlugOfHash("b", []);
  }
}
