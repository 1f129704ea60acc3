/**
 What the two readers of invite links take for the parts of a link, written out: the schemes, the hosts,
 what stands around a host, the segments of a path, and where a slug is read.
 */
module InviteParts {
  import opened Wrappers
  import opened Strings
  import opened InviteLinks

  // ---------------------------------------------------------------- characters

  const UPPER := "ABCDEFGHIJKLMNOPQRSTUVWXYZ"
  const LOWER := "abcdefghijklmnopqrstuvwxyz"

  /** Lowering replaces the 26 capitals, and only those. */
  lemma LoweredLetters(c: char, i: nat)
    requires i < 26
    ensures LowerChar(UPPER[i]) == LOWER[i]
    ensures c !in UPPER ==> LowerChar(c) == c
  {
    assert UPPER[i] as int == 'A' as int + i && LOWER[i] as int == 'a' as int + i;
    if 'A' <= c <= 'Z' {
      assert UPPER[c as int - 'A' as int] == c;
    }
  }

  lemma Delimiters(c: char)
    ensures IsEnd(c) <==> c in ['?', '#', '/']
    ensures IsQuery(c) <==> c in ['?', '#']
  {
  }

  /** Plus signs go, and nothing else does. */
  lemma {:induction false} WithoutPlusIsFilter(a: string, c: char, b: string)
    ensures WithoutPlus(a + b) == WithoutPlus(a) + WithoutPlus(b)
    ensures WithoutPlus([c]) == if c == '+' then [] else [c]
  {
    if a == [] {
      assert a + b == b;
    } else {
      assert (a + b)[1..] == a[1..] + b;
      WithoutPlusIsFilter(a[1..], c, b);
      ConcatAssociates(if a[0] == '+' then [] else [a[0]], WithoutPlus(a[1..]), WithoutPlus(b));
    }
  }

  // ---------------------------------------------------------------- hosts

  /** An authority: credentials up to an at sign, if any, a host, and a port from a colon on, if any. */
  ghost predicate IsAuthority(authority: string, credentials: string, host: string, port: string) {
    && authority == credentials + (host + port)
    && (credentials == [] || credentials[|credentials| - 1] == '@')
    && '@' !in host && ':' !in host && '@' !in port && (port == [] || port[0] == ':')
  }

  lemma {:induction false} AfterLastIs(a: string, b: string)
    requires (a == [] || a[|a| - 1] == '@') && '@' !in b
    ensures AfterLast(a + b, '@') == b
  {
    var s := a + b;
    if b == [] {
      assert s == a;
    } else {
      var last := b[|b| - 1];
      assert s[|s| - 1] == last && s[..|s| - 1] == a + b[..|b| - 1];
      AfterLastIs(a, b[..|b| - 1]);
      assert b == b[..|b| - 1] + [last];
    }
  }

  /** What is taken for the host. */
  function HostOf(authority: string): (host: string) {
    var host := AfterLast(authority, '@');
    host[..Until(host, IsColon)]
  }

  lemma HostOfParts(authority: string, credentials: string, host: string, port: string)
    requires IsAuthority(authority, credentials, host, port)
    ensures HostOf(authority) == host
  {
    AfterLastIs(credentials, host + port);
    CutAfter(host, port, IsColon);
  }

  lemma {:induction false} AfterLastCuts(s: string) returns (front: string)
    ensures s == front + AfterLast(s, '@') && '@' !in AfterLast(s, '@')
    ensures front == [] || front[|front| - 1] == '@'
  {
    if s == [] || s[|s| - 1] == '@' {
      front := s;
    } else {
      front := AfterLastCuts(s[..|s| - 1]);
      var rest := AfterLast(s[..|s| - 1], '@');
      assert s == s[..|s| - 1] + [s[|s| - 1]];
      ConcatAssociates(front, rest, [s[|s| - 1]]);
    }
  }

  /** Every text is such an authority, in one way. */
  lemma HostOfIff(authority: string, host: string)
    ensures HostOf(authority) == host <==>
            exists credentials, port :: IsAuthority(authority, credentials, host, port)
  {
    if HostOf(authority) == host {
      var credentials := AfterLastCuts(authority);
      var rest := AfterLast(authority, '@');
      var n := Until(rest, IsColon);
      InTwo(rest, n);
      assert IsAuthority(authority, credentials, host, rest[n..]);
    }
    if exists credentials, port :: IsAuthority(authority, credentials, host, port) {
      var credentials, port :| IsAuthority(authority, credentials, host, port);
      HostOfParts(authority, credentials, host, port);
    }
  }

  /** Credentials, a port and letter case never matter: five hosts are listed, and no other. */
  lemma HostListedIff(authority: string, credentials: string, host: string, port: string)
    requires IsAuthority(authority, credentials, host, port)
    ensures HostListed(authority) <==>
            Lower(host) in ["t.me", "telegram.me", "telegram.dog", "tg.dev", "telesco.pe"]
  {
    HostOfParts(authority, credentials, host, port);
  }

  // ---------------------------------------------------------------- paths

  lemma OneSegment(path: string)
    requires '/' !in path
    ensures Segments(path) == [path]
  {
    CutAfter(path, [], IsSlash);
    assert path + [] == path;
  }

  lemma FirstSegment(first: string, rest: string)
    requires '/' !in first
    ensures Segments(first + ("/" + rest)) == [first] + Segments(rest)
  {
    CutAfter(first, "/" + rest, IsSlash);
    assert ("/" + rest)[1..] == rest;
  }

  lemma SecondSegment(second: string, tail: string)
    requires '/' !in second && (tail == [] || tail[0] == '/')
    ensures Segments(second + tail)[0] == second
  {
    CutAfter(second, tail, IsSlash);
  }

  /** A path of one segment has the hash after its plus sign, if it begins with one. */
  lemma HashOfOneSegment(path: string)
    requires '/' !in path
    ensures HashOfPath(path) == if path != [] && path[0] == '+' then Some(WithoutPlus(path[1..])) else None
  {
    OneSegment(path);
  }

  /** Of a longer one, a first segment that begins with `joinchat` makes the second the hash. */
  lemma HashOfTwoSegments(first: string, second: string, tail: string)
    requires '/' !in first && '/' !in second && (tail == [] || tail[0] == '/')
    ensures HashOfPath(first + ("/" + (second + tail))) ==
            if "joinchat" <= first then Some(second)
            else if first != [] && first[0] == '+' then Some(WithoutPlus(first))
            else None
  {
    FirstSegment(first, second + tail);
    SecondSegment(second, tail);
  }

  // ---------------------------------------------------------------- a whole link

  /** The hash of a link in its parts. */
  lemma HashOfLink(
    scheme: string, authority: string, credentials: string, host: string, port: string, path: string, tail: string)
    requires IsUrl(scheme, authority, path, tail) && IsAuthority(authority, credentials, host, port)
    ensures InviteHash(Url(scheme, authority, path, tail)) ==
            if && Lower(scheme) in ["https", "http"]
               && Lower(host) in ["t.me", "telegram.me", "telegram.dog", "tg.dev", "telesco.pe"]
            then HashOfPath(path) else None
  {
    HashOfUrl(scheme, authority, path, tail);
    HostListedIff(authority, credentials, host, port);
  }

  /** The slug is read from a marker up to a delimiter or the end. */
  ghost predicate SlugAt(url: string, k: nat, marker: string, slug: string) {
    && At(url, k, marker) && (forall j: nat | j < k :: !At(url, j, marker))
    && At(url, k + |marker|, slug) && (forall i | 0 <= i < |slug| :: !IsEnd(slug[i]))
    && (k + |marker| + |slug| < |url| ==> IsEnd(url[k + |marker| + |slug|]))
  }

  /** A slug stands at the start of a text. */
  ghost predicate SlugFirst(tail: string, slug: string) {
    && slug <= tail && (forall i | 0 <= i < |slug| :: !IsEnd(slug[i]))
    && (|slug| < |tail| ==> IsEnd(tail[|slug|]))
  }

  lemma SlugFirstIff(tail: string, slug: string)
    requires slug != []
    ensures SlugOfTail(tail) == Ok(slug) <==> SlugFirst(tail, slug)
  {
    if SlugFirst(tail, slug) {
      CutAfter(slug, tail[|slug|..], IsEnd);
      assert tail == slug + tail[|slug|..];
    }
  }

  lemma AtDropped(s: string, n: nat, part: string)
    requires n <= |s|
    ensures At(s, n, part) <==> part <= s[n..]
  {
    if n + |part| <= |s| {
      assert s[n..][..|part|] == s[n..n + |part|];
    }
  }

  lemma SlugAtFind(url: string, marker: string, slug: string)
    requires marker != [] && Find(url, marker) < |url| && slug != []
    ensures var n := Find(url, marker);
            SlugOfTail(url[n + |marker|..]) == Ok(slug) <==> SlugAt(url, n, marker, slug)
  {
    var n := Find(url, marker) + |marker|;
    SlugFirstIff(url[n..], slug);
    AtDropped(url, n, slug);
  }

  lemma SlugAtOnly(url: string, k: nat, marker: string, slug: string)
    requires marker != [] && SlugAt(url, k, marker, slug)
    ensures Find(url, marker) == k < |url|
  {
  }

  ghost predicate Marked(url: string, marker: string) {
    exists k: nat :: At(url, k, marker)
  }

  lemma MarkedIff(url: string, marker: string)
    requires marker != []
    ensures Marked(url, marker) <==> Find(url, marker) < |url|
  {
  }

  /**
   Of every text, the slug is what stands after the first `/+`, or without one after the first
   `joinchat/`, up to the next delimiter, if that is something; there is none otherwise.
   */
  lemma SlugIff(url: string, slug: string)
    ensures SlugOf(url) == Ok(slug) <==>
            && slug != []
            && if Marked(url, "/+") then exists k: nat :: SlugAt(url, k, "/+", slug)
               else exists k: nat :: SlugAt(url, k, "joinchat/", slug)
    ensures SlugOf(url).Err? ==> SlugOf(url) == Err("carries no slug")
  {
    MarkedIff(url, "/+");
    MarkedIff(url, "joinchat/");
    if slug != [] {
      SlugAfterMarker(url, "/+", slug);
      SlugAfterMarker(url, "joinchat/", slug);
    }
  }

  lemma SlugAfterMarker(url: string, marker: string, slug: string)
    requires marker != [] && slug != []
    ensures var n := Find(url, marker);
            (exists k: nat :: SlugAt(url, k, marker, slug)) <==>
            n < |url| && SlugOfTail(url[n + |marker|..]) == Ok(slug)
  {
    if exists k: nat :: SlugAt(url, k, marker, slug) {
      var k: nat :| SlugAt(url, k, marker, slug);
      SlugAtOnly(url, k, marker, slug);
    }
    if Find(url, marker) < |url| {
      SlugAtFind(url, marker, slug);
    }
  }
}
