/**
  Proxy paths (internal/proxy/reverse_proxy.go): the path form of a proxied request,
  the base prefix it is served under, and the rewriting of Location headers so that
  redirects stay under that prefix.

  Paths are decoded paths.
 */
module ProxyPaths {
  import opened Options
  import opened Strings

  const SERVER := "/proxy/server/"
  const LEGACY := "/proxy/"

  /** Up to the first slash: strings.SplitN(s, "/", 2)[0]. */
  function Segment(s: string): (r: string)
    ensures HasPrefix(s, r) && '/' !in r
    ensures |r| < |s| ==> s[|r|] == '/'
  {
    if s == "" || s[0] == '/' then "" else
      var r := Segment(s[1..]);
      assert s[..1 + |r|] == [s[0]] + s[1..][..|r|];
      [s[0]] + r
  }

  /** The prefix ending with the segment after the first occurrence of the marker, if that segment is not empty. */
  function Under(p: string, marker: string): Option<string> {
    var i := Index(p, marker);
    if i < 0 then None
    else
      var seg := Segment(p[i + |marker|..]);
      if seg == "" then None else Some(p[..i] + marker + seg)
  }

  /** basePrefixFromPath */
  function BasePrefix(p: string): string {
    if p == "" then ""
    else if Under(p, SERVER).Some? then Under(p, SERVER).value
    else if Under(p, LEGACY).Some? then Under(p, LEGACY).value
    else ""
  }

  // -------------------------------------------------------- always a prefix, idempotent

  lemma UnderIsPrefix(p: string, marker: string)
    ensures Under(p, marker).Some? ==> HasPrefix(p, Under(p, marker).value)
  {
    var i := Index(p, marker);
    if i >= 0 {
      var rem := p[i + |marker|..];
      var seg := Segment(rem);
      assert p == p[..i] + p[i..i + |marker|] + rem;
      assert rem[..|seg|] == seg;
    }
  }

  lemma MatchInPrefix(p: string, b: string, marker: string, j: nat)
    requires HasPrefix(p, b) && j + |marker| <= |b|
    ensures MatchesAt(b, marker, j) <==> MatchesAt(p, marker, j)
  {
    assert p[j..j + |marker|] == b[j..j + |marker|] by {
      assert forall k :: 0 <= k < |b| ==> p[k] == p[..|b|][k];
    }
  }

  /** A match inside a prefix is a match in the whole, and the first one stays first. */
  lemma IndexInPrefix(p: string, b: string, marker: string)
    requires HasPrefix(p, b)
    ensures Index(p, marker) >= 0 && Index(p, marker) + |marker| <= |b| ==> Index(b, marker) == Index(p, marker)
    ensures Index(p, marker) < 0 ==> Index(b, marker) < 0
    ensures Index(b, marker) >= 0 ==> Index(p, marker) == Index(b, marker)
  {
    forall j: nat | j + |marker| <= |b| ensures MatchesAt(b, marker, j) <==> MatchesAt(p, marker, j) {
      MatchInPrefix(p, b, marker, j);
    }
  }

  lemma {:induction false} SegmentFixed(s: string)
    requires '/' !in s
    ensures Segment(s) == s
  {
    if s != "" {
      assert s[0] in s;
      SegmentFixed(s[1..]);
      assert s == [s[0]] + s[1..];
    }
  }

  lemma UnderFixed(p: string, marker: string)
    requires marker == SERVER || marker == LEGACY
    requires Under(p, marker).Some?
    ensures var b := Under(p, marker).value; b != "" && Under(b, marker) == Some(b)
  {
    var i := Index(p, marker);
    var seg := Segment(p[i + |marker|..]);
    var b := p[..i] + marker + seg;
    UnderIsPrefix(p, marker);
    IndexInPrefix(p, b, marker);
    assert b[i + |marker|..] == seg && b[..i] == p[..i];
    SegmentFixed(seg);
  }

  /** Below a legacy base there is no room for the server form: its last slashes would lie in one segment. */
  lemma NoServerInLegacyBase(p: string)
    requires Under(p, LEGACY).Some?
    ensures Index(Under(p, LEGACY).value, SERVER) < 0
  {
    var i := Index(p, LEGACY);
    var seg := Segment(p[i + |LEGACY|..]);
    var b := p[..i] + LEGACY + seg;
    UnderIsPrefix(p, LEGACY);
    forall j: nat | j <= |b| ensures !MatchesAt(b, SERVER, j) {
      if j < i {
        if j + |SERVER| <= |b| { StartsLegacy(b, j); MatchInPrefix(p, b, LEGACY, j); }
      } else {
        assert b[i + |LEGACY|..] == seg;
        NoSlashNoServer(b, i + |LEGACY|, j);
      }
    }
  }

  /** The server marker starts with the legacy marker. */
  lemma StartsLegacy(b: string, j: nat)
    requires j + |SERVER| <= |b|
    ensures MatchesAt(b, SERVER, j) ==> MatchesAt(b, LEGACY, j)
  {
    assert b[j..j + |SERVER|][..|LEGACY|] == b[j..j + |LEGACY|];
  }

  /** The server marker's closing slash needs a slash at that place. */
  lemma NoSlashNoServer(b: string, from: nat, j: nat)
    requires from <= |b| && '/' !in b[from..] && j + |LEGACY| >= from
    ensures !MatchesAt(b, SERVER, j)
  {
    var k := j + |SERVER| - 1;
    assert k < |b| ==> b[k] == b[from..][k - from] && b[k] in b[from..];
    assert k < |b| ==> b[j..j + |SERVER|][|SERVER| - 1] == b[k];
    assert SERVER[|SERVER| - 1] == '/';
  }

  /** The base prefix is always a prefix of the path, and its own base prefix. */
  lemma BasePrefixFacts(p: string)
    ensures HasPrefix(p, BasePrefix(p))
    ensures BasePrefix(BasePrefix(p)) == BasePrefix(p)
  {
    UnderIsPrefix(p, SERVER);
    UnderIsPrefix(p, LEGACY);
    if p != "" {
      if Under(p, SERVER).Some? {
        UnderFixed(p, SERVER);
      } else if Under(p, LEGACY).Some? {
        UnderFixed(p, LEGACY);
        NoServerInLegacyBase(p);
      }
    }
  }

  // ------------------------------------------------------------ parsing a request path

  /** What url.PathUnescape makes of a segment: any function, None for an error. */
  type Unescape = string -> Option<string>

  datatype Target =
    | NotProxied
    | Server(id: string, rest: string)
    | Legacy(to: string, rest: string)

  function Decoded(unescape: Unescape, seg: string): string {
    match unescape(seg)
    case Some(d) => d
    case None => seg
  }

  /** From the first slash on, or "/". */
  function Rest(s: string): string {
    if Segment(s) == s then "/" else s[|Segment(s)|..]
  }

  /** The path form of ServeHTTP, with a server resolver configured. */
  function ParsePath(p: string, unescape: Unescape): Target {
    if !HasPrefix(p, LEGACY) then NotProxied
    else
      var suffix := p[|LEGACY|..];
      if HasPrefix(suffix, "server/") then
        var tail := suffix[|"server/"|..];
        Server(Decoded(unescape, Segment(tail)), Rest(tail))
      else Legacy(Decoded(unescape, Segment(suffix)), Rest(suffix))
  }

  lemma SlashAt(s: string, j: nat)
    ensures MatchesAt(s, "/", j) <==> j < |s| && s[j] == '/'
  {
    if j < |s| { assert s[j..j + 1] == [s[j]]; }
  }

  lemma FirstSlash(s: string)
    ensures var i := Index(s, "/");
            && -1 <= i < |s| && (i >= 0 ==> s[i] == '/')
            && forall j :: 0 <= j < |s| && (i < 0 || j < i) ==> s[j] != '/'
  {
    hide MatchesAt;
    var i := Index(s, "/");
    if i >= 0 { SlashAt(s, i); }
    forall j | 0 <= j < |s| && (i < 0 || j < i) ensures s[j] != '/' { SlashAt(s, j); }
  }

  /** Cutting at the first slash is cutting off the first segment. */
  lemma CutAtSlash(s: string)
    ensures Index(s, "/") < |s|
    ensures var i := Index(s, "/");
            if i >= 0 then Segment(s) == s[..i] && Rest(s) == s[i..] else Segment(s) == s && Rest(s) == "/"
  {
    hide Index, Segment;
    FirstSlash(s);
    var i := Index(s, "/");
    if i >= 0 {
      assert s[i..][..1] == "/" && '/' !in s[..i];
      SegmentStops(s[..i], s[i..]);
      assert s == s[..i] + s[i..];
    } else {
      SegmentFixed(s);
    }
  }

  /** The path form of ServeHTTP, statement by statement; without a resolver only the legacy form exists. */
  method ParseRequest(p: string, resolver: bool, unescape: Unescape) returns (t: Target)
    ensures resolver ==> t == ParsePath(p, unescape)
    ensures !resolver ==>
              t == if !HasPrefix(p, LEGACY) then NotProxied
                   else Legacy(Decoded(unescape, Segment(p[|LEGACY|..])), Rest(p[|LEGACY|..]))
  {
    hide Segment, Rest, Index;
    t := NotProxied;
    if HasPrefix(p, LEGACY) {
      var suffix := p[|LEGACY|..];
      if HasPrefix(suffix, "server/") && resolver {
        var tail := suffix[|"server/"|..];
        CutAtSlash(tail);
        var id, rest := tail, "/";
        var i := Index(tail, "/");
        if i >= 0 {
          id, rest := tail[..i], tail[i..];
        }
        var decoded := unescape(id);
        if decoded.Some? {
          id := decoded.value;
        }
        t := Server(id, rest);
      } else {
        CutAtSlash(suffix);
        var to, rest := suffix, "/";
        var i := Index(suffix, "/");
        if i >= 0 {
          to, rest := suffix[..i], suffix[i..];
        }
        var decoded := unescape(to);
        if decoded.Some? {
          to := decoded.value;
        }
        t := Legacy(to, rest);
      }
    }
  }

  // --------------------------------------------------------------- rewriting Location

  /** What url.Parse finds in an absolute URL. */
  datatype Absolute = Absolute(path: string, text: string)

  function TrimSlashes(s: string): string {
    if s != "" && s[|s| - 1] == '/' then TrimSlashes(s[..|s| - 1]) else s
  }

  /** Every slash at the end is cut off, and nothing else. */
  lemma {:induction false} TrimsSlashes(s: string) returns (slashes: string)
    ensures s == TrimSlashes(s) + slashes && forall i :: 0 <= i < |slashes| ==> slashes[i] == '/'
    ensures var t := TrimSlashes(s); t != "" ==> t[|t| - 1] != '/'
  {
    slashes := "";
    if s != "" && s[|s| - 1] == '/' {
      slashes := TrimsSlashes(s[..|s| - 1]);
      slashes := slashes + "/";
      assert s == s[..|s| - 1] + "/";
    }
  }

  /** rewriteLocation; url is None unless loc parses as an absolute URL. */
  function RewriteLocation(loc: string, url: Option<Absolute>, base: string): string {
    if loc == "" then loc
    else if url.Some? then
      if url.value.path == "" || HasPrefix(url.value.path, "/") then TrimSlashes(base) + url.value.path
      else TrimSlashes(base) + "/" + url.value.text
    else if HasPrefix(loc, "/") then TrimSlashes(base) + loc
    else TrimSlashes(base) + "/" + loc
  }

  /** The base a response is rewritten onto when no prefix header came with the request. */
  function ResponseBase(p: string): string {
    if BasePrefix(p) == "" then "/proxy" else BasePrefix(p)
  }

  /** An absolute URL without a path. */
  predicate Bare(url: Option<Absolute>) {
    url.Some? && url.value.path == ""
  }

  /** The path on the upstream that a Location names: the root without one, and relative ones from the root. */
  function UpstreamPath(loc: string, url: Option<Absolute>): (r: string)
    ensures HasPrefix(r, "/")
  {
    if Bare(url) then "/"
    else if url.Some? then (if HasPrefix(url.value.path, "/") then url.value.path else "/" + url.value.text)
    else if HasPrefix(loc, "/") then loc
    else "/" + loc
  }

  // ---------------------------------------------------------------------- round trip

  lemma {:induction false} SegmentStops(s: string, t: string)
    requires '/' !in s && HasPrefix(t, "/")
    ensures Segment(s + t) == s && (s + t)[|s|..] == t
  {
    if s != "" {
      assert s[0] in s && (s + t)[1..] == s[1..] + t;
      SegmentStops(s[1..], t);
      assert s == [s[0]] + s[1..];
    }
  }

  /** With the target segment seg, a path of either form parses to seg and what follows. */
  lemma ParseServerForm(seg: string, loc: string, unescape: Unescape)
    requires '/' !in seg && HasPrefix(loc, "/")
    ensures ParsePath("/proxy/server/" + seg + loc, unescape)
            == Server(if unescape(seg).Some? then unescape(seg).value else seg, loc)
  {
    SegmentStops(seg, loc);
    var p := SERVER + seg + loc;
    assert p[..7] == LEGACY && p[7..][..7] == "server/" && p[7..][7..] == seg + loc;
  }

  lemma ParseLegacyForm(seg: string, loc: string, unescape: Unescape)
    requires '/' !in seg && seg != "server" && HasPrefix(loc, "/")
    ensures ParsePath("/proxy/" + seg + loc, unescape)
            == Legacy(if unescape(seg).Some? then unescape(seg).value else seg, loc)
  {
    SegmentStops(seg, loc);
    var q := LEGACY + seg + loc;
    assert q[..7] == LEGACY && q[7..] == seg + loc;
    NotServerSegment(seg, loc);
  }

  lemma NotServerSegment(seg: string, loc: string)
    requires '/' !in seg && seg != "server" && HasPrefix(loc, "/")
    ensures !HasPrefix(seg + loc, "server/")
  {
    SegmentStops(seg, loc);
    if |seg + loc| >= 7 {
      var t := (seg + loc)[7..];
      var c := (seg + loc)[..7];
      assert seg + loc == c + t;
      if c == "server/" {
        assert seg + loc == "server" + ("/" + t);
        SegmentStops("server", "/" + t);
      }
    }
  }

  predicate ServerForm(p: string) {
    HasPrefix(p, SERVER)
  }

  /** The undecoded target segment. */
  function RawTarget(p: string): string
    requires |LEGACY| <= |p|
  {
    if ServerForm(p) then Segment(p[|SERVER|..]) else Segment(p[|LEGACY|..])
  }

  lemma ParseByForm(p: string, unescape: Unescape)
    requires HasPrefix(p, LEGACY)
    ensures var t := Decoded(unescape, RawTarget(p));
            ParsePath(p, unescape)
            == if ServerForm(p) then Server(t, Rest(p[|SERVER|..])) else Legacy(t, Rest(p[|LEGACY|..]))
  {
    hide *;
    FormByPrefix(p);
    ParseSuffix(p, unescape);
  }

  lemma FormByPrefix(p: string)
    requires HasPrefix(p, LEGACY)
    ensures HasPrefix(p[|LEGACY|..], "server/") <==> ServerForm(p)
    ensures ServerForm(p) ==> |p| >= |SERVER| && p[|LEGACY|..][7..] == p[|SERVER|..]
  {
    if |p| >= |SERVER| {
      assert p[..|SERVER|] == LEGACY + p[|LEGACY|..][..7];
      assert p[..|SERVER|][|LEGACY|..] == p[|LEGACY|..][..7];
      assert SERVER[|LEGACY|..] == "server/";
    }
  }

  lemma ParseSuffix(p: string, unescape: Unescape)
    requires HasPrefix(p, LEGACY)
    requires HasPrefix(p[|LEGACY|..], "server/") <==> ServerForm(p)
    requires ServerForm(p) ==> |p| >= |SERVER| && p[|LEGACY|..][7..] == p[|SERVER|..]
    ensures var t := Decoded(unescape, RawTarget(p));
            ParsePath(p, unescape)
            == if ServerForm(p) then Server(t, Rest(p[|SERVER|..])) else Legacy(t, Rest(p[|LEGACY|..]))
  {
    hide Segment, Rest, Decoded;
  }

  /** A prefix is the first match. */
  lemma IndexOfPrefix(p: string, marker: string)
    requires HasPrefix(p, marker)
    ensures Index(p, marker) == 0
  {
    assert p[0..|marker|] == marker;
  }

  lemma PrefixOfIndex(p: string, marker: string)
    requires Index(p, marker) == 0
    ensures HasPrefix(p, marker)
  {
    assert p[0..|marker|] == p[..|marker|];
  }

  /** The base of a server-form path, and with it the whole path again. */
  lemma ServerBase(p: string)
    requires ServerForm(p) && RawTarget(p) != ""
    ensures BasePrefix(p) == SERVER + RawTarget(p) == "/proxy/server/" + RawTarget(p)
    ensures BasePrefix(p) + p[|SERVER + RawTarget(p)|..] == p
  {
    hide Segment, Index;
    IndexOfPrefix(p, SERVER);
    UnderIsPrefix(p, SERVER);
    assert p[..0] + SERVER + RawTarget(p) == SERVER + RawTarget(p);
  }

  /** Without a server id, the segment "server" itself is taken for a target. */
  lemma ServerBaseWithoutId(p: string)
    requires ServerForm(p) && RawTarget(p) == ""
    ensures BasePrefix(p) == "/proxy/server"
  {
    hide HasPrefix, Segment, Index;
    ServerFormIsLegacy(p);
    IndexOfPrefix(p, SERVER);
    IndexOfPrefix(p, LEGACY);
  }

  lemma ServerFormIsLegacy(p: string)
    requires ServerForm(p)
    ensures HasPrefix(p, LEGACY) && |p| >= |SERVER|
    ensures Segment(p[|LEGACY|..]) == "server"
  {
    assert p[..|LEGACY|] == p[..|SERVER|][..|LEGACY|] == LEGACY;
    var rem := p[|LEGACY|..];
    assert rem[..7] == p[..|SERVER|][|LEGACY|..] == "server/";
    assert rem == "server" + ("/" + rem[7..]);
    SegmentStops("server", "/" + rem[7..]);
  }

  lemma LegacyBase(p: string)
    requires HasPrefix(p, LEGACY) && !ServerForm(p) && Under(p, SERVER).None?
    ensures BasePrefix(p) == if RawTarget(p) == "" then "" else LEGACY + RawTarget(p)
  {
    IndexOfPrefix(p, LEGACY);
  }

  /** A base taken from a server form further down keeps a slash beyond the target segment. */
  lemma NestedBase(p: string) returns (k: nat)
    requires HasPrefix(p, LEGACY) && !ServerForm(p) && Under(p, SERVER).Some?
    ensures |LEGACY| <= k < |BasePrefix(p)| && BasePrefix(p)[k] == '/'
    ensures HasPrefix(BasePrefix(p), LEGACY)
    ensures BasePrefix(p)[|BasePrefix(p)| - 1] != '/'
  {
    NotAtStart(p);
    var i := Index(p, SERVER);
    var seg := Segment(p[i + |SERVER|..]);
    UnderIsPrefix(p, SERVER);
    var b := BasePrefix(p);
    assert b == p[..i] + SERVER + seg;
    k := i + 6;
    assert b[k] == SERVER[6] == '/';
    assert p[..|LEGACY|] == b[..|LEGACY|];
    assert b[|b| - 1] == seg[|seg| - 1] && seg[|seg| - 1] in seg;
  }

  lemma NotAtStart(p: string)
    requires !ServerForm(p)
    ensures Index(p, SERVER) != 0
  {
    hide Index;
    if Index(p, SERVER) == 0 { PrefixOfIndex(p, SERVER); }
  }

  lemma {:induction false} SegmentBefore(s: string, k: nat)
    requires k < |s| && s[k] == '/'
    ensures |Segment(s)| <= k
  {
    if k > 0 && s[0] != '/' { SegmentBefore(s[1..], k - 1); }
  }

  /** What is left after the target then is longer than what was appended. */
  lemma NestedRest(b: string, loc: string, k: nat, unescape: Unescape)
    requires |LEGACY| <= k < |b| && b[k] == '/' && HasPrefix(b, LEGACY)
    ensures var t := ParsePath(b + loc, unescape); t.Server? || (t.Legacy? && |t.rest| > |loc|)
  {
    var q := b + loc;
    assert q[..|LEGACY|] == b[..|LEGACY|];
    ParseByForm(q, unescape);
    SegmentBefore(q[|LEGACY|..], k - |LEGACY|);
  }

  lemma RestOfTail(loc: string)
    requires HasPrefix(loc, "/")
    ensures Rest(loc[1..]) == loc <==> loc == "/"
  {
    assert loc[0] == loc[..1][0];
    assert loc == "/" ==> loc[1..] == "";
    assert |loc| == 1 ==> loc == "/";
  }

  /** On a base that does not end in a slash, the upstream path is appended as it is, or nothing if there is none. */
  lemma Appended(loc: string, url: Option<Absolute>, base: string)
    requires loc != "" && base != "" && base[|base| - 1] != '/'
    ensures RewriteLocation(loc, url, base) == if Bare(url) then base else base + UpstreamPath(loc, url)
  {
    hide RewriteLocation, HasPrefix;
    assert TrimSlashes(base) == base;
    RewrittenByKind(loc, url, base);
    if url.Some? && !Bare(url) && !HasPrefix(url.value.path, "/") {
      assert base + "/" + url.value.text == base + ("/" + url.value.text);
    }
  }

  /** A redirect comes back to the target it was sent from. */
  ghost predicate ComesBack(p: string, loc: string, url: Option<Absolute>, unescape: Unescape)
    requires HasPrefix(p, LEGACY)
  {
    var before := ParsePath(p, unescape);
    ParsePath(RewriteLocation(loc, url, ResponseBase(p)), unescape)
    == if before.Server? then Server(before.id, UpstreamPath(loc, url))
       else if before.Legacy? then Legacy(before.to, UpstreamPath(loc, url))
       else NotProxied
  }

  /** The request paths whose redirects come back whatever they are. */
  predicate Sound(p: string)
    requires HasPrefix(p, LEGACY)
  {
    RawTarget(p) != "" && (ServerForm(p) || (RawTarget(p) != "server" && Under(p, SERVER).None?))
  }

  lemma LastOfTarget(p: string)
    requires HasPrefix(p, LEGACY) && RawTarget(p) != ""
    ensures var t := RawTarget(p); t[|t| - 1] != '/'
  {
    var t := RawTarget(p);
    assert t[|t| - 1] in t;
  }

  lemma ServerFormComesBack(p: string, loc: string, url: Option<Absolute>, unescape: Unescape)
    requires ServerForm(p) && HasPrefix(p, LEGACY) && loc != "" && !Bare(url)
    ensures ComesBack(p, loc, url, unescape) <==> RawTarget(p) != "" || UpstreamPath(loc, url) == "/"
  {
    hide Under, BasePrefix, ParsePath, Rest, RewriteLocation;
    var t, path := RawTarget(p), UpstreamPath(loc, url);
    ParseByForm(p, unescape);
    if t != "" {
      ServerBase(p);
      LastOfTarget(p);
      Appended(loc, url, SERVER + t);
      ParseServerForm(t, path, unescape);
    } else {
      ServerBaseWithoutId(p);
      Appended(loc, url, "/proxy/server");
      WithoutId(path, unescape);
    }
  }

  /** A path appended after "/proxy/server" loses its first segment. */
  lemma WithoutId(path: string, unescape: Unescape)
    requires HasPrefix(path, "/")
    ensures var q := ParsePath("/proxy/server" + path, unescape); q.Server? && (q.rest == path <==> path == "/")
    ensures path == "/" ==> ParsePath("/proxy/server" + path, unescape) == Server(Decoded(unescape, ""), "/")
  {
    var q := "/proxy/server" + path;
    assert path[0] == path[..1][0];
    assert q[..|SERVER|] == SERVER && q[..|LEGACY|] == LEGACY && q[|SERVER|..] == path[1..];
    ParseByForm(q, unescape);
    RestOfTail(path);
  }

  /** A path appended after "/proxy" is parsed from the start. */
  lemma WithoutTarget(path: string, unescape: Unescape)
    requires HasPrefix(path, "/")
    ensures var q := ParsePath("/proxy" + path, unescape); q.Server? || (q.Legacy? && (q.rest == path <==> path == "/"))
    ensures path == "/" ==> ParsePath("/proxy" + path, unescape) == Legacy(Decoded(unescape, ""), "/")
  {
    var q := "/proxy" + path;
    assert path[0] == path[..1][0];
    assert q[..|LEGACY|] == LEGACY && q[|LEGACY|..] == path[1..];
    ParseByForm(q, unescape);
    RestOfTail(path);
  }

  lemma NestedDoesNotComeBack(p: string, loc: string, url: Option<Absolute>, unescape: Unescape)
    requires HasPrefix(p, LEGACY) && !ServerForm(p) && loc != "" && !Bare(url)
    requires Under(p, SERVER).Some?
    ensures !ComesBack(p, loc, url, unescape)
  {
    hide Under, BasePrefix, ParsePath, Rest, RewriteLocation, Decoded, HasPrefix, UpstreamPath, RawTarget, ServerForm;
    ParseByForm(p, unescape);
    var k := NestedBase(p);
    Appended(loc, url, BasePrefix(p));
    NestedRest(BasePrefix(p), UpstreamPath(loc, url), k, unescape);
  }

  lemma ServerAsTarget()
    ensures LEGACY + "server" == "/proxy/server"
  {}

  lemma LegacyFormComesBack(p: string, loc: string, url: Option<Absolute>, unescape: Unescape)
    requires HasPrefix(p, LEGACY) && !ServerForm(p) && loc != "" && !Bare(url)
    ensures ComesBack(p, loc, url, unescape)
            <==> Under(p, SERVER).None? && RawTarget(p) != "server"
                 && (RawTarget(p) != "" || UpstreamPath(loc, url) == "/")
  {
    hide Under, BasePrefix, ParsePath, Rest, RewriteLocation;
    var t, path := RawTarget(p), UpstreamPath(loc, url);
    ParseByForm(p, unescape);
    if Under(p, SERVER).Some? {
      NestedDoesNotComeBack(p, loc, url, unescape);
    } else {
      LegacyBase(p);
      if t == "" {
        Appended(loc, url, "/proxy");
        WithoutTarget(path, unescape);
      } else {
        LastOfTarget(p);
        Appended(loc, url, LEGACY + t);
        if t == "server" {
          ServerAsTarget();
          WithoutId(path, unescape);
        } else {
          ParseLegacyForm(t, path, unescape);
        }
      }
    }
  }

  // ------------------------------------------------------ redirects without a path

  /** A base without anything after it: the rest is "/". */
  lemma BareBase(seg: string, unescape: Unescape)
    requires '/' !in seg
    ensures ParsePath(SERVER + seg, unescape) == Server(Decoded(unescape, seg), "/")
    ensures ParsePath(LEGACY + seg, unescape) == Legacy(Decoded(unescape, seg), "/")
  {
    SegmentFixed(seg);
    var p, q := SERVER + seg, LEGACY + seg;
    assert p[..7] == LEGACY && p[7..][..7] == "server/" && p[7..][7..] == seg;
    assert q[..7] == LEGACY && q[7..] == seg;
    NoSlashNoServerSegment(seg);
  }

  lemma NoSlashNoServerSegment(seg: string)
    requires '/' !in seg
    ensures !HasPrefix(seg, "server/")
  {
    if |seg| >= 7 { assert seg[..7][6] == seg[6] && seg[6] in seg; }
  }

  lemma NestedBareRest(b: string, k: nat, unescape: Unescape)
    requires |LEGACY| <= k < |b| && b[k] == '/' && HasPrefix(b, LEGACY) && b[|b| - 1] != '/'
    ensures var t := ParsePath(b, unescape); t.Server? || (t.Legacy? && t.rest != "/")
  {
    hide Segment, ParsePath, Decoded;
    ParseByForm(b, unescape);
    SegmentBefore(b[|LEGACY|..], k - |LEGACY|);
    assert k < |b| - 1;
  }

  lemma BareComesBack(p: string, loc: string, url: Option<Absolute>, unescape: Unescape)
    requires HasPrefix(p, LEGACY) && loc != "" && Bare(url)
    ensures ComesBack(p, loc, url, unescape) <==> RawTarget(p) != "" && (ServerForm(p) || Under(p, SERVER).None?)
  {
    hide Under, BasePrefix, ParsePath, Rest, RewriteLocation, Decoded;
    var t := RawTarget(p);
    ParseByForm(p, unescape);
    if ServerForm(p) {
      if t != "" {
        ServerBase(p);
        LastOfTarget(p);
        Appended(loc, url, SERVER + t);
        BareBase(t, unescape);
      } else {
        ServerBaseWithoutId(p);
        Appended(loc, url, "/proxy/server");
        ServerAsTarget();
        BareBase("server", unescape);
      }
    } else if Under(p, SERVER).Some? {
      var k := NestedBase(p);
      Appended(loc, url, BasePrefix(p));
      NestedBareRest(BasePrefix(p), k, unescape);
    } else {
      LegacyBase(p);
      if t != "" {
        LastOfTarget(p);
        Appended(loc, url, LEGACY + t);
        BareBase(t, unescape);
      } else {
        Appended(loc, url, "/proxy");
        BareProxy(unescape);
      }
    }
  }

  lemma BareProxy(unescape: Unescape)
    ensures ParsePath("/proxy", unescape) == NotProxied
  {}

  /**
    A redirect, rewritten onto the base of the request it answers, is a request for the
    same target and exactly the upstream's path, if and only if the request named a
    target, in the server form or in a legacy form that is neither the bare word "server"
    nor goes on with a server form further down.  The redirect to "/" also comes back
    when the target is missing, and a redirect to an absolute URL without a path comes
    back for the target "server" too, but not when the target is missing.
   */
  lemma RedirectComesBack(p: string, loc: string, url: Option<Absolute>, unescape: Unescape)
    requires HasPrefix(p, LEGACY) && loc != ""
    ensures ComesBack(p, loc, url, unescape)
            <==> || Sound(p)
                 || (Bare(url) && RawTarget(p) == "server" && !ServerForm(p) && Under(p, SERVER).None?)
                 || (!Bare(url) && RawTarget(p) == ""
                     && UpstreamPath(loc, url) == "/" && (ServerForm(p) || Under(p, SERVER).None?))
  {
    hide Under, ComesBack, UpstreamPath, RawTarget;
    if Bare(url) {
      BareComesBack(p, loc, url, unescape);
    } else if ServerForm(p) {
      ServerFormComesBack(p, loc, url, unescape);
    } else {
      LegacyFormComesBack(p, loc, url, unescape);
    }
  }

  /** Rewritten Locations, kind by kind, on any base: its trailing slashes are replaced by the one of the path. */
  lemma RewrittenByKind(loc: string, url: Option<Absolute>, base: string)
    ensures loc == "" ==> RewriteLocation(loc, url, base) == ""
    ensures loc != "" && url == None ==>
              RewriteLocation(loc, url, base) == TrimSlashes(base) + if HasPrefix(loc, "/") then loc else "/" + loc
    ensures loc != "" && url.Some? && url.value.path == "" ==> RewriteLocation(loc, url, base) == TrimSlashes(base)
    ensures loc != "" && url.Some? && HasPrefix(url.value.path, "/") ==>
              RewriteLocation(loc, url, base) == TrimSlashes(base) + url.value.path
    ensures loc != "" && url.Some? && url.value.path != "" && !HasPrefix(url.value.path, "/") ==>
              RewriteLocation(loc, url, base) == TrimSlashes(base) + "/" + url.value.text
  {}

  /** The base prefix: up to the target of the first server form if it has one, else of the first legacy form. */
  lemma BasePrefixByForm(p: string)
    ensures Under(p, "/proxy/server/").Some? ==> BasePrefix(p) == Under(p, "/proxy/server/").value
    ensures Under(p, "/proxy/server/").None? && Under(p, "/proxy/").Some? ==> BasePrefix(p) == Under(p, "/proxy/").value
    ensures Under(p, "/proxy/server/").None? && Under(p, "/proxy/").None? ==> BasePrefix(p) == ""
  {
    if p == "" { assert Index(p, "/proxy/server/") < 0 && Index(p, "/proxy/") < 0; }
  }

  /** The base below a marker: everything up to the end of the segment after its first occurrence. */
  lemma UnderExactly(p: string, marker: string, a: string, seg: string, rest: string)
    requires p == a + marker + seg + rest && |a| == Index(p, marker)
    requires '/' !in seg && (rest == "" || rest[0] == '/')
    ensures Under(p, marker) == if seg == "" then None else Some(a + marker + seg)
  {
    var tail := p[|a| + |marker|..];
    assert tail == seg + rest && p[..|a|] == a;
    if rest == "" {
      assert seg + rest == seg;
      SegmentFixed(seg);
    } else {
      assert rest[..1] == [rest[0]];
      SegmentStops(seg, rest);
    }
  }
}
