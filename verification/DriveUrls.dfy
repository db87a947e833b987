/**
 Canonical ids of Google Drive documents: a url is taken apart, its query and a trailing view segment
 dropped, and put together again. Printing and parsing again can split it elsewhere, so a canonical
 id need not be canonical.
 */
module DriveUrls {
  import opened Text

  // ---------------------------------------------------------------- cutting strings

  /** The position of the first of the given characters, or the length. */
  function FirstOf(s: string, stops: set<char>): (k: nat)
    ensures k <= |s| && (forall i | 0 <= i < k :: s[i] !in stops) && (k < |s| ==> s[k] in stops)
  {
    if s == "" || s[0] in stops then 0 else 1 + FirstOf(s[1..], stops)
  }

  function Before(s: string, stops: set<char>): (r: string)
    ensures r <= s && forall c | c in r :: c !in stops
  {
    s[..FirstOf(s, stops)]
  }

  function From(s: string, stops: set<char>): (r: string)
    ensures Before(s, stops) + r == s && (r == "" || r[0] in stops)
  {
    s[FirstOf(s, stops)..]
  }

  function AfterFirst(s: string): string { if s == "" then "" else s[1..] }

  /** The text, with its mark in front unless it is empty. */
  function Marked(mark: char, s: string): string { if s == "" then "" else [mark] + s }

  lemma {:induction false} CutAt(a: string, b: string, stops: set<char>)
    requires forall c | c in a :: c !in stops
    requires b == "" || b[0] in stops
    ensures Before(a + b, stops) == a && From(a + b, stops) == b
  {
    var s, k := a + b, FirstOf(a + b, stops);
    assert forall i | 0 <= i < |a| :: s[i] == a[i] && a[i] in a;
    assert b == "" || s[|a|] == b[0];
  }

  // ---------------------------------------------------------------- urlsplit and urlunsplit

  datatype Parts = Parts(scheme: string, netloc: string, path: string, query: string, fragment: string)

  /** The library's lists of the schemes that take parameters, and of those that take a host. */
  datatype Schemes = Schemes(params: set<string>, netloc: set<string>)

  predicate IsLetter(c: char) { 'a' <= c <= 'z' || 'A' <= c <= 'Z' }

  predicate IsSchemeChar(c: char) { IsLetter(c) || '0' <= c <= '9' || c == '+' || c == '-' || c == '.' }

  predicate IsScheme(s: string) { s != "" && IsLetter(s[0]) && forall c | c in s :: IsSchemeChar(c) }

  predicate HasScheme(s: string) {
    var c := Before(s, {':'});
    IsScheme(c) && c != s
  }

  function LowerChar(c: char): char { if 'A' <= c <= 'Z' then c + 32 as char else c }

  function Lower(s: string): (r: string)
    ensures |r| == |s| && forall i | 0 <= i < |s| :: r[i] == LowerChar(s[i])
  {
    seq(|s|, i requires 0 <= i < |s| => LowerChar(s[i]))
  }

  const HOST_END: set<char> := {'/', '?', '#'}

  /** What follows the scheme and its colon. */
  function AfterScheme(s: string): string {
    if HasScheme(s) then AfterFirst(From(s, {':'})) else s
  }

  function NetlocOf(s: string): string { if "//" <= s then Before(s[2..], HOST_END) else "" }

  function AfterNetloc(s: string): string { if "//" <= s then From(s[2..], HOST_END) else s }

  function UrlSplit(s: string): Parts {
    var rest := AfterScheme(s);
    var beforeHash := Before(AfterNetloc(rest), {'#'});
    Parts(if HasScheme(s) then Lower(Before(s, {':'})) else "",
          NetlocOf(rest),
          Before(beforeHash, {'?'}),
          AfterFirst(From(beforeHash, {'?'})),
          AfterFirst(From(AfterNetloc(rest), {'#'})))
  }

  /** A path below a host is given the slash it lacks. */
  function Rooted(netloc: string, path: string): string {
    if netloc != "" && path != "" && path[0] != '/' then "/" + path else path
  }

  predicate TakesSlashes(p: Parts, known: Schemes) {
    p.netloc != "" || "//" <= p.path
        || (p.scheme != "" && p.scheme in known.netloc && (p.path == "" || p.path[0] == '/'))
  }

  function Rest(p: Parts): string { Rooted(p.netloc, p.path) + Marked('?', p.query) + Marked('#', p.fragment) }

  function Authority(p: Parts, known: Schemes): string {
    if TakesSlashes(p, known) then "//" + p.netloc else ""
  }

  function UrlUnsplit(p: Parts, known: Schemes): string {
    (if p.scheme == "" then "" else p.scheme + ":") + (Authority(p, known) + Rest(p))
  }

  // ---------------------------------------------------------------- splitting what was printed

  /** Parts that splitting some url can give. */
  predicate Split5(p: Parts) {
    && (p.scheme == "" || (IsScheme(p.scheme) && Lower(p.scheme) == p.scheme))
    && (forall c | c in p.netloc :: c !in HOST_END)
    && (forall c | c in p.path :: c != '?' && c != '#')
    && '#' !in p.query
    && (p.netloc != "" ==> p.path == "" || p.path[0] == '/')
    && (p.scheme == "" && p.netloc == "" ==> !HasScheme(p.path))
  }

  lemma {:induction false} SchemeStarts(s: string)
    ensures HasScheme(s) ==> s != "" && IsLetter(s[0])
  {
    assert Before(s, {':'}) != "" ==> Before(s, {':'})[0] == s[0];
  }

  lemma {:induction false} LowerIsScheme(s: string)
    requires IsScheme(s)
    ensures IsScheme(Lower(s)) && Lower(Lower(s)) == Lower(s)
  {
    forall c | c in Lower(s) ensures IsSchemeChar(c) {
      var i :| 0 <= i < |s| && Lower(s)[i] == c;
      assert s[i] in s;
    }
  }

  /** What ends a scheme too early keeps a text from having one that its longer form lacks. */
  lemma {:induction false} SchemeOfPrefix(q: string, a: string, b: string)
    requires a == "" || (!IsSchemeChar(a[0]) && a[0] != ':')
    requires HasScheme(q + a)
    ensures HasScheme(q + b)
  {
    var s, t := q + a, q + b;
    var c := Before(s, {':'});
    assert s[|c|] == ':';
    assert forall i | 0 <= i < |c| :: s[i] == c[i] && c[i] in c;
    assert forall i | 0 <= i < |c| :: IsSchemeChar(s[i]);
    assert a == "" || s[|q|] == a[0];
    assert |c| < |q|;
    assert t == c + t[|c|..] && t[|c|..][0] == ':';
    CutAt(c, t[|c|..], {':'});
  }

  lemma {:induction false} SplitGivesParts(s: string)
    ensures Split5(UrlSplit(s))
  {
    var p, rest := UrlSplit(s), AfterScheme(s);
    if HasScheme(s) { LowerIsScheme(Before(s, {':'})); }
    var beforeHash := Before(AfterNetloc(rest), {'#'});
    assert forall c | c in beforeHash :: c != '#';
    assert beforeHash == p.path + From(beforeHash, {'?'});
    assert forall c | c in p.path :: c in beforeHash;
    assert forall c | c in p.query :: c in From(beforeHash, {'?'}) && c in beforeHash;
    if p.netloc != "" && p.path != "" { assert AfterNetloc(rest)[0] == p.path[0]; }
    if p.scheme == "" { PathHasNoScheme(s); }
  }

  lemma {:induction false} PathHasNoScheme(s: string)
    requires !HasScheme(s)
    ensures !HasScheme(UrlSplit(s).path)
  {
    var after := AfterNetloc(s);
    var beforeHash := Before(after, {'#'});
    var path := Before(beforeHash, {'?'});
    assert UrlSplit(s).path == path;
    if "//" <= s {
      assert after == "" || after[0] in HOST_END;
      assert path == "" || path[0] == after[0];
      SchemeStarts(path);
    } else {
      PrefixHasNoScheme(path, From(beforeHash, {'?'}), From(s, {'#'}));
    }
  }

  lemma {:induction false} PrefixHasNoScheme(path: string, query: string, fragment: string)
    requires !HasScheme(path + query + fragment)
    ensures !HasScheme(path)
  {
    assert path + query + fragment == path + (query + fragment) && path + "" == path;
    if HasScheme(path) { SchemeOfPrefix(path, "", query + fragment); }
  }

  lemma {:induction false} SchemeIsFound(scheme: string, rest: string)
    requires IsScheme(scheme)
    ensures HasScheme(scheme + ":" + rest) && Before(scheme + ":" + rest, {':'}) == scheme
                && AfterScheme(scheme + ":" + rest) == rest
  {
    var s := scheme + ":" + rest;
    assert s == scheme + (":" + rest) && forall c | c in scheme :: c != ':';
    CutAt(scheme, ":" + rest, {':'});
    assert (":" + rest)[1..] == rest;
  }

  lemma {:induction false} RestIsFound(p: Parts)
    requires Split5(p) && p.query == ""
    ensures var r := Rest(p);
            var beforeHash := Before(r, {'#'});
            && Before(beforeHash, {'?'}) == Rooted(p.netloc, p.path) && AfterFirst(From(beforeHash, {'?'})) == ""
            && AfterFirst(From(r, {'#'})) == p.fragment
  {
    var path := Rooted(p.netloc, p.path);
    assert Rest(p) == path + Marked('#', p.fragment);
    CutAt(path, Marked('#', p.fragment), {'#'});
    assert path + "" == path;
    CutAt(path, "", {'?'});
  }

  lemma {:induction false} SlashesAreFound(netloc: string, rest: string)
    requires (forall c | c in netloc :: c !in HOST_END) && (rest == "" || rest[0] in HOST_END)
    ensures NetlocOf("//" + netloc + rest) == netloc && AfterNetloc("//" + netloc + rest) == rest
  {
    var s := "//" + netloc + rest;
    assert s[2..] == netloc + rest && "//" <= s;
    CutAt(netloc, rest, HOST_END);
  }

  lemma {:induction false} NoSlashesAreFound(path: string, fragment: string)
    requires !("//" <= path)
    ensures var s := path + Marked('#', fragment); NetlocOf(s) == "" && AfterNetloc(s) == s
  {
    var s := path + Marked('#', fragment);
    assert |s| < 2 || |path| >= 2 || s[1] == '#' || s[0] == '#';
  }

  lemma {:induction false} NetlocIsFound(p: Parts, known: Schemes)
    requires Split5(p) && p.query == ""
    ensures var s := Authority(p, known) + Rest(p); NetlocOf(s) == p.netloc && AfterNetloc(s) == Rest(p)
  {
    if TakesSlashes(p, known) {
      SlashesAreFound(p.netloc, Rest(p));
      assert Authority(p, known) + Rest(p) == "//" + p.netloc + Rest(p);
    } else {
      NoSlashesAreFound(p.path, p.fragment);
      assert Authority(p, known) + Rest(p) == p.path + Marked('#', p.fragment) == Rest(p);
    }
  }

  lemma {:induction false} NoSchemeWithFragment(path: string, fragment: string)
    requires !HasScheme(path)
    ensures !HasScheme(path + Marked('#', fragment))
  {
    assert path + "" == path;
    if HasScheme(path + Marked('#', fragment)) { SchemeOfPrefix(path, Marked('#', fragment), ""); }
  }

  lemma {:induction false} NoSchemeIsFound(p: Parts, known: Schemes)
    requires Split5(p) && p.query == "" && p.scheme == ""
    ensures !HasScheme(Authority(p, known) + Rest(p))
  {
    var s := Authority(p, known) + Rest(p);
    if TakesSlashes(p, known) {
      assert s[0] == '/';
      SchemeStarts(s);
    } else {
      assert s == p.path + Marked('#', p.fragment);
      NoSchemeWithFragment(p.path, p.fragment);
    }
  }

  /** What is printed after the scheme is found again. */
  lemma {:induction false} BodyIsFound(p: Parts, known: Schemes, s: string)
    requires Split5(p) && p.query == "" && AfterScheme(s) == Authority(p, known) + Rest(p)
    requires p.scheme == if HasScheme(s) then Lower(Before(s, {':'})) else ""
    ensures UrlSplit(s) == p.(path := Rooted(p.netloc, p.path))
  {
    NetlocIsFound(p, known);
    RestIsFound(p);
  }

  lemma {:induction false} SplitOfRooted(p: Parts, known: Schemes)
    requires Split5(p) && p.query == ""
    ensures UrlSplit(UrlUnsplit(p, known)) == p.(path := Rooted(p.netloc, p.path))
  {
    var body := Authority(p, known) + Rest(p);
    if p.scheme != "" {
      assert UrlUnsplit(p, known) == p.scheme + ":" + body;
      SchemeIsFound(p.scheme, body);
    } else {
      assert UrlUnsplit(p, known) == body;
      NoSchemeIsFound(p, known);
    }
    BodyIsFound(p, known, UrlUnsplit(p, known));
  }

  lemma {:induction false} UnsplitRooted(p: Parts, known: Schemes)
    ensures UrlUnsplit(p.(path := Rooted(p.netloc, p.path)), known) == UrlUnsplit(p, known)
  {}

  /** Splitting undoes printing, but for the slash that a path below a host was given. */
  lemma {:induction false} SplitOfUnsplit(p: Parts, known: Schemes)
    requires Split5(p.(path := Rooted(p.netloc, p.path))) && p.query == ""
    ensures UrlSplit(UrlUnsplit(p, known)) == p.(path := Rooted(p.netloc, p.path))
  {
    UnsplitRooted(p, known);
    SplitOfRooted(p.(path := Rooted(p.netloc, p.path)), known);
  }

  // ---------------------------------------------------------------- splitting a written url

  /** Lower case changes capital letters to the small ones and nothing else. */
  lemma {:induction false} LowerIs(s: string, i: nat)
    requires i < |s|
    ensures var c := Lower(s)[i];
            if 'A' <= s[i] <= 'Z' then 'a' <= c <= 'z' && c as int - 'a' as int == s[i] as int - 'A' as int
            else c == s[i]
  {}

  lemma {:induction false} TailIsFound(path: string, query: string, fragment: string)
    requires (forall c | c in path :: c != '?' && c != '#') && '#' !in query
    ensures var r := path + Marked('?', query) + Marked('#', fragment);
            && Before(r, {'#'}) == path + Marked('?', query) && AfterFirst(From(r, {'#'})) == fragment
  {
    CutAt(path + Marked('?', query), Marked('#', fragment), {'#'});
  }

  lemma {:induction false} QueryIsFound(path: string, query: string)
    requires forall c | c in path :: c != '?'
    ensures var r := path + Marked('?', query);
            Before(r, {'?'}) == path && AfterFirst(From(r, {'?'})) == query
  {
    CutAt(path, Marked('?', query), {'?'});
  }

  /** How a url with a host is taken apart: at the first colon, the slashes, the first `#` and the first `?`. */
  lemma {:induction false} SplitOfWritten(scheme: string, netloc: string, path: string, query: string, fragment: string)
    requires IsScheme(scheme) && (path == "" || path[0] == '/')
    requires (forall c | c in netloc :: c !in HOST_END) && (forall c | c in path :: c != '?' && c != '#')
                && '#' !in query
    ensures UrlSplit(scheme + ":" + ("//" + netloc + (path + Marked('?', query) + Marked('#', fragment))))
         == Parts(Lower(scheme), netloc, path, query, fragment)
  {
    var rest := path + Marked('?', query) + Marked('#', fragment);
    SchemeIsFound(scheme, "//" + netloc + rest);
    SlashesAreFound(netloc, rest);
    TailIsFound(path, query, fragment);
    QueryIsFound(path, query);
  }

  // ---------------------------------------------------------------- urlparse and urlunparse

  datatype Url = Url(scheme: string, netloc: string, path: string, params: string, query: string, fragment: string)

  /** What stands before the first semicolon of a segment, and after it. */
  function Head(segment: string, takesParams: bool): string {
    if takesParams then Before(segment, {';'}) else segment
  }

  function Tail(segment: string, takesParams: bool): string {
    if takesParams then AfterFirst(From(segment, {';'})) else ""
  }

  function Front<T>(xs: seq<T>): (r: seq<T>)
    requires xs != []
    ensures xs == r + [Last(xs)]
  {
    xs[..|xs| - 1]
  }

  function Last<T>(xs: seq<T>): T
    requires xs != []
  {
    xs[|xs| - 1]
  }

  predicate TakesParams(scheme: string, known: Schemes) { scheme in known.params }

  /** Splits the parameters off the last segment of the path. */
  function WithParams(p: Parts, known: Schemes): Url {
    var segments, takes := Split(p.path, '/'), TakesParams(p.scheme, known);
    Url(p.scheme, p.netloc, Join(Front(segments) + [Head(Last(segments), takes)], '/'), Tail(Last(segments), takes),
        p.query, p.fragment)
  }

  function WithoutParams(u: Url): Parts {
    Parts(u.scheme, u.netloc, u.path + Marked(';', u.params), u.query, u.fragment)
  }

  function Parsed(s: string, known: Schemes): Url { WithParams(UrlSplit(s), known) }

  function Printed(u: Url, known: Schemes): string { UrlUnsplit(WithoutParams(u), known) }

  // ---------------------------------------------------------------- normalising

  predicate IsViewSuffix(segment: string) { segment == "edit" || segment == "view" || segment == "preview" }

  /** Drops the query, and one trailing edit, view or preview segment. */
  function Normalized(u: Url): Url {
    var segments := Split(u.path, '/');
    if IsViewSuffix(Last(segments)) then u.(query := "", path := Join(Front(segments), '/')) else u.(query := "")
  }

  function NormalId(url: string, known: Schemes): string { Printed(Normalized(Parsed(url, known)), known) }

  /** `v` has no query, the segments of `u` without a trailing view segment, and is otherwise `u`. */
  predicate Stripped(u: Url, v: Url) {
    var segments := Split(u.path, '/');
    && v.scheme == u.scheme && v.netloc == u.netloc && v.params == u.params && v.fragment == u.fragment
    && v.query == ""
    && Split(v.path, '/') == if !IsViewSuffix(Last(segments)) then segments else if |segments| == 1 then [""]
        else Front(segments)
  }

  lemma {:induction false} NormalizedIsStripped(u: Url)
    ensures Stripped(u, Normalized(u))
  {
    var segments := Split(u.path, '/');
    if |segments| > 1 { FrontSplits(u.path); }
  }

  lemma {:induction false} FrontSplits(path: string)
    requires |Split(path, '/')| >= 2
    ensures Split(Join(Front(Split(path, '/')), '/'), '/') == Front(Split(path, '/'))
  {
    var segments := Split(path, '/');
    SplitPiecesLackSeparator(path, '/');
    assert forall p | p in Front(segments) :: p in segments;
    SplitJoin(Front(segments), '/');
  }

  method NormalizeGoogleDriveUrl(url: string, known: Schemes) returns (r: string)
    ensures exists v :: Stripped(Parsed(url, known), v) && r == Printed(v, known)
    ensures r == NormalId(url, known)
  {
    var u := Parsed(url, known).(query := "");
    var segments := Split(u.path, '/');
    NormalizedIsStripped(Parsed(url, known));
    if IsViewSuffix(segments[|segments| - 1]) {
      segments := segments[..|segments| - 1];
      u := u.(path := Join(segments, '/'));
    }
    r := Printed(u, known);
  }

  // ---------------------------------------------------------------- normalising twice

  /** What normalising makes of the segments of a path. */
  function Tidied(segments: seq<string>, takes: bool): (r: seq<string>)
    requires segments != []
    ensures r != []
  {
    var head, tail := Head(Last(segments), takes), Marked(';', Tail(Last(segments), takes));
    if !IsViewSuffix(head) then Front(segments) + [head + tail]
    else if |segments| == 1 then [tail]
    else Front(Front(segments)) + [Last(Front(segments)) + tail]
  }

  /**
   The path ends in a view segment, and the segment before it would lose something when it comes last:
   it is a view segment up to its first semicolon, or nothing follows that semicolon.
   */
  predicate LosesMore(segments: seq<string>, takes: bool)
    requires segments != []
  {
    && |segments| >= 2 && IsViewSuffix(Head(Last(segments), takes))
    && var last := Last(Front(segments));
       || IsViewSuffix(Head(last, takes))
       || (takes && ';' in last && Tail(last, takes) == "" && Tail(Last(segments), takes) == "")
  }

  lemma {:induction false} HeadOfExtended(segment: string, more: string)
    ensures Head(segment + Marked(';', more), true) == Head(segment, true)
    ensures Tail(segment + Marked(';', more), true) ==
              if ';' in segment then Tail(segment, true) + Marked(';', more) else more
  {
    var s, mark := segment + Marked(';', more), Marked(';', more);
    var head, rest := Before(segment, {';'}), From(segment, {';'});
    assert ';' in segment <==> rest != "" by { assert segment == head + rest; }
    assert s == head + (rest + mark);
    CutAt(head, rest + mark, {';'});
    assert rest == "" ==> rest + mark == mark;
  }

  lemma {:induction false} HeadAndTail(segment: string, takes: bool)
    ensures Head(segment, takes) + Marked(';', Tail(segment, takes)) == segment
       <==> !(takes && ';' in segment && Tail(segment, takes) == "")
  {
    var head, rest := Before(segment, {';'}), From(segment, {';'});
    assert segment == head + rest;
    assert rest != "" ==> rest == [';'] + rest[1..];
  }

  lemma {:induction false} WithoutMark(segment: string, takes: bool)
    requires takes ==> ';' !in segment
    ensures Head(segment, takes) == segment && Tail(segment, takes) == ""
  {
    assert segment + "" == segment;
    if takes { CutAt(segment, "", {';'}); }
  }

  /** A segment that was given the parameters of another, taken apart again. */
  lemma {:induction false} Extended(segment: string, last: string, takes: bool)
    ensures var longer := segment + Marked(';', Tail(last, takes));
            && Head(longer, takes) == Head(segment, takes)
            && (Head(longer, takes) + Marked(';', Tail(longer, takes)) == longer <==>
                !(takes && ';' in segment && Tail(segment, takes) == "" && Tail(last, takes) == ""))
  {
    var longer := segment + Marked(';', Tail(last, takes));
    HeadAndTail(longer, takes);
    if takes { HeadOfExtended(segment, Tail(last, takes)); } else { assert longer == segment; }
  }

  /** Tidying is stable exactly when the path loses nothing more. */
  lemma {:induction false} TidiedTwice(segments: seq<string>, takes: bool)
    requires segments != []
    ensures Tidied(Tidied(segments, takes), takes) == Tidied(segments, takes) <==> !LosesMore(segments, takes)
  {
    var last := Last(segments);
    var head := Head(last, takes);
    if !IsViewSuffix(head) {
      WithoutMark(head, takes);
      Extended(head, last, takes);
    } else if |segments| == 1 {
      WithoutMark("", takes);
      Extended("", last, takes);
    } else {
      TidiedTwiceBelow(segments, takes);
    }
  }

  lemma {:induction false} TidiedTwiceBelow(segments: seq<string>, takes: bool)
    requires |segments| >= 2 && IsViewSuffix(Head(Last(segments), takes))
    ensures Tidied(Tidied(segments, takes), takes) == Tidied(segments, takes) <==> !LosesMore(segments, takes)
  {
    var last, before := Last(segments), Last(Front(segments));
    var once := Tidied(segments, takes);
    var twice := Tidied(once, takes);
    Extended(before, last, takes);
    assert Last(once) == before + Marked(';', Tail(last, takes)) && Front(once) == Front(Front(segments));
    if IsViewSuffix(Head(before, takes)) {
      assert |once| > 1 ==> |twice| == |once| - 1;
      assert |once| == 1 ==> |twice[0]| < |Last(once)|;
    } else {
      assert twice == once <==> Last(twice) == Last(once);
    }
  }

  /** The path of a url is what parsing leaves of it, and the semicolon and parameters. */
  lemma {:induction false} ParsedPath(p: Parts, known: Schemes) returns (rest: string)
    ensures var u := WithParams(p, known);
            && p.path == u.path + rest && (rest == "" || rest[0] == ';') && u.params == AfterFirst(rest)
            && Split(u.path, '/') == Front(Split(p.path, '/'))
                + [Head(Last(Split(p.path, '/')), TakesParams(p.scheme, known))]
  {
    var segments, takes := Split(p.path, '/'), TakesParams(p.scheme, known);
    var last := Last(segments);
    rest := if takes then From(last, {';'}) else "";
    assert last == Head(last, takes) + rest;
    JoinSplit(p.path, '/');
    JoinExtendLast(Front(segments), Head(last, takes), rest, '/');
    SplitPiecesLackSeparator(p.path, '/');
    assert last in segments;
    assert forall s | s in Front(segments) :: s in segments;
    SplitJoin(Front(segments) + [Head(last, takes)], '/');
  }

  lemma {:induction false} TidiedPath(u: Url, segments: seq<string>, takes: bool)
    requires segments != [] && Split(u.path, '/') == Front(segments) + [Head(Last(segments), takes)]
    requires u.params == Tail(Last(segments), takes)
    ensures Normalized(u).path + Marked(';', u.params) == Join(Tidied(segments, takes), '/')
  {
    var head, tail := Head(Last(segments), takes), Marked(';', u.params);
    assert Front(Split(u.path, '/')) == Front(segments) && Last(Split(u.path, '/')) == head;
    if !IsViewSuffix(head) {
      JoinSplit(u.path, '/');
      JoinExtendLast(Front(segments), head, tail, '/');
    } else if |segments| > 1 {
      JoinExtendLast(Front(Front(segments)), Last(Front(segments)), tail, '/');
    }
  }

  /** The canonical id of a url is the url without query and with its path tidied. */
  function Cleaned(p: Parts, known: Schemes): Parts {
    p.(path := Join(Tidied(Split(p.path, '/'), TakesParams(p.scheme, known)), '/'), query := "")
  }

  lemma {:induction false} NormalIsCleaned(p: Parts, known: Schemes)
    ensures WithoutParams(Normalized(WithParams(p, known))) == Cleaned(p, known)
  {
    var rest := ParsedPath(p, known);
    TidiedPath(WithParams(p, known), Split(p.path, '/'), TakesParams(p.scheme, known));
    OtherFieldsStay(WithParams(p, known), Cleaned(p, known).path);
  }

  lemma {:induction false} OtherFieldsStay(u: Url, path: string)
    requires Normalized(u).path + Marked(';', u.params) == path
    ensures WithoutParams(Normalized(u)) == Parts(u.scheme, u.netloc, path, "", u.fragment)
  {}

  /** The normalised path begins as the path does; what follows is parameters. */
  lemma {:induction false} NormalExtends(u: Url, path: string, rest: string)
    returns (q: string, more: string, tail: string)
    requires path == u.path + rest && u.params == AfterFirst(rest)
    ensures path == q + more && WithoutParams(Normalized(u)).path == q + tail
    ensures (tail == "" || tail[0] == ';') && forall c | c in tail :: c == ';' || c in more
  {
    var dropped := NormalIsPrefix(u);
    q, more, tail := Normalized(u).path, dropped + rest, Marked(';', u.params);
    assert forall c | c in tail :: c == ';' || c in rest;
    OtherFieldsStay(u, q + tail);
  }

  lemma {:induction false} CleanedSplits(p: Parts, known: Schemes)
    requires Split5(p)
    ensures var c := Cleaned(p, known); Split5(c.(path := Rooted(c.netloc, c.path)))
  {
    var rest := ParsedPath(p, known);
    var q, more, tail := NormalExtends(WithParams(p, known), p.path, rest);
    NormalIsCleaned(p, known);
    PrefixSplits(p, q, more, tail);
  }

  lemma {:induction false} PrefixSplits(p: Parts, q: string, more: string, tail: string)
    requires Split5(p) && p.path == q + more
    requires tail == "" || tail[0] == ';'
    requires forall c | c in tail :: c == ';' || c in more
    ensures Split5(p.(path := Rooted(p.netloc, q + tail), query := ""))
  {
    forall c | c in q + tail ensures c != '?' && c != '#' {
      assert c in q || c in more ==> c in p.path;
    }
    if HasScheme(q + tail) { SchemeOfPrefix(q, tail, more); }
  }

  lemma {:induction false} NormalIsPrefix(u: Url) returns (more: string)
    ensures u.path == Normalized(u).path + more
  {
    var segments := Split(u.path, '/');
    JoinSplit(u.path, '/');
    more := "";
    if IsViewSuffix(Last(segments)) {
      if |segments| == 1 { more := u.path; } else {
        JoinSnoc(Front(segments), Last(segments), '/');
        more := ['/'] + Last(segments);
      }
    }
  }

  lemma {:induction false} TidiedLacksSlash(segments: seq<string>, takes: bool)
    requires segments != [] && forall s | s in segments :: '/' !in s
    ensures forall s | s in Tidied(segments, takes) :: '/' !in s
  {
    assert Last(segments) in segments;
    if |segments| > 1 { assert Last(Front(segments)) in segments; }
    assert forall s | s in Front(segments) :: s in segments;
  }

  /** What splitting a canonical id gives back. */
  lemma {:induction false} SplitOfNormal(url: string, known: Schemes)
    ensures var p := Cleaned(UrlSplit(url), known);
            UrlSplit(NormalId(url, known)) == p.(path := Rooted(p.netloc, p.path))
  {
    SplitGivesParts(url);
    NormalIsCleaned(UrlSplit(url), known);
    CleanedSplits(UrlSplit(url), known);
    SplitOfUnsplit(Cleaned(UrlSplit(url), known), known);
  }

  /** A path below a host begins with a slash, so only a lone view segment with parameters loses it. */
  lemma {:induction false} RootedTidied(netloc: string, path: string, takes: bool)
    requires netloc != "" ==> path == "" || path[0] == '/'
    ensures var segments := Split(path, '/');
            var tidied := Join(Tidied(segments, takes), '/');
            Rooted(netloc, tidied) != tidied ==>
              |segments| == 2 && segments[0] == "" && IsViewSuffix(Head(segments[1], takes))
  {
    var segments := Split(path, '/');
    var tidied := Tidied(segments, takes);
    if path == "" {
      WithoutMark("", takes);
    } else if netloc != "" {
      assert segments[0] == "" && |segments| >= 2;
      if |tidied| >= 2 {
        assert tidied[0] == "";
        assert Join(tidied, '/') == tidied[0] + ['/'] + Join(tidied[1..], '/');
      }
    }
  }

  /** The path of a canonical id: tidied, and rooted below a host. */
  function CanonicalPath(netloc: string, path: string, takes: bool): string {
    Rooted(netloc, Join(Tidied(Split(path, '/'), takes), '/'))
  }

  lemma {:induction false} SplitOfTidied(path: string, takes: bool)
    ensures var tidied := Tidied(Split(path, '/'), takes); Split(Join(tidied, '/'), '/') == tidied
  {
    SplitPiecesLackSeparator(path, '/');
    TidiedLacksSlash(Split(path, '/'), takes);
    SplitJoin(Tidied(Split(path, '/'), takes), '/');
  }

  /** Parameters that stand alone are not a view segment, and stay what they are. */
  lemma {:induction false} LoneParams(last: string, takes: bool)
    ensures var tail := Marked(';', Tail(last, takes));
            !IsViewSuffix(Head(tail, takes)) && Tidied(["", tail], takes) == ["", tail]
  {
    WithoutMark("", takes);
    Extended("", last, takes);
    assert "" + Marked(';', Tail(last, takes)) == Marked(';', Tail(last, takes));
  }

  /** With the slash that was put in front, a lone view segment with parameters is gone for good. */
  lemma {:induction false} RootedTwice(netloc: string, segments: seq<string>, takes: bool)
    requires |segments| == 2 && segments[0] == "" && IsViewSuffix(Head(segments[1], takes))
    requires netloc != "" && '/' !in Join(Tidied(segments, takes), '/')
    ensures var rooted := "/" + Join(Tidied(segments, takes), '/');
            !LosesMore(segments, takes) && Join(Tidied(Split(rooted, '/'), takes), '/') == rooted
  {
    var tail := Marked(';', Tail(segments[1], takes));
    LoneParams(segments[1], takes);
    WithoutMark("", takes);
    assert Tidied(segments, takes) == [tail];
    SplitPiece(tail, '/');
    assert Split("/" + tail, '/') == ["", tail];
  }

  lemma {:induction false} CanonicalPathTwice(netloc: string, path: string, takes: bool)
    requires netloc != "" ==> path == "" || path[0] == '/'
    ensures CanonicalPath(netloc, CanonicalPath(netloc, path, takes), takes) == CanonicalPath(netloc, path, takes)
       <==> !LosesMore(Split(path, '/'), takes)
  {
    var segments := Split(path, '/');
    var once := Tidied(segments, takes);
    var text := Join(once, '/');
    SplitOfTidied(path, takes);
    RootedTidied(netloc, path, takes);
    if Rooted(netloc, text) == text {
      SplitOfTidied(text, takes);
      TidiedTwice(segments, takes);
      RootedShorter(netloc, once, takes);
    } else {
      assert once == [once[0]];
      assert '/' !in text by { SplitPiecesLackSeparator(text, '/'); }
      RootedTwice(netloc, segments, takes);
    }
  }

  /** The slash put in front does not make up for a segment that was dropped. */
  lemma {:induction false} RootedShorter(netloc: string, once: seq<string>, takes: bool)
    requires once != [] && Split(Join(once, '/'), '/') == once
    requires netloc != "" ==> Join(once, '/') == "" || Join(once, '/')[0] == '/'
    ensures Join(Tidied(once, takes), '/') != Join(once, '/') ==>
              Rooted(netloc, Join(Tidied(once, takes), '/')) != Join(once, '/')
  {
    var again := Join(Tidied(once, takes), '/');
    RootedTidied(netloc, Join(once, '/'), takes);
    if Rooted(netloc, again) != again {
      LoneParams(once[1], takes);
      assert Join(once, '/') == "/" + once[1];
      assert again == Marked(';', Tail(once[1], takes));
    }
  }

  /** The path of the id would lose more when it is normalised again. */
  predicate LosesMoreId(url: string, known: Schemes) {
    LosesMore(Split(UrlSplit(url).path, '/'), TakesParams(UrlSplit(url).scheme, known))
  }

  /** Two urls that differ in their paths only are printed alike exactly when the rooted paths agree. */
  lemma {:induction false} PrintedAlike(c: Parts, path: string, known: Schemes)
    requires var d := c.(path := path);
             && UrlSplit(UrlUnsplit(c, known)) == c.(path := Rooted(c.netloc, c.path))
             && UrlSplit(UrlUnsplit(d, known)) == d.(path := Rooted(d.netloc, d.path))
    ensures UrlUnsplit(c, known) == UrlUnsplit(c.(path := path), known) <==>
              Rooted(c.netloc, c.path) == Rooted(c.netloc, path)
  {
    var d := c.(path := path);
    UnsplitRooted(c, known);
    UnsplitRooted(d, known);
    if Rooted(c.netloc, c.path) == Rooted(c.netloc, path) {
      assert c.(path := Rooted(c.netloc, c.path)) == d.(path := Rooted(d.netloc, d.path));
    }
  }

  /** Normalising is stable exactly when the path of the url would not lose more. */
  lemma {:induction false} NormalizingTwice(url: string, known: Schemes)
    ensures NormalId(NormalId(url, known), known) == NormalId(url, known) <==> !LosesMoreId(url, known)
  {
    var p, once := UrlSplit(url), NormalId(url, known);
    var c, d := Cleaned(p, known), Cleaned(UrlSplit(once), known);
    SplitOfNormal(url, known);
    SplitOfNormal(once, known);
    NormalIdIs(url, known);
    NormalIdIs(once, known);
    assert d == c.(path := d.path);
    PrintedAlike(c, d.path, known);
    SplitGivesParts(url);
    CanonicalPathTwice(p.netloc, p.path, TakesParams(p.scheme, known));
  }

  lemma {:induction false} NormalIdIs(url: string, known: Schemes)
    ensures NormalId(url, known) == UrlUnsplit(Cleaned(UrlSplit(url), known), known)
  {
    NormalIsCleaned(UrlSplit(url), known);
  }

  // ---------------------------------------------------------------- an id that is not canonical after one pass

  /** An https url of the given path segments, as printed. */
  function Web(segments: seq<string>, known: Schemes): string {
    UrlUnsplit(Parts("https", "x", Join(segments, '/'), "", ""), known)
  }

  predicate IsWord(s: string) { forall c | c in s :: IsLetter(c) || c == ';' }

  predicate AreWeb(segments: seq<string>) {
    |segments| >= 2 && segments[0] == "" && forall s | s in segments :: IsWord(s)
  }

  lemma {:induction false} JoinedWords(segments: seq<string>)
    requires forall s | s in segments :: IsWord(s)
    ensures forall c | c in Join(segments, '/') :: IsLetter(c) || c == ';' || c == '/'
  {
    if segments != [] { assert IsWord(segments[0]); }
    if |segments| > 1 { JoinedWords(segments[1..]); }
  }

  lemma {:induction false} WebIsSplit5(segments: seq<string>)
    requires AreWeb(segments)
    ensures Split5(Parts("https", "x", Join(segments, '/'), "", ""))
  {
    JoinedWords(segments);
    assert Join(segments, '/') == "" + ['/'] + Join(segments[1..], '/');
    assert Lower("https") == "https";
  }

  lemma {:induction false} WebSplits(segments: seq<string>, known: Schemes)
    requires AreWeb(segments)
    ensures UrlSplit(Web(segments, known)) == Parts("https", "x", Join(segments, '/'), "", "")
    ensures Split(Join(segments, '/'), '/') == segments
  {
    WebIsSplit5(segments);
    assert Join(segments, '/') == "" + ['/'] + Join(segments[1..], '/');
    SplitOfUnsplit(Parts("https", "x", Join(segments, '/'), "", ""), known);
    forall s | s in segments ensures '/' !in s { assert IsWord(s); }
    SplitJoin(segments, '/');
  }

  lemma {:induction false} WebNormal(segments: seq<string>, known: Schemes)
    requires AreWeb(segments) && "https" in known.params
    ensures NormalId(Web(segments, known), known) == Web(Tidied(segments, true), known)
  {
    WebSplits(segments, known);
    NormalIdIs(Web(segments, known), known);
  }

  /** The segments of a url in which a view segment with parameters is hidden below another one. */
  function Hidden(name: string, view: string, params: string): seq<string> { ["", name, view + ";" + params, view] }

  predicate IsHidden(name: string, view: string, params: string) {
    IsWord(name) && IsViewSuffix(view) && IsWord(params) && ';' !in name && params != ""
  }

  lemma {:induction false} HiddenIsWeb(name: string, view: string, params: string)
    requires IsHidden(name, view, params)
    ensures IsWord(view) && IsWord(view + ";" + params) && IsWord(name + ";" + params) && IsWord("")
    ensures AreWeb(Hidden(name, view, params)) && AreWeb(["", name, view + ";" + params])
                && AreWeb(["", name + ";" + params])
  {}

  lemma {:induction false} HiddenTidied(name: string, view: string, params: string)
    requires IsHidden(name, view, params)
    ensures Tidied(Hidden(name, view, params), true) == ["", name, view + ";" + params]
    ensures Tidied(["", name, view + ";" + params], true) == ["", name + ";" + params]
  {
    WithoutMark(view, true);
    CutAt(view, ";" + params, {';'});
    assert view + (";" + params) == view + ";" + params && view + ";" + params + "" == view + ";" + params;
    assert (";" + params)[1..] == params;
    var once := ["", name, view + ";" + params];
    assert Front(Front(once)) == [""] && Last(Front(once)) == name;
    assert Front(Front(Hidden(name, view, params))) == ["", name];
    assert name + (";" + params) == name + ";" + params;
  }

  /** It shows only when the canonical id is normalised again. */
  lemma {:induction false} HiddenView(name: string, view: string, params: string, known: Schemes)
    requires IsHidden(name, view, params) && "https" in known.params
    ensures NormalId(Web(Hidden(name, view, params), known), known) == Web(["", name, view + ";" + params], known)
    ensures NormalId(Web(["", name, view + ";" + params], known), known) == Web(["", name + ";" + params], known)
  {
    HiddenIsWeb(name, view, params);
    HiddenTidied(name, view, params);
    WebNormal(Hidden(name, view, params), known);
    WebNormal(["", name, view + ";" + params], known);
  }

  /** For a name that is no view segment, the second pass is the last. */
  lemma {:induction false} HiddenEnds(name: string, view: string, params: string, known: Schemes)
    requires IsHidden(name, view, params) && "https" in known.params && !IsViewSuffix(name)
    ensures NormalId(Web(["", name + ";" + params], known), known) == Web(["", name + ";" + params], known)
  {
    HiddenIsWeb(name, view, params);
    CutAt(name, ";" + params, {';'});
    assert name + (";" + params) == name + ";" + params;
    assert (";" + params)[1..] == params;
    WebNormal(["", name + ";" + params], known);
  }

  /** Different segments print as different urls. */
  lemma {:induction false} WebDiffers(a: seq<string>, b: seq<string>, known: Schemes)
    requires AreWeb(a) && AreWeb(b) && a != b
    ensures Web(a, known) != Web(b, known)
  {
    WebSplits(a, known);
    WebSplits(b, known);
  }
}
