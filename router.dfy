/** The front controller's router: routes kept in registration order, `{name}` placeholders
    compiled into one-segment captures, and dispatch to the first route that matches. */
module Routing {
  import opened Common

  // ================================================================ patterns

  /** A compiled path: literal characters, and `([^/]+)` captures where placeholders were. */
  datatype Token = Lit(c: char) | Param

  /** The number of characters before the first `}` (or the end). */
  function NameLength(s: string): (n: nat)
    ensures n <= |s| && (forall i :: 0 <= i < n ==> s[i] != '}') && (n < |s| ==> s[n] == '}')
  {
    if s == [] || s[0] == '}' then 0 else 1 + NameLength(s[1..])
  }

  /** `convertPathToRegex`: each `{`, a non-empty name without `}`, and `}` becomes a capture,
      scanning left to right; every other character stands for itself. */
  function CompilePath(path: string): seq<Token>
    decreases |path|
  {
    if path == [] then []
    else if path[0] == '{' && 0 < NameLength(path[1..]) < |path| - 1 then
      [Param] + CompilePath(path[NameLength(path[1..]) + 2..])
    else [Lit(path[0])] + CompilePath(path[1..])
  }

  function Lits(s: string): (ts: seq<Token>)
    ensures |ts| == |s| && forall i :: 0 <= i < |s| ==> ts[i] == Lit(s[i])
  {
    seq(|s|, i requires 0 <= i < |s| => Lit(s[i]))
  }

  /** A path without an opening brace is matched literally. */
  lemma {:induction false} CompileLiteralPath(path: string)
    requires '{' !in path
    ensures CompilePath(path) == Lits(path)
    decreases |path|
  {
    if path != [] {
      assert path[0] in path;
      assert forall c :: c in path[1..] ==> c in path;
      CompileLiteralPath(path[1..]);
      assert Lits(path) == [Lit(path[0])] + Lits(path[1..]);
    }
  }

  /** A literal stretch, then a placeholder: the stretch is kept and the placeholder becomes
      one capture, whatever it is called. */
  lemma {:induction false} CompilePlaceholder(prefix: string, name: string, rest: string)
    requires '{' !in prefix && name != [] && '}' !in name
    ensures CompilePath(prefix + "{" + name + "}" + rest) == Lits(prefix) + [Param] + CompilePath(rest)
    decreases |prefix|
  {
    var path := prefix + "{" + name + "}" + rest;
    if prefix == [] {
      PlaceholderFirst(name, rest);
      assert path == "{" + name + "}" + rest;
    } else {
      var c := prefix[0];
      var p1 := prefix[1..] + "{" + name + "}" + rest;
      assert path == [c] + p1 && c != '{' by {
        assert prefix == [c] + prefix[1..];
      }
      CompileCons(c, p1);
      assert '{' !in prefix[1..] by {
        assert prefix == [c] + prefix[1..];
      }
      CompilePlaceholder(prefix[1..], name, rest);
      LitsCons(prefix);
      TokensAssoc([Lit(c)], Lits(prefix[1..]), CompilePath(rest));
    }
  }

  lemma LitsCons(s: string)
    requires s != []
    ensures Lits(s) == [Lit(s[0])] + Lits(s[1..])
  {
  }

  lemma TokensAssoc(a: seq<Token>, b: seq<Token>, t: seq<Token>)
    ensures a + (b + [Param] + t) == (a + b) + [Param] + t
  {
  }

  lemma CompileCons(c: char, p: string)
    requires c != '{'
    ensures CompilePath([c] + p) == [Lit(c)] + CompilePath(p)
  {
    assert ([c] + p)[1..] == p;
  }

  lemma PlaceholderFirst(name: string, rest: string)
    requires name != [] && '}' !in name
    ensures CompilePath("{" + name + "}" + rest) == [Param] + CompilePath(rest)
  {
    var path := "{" + name + "}" + rest;
    assert path[1..] == name + "}" + rest;
    NameLengthOf(name, rest);
    assert path[|name| + 2..] == rest;
  }

  lemma {:induction false} NameLengthOf(name: string, rest: string)
    requires '}' !in name
    ensures NameLength(name + "}" + rest) == |name|
    decreases |name|
  {
    if name != [] {
      assert name[0] in name;
      assert forall c :: c in name[1..] ==> c in name;
      assert (name + "}" + rest)[1..] == name[1..] + "}" + rest;
      NameLengthOf(name[1..], rest);
    }
  }

  // ================================================================ matching

  function ParamCount(ts: seq<Token>): nat
  {
    if ts == [] then 0 else (if ts[0] == Param then 1 else 0) + ParamCount(ts[1..])
  }

  /** A captured value: one or more characters, none of them `/`. */
  predicate IsSegment(v: string)
  {
    v != [] && '/' !in v
  }

  /** The text a compiled path spells with the given captures put in, in placeholder order. */
  function Fill(ts: seq<Token>, caps: seq<string>): string
    requires |caps| == ParamCount(ts)
  {
    if ts == [] then ""
    else match ts[0]
      case Lit(c) => [c] + Fill(ts[1..], caps)
      case Param => caps[0] + Fill(ts[1..], caps[1..])
  }

  /** The length of the longest prefix without `/`: what `[^/]+` can take. */
  function SegmentLength(s: string): (n: nat)
    ensures n <= |s| && '/' !in s[..n] && (n < |s| ==> s[n] == '/')
  {
    if s == [] || s[0] == '/' then 0
    else
      var n := 1 + SegmentLength(s[1..]);
      assert s[..n] == [s[0]] + s[1..][..n - 1];
      n
  }

  /** `preg_match('#^' . pattern . '$#', $uri, $matches)` with `$matches` minus the full match:
      literals match themselves, each capture is greedy and gives back characters until the rest
      matches, and the end is the end of the text or a final line feed. */
  function MatchTokens(ts: seq<Token>, s: string): Option<seq<string>>
    decreases |ts|, 0
  {
    if ts == [] then (if s == "" || s == "\n" then Some([]) else None)
    else match ts[0]
      case Lit(c) => if s != "" && s[0] == c then MatchTokens(ts[1..], s[1..]) else None
      case Param => TryParam(ts[1..], s, SegmentLength(s))
  }

  /** A capture of the first `n` characters, then shorter ones. */
  function TryParam(rest: seq<Token>, s: string, n: nat): Option<seq<string>>
    requires n <= |s|
    decreases |rest|, n
  {
    if n == 0 then None
    else match MatchTokens(rest, s[n..])
      case Some(caps) => Some([s[..n]] + caps)
      case None => TryParam(rest, s, n - 1)
  }

  /** What a match returns: one segment per placeholder, which put back into the pattern spell
      the text (up to a final line feed). */
  lemma {:induction false} MatchSound(ts: seq<Token>, s: string)
    requires MatchTokens(ts, s).Some?
    ensures var caps := MatchTokens(ts, s).value;
      |caps| == ParamCount(ts) && (forall i :: 0 <= i < |caps| ==> IsSegment(caps[i])) &&
      (Fill(ts, caps) == s || Fill(ts, caps) + "\n" == s)
    decreases |ts|, 0
  {
    if ts != [] {
      match ts[0]
      case Lit(c) =>
        MatchSound(ts[1..], s[1..]);
      case Param =>
        TryParamSound(ts[1..], s, SegmentLength(s));
    }
  }

  lemma {:induction false} TryParamSound(rest: seq<Token>, s: string, n: nat)
    requires n <= SegmentLength(s) && TryParam(rest, s, n).Some?
    ensures var caps := TryParam(rest, s, n).value;
      |caps| == 1 + ParamCount(rest) && (forall i :: 0 <= i < |caps| ==> IsSegment(caps[i])) &&
      (caps[0] + Fill(rest, caps[1..]) == s || caps[0] + Fill(rest, caps[1..]) + "\n" == s)
    decreases |rest|, n
  {
    var m := MatchTokens(rest, s[n..]);
    if m.Some? {
      MatchSound(rest, s[n..]);
      var caps := [s[..n]] + m.value;
      assert caps[1..] == m.value;
      assert '/' !in s[..n] by {
        assert s[..n] == s[..SegmentLength(s)][..n];
      }
      assert s == s[..n] + s[n..];
    } else {
      TryParamSound(rest, s, n - 1);
    }
  }

  /** Any way of filling the pattern with segments is found: a text the pattern can spell
      always matches. */
  lemma {:induction false} MatchComplete(ts: seq<Token>, s: string, caps: seq<string>)
    requires |caps| == ParamCount(ts) && forall i :: 0 <= i < |caps| ==> IsSegment(caps[i])
    requires Fill(ts, caps) == s || Fill(ts, caps) + "\n" == s
    ensures MatchTokens(ts, s).Some?
    decreases |ts|
  {
    if ts != [] {
      match ts[0]
      case Lit(c) =>
        assert s[1..] == Fill(ts[1..], caps) || s[1..] == Fill(ts[1..], caps) + "\n";
        MatchComplete(ts[1..], s[1..], caps);
      case Param =>
        var v := caps[0];
        var tail := Fill(ts[1..], caps[1..]);
        assert s[..|v|] == v && (s[|v|..] == tail || s[|v|..] == tail + "\n");
        assert forall i :: 0 <= i < |caps[1..]| ==> caps[1..][i] == caps[i + 1];
        MatchComplete(ts[1..], s[|v|..], caps[1..]);
        SegmentAtLeast(s, v);
        TryParamComplete(ts[1..], s, SegmentLength(s), |v|);
    }
  }

  lemma SegmentAtLeast(s: string, v: string)
    requires IsSegment(v) && |v| <= |s| && s[..|v|] == v
    ensures |v| <= SegmentLength(s)
  {
  }

  lemma {:induction false} TryParamComplete(rest: seq<Token>, s: string, n: nat, m: nat)
    requires 1 <= m <= n <= |s| && MatchTokens(rest, s[m..]).Some?
    ensures TryParam(rest, s, n).Some?
    decreases n
  {
    if MatchTokens(rest, s[n..]).None? {
      TryParamComplete(rest, s, n - 1, m);
    }
  }

  /** A path's captures never span a `/`: a text with an extra segment does not match. */
  lemma SegmentStopsAtSlash(v: string, w: string)
    requires IsSegment(v) && IsSegment(w)
    ensures MatchTokens([Param], v + "/" + w).None?
  {
    var s := v + "/" + w;
    assert s[..|v|] == v;
    SegmentAtLeast(s, v);
    assert s[|v|] == '/';
    assert SegmentLength(s) == |v|;
    NoShortEnd(s, |v|);
  }

  /** With two or more characters left after every cut, the rest never matches the end. */
  lemma {:induction false} NoShortEnd(s: string, n: nat)
    requires n + 2 <= |s|
    ensures TryParam([], s, n).None?
  {
    if n > 0 {
      NoShortEnd(s, n - 1);
    }
  }

  // ================================================================ dispatch

  /** What a route runs: a controller action, some other callable, or a value that is neither. */
  datatype Handler = Action(controller: string, action: string) | Callable(name: string) | NotCallable

  datatype Route = Route(verb: string, path: string, handler: Handler)

  /** Where dispatch ends: a handler called with the captures, the error a bad handler throws,
      or the 404 answer. */
  datatype Outcome = Invoke(handler: Handler, params: seq<string>) | InvalidHandler(msg: string) | NotFound(status: int, msg: string)

  /** The text before the query string and the fragment. */
  function PathOf(uri: string): (p: string)
    ensures |p| <= |uri| && p == uri[..|p|] && '?' !in p && '#' !in p
    ensures |p| < |uri| ==> uri[|p|] == '?' || uri[|p|] == '#'
  {
    if uri == [] || uri[0] == '?' || uri[0] == '#' then ""
    else
      var p := [uri[0]] + PathOf(uri[1..]);
      assert uri[..|p|] == [uri[0]] + uri[1..][..|p| - 1];
      p
  }

  /** `rtrim($s, '/')`. */
  function TrimSlashes(s: string): (r: string)
    ensures |r| <= |s| && r == s[..|r|] && (r == "" || r[|r| - 1] != '/')
    ensures forall i :: |r| <= i < |s| ==> s[i] == '/'
  {
    if s == [] || s[|s| - 1] != '/' then s else TrimSlashes(s[..|s| - 1])
  }

  /** The path dispatch works on: query and fragment cut, trailing slashes trimmed, and a
      falsy result ("" or "0") read as "/". */
  function NormalizeUri(uri: string): (r: string)
    ensures r != "" && '?' !in r && '#' !in r
    ensures r == "/" || r[|r| - 1] != '/'
    ensures r != "/" ==> (|r| <= |PathOf(uri)| && r == uri[..|r|] &&
      forall i :: |r| <= i < |PathOf(uri)| ==> uri[i] == '/')
    ensures r == "/" <==> TrimSlashes(PathOf(uri)) == "" || TrimSlashes(PathOf(uri)) == "0"
    ensures r != "/" ==> r == TrimSlashes(PathOf(uri))
  {
    var p := TrimSlashes(PathOf(uri));
    assert forall c :: c in p ==> c in PathOf(uri);
    if p == "" || p == "0" then "/" else p
  }

  /** Normalising twice is normalising once. */
  lemma NormalizeIdempotent(uri: string)
    ensures NormalizeUri(NormalizeUri(uri)) == NormalizeUri(uri)
  {
    var r := NormalizeUri(uri);
    if r != "/" {
      assert PathOf(r) == r by {
        PathOfPlain(r);
      }
    } else {
      assert PathOf(r) == r;
      assert TrimSlashes(r) == "";
    }
  }

  lemma {:induction false} PathOfPlain(s: string)
    requires '?' !in s && '#' !in s
    ensures PathOf(s) == s
    decreases |s|
  {
    if s != [] {
      assert s[0] in s;
      assert forall c :: c in s[1..] ==> c in s;
      PathOfPlain(s[1..]);
    }
  }

  /** A route fits a request when the methods agree and its compiled path matches. */
  predicate Fits(route: Route, verb: string, path: string)
  {
    route.verb == verb && MatchTokens(CompilePath(route.path), path).Some?
  }

  /** The first fitting route in registration order, with its captures. */
  function FirstMatch(routes: seq<Route>, verb: string, path: string): (r: Option<(nat, seq<string>)>)
    ensures r.Some? ==> (r.value.0 < |routes| && Fits(routes[r.value.0], verb, path) &&
      MatchTokens(CompilePath(routes[r.value.0].path), path) == Some(r.value.1) &&
      forall j :: 0 <= j < r.value.0 ==> !Fits(routes[j], verb, path))
    ensures r.None? <==> forall j :: 0 <= j < |routes| ==> !Fits(routes[j], verb, path)
    decreases |routes|
  {
    if routes == [] then None
    else if Fits(routes[0], verb, path) then Some((0, MatchTokens(CompilePath(routes[0].path), path).value))
    else
      var rest := FirstMatch(routes[1..], verb, path);
      assert forall j :: 1 <= j < |routes| ==> routes[j] == routes[1..][j - 1];
      match rest
      case None => None
      case Some((i, caps)) => Some((i + 1, caps))
  }

  /** `callHandler`. */
  function CallHandler(handler: Handler, params: seq<string>): Outcome
  {
    if handler.NotCallable? then InvalidHandler("Invalid route handler") else Invoke(handler, params)
  }

  const RouteNotFound := "Route not found"

  /** `dispatch` on a route table. */
  function DispatchSpec(routes: seq<Route>, verb: string, uri: string): Outcome
  {
    match FirstMatch(routes, verb, NormalizeUri(uri))
    case None => NotFound(404, RouteNotFound)
    case Some((i, caps)) => CallHandler(routes[i].handler, caps)
  }

  class Router {
    var routes: seq<Route>

    constructor ()
      ensures routes == []
    {
      routes := [];
    }

    method AddRoute(verb: string, path: string, handler: Handler)
      modifies this
      ensures routes == old(routes) + [Route(verb, path, handler)]
    {
      routes := routes + [Route(verb, path, handler)];
    }

    method Get(path: string, handler: Handler)
      modifies this
      ensures routes == old(routes) + [Route("GET", path, handler)]
    {
      AddRoute("GET", path, handler);
    }

    method Post(path: string, handler: Handler)
      modifies this
      ensures routes == old(routes) + [Route("POST", path, handler)]
    {
      AddRoute("POST", path, handler);
    }

    method Put(path: string, handler: Handler)
      modifies this
      ensures routes == old(routes) + [Route("PUT", path, handler)]
    {
      AddRoute("PUT", path, handler);
    }

    method Delete(path: string, handler: Handler)
      modifies this
      ensures routes == old(routes) + [Route("DELETE", path, handler)]
    {
      AddRoute("DELETE", path, handler);
    }

    /** `dispatch`: the routes are tried in order, routes of another method skipped, and the
        first whose pattern matches is run. */
    method Dispatch(verb: string, uri: string) returns (r: Outcome)
      ensures r == DispatchSpec(routes, verb, uri)
    {
      var path := NormalizeUri(uri);
      var i := 0;
      while i < |routes|
        invariant 0 <= i <= |routes|
        invariant forall j :: 0 <= j < i ==> !Fits(routes[j], verb, path)
      {
        var route := routes[i];
        if route.verb == verb {
          var caps := MatchTokens(CompilePath(route.path), path);
          if caps.Some? {
            r := CallHandler(route.handler, caps.value);
            return;
          }
        }
        i := i + 1;
      }
      r := NotFound(404, RouteNotFound);
    }
  }

  /** A route registered later never takes a request from an earlier one that fits. */
  lemma LaterRouteNeverShadows(routes: seq<Route>, extra: Route, verb: string, path: string)
    requires FirstMatch(routes, verb, path).Some?
    ensures FirstMatch(routes + [extra], verb, path) == FirstMatch(routes, verb, path)
  {
    var all := routes + [extra];
    var i := FirstMatch(routes, verb, path).value.0;
    assert forall j :: 0 <= j < |routes| ==> all[j] == routes[j];
    assert FirstMatch(all, verb, path).Some?;
  }

  /** A request no route fits answers 404 "Route not found". */
  lemma UnmatchedIsNotFound(routes: seq<Route>, verb: string, uri: string)
    requires forall j :: 0 <= j < |routes| ==> routes[j].verb != verb
    ensures DispatchSpec(routes, verb, uri) == NotFound(404, RouteNotFound)
  {
  }

  /** A literal stretch consumes exactly its own characters. */
  lemma {:induction false} LitsMatch(prefix: string, ts: seq<Token>, s: string)
    ensures MatchTokens(Lits(prefix) + ts, prefix + s) == MatchTokens(ts, s)
    decreases |prefix|
  {
    if prefix != [] {
      var xs := Lits(prefix) + ts;
      var t := prefix + s;
      assert xs[0] == Lit(prefix[0]) && t[0] == prefix[0];
      assert xs[1..] == Lits(prefix[1..]) + ts;
      assert t[1..] == prefix[1..] + s;
      assert MatchTokens(xs, t) == MatchTokens(xs[1..], t[1..]);
      LitsMatch(prefix[1..], ts, s);
    } else {
      assert Lits(prefix) + ts == ts && prefix + s == s;
    }
  }

  lemma SegmentLengthOf(v: string, suffix: string)
    requires IsSegment(v) && (suffix == "" || suffix[0] == '/')
    ensures SegmentLength(v + suffix) == |v|
  {
    var s := v + suffix;
    assert s[..|v|] == v;
    SegmentAtLeast(s, v);
    if |v| < |s| {
      assert s[|v|] == suffix[0];
    }
  }

  /** A placeholder between literal stretches captures exactly the segment written there. */
  lemma PlaceholderCaptures(prefix: string, name: string, v: string, suffix: string)
    requires '{' !in prefix && '{' !in suffix && name != [] && '}' !in name
    requires IsSegment(v) && (suffix == "" || suffix[0] == '/')
    ensures MatchTokens(CompilePath(prefix + "{" + name + "}" + suffix), prefix + v + suffix) == Some([v])
  {
    CompiledPlaceholderPath(prefix, name, suffix);
    LiteralsThenParam(prefix, v, suffix);
  }

  lemma CompiledPlaceholderPath(prefix: string, name: string, suffix: string)
    requires '{' !in prefix && '{' !in suffix && name != [] && '}' !in name
    ensures CompilePath(prefix + "{" + name + "}" + suffix) == Lits(prefix) + ([Param] + Lits(suffix))
  {
    CompilePlaceholder(prefix, name, suffix);
    CompileLiteralPath(suffix);
  }

  lemma LiteralsThenParam(prefix: string, v: string, suffix: string)
    requires IsSegment(v) && (suffix == "" || suffix[0] == '/')
    ensures MatchTokens(Lits(prefix) + ([Param] + Lits(suffix)), prefix + v + suffix) == Some([v])
  {
    assert prefix + v + suffix == prefix + (v + suffix);
    LitsMatch(prefix, [Param] + Lits(suffix), v + suffix);
    ParamThenLiterals(v, suffix);
  }

  /** A capture followed by a literal stretch takes the segment before that stretch. */
  lemma ParamThenLiterals(v: string, suffix: string)
    requires IsSegment(v) && (suffix == "" || suffix[0] == '/')
    ensures MatchTokens([Param] + Lits(suffix), v + suffix) == Some([v])
  {
    var s := v + suffix;
    SegmentLengthOf(v, suffix);
    assert s[|v|..] == suffix;
    assert s[..|v|] == v;
    LiteralsMatchThemselves(suffix);
    assert MatchTokens(Lits(suffix), s[|v|..]) == Some([]);
    assert [s[..|v|]] + [] == [v];
    assert TryParam(Lits(suffix), s, |v|) == Some([v]);
    assert ([Param] + Lits(suffix))[0] == Param && ([Param] + Lits(suffix))[1..] == Lits(suffix);
  }

  lemma LiteralsMatchThemselves(t: string)
    ensures MatchTokens(Lits(t), t) == Some([])
  {
    LitsMatch(t, [], "");
    assert Lits(t) + [] == Lits(t) && t + "" == t;
  }

  /** A placeholder at the end of a route cannot take a further segment. */
  lemma ExtraSegmentRejected(prefix: string, name: string, v: string, w: string)
    requires '{' !in prefix && name != [] && '}' !in name && IsSegment(v) && IsSegment(w)
    ensures MatchTokens(CompilePath(prefix + "{" + name + "}"), prefix + v + "/" + w).None?
  {
    CompilePlaceholder(prefix, name, "");
    assert prefix + "{" + name + "}" + "" == prefix + "{" + name + "}";
    assert CompilePath("") == [];
    assert Lits(prefix) + [Param] + [] == Lits(prefix) + [Param];
    assert prefix + v + "/" + w == prefix + (v + "/" + w);
    LitsMatch(prefix, [Param], v + "/" + w);
    SegmentStopsAtSlash(v, w);
  }
}
