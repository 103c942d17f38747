/** Express route tables under first-match dispatch: a route is a method, a
    path pattern, the middleware guarding it and the handler it names; a
    request goes to the first route, in registration order, whose method
    and pattern it matches. */
module Router {
  import opened Common

  datatype Method = Get | Head | Post | Put | Delete

  /** GET and HEAD only read. */
  predicate IsRead(m: Method) {
    m == Get || m == Head
  }

  /** A route registered for `verb` takes requests of method `m`: its own,
      and also HEAD when it is a GET route, since Express answers a HEAD
      through the GET route when the route has no HEAD of its own. */
  predicate TakesMethod(verb: Method, m: Method) {
    verb == m || (m == Head && verb == Get)
  }

  /** One segment of a path pattern: a literal, or a `:name` parameter that
      matches any single non-empty segment. */
  datatype Segment = Lit(text: string) | Param(name: string)

  /** The middleware in front of a handler: none, `optionalAuth` (never
      rejects), or `protect` (rejects a request without a valid user). */
  datatype Guard = Open | OptionalAuth | Protect

  datatype Route<H> = Route(verb: Method, pattern: seq<Segment>, guard: Guard, handler: H)

  /** ASCII lower-casing; Express matches literal segments without regard
      to case. */
  function Fold(c: char): char {
    if 'A' <= c <= 'Z' then (c as int + 32) as char else c
  }

  predicate SameText(a: string, b: string) {
    |a| == |b| && forall i :: 0 <= i < |a| ==> Fold(a[i]) == Fold(b[i])
  }

  predicate SegmentMatches(p: Segment, s: string) {
    match p
    case Lit(t) => SameText(t, s)
    case Param(_) => |s| > 0
  }

  /** The request path, cut at its slashes, fits the pattern. */
  predicate Matches(pattern: seq<Segment>, path: seq<string>) {
    |pattern| == |path| && forall i :: 0 <= i < |path| ==> SegmentMatches(pattern[i], path[i])
  }

  lemma MatchesSingle(p: Segment, w: string)
    ensures Matches([p], [w]) <==> SegmentMatches(p, w)
  {
    assert [w][0] == w;
  }

  predicate Handles<H>(r: Route<H>, m: Method, path: seq<string>) {
    TakesMethod(r.verb, m) && Matches(r.pattern, path)
  }

  /** The index of the first route, from `from` on, that handles the
      request. */
  function FirstFrom<H>(table: seq<Route<H>>, m: Method, path: seq<string>, from: nat): (r: Option<nat>)
    requires from <= |table|
    ensures r.Some? ==> from <= r.value < |table| && Handles(table[r.value], m, path)
    ensures r.Some? ==> forall j :: from <= j < r.value ==> !Handles(table[j], m, path)
    ensures r.None? ==> forall j :: from <= j < |table| ==> !Handles(table[j], m, path)
    decreases |table| - from
  {
    if from == |table| then None
    else if Handles(table[from], m, path) then Some(from)
    else FirstFrom(table, m, path, from + 1)
  }

  /** First-match dispatch: the route that serves the request, if any. */
  function Dispatch<H>(table: seq<Route<H>>, m: Method, path: seq<string>): (r: Option<nat>)
    ensures r.Some? <==> exists i :: 0 <= i < |table| && Handles(table[i], m, path)
    ensures r.Some? ==> r.value < |table| && Handles(table[r.value], m, path)
    ensures r.Some? ==> forall j :: 0 <= j < r.value ==> !Handles(table[j], m, path)
  {
    FirstFrom(table, m, path, 0)
  }

  /** A route that handles a request is the one dispatched to exactly when
      no earlier route handles it. */
  lemma DispatchFirst<H>(table: seq<Route<H>>, m: Method, path: seq<string>, i: nat)
    requires i < |table| && Handles(table[i], m, path)
    ensures Dispatch(table, m, path) == Some(i) <==> forall j :: 0 <= j < i ==> !Handles(table[j], m, path)
  {
  }

  /** In a table with no HEAD routes, a HEAD request goes wherever the GET
      to the same path goes. */
  lemma {:induction false} HeadFollowsGet<H>(table: seq<Route<H>>, path: seq<string>, from: nat)
    requires from <= |table|
    requires forall i :: 0 <= i < |table| ==> table[i].verb != Head
    ensures FirstFrom(table, Head, path, from) == FirstFrom(table, Get, path, from)
    decreases |table| - from
  {
    if from < |table| {
      assert Handles(table[from], Head, path) == Handles(table[from], Get, path);
      HeadFollowsGet(table, path, from + 1);
    }
  }

  /** A route is shadowed when every request it handles is already handled
      by an earlier one: dispatch never reaches it. */
  lemma Shadowed<H>(table: seq<Route<H>>, i: nat, k: nat)
    requires k < i < |table|
    requires table[k].verb == table[i].verb
    requires forall path :: Matches(table[i].pattern, path) ==> Matches(table[k].pattern, path)
    ensures forall m, path :: Dispatch(table, m, path) != Some(i)
  {
    forall m, path ensures Dispatch(table, m, path) != Some(i) {
      if Dispatch(table, m, path) == Some(i) {
        assert Handles(table[k], m, path);
      }
    }
  }

  /** The value a `:name` parameter takes: the segment in its place. */
  function ParamValue(pattern: seq<Segment>, path: seq<string>, name: string): (r: Option<string>)
    requires |pattern| == |path|
    ensures r.Some? <==> Param(name) in pattern
    ensures r.Some? ==> exists i :: 0 <= i < |pattern| && pattern[i] == Param(name) && path[i] == r.value
    decreases |pattern|
  {
    if |pattern| == 0 then None
    else if pattern[0] == Param(name) then Some(path[0])
    else ParamValue(pattern[1..], path[1..], name)
  }
}
