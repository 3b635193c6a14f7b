/** The route table: an ordered list pairing each compiled pattern with one handler.
    A request goes to the first entry whose pattern matches its path. */
module Routes {
  import opened Wrappers
  import opened Text
  import opened RawKey
  import opened RawResource
  import opened RawResources

  /** The three patterns of the table. */
  datatype Pattern = RawKeyRegex | RawResourceRegex | RawResourcesRegex

  /** The three handlers of the table. */
  datatype RouteHandler = RawKeyHandler | RawResourceHandler | RawResourcesHandler

  /** One `route!` entry: a pattern and the handler it selects. */
  datatype Route = Route(regex: Pattern, handler: RouteHandler)

  /** `ROUTES`, in table order. */
  const RouteTable: seq<Route> := [
    Route(RawKeyRegex, RawKeyHandler),
    Route(RawResourceRegex, RawResourceHandler),
    Route(RawResourcesRegex, RawResourcesHandler)
  ]

  /** `Regex::captures` for each pattern: the groups of a match, or nothing. */
  function Captures(regex: Pattern, path: string): Option<seq<string>>
  {
    match regex
    case RawKeyRegex => RawKeyCaptures(path)
    case RawResourceRegex => RawResourceCaptures(path)
    case RawResourcesRegex => RawResourcesCaptures(path)
  }

  /** The index of the first route whose pattern matches `path`, if one does: the
      pattern alone decides, and every earlier pattern fails. */
  function FirstMatch(routes: seq<Route>, path: string): (m: Option<nat>)
    ensures m.Some? ==> m.value < |routes| && Captures(routes[m.value].regex, path).Some?
    ensures m.Some? ==> forall j :: 0 <= j < m.value ==> Captures(routes[j].regex, path).None?
    ensures m.None? ==> forall j :: 0 <= j < |routes| ==> Captures(routes[j].regex, path).None?
    decreases |routes|
  {
    if routes == [] then None
    else if Captures(routes[0].regex, path).Some? then Some(0)
    else
      match FirstMatch(routes[1..], path)
      case None => None
      case Some(i) => Some(i + 1)
  }

  /** No path matches two of the patterns, so the order of the table never changes
      which handler runs. */
  lemma PatternsDisjoint(path: string)
    ensures !(RawKeyCaptures(path).Some? && RawResourceCaptures(path).Some?)
    ensures !(RawKeyCaptures(path).Some? && RawResourcesCaptures(path).Some?)
    ensures !(RawResourceCaptures(path).Some? && RawResourcesCaptures(path).Some?)
  {
    if RawKeyCaptures(path).Some? {
      assert path[5] == 'k';
    }
    if RawResourceCaptures(path).Some? {
      assert path[5] == 'r' && path[13] == '/';
    }
  }

  /** `/raw/resources` is not taken by the single-resource pattern (the character
      after `resource` is `s`, not `/`) and reaches the list handler; it is the only
      path that does. */
  lemma RawResourcesRouteIsExact(path: string)
    ensures FirstMatch(RouteTable, path) == Some(2) <==> path == "/raw/resources"
  {
    PatternsDisjoint(path);
    var m := FirstMatch(RouteTable, path);
    if path == "/raw/resources" {
      assert Captures(RouteTable[2].regex, path).Some?;
      assert m.Some?;
      assert m.value == 2;
    }
  }

  /** A trailing slash after `resources`, or `/raw/key` with nothing after it, matches
      no route. */
  lemma UnroutedPaths()
    ensures FirstMatch(RouteTable, "/raw/resources/") == None
    ensures FirstMatch(RouteTable, "/raw/key") == None
    ensures FirstMatch(RouteTable, "/raw/key/") == None
  {
    var p := "/raw/resources/";
    assert p[5] == 'r';
    assert p[13] == 's';
  }

  /** Each handler sits beside its own pattern, so it gets the groups it reads. */
  lemma TablePairsHandlersWithPatterns(i: nat, path: string)
    requires i < |RouteTable| && Captures(RouteTable[i].regex, path).Some?
    ensures RouteTable[i].handler != RawResourcesHandler ==> |Captures(RouteTable[i].regex, path).value| == 2
    ensures RouteTable[i].handler == RawKeyHandler ==> Captures(RouteTable[i].regex, path) == RawKeyCaptures(path)
    ensures RouteTable[i].handler == RawResourceHandler ==> Captures(RouteTable[i].regex, path) == RawResourceCaptures(path)
  {
    assert i == 0 || i == 1 || i == 2;
  }
}
