/** The request handler: authenticate, route by path, and answer with the selected
    route's response, or with one of the three fixed plain-text responses. */
module Handler {
  import opened Wrappers
  import opened Text
  import opened Http
  import opened Etcd
  import opened Upstream
  import opened RawKey
  import opened RawResource
  import opened RawResources
  import opened Routes

  /** The bearer check: the request carries an `Authorization: Bearer` header and its
      token equals the configured one. A missing or unparsable header fails. */
  predicate Authenticated(bearer: Option<string>, token: string)
  {
    bearer.Some? && bearer.value == token
  }

  /** What the handler of a route may answer, given the captures of its pattern. */
  ghost predicate RouteSpec(handler: RouteHandler, captures: seq<string>, data: map<string, NodeData>,
                            json: string -> string, r: Response)
  {
    match handler
    case RawKeyHandler => 2 <= |captures| && r == RouteRawKey(data, captures, json)
    case RawResourceHandler => 2 <= |captures| && r == RouteRawResource(data, captures, json)
    case RawResourcesHandler => IsResourcesResponse(data, json, r)
  }

  /** What `ServerHandler::handle` may answer: 401 without the right token, 500 for a
      request target that is not an absolute path, 404 when no route matches, and
      otherwise what the first matching route answers. */
  ghost predicate HandleSpec(token: string, request: Request, data: map<string, NodeData>,
                             json: string -> string, r: Response)
  {
    if !Authenticated(request.bearer, token) then r == SendUnauthenticated()
    else if !request.uri.AbsolutePath? then r == SendError()
    else
      var path := request.uri.path;
      match FirstMatch(RouteTable, path)
      case None => r == SendNotFound()
      case Some(i) => RouteSpec(RouteTable[i].handler, Captures(RouteTable[i].regex, path).value, data, json, r)
  }

  /** Run the handler of one route on the captures of its pattern. */
  method Dispatch(handler: RouteHandler, captures: seq<string>, data: map<string, NodeData>,
                  json: string -> string) returns (r: Response)
    requires handler != RawResourcesHandler ==> 2 <= |captures|
    ensures RouteSpec(handler, captures, data, json, r)
  {
    match handler
    case RawKeyHandler => r := RouteRawKey(data, captures, json);
    case RawResourceHandler => r := RouteRawResource(data, captures, json);
    case RawResourcesHandler => r := RouteRawResources(data, json);
  }

  /** `ServerHandler`: the configured token and the upstream whose map it serves. */
  class ServerHandler {
    const authorizationToken: string
    const upstream: Upstream

    constructor (authorizationToken: string, upstream: Upstream)
      ensures this.authorizationToken == authorizationToken && this.upstream == upstream
    {
      this.authorizationToken := authorizationToken;
      this.upstream := upstream;
    }

    /** `handle`: check the token, then try the routes in table order and run the
        first one whose pattern matches the path. */
    method Handle(request: Request, json: string -> string) returns (response: Response)
      ensures HandleSpec(authorizationToken, request, upstream.Data().entries, json, response)
    {
      if !Authenticated(request.bearer, authorizationToken) {
        return SendUnauthenticated();
      }
      if !request.uri.AbsolutePath? {
        return SendError();
      }
      var path := request.uri.path;
      var data := upstream.Data().entries;
      var i := 0;
      while i < |RouteTable|
        invariant 0 <= i <= |RouteTable|
        invariant forall j :: 0 <= j < i ==> Captures(RouteTable[j].regex, path).None?
      {
        var captures := Captures(RouteTable[i].regex, path);
        if captures.Some? {
          assert FirstMatch(RouteTable, path) == Some(i) by {
            FirstMatchIsFirst(RouteTable, path, i);
          }
          TablePairsHandlersWithPatterns(i, path);
          response := Dispatch(RouteTable[i].handler, captures.value, data, json);
          return;
        }
        i := i + 1;
      }
      response := SendNotFound();
    }
  }

  /** A route whose pattern matches, after only non-matching ones, is the first match. */
  lemma {:induction false} FirstMatchIsFirst(routes: seq<Route>, path: string, i: nat)
    requires i < |routes| && Captures(routes[i].regex, path).Some?
    requires forall j :: 0 <= j < i ==> Captures(routes[j].regex, path).None?
    ensures FirstMatch(routes, path) == Some(i)
    decreases i
  {
    if i > 0 {
      FirstMatchIsFirst(routes[1..], path, i - 1);
    }
  }

  /** Without the right token every request gets 401, whatever its path. */
  lemma UnauthenticatedIsRejected(token: string, request: Request, data: map<string, NodeData>,
                                  json: string -> string, r: Response)
    requires !Authenticated(request.bearer, token)
    requires HandleSpec(token, request, data, json, r)
    ensures r.status == 401 && r == SendUnauthenticated()
  {
  }

  /** The method of the request is never looked at: `POST` and `DELETE` are served
      like `GET`. */
  lemma VerbIsIgnored(token: string, request: Request, verb: string, data: map<string, NodeData>,
                      json: string -> string, r: Response)
    ensures HandleSpec(token, request, data, json, r) <==> HandleSpec(token, request.(verb := verb), data, json, r)
  {
  }

  /** A value stored under key k is served at `/raw/key` + k, for every k the pattern
      accepts. */
  lemma StoredKeyIsServed(token: string, key: string, data: map<string, NodeData>,
                          json: string -> string, r: Response)
    requires 2 <= |key| && key[0] == '/' && AllDots(key[1..])
    requires key in data
    requires HandleSpec(token, Request("GET", AbsolutePath("/raw/key" + key), Some(token)), data, json, r)
    ensures r == Response(200, ApplicationJson, ValueBody(data[key].value, json))
  {
    var path := "/raw/key" + key;
    RawKeyCapturesExactly(key);
    FirstMatchIsFirst(RouteTable, path, 0);
  }

  /** The record at `/resource/<name>/data` is served at `/raw/resource/<name>`; with
      no such record the answer is 404. */
  lemma ResourceIsServed(token: string, name: string, data: map<string, NodeData>,
                         json: string -> string, r: Response)
    requires 1 <= |name| && AllDots(name)
    requires HandleSpec(token, Request("GET", AbsolutePath("/raw/resource/" + name), Some(token)), data, json, r)
    ensures ResourceDataKey(name) in data ==>
      r == Response(200, ApplicationJson, ResourceBody(data[ResourceDataKey(name)].value, json))
    ensures ResourceDataKey(name) !in data ==> r == SendNotFound()
  {
    var path := "/raw/resource/" + name;
    RawResourceCapturesExactly(name);
    PatternsDisjoint(path);
    FirstMatchIsFirst(RouteTable, path, 1);
  }

  /** `/raw/resources` is answered with the listing of every selected entry, in some
      enumeration order. */
  lemma ResourceListIsServed(token: string, verb: string, data: map<string, NodeData>,
                             json: string -> string, r: Response)
    requires HandleSpec(token, Request(verb, AbsolutePath("/raw/resources"), Some(token)), data, json, r)
    ensures IsResourcesResponse(data, json, r)
  {
    RawResourcesRouteIsExact("/raw/resources");
  }

  /** A path no pattern accepts is answered 404, whatever the cache holds. */
  lemma UnroutedPathIsNotFound(token: string, verb: string, path: string, data: map<string, NodeData>,
                               json: string -> string, r: Response)
    requires !StartsWith(path, "/raw/")
    requires HandleSpec(token, Request(verb, AbsolutePath(path), Some(token)), data, json, r)
    ensures r == SendNotFound()
  {
  }

  /** With an empty key prefix a deletion reported by etcd takes the resource away:
      the next request for it gets 404. */
  lemma DeletedResourceIsNotFound(token: string, name: string, tombstone: EtcdNode,
                                  m: map<string, NodeData>, json: string -> string, r: Response)
    requires 1 <= |name| && AllDots(name)
    requires !tombstone.dir && tombstone.value.None? && tombstone.key == ResourceDataKey(name)
    requires PrefixFits(0, tombstone)
    requires HandleSpec(token, Request("GET", AbsolutePath("/raw/resource/" + name), Some(token)),
                        Apply(m, Updates(0, tombstone)), json, r)
    ensures r == SendNotFound()
  {
    StoreLeafWithoutValue(0, tombstone, m);
    ResourceIsServed(token, name, Apply(m, Updates(0, tombstone)), json, r);
  }

  /** With a non-empty key prefix the same deletion misses: the value stored from the
      prefixed key stays cached and is still served. */
  lemma DeletionUnderPrefixKeepsResource(token: string, prefix: string, name: string, leaf: EtcdNode,
                                         tombstone: EtcdNode, m: map<string, NodeData>,
                                         json: string -> string, r: Response)
    requires 1 <= |name| && AllDots(name) && 0 < |prefix|
    requires !leaf.dir && leaf.value.Some? && leaf.key == prefix + ResourceDataKey(name)
    requires !tombstone.dir && tombstone.value.None? && tombstone.key == leaf.key
    requires PrefixFits(|prefix|, leaf) && PrefixFits(|prefix|, tombstone)
    requires HandleSpec(token, Request("GET", AbsolutePath("/raw/resource/" + name), Some(token)),
                        Apply(Apply(m, Updates(|prefix|, leaf)), Updates(|prefix|, tombstone)), json, r)
    ensures r == Response(200, ApplicationJson, ResourceBody(leaf.value.value, json))
  {
    TombstoneKeepsStrippedEntry(|prefix|, leaf, tombstone, m);
    assert StrippedKey(|prefix|, leaf) == ResourceDataKey(name);
    ResourceIsServed(token, name, Apply(Apply(m, Updates(|prefix|, leaf)), Updates(|prefix|, tombstone)), json, r);
  }

  /** `Upstream::data` hands out the shared map, not a copy: a handler built before a
      watch step answers every later request from the map as that step left it. */
  method HandlerSeesWatchedUpdate(token: string, keyPrefix: string, initial: EtcdResponse, index: u64,
                                  reply: WatchReply, request: Request, json: string -> string)
    returns (r: Response)
    requires PrefixFits(|keyPrefix|, initial.node)
    requires reply.Received? && PrefixFits(|keyPrefix|, reply.response.node)
    ensures HandleSpec(token, request,
                       Apply(Apply(map[], Updates(|keyPrefix|, initial.node)), Updates(|keyPrefix|, reply.response.node)),
                       json, r)
  {
    var upstream := new Upstream.Start(keyPrefix, initial, index);
    var handler := new ServerHandler(token, upstream);
    var _, _ := upstream.DataThreadWatch(reply);
    r := handler.Handle(request, json);
  }
}
