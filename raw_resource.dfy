/** `GET /raw/resource/<name>`: the value stored under `/resource/<name>/data`. */
module RawResource {
  import opened Wrappers
  import opened Text
  import opened Http
  import opened Upstream

  /** `ROUTE_RAW_RESOURCE_REGEX`, `^/raw/resource/(.+)$`, written out by hand: the
      whole path and capture group 1, the non-empty rest of the path after
      `/raw/resource/`; it may hold further `/` but no line feed. */
  function RawResourceCaptures(path: string): (c: Option<seq<string>>)
    ensures c.Some? ==> |c.value| == 2 && c.value[0] == path
    ensures c.Some? ==> path == "/raw/resource/" + c.value[1]
    ensures c.Some? ==> 1 <= |c.value[1]| && AllDots(c.value[1])
  {
    if StartsWith(path, "/raw/resource/") && 15 <= |path| && AllDots(path[14..]) then
      assert path == path[..14] + path[14..];
      Some([path, path[14..]])
    else
      None
  }

  /** The pattern matches exactly the paths `/raw/resource/` + name for a non-empty
      name without a line feed. */
  lemma RawResourceCapturesExactly(name: string)
    requires 1 <= |name| && AllDots(name)
    ensures RawResourceCaptures("/raw/resource/" + name) == Some(["/raw/resource/" + name, name])
  {
    var path := "/raw/resource/" + name;
    assert path[..14] == "/raw/resource/";
    assert path[14..] == name;
  }

  /** The key a resource's data is stored under, `format!("/resource/{}/data", name)`. */
  function ResourceDataKey(name: string): (k: string)
    ensures StartsWith(k, "/resource/") && EndsWith(k, "/data")
    ensures |k| == |name| + 15 && k[10..|k| - 5] == name
  {
    "/resource/" + name + "/data"
  }

  /** Distinct names give distinct keys. */
  lemma ResourceDataKeyInjective(a: string, b: string)
    requires ResourceDataKey(a) == ResourceDataKey(b)
    ensures a == b
  {
    var k := ResourceDataKey(a);
    assert a == k[10..|k| - 5];
  }

  /** The body for a found resource: `{`, the field `"resource":` and the JSON string
      of the value, `}`, each on its own line. */
  function ResourceBody(value: string, json: string -> string): string
  {
    "{\n  \"resource\":" + json(value) + "\n}\n"
  }

  /** `route_raw_resource`: look up `/resource/<name>/data`; absent gives the 404
      response, present gives the value as JSON. */
  function RouteRawResource(data: map<string, NodeData>, captures: seq<string>, json: string -> string): (r: Response)
    requires 2 <= |captures|
    ensures ResourceDataKey(captures[1]) !in data <==> r == SendNotFound()
    ensures ResourceDataKey(captures[1]) in data ==>
      r == Response(200, ApplicationJson, ResourceBody(data[ResourceDataKey(captures[1])].value, json))
  {
    var resourceName := captures[1];
    match Lookup(data, ResourceDataKey(resourceName))
    case None => SendNotFound()
    case Some(resource) => Response(200, ApplicationJson, ResourceBody(resource.value, json))
  }
}
