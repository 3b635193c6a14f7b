/** `GET /raw/key/...`: the value stored under a key, verbatim. */
module RawKey {
  import opened Wrappers
  import opened Text
  import opened Http
  import opened Upstream

  /** `ROUTE_RAW_KEY_REGEX`, `^/raw/key(/.+)$`, written out by hand: the whole path
      and capture group 1, the rest of the path from its leading `/`, which must be
      followed by at least one character other than a line feed. */
  function RawKeyCaptures(path: string): (c: Option<seq<string>>)
    ensures c.Some? ==> |c.value| == 2 && c.value[0] == path
    ensures c.Some? ==> path == "/raw/key" + c.value[1]
    ensures c.Some? ==> 2 <= |c.value[1]| && c.value[1][0] == '/' && AllDots(c.value[1][1..])
  {
    if StartsWith(path, "/raw/key/") && 10 <= |path| && AllDots(path[9..]) then
      assert path == path[..8] + path[8..];
      Some([path, path[8..]])
    else
      None
  }

  /** The pattern matches exactly the paths `/raw/key` + k for a k made of a `/`
      and at least one further character other than a line feed. */
  lemma RawKeyCapturesExactly(key: string)
    requires 2 <= |key| && key[0] == '/' && AllDots(key[1..])
    ensures RawKeyCaptures("/raw/key" + key) == Some(["/raw/key" + key, key])
  {
    var path := "/raw/key" + key;
    assert path[..9] == "/raw/key/";
    assert path[9..] == key[1..];
    assert path[8..] == key;
  }

  /** The body for a found key: `{`, the field `"value":` and the JSON string of the
      value, `}`, each on its own line. */
  function ValueBody(value: string, json: string -> string): string
  {
    "{\n  \"value\":" + json(value) + "\n}\n"
  }

  /** `route_raw_key`: look the capture up exactly as it is; absent gives the 404
      response, present gives the value as JSON. */
  function RouteRawKey(data: map<string, NodeData>, captures: seq<string>, json: string -> string): (r: Response)
    requires 2 <= |captures|
    ensures captures[1] !in data <==> r == SendNotFound()
    ensures captures[1] in data ==> r == Response(200, ApplicationJson, ValueBody(data[captures[1]].value, json))
  {
    var key := captures[1];
    match Lookup(data, key)
    case None => SendNotFound()
    case Some(node) => Response(200, ApplicationJson, ValueBody(node.value, json))
  }
}
