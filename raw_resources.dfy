/** `GET /raw/resources`: every value stored under a key `/resource/.../data`, as a
    JSON list, in the order the hash map happens to enumerate its entries. */
module RawResources {
  import opened Wrappers
  import opened Text
  import opened Http
  import opened Upstream

  /** `ROUTE_RAW_RESOURCES_REGEX`, `^/raw/resources$`, written out by hand: only the
      literal path matches, and its one group is the whole path. */
  function RawResourcesCaptures(path: string): (c: Option<seq<string>>)
    ensures c.Some? <==> path == "/raw/resources"
    ensures c.Some? ==> c.value == [path]
  {
    if path == "/raw/resources" then Some([path]) else None
  }

  /** The filter: a key is listed when it starts with `/resource/` and ends with
      `/data`; the two tests are independent of each other. */
  predicate IsResourceKey(key: string)
  {
    StartsWith(key, "/resource/") && EndsWith(key, "/data")
  }

  /** `order` lists every key of `data` that passes the filter, each once, and no
      other key: one possible enumeration order of the selected entries. */
  ghost predicate ListsResources(data: map<string, NodeData>, order: seq<string>)
  {
    && (forall i, j :: 0 <= i < j < |order| ==> order[i] != order[j])
    && (forall k :: k in order <==> k in data && IsResourceKey(k))
  }

  /** The records of `data` at the keys of `order`, in that order. */
  function Pick(data: map<string, NodeData>, order: seq<string>): (rs: seq<NodeData>)
    requires forall k :: k in order ==> k in data
    ensures |rs| == |order|
    ensures forall i :: 0 <= i < |order| ==> rs[i] == data[order[i]]
  {
    seq(|order|, i requires 0 <= i < |order| => data[order[i]])
  }

  /** The list elements as written: the first preceded by a line feed and four
      spaces, every later one by a comma, a line feed and four spaces. */
  function Elements(resources: seq<NodeData>, json: string -> string): string
    decreases |resources|
  {
    if resources == [] then ""
    else
      var n := |resources| - 1;
      Elements(resources[..n], json) + (if n == 0 then "\n    " else ",\n    ") + json(resources[n].value)
  }

  /** The whole body: the opening of the object and its `"resources"` list, the
      elements, and the closing of both. */
  function ResourcesBody(resources: seq<NodeData>, json: string -> string): string
  {
    "{\n  \"resources\": [" + Elements(resources, json) + "\n  ]\n}\n"
  }

  /** A reference definition of a separated list: the items with `sep` between
      neighbours. */
  function Join(sep: string, items: seq<string>): string
    decreases |items|
  {
    if items == [] then "" else if |items| == 1 then items[0] else items[0] + sep + Join(sep, items[1..])
  }

  function JsonValues(resources: seq<NodeData>, json: string -> string): (vs: seq<string>)
    ensures |vs| == |resources|
    ensures forall i :: 0 <= i < |resources| ==> vs[i] == json(resources[i].value)
  {
    seq(|resources|, i requires 0 <= i < |resources| => json(resources[i].value))
  }

  lemma {:induction false} JoinSnoc(sep: string, items: seq<string>, x: string)
    requires items != []
    ensures Join(sep, items + [x]) == Join(sep, items) + sep + x
    decreases |items|
  {
    if |items| == 1 {
      assert items + [x] == [items[0], x];
    } else {
      assert (items + [x])[1..] == items[1..] + [x];
      JoinSnoc(sep, items[1..], x);
    }
  }

  /** The elements are the JSON strings of the values, one per resource in order,
      separated by `,` + line feed + four spaces, after a first line feed + four
      spaces; with no resources there is nothing between the brackets. */
  lemma {:induction false} ElementsAreJoinedValues(resources: seq<NodeData>, json: string -> string)
    ensures Elements(resources, json)
         == if resources == [] then "" else "\n    " + Join(",\n    ", JsonValues(resources, json))
    decreases |resources|
  {
    if |resources| > 1 {
      var n := |resources| - 1;
      ElementsAreJoinedValues(resources[..n], json);
      assert JsonValues(resources, json) == JsonValues(resources[..n], json) + [json(resources[n].value)];
      JoinSnoc(",\n    ", JsonValues(resources[..n], json), json(resources[n].value));
    } else if |resources| == 1 {
      assert resources[..0] == [];
    }
  }

  /** With nothing selected the body is still a well-formed object with an empty list. */
  lemma EmptyResourcesBody(json: string -> string)
    ensures ResourcesBody([], json) == "{\n  \"resources\": [\n  ]\n}\n"
  {
  }

  /** The filter and map of `route_raw_resources`: walk the map's entries in some
      order (a `HashMap` promises none) and keep the records whose key passes the
      filter. `order` is the enumeration order the walk happened to take. */
  method SelectResources(data: map<string, NodeData>) returns (resources: seq<NodeData>, ghost order: seq<string>)
    ensures ListsResources(data, order)
    ensures resources == Pick(data, order)
  {
    var remaining := data.Keys;
    resources := [];
    order := [];
    while remaining != {}
      invariant remaining <= data.Keys
      invariant forall i, j :: 0 <= i < j < |order| ==> order[i] != order[j]
      invariant forall k :: k in order <==> k in data && k !in remaining && IsResourceKey(k)
      invariant resources == Pick(data, order)
      decreases remaining
    {
      var key :| key in remaining;
      if IsResourceKey(key) {
        resources := resources + [data[key]];
        order := order + [key];
      }
      remaining := remaining - {key};
    }
  }

  /** The rendering loop of `route_raw_resources`: write the opening, then each value
      preceded by its separator (a `first` flag tells the first from the rest), then
      the closing. */
  method RenderResources(resources: seq<NodeData>, json: string -> string) returns (body: string)
    ensures body == ResourcesBody(resources, json)
  {
    body := "{\n  \"resources\": [";
    var first := true;
    var i := 0;
    while i < |resources|
      invariant 0 <= i <= |resources|
      invariant first <==> i == 0
      invariant body == "{\n  \"resources\": [" + Elements(resources[..i], json)
    {
      if first {
        body := body + "\n    ";
        first := false;
      } else {
        body := body + ",\n    ";
      }
      body := body + json(resources[i].value);
      assert resources[..i + 1][..i] == resources[..i];
      i := i + 1;
    }
    assert resources[..i] == resources;
    body := body + "\n  ]\n}\n";
  }

  /** What `route_raw_resources` may answer for `data`: always 200 with JSON (never
      404), and a body listing the values of the selected entries in one
      enumeration order. */
  ghost predicate IsResourcesResponse(data: map<string, NodeData>, json: string -> string, r: Response)
  {
    && r.status == 200
    && r.contentType == ApplicationJson
    && exists order :: ListsResources(data, order) && r.body == ResourcesBody(Pick(data, order), json)
  }

  /** `route_raw_resources`: select, then render. */
  method RouteRawResources(data: map<string, NodeData>, json: string -> string) returns (r: Response)
    ensures IsResourcesResponse(data, json, r)
  {
    var resourcesTemp, order := SelectResources(data);
    var body := RenderResources(resourcesTemp, json);
    r := Response(200, ApplicationJson, body);
  }

  /** When no key passes the filter, every possible answer is the empty list. */
  lemma NoResourcesGivesEmptyList(data: map<string, NodeData>, json: string -> string, r: Response)
    requires forall k :: k in data ==> !IsResourceKey(k)
    requires IsResourcesResponse(data, json, r)
    ensures r == Response(200, ApplicationJson, "{\n  \"resources\": [\n  ]\n}\n")
  {
    var order :| ListsResources(data, order) && r.body == ResourcesBody(Pick(data, order), json);
  }

  /** The listing has as many elements as there are qualifying keys. */
  lemma {:induction false} ListingCoversSelection(data: map<string, NodeData>, order: seq<string>)
    requires ListsResources(data, order)
    ensures |order| == |set k | k in data && IsResourceKey(k)|
  {
    var selected := set k | k in data && IsResourceKey(k);
    DistinctCardinality(order);
    assert (set i | 0 <= i < |order| :: order[i]) == selected by {
      forall k ensures k in selected <==> k in (set i | 0 <= i < |order| :: order[i]) {
        if k in order {
          var i :| 0 <= i < |order| && order[i] == k;
        }
      }
    }
  }

  lemma {:induction false} DistinctCardinality(s: seq<string>)
    requires forall i, j :: 0 <= i < j < |s| ==> s[i] != s[j]
    ensures |set i | 0 <= i < |s| :: s[i]| == |s|
    decreases |s|
  {
    if s != [] {
      var n := |s| - 1;
      DistinctCardinality(s[..n]);
      var front := set i | 0 <= i < n :: s[..n][i];
      assert (set i | 0 <= i < |s| :: s[i]) == front + {s[n]};
      assert s[n] !in front;
    }
  }

  /** `/resource/data` passes the filter: the prefix and the suffix overlap. */
  lemma OverlappingKeyQualifies()
    ensures IsResourceKey("/resource/data")
  {
  }
}
