# gridlinker-inventory: the cache, the raw HTTP API and the inventory parser

This project models three pieces of the gridlinker inventory daemon in Dafny and
proves properties of them.

1. **Cache update engine** (`src/upstream.rs`, `src/etcd.rs`). The daemon keeps a
   map from key to `NodeData` that mirrors an etcd v2 key tree:
   - `store_node_recursive` flattens a tree into the map. Directories recurse into
     their children in list order. A leaf with a value inserts or overwrites a
     record under its key with the prefix stripped. A leaf without a value removes
     an entry.
   - The initial load flattens into an empty map.
   - Each watch step asks for `etcd_index + 1`, then overwrites the index and merges
     the returned tree into the map.

   `StoreNodeRecursive` is a recursive module-level method that takes the `Cache`
   object whose map it updates. It is proved to apply the list of updates
   `Updates(prefixLen, node)`, in tree order. The properties of the flattening are lemmas about `Apply` of those updates:
   idempotence, the untouched-keys frame, and the leaf cases.

2. **Request handling** (`src/server/handler.rs`, `src/routes/*.rs`,
   `src/server/raw_resources.rs`). The handler does three things in order:
   - it checks the bearer token;
   - it tries the route table in order;
   - it answers from the first matching route, or with a fixed plain-text 401, 404
     or 500.

   Each route handler is modelled:
   - `/raw/key/...` looks the key up exactly as captured;
   - `/raw/resource/<name>` looks up `/resource/<name>/data`;
   - `/raw/resources` lists every value whose key starts with `/resource/` and ends
     with `/data`.

   The three regular expressions are written out by hand. In Rust's `regex` crate
   `.` excludes a line feed and `$` anchors at the end of the text.
   `ServerHandler.Handle` is proved against `HandleSpec`, and the end-to-end lemmas
   are stated over `HandleSpec`.

3. **Inventory document parser** (`src/inventory/inventory_macros.rs`,
   `src/inventory/inventory_class.rs`). `inventory_parser!` is modelled as an
   interpreter over a parser declaration: the document kind, its sections, and
   their `req`/`opt`/`vec` String fields. It runs these checks, in the macros'
   order:
   - the document is a mapping;
   - it has an `identity` mapping;
   - `identity.type` is a string equal to the kind;
   - each section is present and is a mapping;
   - each field passes its own rule.

   The first failure ends the parse with the exact message the macros format. The
   generic `map` arm is modelled separately, with an abstract element decoder.
   `InventoryClass.New` is the parser run on the class declaration.

External inputs and the decisions they forced:
- **HTTP responses from etcd.** Each one becomes an input: the decoded tree and the
  value of its `X-Etcd-Index` header (`WatchReply`).
- **JSON escaping.** `serde_json::to_writer` of a string is a function parameter
  `json: string -> string`.
- **Unordered listing.** A `HashMap` enumerates its entries in no promised order.
  The model picks the order nondeterministically (`:|`), and the contract of
  `/raw/resources` (`IsResourcesResponse`) quantifies over every possible order.

Behaviour of the code worth knowing, each shown by the lemma named:
- **Authorization token.** The configured token is always compared with the
  request's bearer token, so a request without an `Authorization: Bearer` header is
  always refused (`UnauthenticatedIsRejected`).
- **Etcd index.** Each watch step overwrites the index with the reply's
  `X-Etcd-Index` header, so the index can go down: replies with headers 9 then 3
  leave it at 3 (`IndexCanFall`, `ReplayIndexIsLastHeader`).
- **Failed watch.** The watch thread panics at the first failed request and is
  never restarted, so `DataThread` stops there and the map keeps what it had.
- **Prefix check.** The key prefix is stripped by length only; the characters
  removed are never compared with the prefix (`StrippedKey`).
- **Deletion key.** A deletion removes the unstripped etcd key, while an insertion
  uses the stripped one. With a non-empty prefix, a deleted resource therefore
  stays cached and served (`TombstoneKeepsStrippedEntry`,
  `DeletionUnderPrefixKeepsResource`). With an empty prefix the deletion works
  (`DeletedResourceIsNotFound`).

## Model

| member | source | states |
|---|---|---|
| Etcd.Decode | src/etcd.rs:12-36 | a decoded node keeps key, value and both indices; `dir` is false unless the wire says true; missing `nodes` becomes the empty list; present children are decoded one by one, in order |
| Etcd.Encode | src/etcd.rs:12-33 | the derived serialiser writes every member, including `dir` and all children |
| Etcd.DecodeEncode | src/etcd.rs:1-36 | decoding what was serialised gives back the same node, to any depth |
| Etcd.MissingMembersGiveLeaf | src/etcd.rs:21-25 | a node without `dir` and `nodes` decodes to a non-directory with no children |
| Upstream.StrippedKey | src/upstream.rs:248-249 | the stripped key is `node.key` without its first `prefixLen` characters, whatever they are |
| Upstream.ApplyAt | src/upstream.rs:224-274 | the flattened map agrees, key by key, with the last update of that key (or the old entry when none) |
| Upstream.ApplyIdempotent | src/upstream.rs:224-274 | applying the same update list twice equals applying it once |
| Upstream.ApplyFrame | src/upstream.rs:224-274 | a key no update mentions keeps its entry or its absence |
| Upstream.ApplyCommutes | src/upstream.rs:224-274 | two update lists about disjoint keys can be applied in either order |
| Upstream.ChildUpdatesStep | src/upstream.rs:230-240 | a directory's updates are its children's updates concatenated in list order |
| Upstream.DirectoryIgnoresOwnKeyAndValue | src/upstream.rs:230-240 | storing a directory never depends on the directory's own key or value |
| Upstream.StoreIdempotent | src/upstream.rs:224-274 | flattening the same tree twice gives the same map as flattening it once |
| Upstream.StoreLeafWithValue | src/upstream.rs:246-259 | a valued leaf inserts or overwrites the record (stripped key, value, both indices) under the stripped key; every other entry is unchanged |
| Upstream.StoreLeafWithoutValue | src/upstream.rs:263-266 | a value-less leaf removes exactly the unstripped `node.key`; when that key is absent the map is unchanged |
| Upstream.TombstoneKeepsStrippedEntry | src/upstream.rs:248-266 | with a non-empty prefix, a tombstone for the same etcd key leaves the record its earlier value produced |
| Upstream.StoreUntouched | src/upstream.rs:224-274 | keys the tree says nothing about are left as they were |
| Upstream.Cache.constructor | src/upstream.rs:202-203 | the map starts empty |
| Upstream.StoreNodeRecursive | src/upstream.rs:224-274 | the map afterwards is the old map with the tree's updates applied in tree order |
| Upstream.LeadingReceived | src/upstream.rs:282-292 | the number of replies before the first failure: all earlier ones succeeded, the next one failed |
| Upstream.RequestedIndices | src/upstream.rs:304-316 | the first request waits for one past the starting index, each later one for one past the previous reply's header |
| Upstream.Upstream.Start | src/upstream.rs:173-220 | the initial tree is flattened into a fresh, empty map, and the index is the reply's header |
| Upstream.Upstream.DataThreadWatch | src/upstream.rs:304-369 | asks for index + 1; on success overwrites the index with the header and merges the tree into the existing map; on failure returns the error and changes nothing |
| Upstream.Upstream.DataThread | src/upstream.rs:282-294 | the watch steps run in order until the first failure and none after it; the index is the header of the last successful reply (unchanged when none succeeded), the map has every successful tree merged in order, and each request asked for one past the index before it; only the trees actually merged must fit the prefix |
| Upstream.ReplayIndexIsLastHeader | src/upstream.rs:351-361 | after successful watch steps the index is the last reply's header, whatever the earlier headers were |
| Upstream.IndexCanFall | src/upstream.rs:351-361 | the index is not monotonic: a reply whose header is below the previous one takes the index down |
| RawKey.RawKeyCaptures | src/routes/raw_key.rs:17-18 | a match means the path is `/raw/key` + the group, and the group is `/` followed by at least one non-line-feed character |
| RawKey.RawKeyCapturesExactly | src/routes/raw_key.rs:17-18 | every such group matches, and the group comes back unchanged |
| RawKey.RouteRawKey | src/routes/raw_key.rs:31-87 | absent key if and only if 404; present key gives 200 JSON with body `{\n  "value":` + JSON of the value + `\n}\n` |
| RawResource.RawResourceCaptures | src/routes/raw_resource.rs:17-18 | a match means the path is `/raw/resource/` + a non-empty group without line feeds (slashes allowed) |
| RawResource.RawResourceCapturesExactly | src/routes/raw_resource.rs:17-18 | every non-empty name without line feeds matches and is captured whole |
| RawResource.ResourceDataKey | src/routes/raw_resource.rs:42-45 | the key starts with `/resource/`, ends with `/data`, and has the name in between |
| RawResource.ResourceDataKeyInjective | src/routes/raw_resource.rs:42-45 | different names look up different keys |
| RawResource.RouteRawResource | src/routes/raw_resource.rs:31-89 | absent `/resource/<name>/data` if and only if 404; present gives 200 JSON with body `{\n  "resource":` + JSON of the value + `\n}\n` |
| RawResources.RawResourcesCaptures | src/server/raw_resources.rs:16-17 | only the exact path `/raw/resources` matches |
| RawResources.SelectResources | src/server/raw_resources.rs:38-45 | the selection lists each key that starts with `/resource/` and ends with `/data` exactly once, in some order, with its record |
| RawResources.RenderResources | src/server/raw_resources.rs:59-99 | the written body is the opening, each value's JSON after `\n    ` (first) or `,\n    ` (later), then the closing |
| RawResources.ElementsAreJoinedValues | src/server/raw_resources.rs:69-94 | the elements are the values' JSON strings, one per record in order, joined by `,\n    ` after an opening `\n    ` |
| RawResources.EmptyResourcesBody | src/server/raw_resources.rs:59-99 | with nothing selected the body is `{\n  "resources": [\n  ]\n}\n` |
| RawResources.RouteRawResources | src/server/raw_resources.rs:22-99 | always 200 JSON (never 404), with the body listing the selected values in one enumeration order |
| RawResources.NoResourcesGivesEmptyList | src/server/raw_resources.rs:38-99 | when no key qualifies, every possible answer is the empty list |
| RawResources.ListingCoversSelection | src/server/raw_resources.rs:38-45 | the list has exactly as many elements as there are qualifying keys |
| RawResources.OverlappingKeyQualifies | src/server/raw_resources.rs:40-41 | `/resource/data` qualifies: the prefix and suffix tests are independent |
| Routes.FirstMatch | src/server/handler.rs:56-71 | the selected route matches, every earlier route does not, and no route matches when none is selected |
| Routes.PatternsDisjoint | src/routes/routes.rs:39-53 | no path matches two of the patterns |
| Routes.RawResourcesRouteIsExact | src/routes/routes.rs:45-51 | the list route is selected if and only if the path is exactly `/raw/resources` |
| Routes.UnroutedPaths | src/routes/routes.rs:39-53 | `/raw/resources/`, `/raw/key` and `/raw/key/` match no route |
| Routes.TablePairsHandlersWithPatterns | src/routes/routes.rs:26-53 | each handler sits beside its own pattern, so the key and resource handlers get two groups |
| Http.SendUnauthenticated | src/server/handler.rs:91-112 | status 401, `Content-Type: text/plain`, body `MUST AUTHENTICATE` and a line feed |
| Http.SendNotFound | src/server/handler.rs:114-135 | status 404, `Content-Type: text/plain`, body `NOT FOUND` and a line feed |
| Http.SendError | src/server/handler.rs:137-158 | status 500, `Content-Type: text/plain`, body `ERROR` and a line feed |
| Http.FixedResponsesDiffer | src/server/handler.rs:91-158 | the three fixed answers have pairwise different statuses and are all plain text |
| Handler.Dispatch | src/server/handler.rs:59-69 | the selected handler runs on its pattern's captures and answers as that route specifies |
| Handler.ServerHandler.constructor | src/server/handler.rs:16-20 | the handler keeps the configured token and the upstream |
| Handler.ServerHandler.Handle | src/server/handler.rs:30-87 | 401 without the right bearer token; otherwise 500 for a target that is not an absolute path; otherwise the first matching route's answer, or 404 when none matches |
| Handler.FirstMatchIsFirst | src/server/handler.rs:56-73 | a match after only non-matching routes is the one the loop returns |
| Handler.UnauthenticatedIsRejected | src/server/handler.rs:35-46 | without the right token every request, routed or not, gets `401 text/plain MUST AUTHENTICATE\n` |
| Handler.VerbIsIgnored | src/server/handler.rs:50-73 | the answer never depends on the HTTP method |
| Handler.StoredKeyIsServed | src/routes/raw_key.rs:31-87 | a value stored under k is served at `/raw/key` + k |
| Handler.ResourceIsServed | src/routes/raw_resource.rs:31-89 | `/raw/resource/<name>` serves the record at `/resource/<name>/data`, or 404 without one |
| Handler.ResourceListIsServed | src/routes/routes.rs:49-51 | `/raw/resources` is answered by the listing handler |
| Handler.UnroutedPathIsNotFound | src/server/handler.rs:75-77 | an authenticated path outside `/raw/` gets 404 `NOT FOUND\n` |
| Handler.DeletedResourceIsNotFound | src/upstream.rs:263-266 | with an empty prefix, after a tombstone for `/resource/<name>/data` the resource is answered 404 |
| Handler.HandlerSeesWatchedUpdate | src/upstream.rs:382-391 | `data` hands out the shared map, not a copy: a handler built before a watch step answers from the map with that step's tree merged in |
| Handler.DeletionUnderPrefixKeepsResource | src/upstream.rs:248-266 | with a non-empty prefix, after the value and a tombstone for the same etcd key the old value is still served |
| Yaml.AsMapping | src/inventory/inventory_macros.rs:48-54 | entries exactly for a mapping, nothing for any other value |
| Yaml.AsStr | src/inventory/inventory_macros.rs:79-84 | text exactly for a string, nothing for any other value |
| Yaml.Get | src/inventory/inventory_macros.rs:56-59 | nothing if and only if no entry has that string key; otherwise the value of such an entry |
| Yaml.GetFindsEntry | src/inventory/inventory_macros.rs:56-59 | with distinct keys, the lookup finds the value of the entry wherever it sits |
| InventoryMacros.Capitalise | src/inventory/inventory_macros.rs:14-32 | same length; the first character upper-cased and the rest unchanged; empty stays empty |
| InventoryMacros.CapitaliseIdempotent | src/inventory/inventory_macros.rs:14-32 | capitalising twice is capitalising once |
| InventoryMacros.CapitaliseChangesOnlyFirst | src/inventory/inventory_macros.rs:26-28 | every character after the first is unchanged |
| InventoryMacros.ParseField | src/inventory/inventory_macros.rs:247-344 | `req`: present string, or a "must contain" / "must be a string" error; `opt`: absent gives None, present string gives it, otherwise "(if present)" error; `vec` String: always empty |
| InventoryMacros.ParseFields | src/inventory/inventory_macros.rs:247-494 | succeeds if and only if every field conforms, and then each field gets its rule's value, in order |
| InventoryMacros.ParseSection | src/inventory/inventory_macros.rs:205-228 | succeeds if and only if the section is present, is a mapping and all its fields conform |
| InventoryMacros.ParseSections | src/inventory/inventory_macros.rs:190-245 | succeeds if and only if every declared section conforms; one value list per section |
| InventoryMacros.ParseHeader | src/inventory/inventory_macros.rs:48-95 | succeeds if and only if the document is a mapping with an `identity` mapping whose `type` is the kind's name |
| InventoryMacros.Parse | src/inventory/inventory_macros.rs:34-105 | the whole expansion succeeds if and only if the document conforms, with one value list per section; a bad header is reported before any section is looked at |
| InventoryMacros.ParseSucceedsIffConforms | src/inventory/inventory_macros.rs:34-105 | a document parses if and only if it conforms, and each field is then bound to the value its rule reads |
| InventoryMacros.HeaderErrors | src/inventory/inventory_macros.rs:48-95 | the header checks run in order (dictionary, identity, identity a dictionary, type, type a string, type right), each with its own message |
| InventoryMacros.FirstBadSectionIsReported | src/inventory/inventory_macros.rs:205-222 | the first section that is missing or not a mapping is the error, with the document kind's capitalised name |
| InventoryMacros.FirstBadFieldIsReported | src/inventory/inventory_macros.rs:256-315 | the first non-conforming field is the error, with the message of its own kind |
| InventoryMacros.MapField | src/inventory/inventory_macros.rs:442-456 | a missing `map` field is the empty map; a present non-mapping is the "must be a dictionary" error |
| InventoryMacros.CollectAll | src/inventory/inventory_macros.rs:457-476 | with string keys, decodable values and no repeats, the result has exactly those keys, each with its decoded value |
| InventoryMacros.MapFieldCollectsEntries | src/inventory/inventory_macros.rs:442-476 | a well-formed present mapping gives exactly its entries, decoded |
| InventoryMacros.CollectStopsAtFirstProblem | src/inventory/inventory_macros.rs:457-476 | the walk stops at the first problem: a non-string key panics, a failed decode gives the "members must be" error |
| InventoryClass.New | src/inventory/inventory_class.rs:19-55 | succeeds if and only if the document is a class document; then raw data is kept as given, the name, namespace and parent namespace are read from their keys, and groups are empty; errors are the parser's |
| InventoryClass.ClassDocumentsConform | src/inventory/inventory_class.rs:23-38 | the class declaration accepts exactly the class documents and binds name, namespace and parent namespace to their keys' values |
| InventoryClass.WrongTypeIsRefused | src/inventory/inventory_class.rs:23-26 | any other `identity.type` is refused with the "must be 'class'" message |
| InventoryClass.MissingNameMessage | src/inventory/inventory_class.rs:28-30 | a missing `identity.name` is reported under `Identity_name`, the field's local name |
| InventoryClass.MissingClassSectionMessage | src/inventory/inventory_class.rs:32-36 | a missing `class` section is reported as the class document lacking that section |

## Left out

- HTTP, TLS and JSON decoding of the etcd replies. `hyper_client_create`, the sends,
  `read_to_string`, `serde_json::from_str` and the header `unwrap`s are network I/O.
  Each reply is an input: a decoded tree and its header index.
- The `Mutex` locking and the spawned watch thread: concurrency is not modelled.
  Handlers and the watcher share one `Cache` object, and each operation is treated
  as atomic.
- Upstream.Upstream.DataThread: the source loops forever. The model runs over a
  finite list of replies and stops when the list runs out or at the first failure.
- Upstream.Upstream.DataThreadWatch: `etcd_index + 1` in `u64` can overflow in the
  source. The wait index is an unbounded integer here.
- Upstream.StoreNodeRecursive: the model requires every valued leaf's key to be at
  least as long as the prefix (`PrefixFits`). The source panics on a shorter key. A
  slice that falls inside a multi-byte UTF-8 character also panics, and that is not
  modelled: strings are sequences of characters, one character per byte.
- Settings loading, `src/ssl.rs`, `src/daemon.rs`, `src/main.rs`, `src/server.rs`,
  `src/server/server.rs` and `src/server/routes.rs`. These are configuration,
  process and listener plumbing or older revisions. The key prefix and the token are
  parameters.
- `src/routes/raw_resources.rs` is not part of this model. The listing handler is
  modelled from `src/server/raw_resources.rs`.
- `src/inventory/inventory.rs` and `src/inventory/inventory_project.rs`: file I/O,
  and fields decoded by serde.
- The generic `opt` and `vec` arms of the parser, which decode through
  `serde_yaml::from_value`. The `map` arm is modelled with an abstract decoder that
  returns the decoder's error description.
- InventoryMacros.Capitalise: only ASCII letters are upper-cased. Rust's
  `to_uppercase` also maps other letters, and can turn one character into several.
- The response headers besides `Content-Type`, and the streaming of the body: a
  response is its status, content type and complete body.
- `serde_json::to_writer` of a string (quoting and escaping): a parameter `json`.
- A YAML mapping is a list of entries in document order. `Get` takes the first entry
  with the key; a YAML mapping never has two.
