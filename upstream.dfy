/** The cache update engine: flattening an etcd key tree into the key -> record map,
    the initial load and the watch steps that keep the map and the etcd index current.
    The HTTP round trips are not modelled: each response arrives as its decoded tree
    and the value of its `X-Etcd-Index` header. */
module Upstream {
  import opened Wrappers
  import opened Etcd

  /** `NodeData`: the record cached for one leaf. */
  datatype NodeData = NodeData(key: string, value: string, createdIndex: u64, modifiedIndex: u64)

  /** The effect one leaf has on the map: a leaf with a value inserts (or overwrites)
      a record, a leaf without one removes a key. */
  datatype Update = Insert(key: string, record: NodeData) | Remove(key: string)

  /** Every leaf that carries a value has a key at least as long as the prefix; the
      source slices `node.key[prefix.len()..]` for such leaves and panics otherwise.
      Directories and value-less leaves are never sliced. */
  predicate PrefixFits(prefixLen: nat, node: EtcdNode)
    decreases node
  {
    if node.dir then
      forall i :: 0 <= i < |node.nodes| ==> PrefixFits(prefixLen, node.nodes[i])
    else
      node.value.Some? ==> prefixLen <= |node.key|
  }

  /** The key under which a valued leaf is stored: `node.key` without its first
      `prefixLen` characters (whatever those characters are). */
  function StrippedKey(prefixLen: nat, node: EtcdNode): (k: string)
    requires prefixLen <= |node.key|
    ensures |k| == |node.key| - prefixLen
    ensures node.key == node.key[..prefixLen] + k
  {
    node.key[prefixLen..]
  }

  /** The record a valued leaf produces. */
  function LeafRecord(prefixLen: nat, node: EtcdNode): NodeData
    requires node.value.Some? && prefixLen <= |node.key|
  {
    NodeData(StrippedKey(prefixLen, node), node.value.value, node.createdIndex, node.modifiedIndex)
  }

  /** The updates `store_node_recursive` performs for `node`, in the order it performs
      them: a directory contributes its children's updates in list order (and nothing
      for its own key or value); a leaf contributes exactly one update. */
  function Updates(prefixLen: nat, node: EtcdNode): seq<Update>
    requires PrefixFits(prefixLen, node)
    decreases node, 1
  {
    if node.dir then
      ChildUpdates(prefixLen, node, |node.nodes|)
    else
      match node.value
      case Some(_) => [Insert(StrippedKey(prefixLen, node), LeafRecord(prefixLen, node))]
      case None => [Remove(node.key)]
  }

  /** The updates of the first `n` children of `parent`, in list order. */
  function ChildUpdates(prefixLen: nat, parent: EtcdNode, n: nat): seq<Update>
    requires parent.dir && PrefixFits(prefixLen, parent) && n <= |parent.nodes|
    decreases parent, 0, n
  {
    if n == 0 then []
    else ChildUpdates(prefixLen, parent, n - 1) + Updates(prefixLen, parent.nodes[n - 1])
  }

  /** One update applied to the map (`HashMap::insert` / `HashMap::remove`). */
  function ApplyOne(m: map<string, NodeData>, u: Update): map<string, NodeData>
  {
    match u
    case Insert(k, r) => m[k := r]
    case Remove(k) => m - {k}
  }

  /** A list of updates applied to the map, first to last. */
  function Apply(m: map<string, NodeData>, us: seq<Update>): map<string, NodeData>
    decreases |us|
  {
    if us == [] then m else ApplyOne(Apply(m, us[..|us| - 1]), us[|us| - 1])
  }

  /** The entry at `k`, if any. */
  function Lookup(m: map<string, NodeData>, k: string): Option<NodeData>
  {
    if k in m then Some(m[k]) else None
  }

  /** What `us` leaves at key `k` when `before` was there: the last update of `k`
      decides, and without one `before` stays. A reference definition, one key at a
      time, for what `Apply` does to the whole map. */
  function Final(us: seq<Update>, k: string, before: Option<NodeData>): Option<NodeData>
    decreases |us|
  {
    if us == [] then before
    else
      var last := us[|us| - 1];
      if last.key != k then Final(us[..|us| - 1], k, before)
      else match last
        case Insert(_, r) => Some(r)
        case Remove(_) => None
  }

  /** The keys some update in `us` is about. */
  function Touched(us: seq<Update>): set<string>
  {
    set i | 0 <= i < |us| :: us[i].key
  }

  lemma {:induction false} ApplyConcat(m: map<string, NodeData>, a: seq<Update>, b: seq<Update>)
    ensures Apply(m, a + b) == Apply(Apply(m, a), b)
    decreases |b|
  {
    if b == [] {
      assert a + b == a;
    } else {
      assert (a + b)[..|a + b| - 1] == a + b[..|b| - 1];
      ApplyConcat(m, a, b[..|b| - 1]);
    }
  }

  /** `Apply` and `Final` agree key by key. */
  lemma {:induction false} ApplyAt(m: map<string, NodeData>, us: seq<Update>, k: string)
    ensures Lookup(Apply(m, us), k) == Final(us, k, Lookup(m, k))
    decreases |us|
  {
    if us != [] {
      ApplyAt(m, us[..|us| - 1], k);
    }
  }

  lemma {:induction false} FinalUntouched(us: seq<Update>, k: string, before: Option<NodeData>)
    requires k !in Touched(us)
    ensures Final(us, k, before) == before
    decreases |us|
  {
    if us != [] {
      assert us[|us| - 1].key in Touched(us);
      assert Touched(us[..|us| - 1]) <= Touched(us) by {
        forall x | x in Touched(us[..|us| - 1]) ensures x in Touched(us) {
          var j :| 0 <= j < |us| - 1 && us[..|us| - 1][j].key == x;
          assert us[j].key == x;
        }
      }
      FinalUntouched(us[..|us| - 1], k, before);
    }
  }

  /** Once a key is touched, what was there before no longer matters. */
  lemma {:induction false} FinalTouched(us: seq<Update>, k: string, d1: Option<NodeData>, d2: Option<NodeData>)
    requires k in Touched(us)
    ensures Final(us, k, d1) == Final(us, k, d2)
    decreases |us|
  {
    var n := |us|;
    if us[n - 1].key != k {
      var j :| 0 <= j < n && us[j].key == k;
      assert us[..n - 1][j] == us[j];
      assert k in Touched(us[..n - 1]);
      FinalTouched(us[..n - 1], k, d1, d2);
    }
  }

  lemma {:induction false} FinalConcat(a: seq<Update>, b: seq<Update>, k: string, before: Option<NodeData>)
    ensures Final(a + b, k, before) == Final(b, k, Final(a, k, before))
    decreases |b|
  {
    if b == [] {
      assert a + b == a;
    } else {
      assert (a + b)[..|a + b| - 1] == a + b[..|b| - 1];
      FinalConcat(a, b[..|b| - 1], k, before);
    }
  }

  /** Maps are equal when they agree at every key. */
  lemma LookupExtensional(a: map<string, NodeData>, b: map<string, NodeData>)
    requires forall k :: Lookup(a, k) == Lookup(b, k)
    ensures a == b
  {
    assert a.Keys == b.Keys by {
      forall k ensures k in a <==> k in b {
        assert Lookup(a, k) == Lookup(b, k);
      }
    }
    forall k | k in a ensures a[k] == b[k] {
      assert Lookup(a, k) == Lookup(b, k);
    }
  }

  /** Applying the same updates twice gives the same map as applying them once:
      every update sets or deletes its key to a fixed result. */
  lemma {:induction false} ApplyIdempotent(m: map<string, NodeData>, us: seq<Update>)
    ensures Apply(Apply(m, us), us) == Apply(m, us)
  {
    var once := Apply(m, us);
    forall k ensures Lookup(Apply(once, us), k) == Lookup(once, k) {
      ApplyAt(once, us, k);
      ApplyAt(m, us, k);
      if k in Touched(us) {
        FinalTouched(us, k, Lookup(once, k), Lookup(m, k));
      } else {
        FinalUntouched(us, k, Lookup(once, k));
      }
    }
    LookupExtensional(Apply(once, us), once);
  }

  /** Keys no update is about keep their entry (or their absence). */
  lemma {:induction false} ApplyFrame(m: map<string, NodeData>, us: seq<Update>, k: string)
    requires k !in Touched(us)
    ensures Lookup(Apply(m, us), k) == Lookup(m, k)
  {
    ApplyAt(m, us, k);
    FinalUntouched(us, k, Lookup(m, k));
  }

  /** Two update lists about disjoint keys can be applied in either order. */
  lemma {:induction false} ApplyCommutes(m: map<string, NodeData>, x: seq<Update>, y: seq<Update>)
    requires Touched(x) !! Touched(y)
    ensures Apply(m, x + y) == Apply(m, y + x)
  {
    forall k ensures Lookup(Apply(m, x + y), k) == Lookup(Apply(m, y + x), k) {
      ApplyAt(m, x + y, k);
      ApplyAt(m, y + x, k);
      FinalConcat(x, y, k, Lookup(m, k));
      FinalConcat(y, x, k, Lookup(m, k));
      if k in Touched(y) {
        FinalUntouched(x, k, Lookup(m, k));
        FinalUntouched(x, k, Final(y, k, Lookup(m, k)));
      } else {
        FinalUntouched(y, k, Lookup(m, k));
        FinalUntouched(y, k, Final(x, k, Lookup(m, k)));
      }
    }
    LookupExtensional(Apply(m, x + y), Apply(m, y + x));
  }

  /** A directory's updates are its children's, one child after the other. */
  lemma {:induction false} ChildUpdatesStep(prefixLen: nat, parent: EtcdNode, i: nat)
    requires parent.dir && PrefixFits(prefixLen, parent) && i < |parent.nodes|
    ensures PrefixFits(prefixLen, parent.nodes[i])
    ensures ChildUpdates(prefixLen, parent, i + 1)
         == ChildUpdates(prefixLen, parent, i) + Updates(prefixLen, parent.nodes[i])
  {
  }

  /** Storing a directory never looks at the directory's own key or value. */
  lemma {:induction false} DirectoryIgnoresOwnKeyAndValue(
    prefixLen: nat, node: EtcdNode, key: string, value: Option<string>)
    requires node.dir && PrefixFits(prefixLen, node)
    ensures PrefixFits(prefixLen, node.(key := key, value := value))
    ensures Updates(prefixLen, node) == Updates(prefixLen, node.(key := key, value := value))
  {
    SameChildrenSameUpdates(prefixLen, node, node.(key := key, value := value), |node.nodes|);
  }

  lemma {:induction false} SameChildrenSameUpdates(prefixLen: nat, a: EtcdNode, b: EtcdNode, n: nat)
    requires a.dir && b.dir && a.nodes == b.nodes
    requires PrefixFits(prefixLen, a) && PrefixFits(prefixLen, b) && n <= |a.nodes|
    ensures ChildUpdates(prefixLen, a, n) == ChildUpdates(prefixLen, b, n)
  {
    if n > 0 {
      SameChildrenSameUpdates(prefixLen, a, b, n - 1);
    }
  }

  /** Flattening the same tree twice gives the same map as flattening it once. */
  lemma StoreIdempotent(prefixLen: nat, node: EtcdNode, m: map<string, NodeData>)
    requires PrefixFits(prefixLen, node)
    ensures Apply(Apply(m, Updates(prefixLen, node)), Updates(prefixLen, node))
         == Apply(m, Updates(prefixLen, node))
  {
    ApplyIdempotent(m, Updates(prefixLen, node));
  }

  /** A valued leaf inserts, or overwrites, the record under its stripped key; no
      other entry changes. */
  lemma StoreLeafWithValue(prefixLen: nat, node: EtcdNode, m: map<string, NodeData>)
    requires !node.dir && node.value.Some? && prefixLen <= |node.key|
    ensures PrefixFits(prefixLen, node)
    ensures var k := node.key[prefixLen..];
            var r := Apply(m, Updates(prefixLen, node));
            && r == m[k := NodeData(k, node.value.value, node.createdIndex, node.modifiedIndex)]
            && r.Keys == m.Keys + {k}
            && r[k] == NodeData(k, node.value.value, node.createdIndex, node.modifiedIndex)
            && forall k' :: k' in m && k' != k ==> r[k'] == m[k']
  {
  }

  /** A leaf without a value removes the entry at its unstripped key; when there is
      none, the map is unchanged. */
  lemma StoreLeafWithoutValue(prefixLen: nat, node: EtcdNode, m: map<string, NodeData>)
    requires !node.dir && node.value.None?
    ensures PrefixFits(prefixLen, node)
    ensures Apply(m, Updates(prefixLen, node)) == m - {node.key}
    ensures node.key !in m ==> Apply(m, Updates(prefixLen, node)) == m
  {
  }

  /** The tombstone misses the record its own key produced: with a non-empty prefix
      the deletion is looked up under the unstripped key, so the stripped entry made
      by an earlier value for the same etcd key survives. */
  lemma TombstoneKeepsStrippedEntry(
    prefixLen: nat, leaf: EtcdNode, tombstone: EtcdNode, m: map<string, NodeData>)
    requires 0 < prefixLen
    requires !leaf.dir && leaf.value.Some? && prefixLen <= |leaf.key|
    requires !tombstone.dir && tombstone.value.None? && tombstone.key == leaf.key
    ensures PrefixFits(prefixLen, leaf) && PrefixFits(prefixLen, tombstone)
    ensures var r := Apply(Apply(m, Updates(prefixLen, leaf)), Updates(prefixLen, tombstone));
            StrippedKey(prefixLen, leaf) in r && r[StrippedKey(prefixLen, leaf)] == LeafRecord(prefixLen, leaf)
  {
    assert |StrippedKey(prefixLen, leaf)| < |tombstone.key|;
  }

  /** Keys the tree says nothing about are left as they were. */
  lemma StoreUntouched(prefixLen: nat, node: EtcdNode, m: map<string, NodeData>, k: string)
    requires PrefixFits(prefixLen, node)
    requires k !in Touched(Updates(prefixLen, node))
    ensures Lookup(Apply(m, Updates(prefixLen, node)), k) == Lookup(m, k)
  {
    ApplyFrame(m, Updates(prefixLen, node), k);
  }

  /** The map behind `Arc<Mutex<HashMap<String, Arc<NodeData>>>>`. One object is
      shared by the upstream state (which writes it) and the request handlers (which
      read it). */
  class Cache {
    var entries: map<string, NodeData>

    constructor ()
      ensures entries == map[]
    {
      entries := map[];
    }
  }

  /** `store_node_recursive`: recurse into a directory's children in list order; store
      a valued leaf under its stripped key; remove a value-less leaf's unstripped key. */
  method StoreNodeRecursive(keyPrefix: string, data: Cache, node: EtcdNode)
    requires PrefixFits(|keyPrefix|, node)
    modifies data
    ensures data.entries == Apply(old(data.entries), Updates(|keyPrefix|, node))
    decreases node
  {
    if node.dir {
      var i := 0;
      while i < |node.nodes|
        invariant 0 <= i <= |node.nodes|
        invariant data.entries == Apply(old(data.entries), ChildUpdates(|keyPrefix|, node, i))
      {
        ChildStored(old(data.entries), |keyPrefix|, node, i);
        StoreNodeRecursive(keyPrefix, data, node.nodes[i]);
        i := i + 1;
      }
      DirectoryStored(old(data.entries), |keyPrefix|, node);
    } else {
      match node.value
      case Some(value) =>
        StoreLeafWithValue(|keyPrefix|, node, data.entries);
        var key := node.key[|keyPrefix|..];
        data.entries := data.entries[key := NodeData(key, value, node.createdIndex, node.modifiedIndex)];
      case None =>
        StoreLeafWithoutValue(|keyPrefix|, node, data.entries);
        data.entries := data.entries - {node.key};
    }
  }

  /** Storing child `i` after the first `i` children is storing the first `i + 1`. */
  lemma ChildStored(m: map<string, NodeData>, prefixLen: nat, parent: EtcdNode, i: nat)
    requires parent.dir && PrefixFits(prefixLen, parent) && i < |parent.nodes|
    ensures PrefixFits(prefixLen, parent.nodes[i])
    ensures Apply(Apply(m, ChildUpdates(prefixLen, parent, i)), Updates(prefixLen, parent.nodes[i]))
         == Apply(m, ChildUpdates(prefixLen, parent, i + 1))
  {
    ChildUpdatesStep(prefixLen, parent, i);
    ApplyConcat(m, ChildUpdates(prefixLen, parent, i), Updates(prefixLen, parent.nodes[i]));
  }

  /** A directory's updates are those of all its children. */
  lemma DirectoryStored(m: map<string, NodeData>, prefixLen: nat, node: EtcdNode)
    requires node.dir && PrefixFits(prefixLen, node)
    ensures Apply(m, Updates(prefixLen, node)) == Apply(m, ChildUpdates(prefixLen, node, |node.nodes|))
  {
  }

  lemma ApplySingle(m: map<string, NodeData>, u: Update)
    ensures Apply(m, [u]) == ApplyOne(m, u)
  {
    assert [u][..0] == [];
  }

  /** What one watch request brought back: a decoded response with its
      `X-Etcd-Index` header, or the error text of a failed connect, read or decode. */
  datatype WatchReply = Received(response: EtcdResponse, headerIndex: u64) | Failed(error: string)

  /** Every received tree can be stored under the prefix. */
  predicate RepliesFit(prefixLen: nat, replies: seq<WatchReply>)
  {
    forall i :: 0 <= i < |replies| && replies[i].Received? ==> PrefixFits(prefixLen, replies[i].response.node)
  }

  /** How many replies succeed before the first failure. */
  function LeadingReceived(replies: seq<WatchReply>): (n: nat)
    ensures n <= |replies|
    ensures forall i :: 0 <= i < n ==> replies[i].Received?
    ensures n < |replies| ==> replies[n].Failed?
  {
    if replies == [] || replies[0].Failed? then 0 else 1 + LeadingReceived(replies[1..])
  }

  /** The map after merging every reply's tree into `m`, in order. */
  function Replay(m: map<string, NodeData>, prefixLen: nat, replies: seq<WatchReply>): map<string, NodeData>
    requires RepliesFit(prefixLen, replies)
    requires forall i :: 0 <= i < |replies| ==> replies[i].Received?
    decreases |replies|
  {
    if replies == [] then m
    else
      var last := replies[|replies| - 1];
      Apply(Replay(m, prefixLen, replies[..|replies| - 1]), Updates(prefixLen, last.response.node))
  }

  /** The etcd index after the replies: the last reply's header, or `index` when
      there was none. */
  function ReplayIndex(index: u64, replies: seq<WatchReply>): u64
    requires forall i :: 0 <= i < |replies| ==> replies[i].Received?
  {
    if replies == [] then index else replies[|replies| - 1].headerIndex
  }

  /** The wait index of each request: the first asks for one past `index`, each later
      one for one past the header of the reply before it. */
  function RequestedIndices(index: u64, replies: seq<WatchReply>): (ws: seq<nat>)
    requires forall i :: 0 <= i < |replies| ==> replies[i].Received?
    ensures |ws| == |replies| + 1
    ensures ws[0] == index as int + 1
    ensures forall i :: 0 <= i < |replies| ==> ws[i + 1] == replies[i].headerIndex as int + 1
    decreases |replies|
  {
    if replies == [] then [index as int + 1]
    else RequestedIndices(index, replies[..|replies| - 1]) + [replies[|replies| - 1].headerIndex as int + 1]
  }

  /** The upstream side of the daemon: `Upstream` together with the `State` behind its
      lock (the shared map and the etcd index). */
  class Upstream {
    const keyPrefix: string
    const data: Cache
    var etcdIndex: u64

    /** `Upstream::start` after the initial load: the first tree is flattened into a
        fresh, empty map and the index is the response's `X-Etcd-Index`. */
    constructor Start(keyPrefix: string, response: EtcdResponse, headerIndex: u64)
      requires PrefixFits(|keyPrefix|, response.node)
      ensures this.keyPrefix == keyPrefix && etcdIndex == headerIndex && fresh(data)
      ensures data.entries == Apply(map[], Updates(|keyPrefix|, response.node))
    {
      var resourceData := new Cache();
      StoreNodeRecursive(keyPrefix, resourceData, response.node);
      this.keyPrefix := keyPrefix;
      this.data := resourceData;
      this.etcdIndex := headerIndex;
    }

    /** `Upstream::data`: the shared map itself, not a copy, so a handler sees every
        update the watch thread has made. */
    function Data(): (c: Cache)
      ensures c == data
    {
      data
    }

    /** `data_thread_watch`: request `waitIndex = etcd_index + 1`; on success overwrite
        the index with the reply's header and merge the tree into the existing map;
        on failure change nothing and return the error. */
    method DataThreadWatch(reply: WatchReply) returns (waitIndex: nat, result: Result<(), string>)
      requires reply.Received? ==> PrefixFits(|keyPrefix|, reply.response.node)
      modifies this, data
      ensures waitIndex == old(etcdIndex) as int + 1
      ensures reply.Failed? ==> result == Err(reply.error)
      ensures reply.Failed? ==> etcdIndex == old(etcdIndex) && data.entries == old(data.entries)
      ensures reply.Received? ==> result == Ok(())
      ensures reply.Received? ==> etcdIndex == reply.headerIndex
      ensures reply.Received? ==>
        data.entries == Apply(old(data.entries), Updates(|keyPrefix|, reply.response.node))
    {
      waitIndex := etcdIndex as int + 1;
      match reply
      case Failed(error) =>
        result := Err(error);
      case Received(response, headerIndex) =>
        etcdIndex := headerIndex;
        StoreNodeRecursive(keyPrefix, data, response.node);
        result := Ok(());
    }

    /** `data_thread`: watch again and again. The replies the network gives are the
        input; the first failed one panics the thread, so nothing after it is asked
        for or applied. Returns how many watch steps succeeded and the wait index of
        every request made. */
    method DataThread(replies: seq<WatchReply>) returns (succeeded: nat, requested: seq<nat>)
      requires RepliesFit(|keyPrefix|, replies[..LeadingReceived(replies)])
      modifies this, data
      ensures succeeded == LeadingReceived(replies)
      ensures succeeded == 0 ==> etcdIndex == old(etcdIndex)
      ensures succeeded > 0 ==> etcdIndex == replies[succeeded - 1].headerIndex
      ensures etcdIndex == ReplayIndex(old(etcdIndex), replies[..succeeded])
      ensures data.entries == Replay(old(data.entries), |keyPrefix|, replies[..succeeded])
      ensures |requested| == if succeeded < |replies| then succeeded + 1 else succeeded
      ensures requested == RequestedIndices(old(etcdIndex), replies[..succeeded])[..|requested|]
    {
      succeeded := 0;
      requested := [];
      while succeeded < |replies|
        invariant succeeded <= LeadingReceived(replies)
        invariant forall i :: 0 <= i < succeeded ==> replies[i].Received?
        invariant etcdIndex == ReplayIndex(old(etcdIndex), replies[..succeeded])
        invariant data.entries == Replay(old(data.entries), |keyPrefix|, replies[..succeeded])
        invariant requested == RequestedIndices(old(etcdIndex), replies[..succeeded])[..succeeded]
        decreases |replies| - succeeded
      {
        assert replies[succeeded].Received? ==> PrefixFits(|keyPrefix|, replies[succeeded].response.node) by {
          if replies[succeeded].Received? {
            assert replies[..LeadingReceived(replies)][succeeded] == replies[succeeded];
          }
        }
        var waitIndex, result := DataThreadWatch(replies[succeeded]);
        requested := requested + [waitIndex];
        if result.Err? {
          // the thread panics with the error
          return;
        }
        assert replies[..succeeded + 1][..succeeded] == replies[..succeeded];
        assert replies[..succeeded + 1] == replies[..LeadingReceived(replies)][..succeeded + 1];
        succeeded := succeeded + 1;
      }
    }
  }

  /** After a run of successful watch steps the index is the header of the last
      reply, whatever the earlier headers were. */
  lemma ReplayIndexIsLastHeader(index: u64, replies: seq<WatchReply>)
    requires 0 < |replies|
    requires forall i :: 0 <= i < |replies| ==> replies[i].Received?
    ensures ReplayIndex(index, replies) == replies[|replies| - 1].headerIndex
  {
  }

  /** The index is not kept monotonic: a reply with a lower header than the one
      before it takes the index down. */
  lemma IndexCanFall(index: u64, first: WatchReply, second: WatchReply)
    requires first.Received? && second.Received?
    requires second.headerIndex < first.headerIndex
    ensures ReplayIndex(index, [first, second]) < ReplayIndex(index, [first])
  {
  }
}
