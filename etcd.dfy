/** The etcd v2 wire types: a response pairs an action with one root node, and a
    node is either a directory (with child nodes) or a leaf (with an optional value). */
module Etcd {
  import opened Wrappers

  /** Rust's `u64`. */
  newtype u64 = x: int | 0 <= x < 0x1_0000_0000_0000_0000

  /** A node exactly as the JSON body may carry it: `value`, `dir` and `nodes`
      may each be missing; `key`, `modifiedIndex` and `createdIndex` may not. */
  datatype WireNode = WireNode(
    key: string,
    value: Option<string>,
    dir: Option<bool>,
    nodes: WireChildren,
    modifiedIndex: u64,
    createdIndex: u64)

  /** The `nodes` member of a wire node: missing, or a list of child nodes. */
  datatype WireChildren = Absent | Present(list: seq<WireNode>)

  /** `EtcdNode` after decoding: the missing `dir` and `nodes` have their defaults,
      a missing `value` stays distinct from any present one. */
  datatype EtcdNode = EtcdNode(
    key: string,
    value: Option<string>,
    dir: bool,
    nodes: seq<EtcdNode>,
    modifiedIndex: u64,
    createdIndex: u64)

  /** `EtcdResponse`: an action string and exactly one root node. */
  datatype EtcdResponse = EtcdResponse(action: string, node: EtcdNode)

  /** `false_default` */
  function FalseDefault(): bool { false }

  /** `empty_vec_default` */
  function EmptyVecDefault<T>(): seq<T> { [] }

  /** The field defaults the deserialiser applies to a node and, recursively, to
      its children. */
  function Decode(w: WireNode): (n: EtcdNode)
    decreases w
    ensures n.key == w.key && n.value == w.value
    ensures n.modifiedIndex == w.modifiedIndex && n.createdIndex == w.createdIndex
    ensures n.dir <==> w.dir == Some(true)
    ensures w.nodes.Absent? ==> n.nodes == []
    ensures w.nodes.Present? ==> |n.nodes| == |w.nodes.list|
    ensures w.nodes.Present? ==> forall i :: 0 <= i < |n.nodes| ==> n.nodes[i] == Decode(w.nodes.list[i])
  {
    var children :=
      match w.nodes
      case Absent => EmptyVecDefault()
      case Present(ws) => seq(|ws|, i requires 0 <= i < |ws| => Decode(ws[i]));
    EtcdNode(
      w.key,
      w.value,
      match w.dir case None => FalseDefault() case Some(b) => b,
      children,
      w.modifiedIndex,
      w.createdIndex)
  }

  /** The derived `Serialize`: every member is written, `dir` and `nodes` included,
      and a missing value as `null`. */
  function Encode(n: EtcdNode): (w: WireNode)
    decreases n
    ensures w.dir.Some? && w.nodes.Present? && |w.nodes.list| == |n.nodes|
  {
    WireNode(
      n.key,
      n.value,
      Some(n.dir),
      Present(seq(|n.nodes|, i requires 0 <= i < |n.nodes| => Encode(n.nodes[i]))),
      n.modifiedIndex,
      n.createdIndex)
  }

  /** Decoding what was serialised gives the node back. */
  lemma {:induction false} DecodeEncode(n: EtcdNode)
    ensures Decode(Encode(n)) == n
    decreases n
  {
    var d := Decode(Encode(n));
    forall i | 0 <= i < |n.nodes|
      ensures d.nodes[i] == n.nodes[i]
    {
      DecodeEncode(n.nodes[i]);
    }
  }

  /** A wire node that carries no `dir` and no `nodes` decodes to a leaf with no
      children. */
  lemma MissingMembersGiveLeaf(w: WireNode)
    requires w.dir.None? && w.nodes.Absent?
    ensures !Decode(w).dir && Decode(w).nodes == []
  {
  }
}
