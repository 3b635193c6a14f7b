/** The part of a `serde_yaml::Value` the inventory parser looks at: strings,
    mappings (kept in document order, as `LinkedHashMap` keeps them), sequences, and
    every other scalar folded into one case. */
module Yaml {
  import opened Wrappers

  datatype Yaml =
    | YString(s: string)
    | YMapping(entries: seq<(Yaml, Yaml)>)
    | YSequence(items: seq<Yaml>)
    | YOther(repr: string)   // null, booleans, numbers and tagged values

  /** `Value::as_mapping`: the entries of a mapping, nothing for anything else. */
  function AsMapping(y: Yaml): (r: Option<seq<(Yaml, Yaml)>>)
    ensures r.Some? <==> y.YMapping?
    ensures r.Some? ==> r.value == y.entries
  {
    match y
    case YMapping(entries) => Some(entries)
    case _ => None
  }

  /** `Value::as_str`: the text of a string, nothing for anything else. */
  function AsStr(y: Yaml): (r: Option<string>)
    ensures r.Some? <==> y.YString?
    ensures r.Some? ==> r.value == y.s
  {
    match y
    case YString(s) => Some(s)
    case _ => None
  }

  /** Whether some entry of `entries` has the string key `key`. */
  predicate HasKey(entries: seq<(Yaml, Yaml)>, key: string)
  {
    exists i :: 0 <= i < |entries| && entries[i].0 == YString(key)
  }

  /** `Mapping::get(&Value::String(key))`: the value of the entry whose key is the
      string `key`. A YAML mapping has each key at most once; should one appear twice,
      the first entry is taken. */
  function Get(entries: seq<(Yaml, Yaml)>, key: string): (r: Option<Yaml>)
    ensures r.None? <==> !HasKey(entries, key)
    ensures r.Some? ==> exists i :: 0 <= i < |entries| && entries[i] == (YString(key), r.value)
    decreases |entries|
  {
    if entries == [] then None
    else if entries[0].0 == YString(key) then Some(entries[0].1)
    else
      var r := Get(entries[1..], key);
      TailFacts(entries, key, r);
      r
  }

  /** What the entries after the first tell about the whole list. */
  lemma TailFacts(entries: seq<(Yaml, Yaml)>, key: string, r: Option<Yaml>)
    requires entries != [] && entries[0].0 != YString(key)
    requires r.None? <==> !HasKey(entries[1..], key)
    requires r.Some? ==> exists i :: 0 <= i < |entries[1..]| && entries[1..][i] == (YString(key), r.value)
    ensures r.None? <==> !HasKey(entries, key)
    ensures r.Some? ==> exists i :: 0 <= i < |entries| && entries[i] == (YString(key), r.value)
  {
    if HasKey(entries[1..], key) {
      var i :| 0 <= i < |entries[1..]| && entries[1..][i].0 == YString(key);
      assert entries[i + 1].0 == YString(key);
    }
    if HasKey(entries, key) {
      var i :| 0 <= i < |entries| && entries[i].0 == YString(key);
      assert entries[1..][i - 1].0 == YString(key);
    }
    if r.Some? {
      var i :| 0 <= i < |entries[1..]| && entries[1..][i] == (YString(key), r.value);
      assert entries[i + 1] == (YString(key), r.value);
    }
  }

  /** When the keys of a mapping are distinct, `Get` finds the value of the one entry
      with the key, wherever it sits. */
  lemma {:induction false} GetFindsEntry(entries: seq<(Yaml, Yaml)>, i: nat)
    requires i < |entries| && entries[i].0.YString?
    requires forall j, k :: 0 <= j < k < |entries| ==> entries[j].0 != entries[k].0
    ensures Get(entries, entries[i].0.s) == Some(entries[i].1)
    decreases i
  {
    if i > 0 {
      assert entries[0].0 != entries[i].0;
      GetFindsEntry(entries[1..], i - 1);
    }
  }
}
