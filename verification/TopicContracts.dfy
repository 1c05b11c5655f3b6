/**
  Loading the topic contracts: `extends` is resolved with a memo of finished topics.
*/
module TopicContracts {
  import opened PyText

  datatype Json = Null | Bool(b: bool) | Num(n: real) | Text(text: string) | List(items: seq<Json>)
                | Dict(entries: map<string, Json>)

  type Object = map<string, Json>

  type Contracts = map<string, Object>

  /** What `extends` names.  A value that is true but no text is looked up in vain. */
  datatype Parent = NoParent | Named(name: string) | Unusable

  function ParentOf(contract: Object): Parent {
    if "extends" !in contract then NoParent
    else
      match contract["extends"]
      case Null => NoParent
      case Bool(b) => if b then Unusable else NoParent
      case Num(n) => if n == 0.0 then NoParent else Unusable
      case Text(text) => if text == "" then NoParent else Named(text)
      case List(items) => if items == [] then NoParent else Unusable
      case Dict(entries) => if entries == map[] then NoParent else Unusable
  }

  /** A contract extends the topic that it names with a text; a value that Python takes for false names
      none, and any other value cannot be resolved. */
  lemma ParentExactly(contract: Object, name: string)
    ensures ParentOf(contract) == Named(name) <==>
              "extends" in contract && contract["extends"] == Text(name) && name != ""
    ensures ParentOf(contract) == NoParent <==>
              || "extends" !in contract
              || contract["extends"] == Null || contract["extends"] == Bool(false) || contract["extends"] == Num(0.0)
              || contract["extends"] == Text("") || contract["extends"] == List([])
              || contract["extends"] == Dict(map[])
  {
  }

  /** The contract without its `extends`. */
  function Own(contract: Object): Object {
    contract - {"extends"}
  }

  /** What one key of the child makes of the parent's value. */
  function Override(parent: Object, key: string, value: Json): Json {
    if value.Dict? && key in parent && parent[key].Dict? then Dict(parent[key].entries + value.entries) else value
  }

  function MergeSome(parent: Object, child: Object, keys: set<string>): Object
    requires keys <= child.Keys
  {
    parent + map key | key in keys :: Override(parent, key, child[key])
  }

  /** The parent's contract under the child's. */
  function Merge(parent: Object, child: Object): Object {
    MergeSome(parent, child, child.Keys)
  }

  lemma MergeOne(parent: Object, child: Object, keys: set<string>, key: string)
    requires keys <= child.Keys && key in child && key !in keys
    ensures var merged := MergeSome(parent, child, keys);
            MergeSome(parent, child, keys + {key}) == merged[key := Override(merged, key, child[key])]
  {
  }

  lemma MergeAt(parent: Object, contract: Object, key: string)
    requires key != "extends"
    ensures var r := Merge(parent, Own(contract));
            && (key in r <==> key in parent || key in contract)
            && (key in contract ==> r[key] == Override(parent, key, contract[key]))
            && (key in parent && key !in contract ==> r[key] == parent[key])
  {
    assert key in Own(contract) <==> key in contract;
  }

  /** The rank of a topic lies above that of its parent. */
  ghost predicate Acyclic(contracts: Contracts, rank: map<string, nat>) {
    && rank.Keys == contracts.Keys
    && forall t | t in contracts && ParentOf(contracts[t]).Named? && ParentOf(contracts[t]).name in contracts ::
        rank[ParentOf(contracts[t]).name] < rank[t]
  }

  /** Plain recursive inheritance.  None is a missing topic or parent. */
  ghost function Inherit(contracts: Contracts, rank: map<string, nat>, topic: string): Option<Object>
    requires Acyclic(contracts, rank)
    decreases if topic in contracts then rank[topic] + 1 else 0
  {
    if topic !in contracts then None
    else
      match ParentOf(contracts[topic])
      case NoParent => Some(Own(contracts[topic]))
      case Unusable => None
      case Named(parent) =>
        match Inherit(contracts, rank, parent)
        case None => None
        case Some(inherited) => Some(Merge(inherited, Own(contracts[topic])))
  }

  // ------------------------------------------------------------------ the loader

  /** One turn of the loop that merges a child into a copy of its parent. */
  method MergeKey(merged: Object, key: string, value: Json) returns (r: Object)
    ensures r == merged[key := Override(merged, key, value)]
  {
    if value.Dict? && key in merged && merged[key].Dict? {
      r := merged[key := Dict(merged[key].entries + value.entries)];
    } else {
      r := merged[key := value];
    }
  }

  method MergeInto(parent: Object, child: Object) returns (merged: Object)
    ensures merged == Merge(parent, child)
  {
    merged := parent;
    ghost var done: set<string> := {};
    assert merged == MergeSome(parent, child, done);
    hide MergeSome, Override;
    var todo := child.Keys;
    while todo != {}
      invariant done !! todo
      invariant done + todo == child.Keys
      invariant merged == MergeSome(parent, child, done)
      decreases todo
    {
      var key :| key in todo;
      MergeOne(parent, child, done, key);
      merged := MergeKey(merged, key, child[key]);
      todo, done := todo - {key}, done + {key};
    }
    assert done == child.Keys;
  }

  class ContractLoader {
    const contracts: Contracts
    var resolved: Contracts

    constructor (contracts: Contracts)
      ensures this.contracts == contracts && resolved == map[]
    {
      this.contracts := contracts;
      resolved := map[];
    }

    /** Every finished topic holds what plain inheritance gives. */
    ghost predicate Valid(rank: map<string, nat>)
      reads this
    {
      && Acyclic(contracts, rank)
      && forall t | t in resolved :: Inherit(contracts, rank, t) == Some(resolved[t])
    }

    /** `resolve`; None is a KeyError. */
    method Resolve(topic: string, ghost rank: map<string, nat>) returns (r: Option<Object>)
      requires Valid(rank)
      modifies this
      ensures Valid(rank)
      ensures r == Inherit(contracts, rank, topic)
      ensures r.Some? ==> topic in resolved
      ensures forall t | t in old(resolved) :: t in resolved
      ensures resolved.Keys <= old(resolved).Keys + contracts.Keys
      decreases if topic in contracts then rank[topic] + 1 else 0
    {
      if topic in resolved {
        return Some(resolved[topic]);
      }
      if topic !in contracts {
        return None;
      }
      var contract := Own(contracts[topic]);
      match ParentOf(contracts[topic]) {
        case NoParent =>
        case Unusable => return None;
        case Named(name) =>
          var parent := Resolve(name, rank);
          if parent.None? {
            return None;
          }
          contract := MergeInto(parent.value, contract);
      }
      resolved := resolved[topic := contract];
      r := Some(contract);
    }

    /** `load_topic_contracts`: all topics, in any order. */
    method Load(ghost rank: map<string, nat>) returns (r: Option<Contracts>)
      requires Acyclic(contracts, rank) && resolved == map[]
      modifies this
      ensures r.None? <==> exists t :: t in contracts && Inherit(contracts, rank, t).None?
      ensures r.Some? ==> r.value.Keys == contracts.Keys
                          && forall t | t in contracts :: Inherit(contracts, rank, t) == Some(r.value[t])
    {
      var todo := contracts.Keys;
      while todo != {}
        invariant Valid(rank) && todo <= contracts.Keys && resolved.Keys <= contracts.Keys
        invariant contracts.Keys - todo <= resolved.Keys
        decreases |todo|
      {
        var topic :| topic in todo;
        var contract := Resolve(topic, rank);
        if contract.None? {
          return None;
        }
        todo := todo - {topic};
      }
      r := Some(resolved);
    }
  }

  // ------------------------------------------------------------------ what inheritance gives

  /** The topic, its parent, its grandparent and so on. */
  ghost function Chain(contracts: Contracts, rank: map<string, nat>, topic: string): (r: seq<string>)
    requires Acyclic(contracts, rank)
    ensures forall t | t in r :: t in contracts
    decreases if topic in contracts then rank[topic] + 1 else 0
  {
    if topic !in contracts then []
    else if ParentOf(contracts[topic]).Named? then [topic] + Chain(contracts, rank, ParentOf(contracts[topic]).name)
    else [topic]
  }

  predicate Defines(contracts: Contracts, topic: string, key: string) {
    topic in contracts && key in contracts[topic]
  }

  /** A topic has the keys that it or an ancestor has. */
  lemma {:induction false} InheritsKeys(contracts: Contracts, rank: map<string, nat>, topic: string, key: string)
    requires Acyclic(contracts, rank) && Inherit(contracts, rank, topic).Some? && key != "extends"
    ensures key in Inherit(contracts, rank, topic).value
            <==> exists t :: t in Chain(contracts, rank, topic) && Defines(contracts, t, key)
    decreases rank[topic]
  {
    hide Merge;
    var chain := Chain(contracts, rank, topic);
    assert chain[0] == topic && topic in chain;
    if ParentOf(contracts[topic]).Named? {
      var parent := ParentOf(contracts[topic]).name;
      InheritsKeys(contracts, rank, parent, key);
      assert forall t :: t in chain <==> t == topic || t in Chain(contracts, rank, parent);
      MergeAt(Inherit(contracts, rank, parent).value, contracts[topic], key);
    } else {
      assert forall t :: t in chain <==> t == topic;
      assert key in Own(contracts[topic]) <==> key in contracts[topic];
    }
  }

  lemma {:induction false} ChainStep(contracts: Contracts, rank: map<string, nat>, topic: string)
    requires Acyclic(contracts, rank) && Inherit(contracts, rank, topic).Some?
    ensures var chain, own := Chain(contracts, rank, topic), contracts[topic];
            && |chain| >= 1 && chain[0] == topic
            && chain[1..] == if ParentOf(own).Named? then Chain(contracts, rank, ParentOf(own).name) else []
  {
  }

  /** The topic's own entry against the inherited one. */
  lemma {:induction false} ChildFirst(contracts: Contracts, rank: map<string, nat>, topic: string, key: string)
    requires Acyclic(contracts, rank) && Inherit(contracts, rank, topic).Some? && key != "extends"
    ensures !ParentOf(contracts[topic]).Named? && key in contracts[topic] ==>
              key in Inherit(contracts, rank, topic).value
              && Inherit(contracts, rank, topic).value[key] == contracts[topic][key]
    ensures ParentOf(contracts[topic]).Named? ==>
              var r, own, name := Inherit(contracts, rank, topic).value, contracts[topic],
                  ParentOf(contracts[topic]).name;
              && name in contracts && Inherit(contracts, rank, name).Some?
              && (key in own ==> key in r && r[key] == Override(Inherit(contracts, rank, name).value, key, own[key]))
              && (key !in own && key in Inherit(contracts, rank, name).value ==>
                    key in r && r[key] == Inherit(contracts, rank, name).value[key])
  {
    hide Merge, Override;
    if ParentOf(contracts[topic]).Named? {
      MergeAt(Inherit(contracts, rank, ParentOf(contracts[topic]).name).value, contracts[topic], key);
    }
  }

  /** A value that is no object comes from the nearest topic that has the key. */
  lemma {:induction false} NearestValue(contracts: Contracts, rank: map<string, nat>, topic: string, key: string,
                                        i: nat)
    requires Acyclic(contracts, rank) && Inherit(contracts, rank, topic).Some? && key != "extends"
    requires i < |Chain(contracts, rank, topic)| && key in contracts[Chain(contracts, rank, topic)[i]]
    requires forall j | 0 <= j < i :: key !in contracts[Chain(contracts, rank, topic)[j]]
    requires !contracts[Chain(contracts, rank, topic)[i]][key].Dict?
    ensures var r := Inherit(contracts, rank, topic).value;
            key in r && r[key] == contracts[Chain(contracts, rank, topic)[i]][key]
    decreases i
  {
    hide Inherit, Chain;
    var chain := Chain(contracts, rank, topic);
    ChainStep(contracts, rank, topic);
    ChildFirst(contracts, rank, topic, key);
    if i > 0 {
      var parent := ParentOf(contracts[topic]).name;
      assert chain[1..] == Chain(contracts, rank, parent);
      assert forall j | 0 <= j < i - 1 :: chain[1..][j] == chain[j + 1];
      NearestValue(contracts, rank, parent, key, i - 1);
    }
  }

  /** Under a key where only objects are met, each entry comes from the nearest topic that has the entry. */
  lemma {:induction false} NearestEntry(contracts: Contracts, rank: map<string, nat>, topic: string,
                                        key: string, entry: string, i: nat)
    requires Acyclic(contracts, rank) && Inherit(contracts, rank, topic).Some? && key != "extends"
    requires i < |Chain(contracts, rank, topic)| && HasEntry(contracts, Chain(contracts, rank, topic)[i], key, entry)
    requires forall j | 0 <= j < i ::
               && !HasEntry(contracts, Chain(contracts, rank, topic)[j], key, entry)
               && (key in contracts[Chain(contracts, rank, topic)[j]] ==>
                     contracts[Chain(contracts, rank, topic)[j]][key].Dict?)
    ensures var r := Inherit(contracts, rank, topic).value;
            key in r && r[key].Dict? && entry in r[key].entries
            && r[key].entries[entry] == contracts[Chain(contracts, rank, topic)[i]][key].entries[entry]
    decreases i
  {
    hide Inherit, Chain;
    var chain := Chain(contracts, rank, topic);
    ChainStep(contracts, rank, topic);
    ChildFirst(contracts, rank, topic, key);
    if i > 0 {
      var parent := ParentOf(contracts[topic]).name;
      assert !HasEntry(contracts, chain[0], key, entry);
      assert chain[1..] == Chain(contracts, rank, parent);
      assert forall j | 0 <= j < i - 1 :: chain[1..][j] == chain[j + 1];
      NearestEntry(contracts, rank, parent, key, entry, i - 1);
    }
  }

  predicate HasEntry(contracts: Contracts, topic: string, key: string, entry: string) {
    topic in contracts && key in contracts[topic] && contracts[topic][key].Dict?
        && entry in contracts[topic][key].entries
  }
}
