/** Node set extraction: the listener of the recursive browser that copies the server's
    address space into an information model. */
module NodeSetServer {
  import opened OpcUaTypes
  import opened ViewServiceBrowse
  import opened BrowseRuns
  import opened BrowseTold
  import opened BrowseExploration
  import opened BrowseFailures

  /** A node's references: one entry for each reference type and target, holding the
      direction of the reference that was added first. */
  type References = map<(NodeId, NodeId), bool>

  type Model = map<NodeId, References>

  /** The namespace index map and the outcome of the `k`-th attribute read. */
  datatype Environment = Environment(toGlobal: nat -> nat, readStatus: nat -> StatusCode)

  datatype Builder = Builder(model: Model, readCount: nat)

  const ROOT := NodeId(0, Numeric(84))

  const INITIAL := Builder(map[ROOT := map[]], 0)

  function Global(env: Environment, n: NodeId): NodeId {
    n.(namespaceIndex := env.toGlobal(n.namespaceIndex))
  }

  function AddItem(refs: References, r: Reference, target: NodeId): References {
    if (r.typeId, target) in refs then refs else refs[(r.typeId, target) := r.isForward]
  }

  /** Whether the target needs an attribute read, and what reading it yields. */
  function ReadCode(env: Environment, s: Builder, target: NodeId, nodeClass: NodeClass): StatusCode {
    if target in s.model then BadNodeIdExists
    else if nodeClass.UnspecifiedClass? then BadViewParameterMismatch
    else env.readStatus(s.readCount)
  }

  function AfterRead(env: Environment, s: Builder, target: NodeId, nodeClass: NodeClass): Builder {
    if target in s.model || nodeClass.UnspecifiedClass? then s
    else
      var g := Global(env, target);
      var isNew := env.readStatus(s.readCount) == Success && g !in s.model;
      Builder(if isNew then s.model[g := map[]] else s.model, s.readCount + 1)
  }

  function AddReference(env: Environment, s: Builder, nodeId: NodeId, r: Reference): Builder {
    var code, s1 := ReadCode(env, s, r.target, r.nodeClass), AfterRead(env, s, r.target, r.nodeClass);
    if (code != Success && code != BadNodeIdExists) || nodeId !in s1.model then s1
    else s1.(model := s1.model[nodeId := AddItem(s1.model[nodeId], r, Global(env, r.target))])
  }

  function AddPrefix(env: Environment, s: Builder, nodeId: NodeId, refs: seq<Reference>, k: nat): Builder
    requires k <= |refs|
  {
    if k == 0 then s else AddReference(env, AddPrefix(env, s, nodeId, refs, k - 1), nodeId, refs[k - 1])
  }

  function OnCallback(env: Environment, s: Builder, c: Callback): Builder {
    if !c.NodeResult? || c.statusCode != Success || c.nodeId !in s.model then s
    else AddPrefix(env, s, c.nodeId, c.references, |c.references|)
  }

  function OnCallbacks(env: Environment, s: Builder, cs: seq<Callback>): Builder {
    if cs == [] then s else OnCallback(env, OnCallbacks(env, s, cs[..|cs| - 1]), cs[|cs| - 1])
  }

  class NodeSetService {
    var model: Model
    var readNodeId: NodeId
    var readCount: nat
    const env: Environment

    function View(): Builder
      reads this
    {
      Builder(model, readCount)
    }

    constructor (env: Environment)
      ensures this.env == env && View() == Builder(map[], 0)
    {
      this.env, model, readNodeId, readCount := env, map[], ROOT, 0;
    }

    method CreateRootNode()
      modifies this`model
      ensures View() == old(View()).(model := if ROOT in old(model) then old(model) else old(model)[ROOT := map[]])
    {
      if ROOT !in model {
        model := model[ROOT := map[]];
      }
    }

    method ViewServiceBrowseResult(statusCode: StatusCode, nodeId: NodeId, references: seq<Reference>)
      modifies this
      ensures View() == OnCallback(env, old(View()), NodeResult(statusCode, nodeId, references))
    {
      if statusCode != Success || nodeId !in model {
        return;
      }
      for i := 0 to |references|
        invariant View() == AddPrefix(env, old(View()), nodeId, references, i)
        invariant nodeId in model
      {
        var r := references[i];
        readNodeId := r.target;
        var code := ReadNodeAttributes(r.nodeClass);
        if code == Success || code == BadNodeIdExists {
          var target := r.target.(namespaceIndex := env.toGlobal(r.target.namespaceIndex));
          var items := model[nodeId];
          if (r.typeId, target) !in items {
            items := items[(r.typeId, target) := r.isForward];
          }
          model := model[nodeId := items];
        }
      }
    }

    /** Reads the node named by the field `readNodeId` and inserts it under its global id. */
    method ReadNodeAttributes(nodeClass: NodeClass) returns (code: StatusCode)
      modifies this
      ensures code == ReadCode(env, old(View()), old(readNodeId), nodeClass)
      ensures View() == AfterRead(env, old(View()), old(readNodeId), nodeClass)
      ensures old(model).Keys <= model.Keys
    {
      if readNodeId in model {
        return BadNodeIdExists;
      }
      if nodeClass.UnspecifiedClass? {
        return BadViewParameterMismatch;
      }
      code := env.readStatus(readCount);
      readCount := readCount + 1;
      if code == Success {
        readNodeId := readNodeId.(namespaceIndex := env.toGlobal(readNodeId.namespaceIndex));
        if readNodeId !in model {
          model := model[readNodeId := map[]];
        }
      }
    }
  }

  // ---------------------------------------------------------------------
  // Dangling references
  // ---------------------------------------------------------------------

  ghost predicate NoDangling(m: Model) {
    forall n, k :: n in m && k in m[n] ==> k.1 in m
  }

  /** What adding a reference does, for every outcome of the attribute read: a node is added
      only by a read that succeeds, the reference is stored if and only if the read succeeds
      or the node is taken for existing, and nothing else changes. */
  lemma AddReferenceExactly(env: Environment, s: Builder, nodeId: NodeId, r: Reference)
    requires nodeId in s.model
    ensures var m := AddReference(env, s, nodeId, r).model;
            var g := NodeId(env.toGlobal(r.target.namespaceIndex), r.target.identifier);
            var isRead := r.target !in s.model && !r.nodeClass.UnspecifiedClass?;
            var code := if isRead then env.readStatus(s.readCount) else Success;
            && m.Keys == s.model.Keys + (if isRead && code == Success then {g} else {})
            && ((r.typeId, g) in m[nodeId] <==>
                  || (r.typeId, g) in s.model[nodeId] || r.target in s.model
                  || (isRead && (code == Success || code == BadNodeIdExists)))
            && ((r.typeId, g) in m[nodeId] ==>
                  m[nodeId][(r.typeId, g)] ==
                  if (r.typeId, g) in s.model[nodeId] then s.model[nodeId][(r.typeId, g)] else r.isForward)
            && (forall k :: k != (r.typeId, g) ==>
                  (k in m[nodeId] <==> k in s.model[nodeId]) && (k in m[nodeId] ==> m[nodeId][k] == s.model[nodeId][k]))
            && (forall n :: n in m && n != nodeId ==> m[n] == if n in s.model then s.model[n] else map[])
            && AddReference(env, s, nodeId, r).readCount == s.readCount + if isRead then 1 else 0
  {}

  /** Adding a reference keeps the model free of dangling references exactly when it does
      not take a node for existing whose global id is missing. */
  lemma AddReferenceKeepsNoDanglingIff(env: Environment, s: Builder, nodeId: NodeId, r: Reference)
    requires NoDangling(s.model) && nodeId in s.model
    ensures NoDangling(AddReference(env, s, nodeId, r).model) <==>
            !(ReadCode(env, s, r.target, r.nodeClass) == BadNodeIdExists && Global(env, r.target) !in s.model)
  {
    var s' := AddReference(env, s, nodeId, r);
    var g := Global(env, r.target);
    if ReadCode(env, s, r.target, r.nodeClass) == BadNodeIdExists && g !in s.model {
      assert g !in s'.model;
      assert (r.typeId, g) in s'.model[nodeId];
    } else {
      forall n, k | n in s'.model && k in s'.model[n] ensures k.1 in s'.model {
        if n in s.model && k in s.model[n] {
          assert k.1 in s.model;
        }
      }
    }
  }

  /** With the identity namespace map, and reads that never answer BadNodeIdExists
      themselves, no result can make a dangling reference. */
  lemma {:induction false} ResultsKeepNoDangling(
    env: Environment, s: Builder, nodeId: NodeId, refs: seq<Reference>, k: nat)
    requires NoDangling(s.model) && nodeId in s.model && k <= |refs|
    requires forall i :: 0 <= i < |refs| ==> Global(env, refs[i].target) == refs[i].target
    requires forall i :: env.readStatus(i) != BadNodeIdExists
    ensures NoDangling(AddPrefix(env, s, nodeId, refs, k).model) && nodeId in AddPrefix(env, s, nodeId, refs, k).model
  {
    if k > 0 {
      ResultsKeepNoDangling(env, s, nodeId, refs, k - 1);
      AddReferenceKeepsNoDanglingIff(env, AddPrefix(env, s, nodeId, refs, k - 1), nodeId, refs[k - 1]);
    }
  }

  /** The same for whatever the browser tells: results of any status and in any order. */
  lemma {:induction false} CallbacksKeepNoDangling(env: Environment, cs: seq<Callback>)
    requires forall c, r :: c in cs && c.NodeResult? && r in c.references ==> Global(env, r.target) == r.target
    requires forall i :: env.readStatus(i) != BadNodeIdExists
    ensures NoDangling(OnCallbacks(env, INITIAL, cs).model)
    decreases |cs|
  {
    if cs != [] {
      var told, c := cs[..|cs| - 1], cs[|cs| - 1];
      assert forall x :: x in told ==> x in cs;
      CallbacksKeepNoDangling(env, told);
      var s := OnCallbacks(env, INITIAL, told);
      if c.NodeResult? && c.nodeId in s.model {
        ResultsKeepNoDangling(env, s, c.nodeId, c.references, |c.references|);
      }
    }
  }

  /** A server that answers an attribute read with BadNodeIdExists leaves the reference
      without its node. */
  lemma ReadAnsweringExistsDangles(r: Reference)
    requires r.target != ROOT && r.nodeClass.ObjectClass?
    ensures var env := Environment(i => i, _ => BadNodeIdExists);
            !NoDangling(AddReference(env, INITIAL, ROOT, r).model)
  {
    var env := Environment(i => i, _ => BadNodeIdExists);
    AddReferenceKeepsNoDanglingIff(env, INITIAL, ROOT, r);
  }

  // ---------------------------------------------------------------------
  // The graph copy
  // ---------------------------------------------------------------------

  /** The references of a result as the model stores them. */
  function Stored(refs: seq<Reference>): References {
    if refs == [] then map[]
    else
      var r := refs[|refs| - 1];
      AddItem(Stored(refs[..|refs| - 1]), r, r.target)
  }

  predicate IsEdge(r: Reference, t: NodeId, m: NodeId) {
    r.typeId == t && r.target == m
  }

  /** `Stored` keeps every reference type and target. */
  lemma {:induction false} StoredKeepsEachEdge(refs: seq<Reference>, t: NodeId, m: NodeId)
    ensures (t, m) in Stored(refs) <==> exists i :: 0 <= i < |refs| && IsEdge(refs[i], t, m)
  {
    if refs != [] {
      var front, last := refs[..|refs| - 1], refs[|refs| - 1];
      StoredKeepsEachEdge(front, t, m);
      assert forall j :: 0 <= j < |front| ==> front[j] == refs[j];
      if i :| 0 <= i < |front| && IsEdge(front[i], t, m) {
        assert IsEdge(refs[i], t, m);
      } else if i :| 0 <= i < |refs| && IsEdge(refs[i], t, m) {
        assert i == |front|;
      }
    }
  }

  /** An edge that is listed more than once keeps the direction it was first listed with. */
  lemma {:induction false} StoredKeepsFirstDirection(refs: seq<Reference>, t: NodeId, m: NodeId, i: nat)
    requires i < |refs| && IsEdge(refs[i], t, m)
    requires forall j :: 0 <= j < i ==> !IsEdge(refs[j], t, m)
    ensures (t, m) in Stored(refs) && Stored(refs)[(t, m)] == refs[i].isForward
    decreases |refs|
  {
    var front := refs[..|refs| - 1];
    if i < |front| {
      StoredKeepsFirstDirection(front, t, m, i);
    } else {
      StoredKeepsEachEdge(front, t, m);
    }
  }

  /** Every attribute read succeeds, and the references told have valid node classes and
      targets in namespaces that keep their index. */
  ghost predicate Cooperative(env: Environment, cs: seq<Callback>) {
    && (forall i :: env.readStatus(i) == Success)
    && (forall i :: 0 <= i < |cs| && cs[i].NodeResult? ==> Readable(env, cs[i].references))
  }

  ghost predicate Readable(env: Environment, refs: seq<Reference>) {
    forall r :: r in refs ==> !r.nodeClass.UnspecifiedClass? && Global(env, r.target) == r.target
  }

  /** The model after the callbacks `cs`: the root and all nodes heard of, each with the
      references told for it. */
  ghost predicate Copied(cs: seq<Callback>, m: Model) {
    && m.Keys == {ROOT} + Heard(cs)
    && forall n :: n in m ==> m[n] == Stored(RefsTold(cs, n))
  }

  ghost predicate IsBad(c: Callback) {
    c.NodeResult? && c.statusCode != Success
  }

  ghost predicate BadResultsAreEmpty(cs: seq<Callback>) {
    forall i :: 0 <= i < |cs| && IsBad(cs[i]) ==> cs[i].references == []
  }

  /** `m` is `base` with the targets of `refs` added as nodes and `refs` stored at `nodeId`. */
  ghost predicate Extends(base: Model, nodeId: NodeId, refs: seq<Reference>, m: Model) {
    && m.Keys == base.Keys + Targets(refs) + {nodeId}
    && m[nodeId] == Stored(refs)
    && forall n :: n in m && n != nodeId ==> m[n] == if n in base then base[n] else map[]
  }

  /** What adding a reference whose attributes can be read does to the model. */
  lemma AddReferenceEffect(env: Environment, s: Builder, nodeId: NodeId, r: Reference)
    requires nodeId in s.model && env.readStatus(s.readCount) == Success
    requires !r.nodeClass.UnspecifiedClass? && Global(env, r.target) == r.target
    ensures var m := AddReference(env, s, nodeId, r).model;
            && m.Keys == s.model.Keys + {r.target}
            && m[nodeId] == AddItem(s.model[nodeId], r, r.target)
            && forall n :: n in m && n != nodeId ==> m[n] == if n in s.model then s.model[n] else map[]
  {}

  lemma AddReferenceExtends(env: Environment, base: Model, s: Builder, nodeId: NodeId, refs: seq<Reference>)
    requires refs != [] && Extends(base, nodeId, refs[..|refs| - 1], s.model)
    requires env.readStatus(s.readCount) == Success
    requires var r := refs[|refs| - 1]; !r.nodeClass.UnspecifiedClass? && Global(env, r.target) == r.target
    ensures Extends(base, nodeId, refs, AddReference(env, s, nodeId, refs[|refs| - 1]).model)
  {
    AddReferenceEffect(env, s, nodeId, refs[|refs| - 1]);
    TargetsGrow(refs);
  }

  lemma NothingExtends(base: Model, nodeId: NodeId)
    requires nodeId in base && base[nodeId] == map[]
    ensures Extends(base, nodeId, [], base)
  {
    assert Targets([]) == {};
  }

  lemma TargetsGrow(refs: seq<Reference>)
    requires refs != []
    ensures Targets(refs) == Targets(refs[..|refs| - 1]) + {refs[|refs| - 1].target}
  {
    assert refs == refs[..|refs| - 1] + [refs[|refs| - 1]];
  }

  lemma {:induction false} AddPrefixCopies(env: Environment, s: Builder, nodeId: NodeId, refs: seq<Reference>, k: nat)
    requires nodeId in s.model && s.model[nodeId] == map[] && k <= |refs|
    requires forall i :: env.readStatus(i) == Success
    requires forall r :: r in refs ==> !r.nodeClass.UnspecifiedClass? && Global(env, r.target) == r.target
    ensures Extends(s.model, nodeId, refs[..k], AddPrefix(env, s, nodeId, refs, k).model)
  {
    if k == 0 {
      NothingExtends(s.model, nodeId);
      assert refs[..0] == [];
    } else {
      AddPrefixCopies(env, s, nodeId, refs, k - 1);
      assert refs[..k][..k - 1] == refs[..k - 1] && refs[k - 1] in refs;
      AddReferenceExtends(env, s.model, AddPrefix(env, s, nodeId, refs, k - 1), nodeId, refs[..k]);
    }
  }

  lemma {:induction false} FoundIsKnown(start: set<NodeId>, cs: seq<Callback>)
    requires InOrder(start, cs)
    ensures Found(cs) <= start + Heard(cs)
    decreases |cs|
  {
    if cs != [] {
      FoundIsKnown(start, cs[..|cs| - 1]);
    }
  }

  /** A reported node is in the model when its result arrives (the not-found branch of the
      handler is never taken), and its result extends the copy. */
  lemma CallbackCopies(env: Environment, s: Builder, cs: seq<Callback>)
    requires cs != [] && InOrder({ROOT}, cs) && Copied(cs[..|cs| - 1], s.model)
    requires var c := cs[|cs| - 1];
             && (forall i :: env.readStatus(i) == Success)
             && (c.NodeResult? ==> Readable(env, c.references))
             && (IsBad(c) ==> c.references == [])
    ensures cs[|cs| - 1].NodeResult? ==> cs[|cs| - 1].nodeId in s.model
    ensures Copied(cs, OnCallback(env, s, cs[|cs| - 1]).model)
  {
    var told, c := cs[..|cs| - 1], cs[|cs| - 1];
    if c.NodeResult? {
      RefsAreHeard(told, c.nodeId);
      if c.statusCode == Success {
        assert c.references[..|c.references|] == c.references;
        AddPrefixCopies(env, s, c.nodeId, c.references, |c.references|);
        ExtendedCopy(cs, s.model, OnCallback(env, s, c).model);
      } else {
        EmptyResultCopy(cs, s.model);
      }
    }
  }

  lemma ExtendedCopy(cs: seq<Callback>, m: Model, m': Model)
    requires cs != [] && cs[|cs| - 1].NodeResult? && InOrder({ROOT}, cs) && Copied(cs[..|cs| - 1], m)
    requires Extends(m, cs[|cs| - 1].nodeId, cs[|cs| - 1].references, m')
    ensures Copied(cs, m')
  {
    var told := cs[..|cs| - 1];
    FoundIsKnown({ROOT}, told);
    forall x | x in m' ensures m'[x] == Stored(RefsTold(cs, x)) {
      RefsAreHeard(told, x);
    }
  }

  lemma EmptyResultCopy(cs: seq<Callback>, m: Model)
    requires cs != [] && cs[|cs| - 1].NodeResult? && cs[|cs| - 1].references == []
    requires InOrder({ROOT}, cs) && Copied(cs[..|cs| - 1], m)
    ensures Copied(cs, m)
  {
    var told := cs[..|cs| - 1];
    assert Targets([]) == {};
    forall x | x in m ensures m[x] == Stored(RefsTold(cs, x)) {
      RefsAreHeard(told, x);
    }
  }

  lemma {:induction false} CallbacksCopy(env: Environment, cs: seq<Callback>)
    requires InOrder({ROOT}, cs) && Cooperative(env, cs) && BadResultsAreEmpty(cs)
    ensures Copied(cs, OnCallbacks(env, INITIAL, cs).model)
    decreases |cs|
  {
    if cs == [] {
      assert Heard([]) == {};
    } else {
      var told := cs[..|cs| - 1];
      assert forall i :: 0 <= i < |told| ==> told[i] == cs[i];
      CallbacksCopy(env, told);
      CallbackCopies(env, OnCallbacks(env, INITIAL, told), cs);
    }
  }

  // ---------------------------------------------------------------------
  // Bad results that carry references
  // ---------------------------------------------------------------------

  /** Nodes with a good result. */
  ghost function Good(cs: seq<Callback>): set<NodeId> {
    if cs == [] then {}
    else
      var told, c := cs[..|cs| - 1], cs[|cs| - 1];
      if c.NodeResult? && c.statusCode == Success then Good(told) + {c.nodeId} else Good(told)
  }

  lemma {:induction false} GoodAt(cs: seq<Callback>, n: NodeId) returns (i: nat)
    requires n in Good(cs)
    ensures i < |cs| && cs[i].NodeResult? && cs[i].nodeId == n && cs[i].statusCode == Success
    decreases |cs|
  {
    var c := cs[|cs| - 1];
    if c.NodeResult? && c.statusCode == Success && c.nodeId == n {
      i := |cs| - 1;
    } else {
      i := GoodAt(cs[..|cs| - 1], n);
    }
  }

  /** A result changes only its own node's references; new nodes have none. */
  lemma {:induction false} AddPrefixTouches(
    env: Environment, s: Builder, nodeId: NodeId, refs: seq<Reference>, k: nat, n: NodeId)
    requires k <= |refs| && n != nodeId && n in AddPrefix(env, s, nodeId, refs, k).model
    ensures AddPrefix(env, s, nodeId, refs, k).model[n] == if n in s.model then s.model[n] else map[]
  {
    if k > 0 {
      var before := AddPrefix(env, s, nodeId, refs, k - 1);
      if n in before.model {
        AddPrefixTouches(env, s, nodeId, refs, k - 1, n);
      } else {
        AddPrefixGrows(env, s, nodeId, refs, k - 1);
      }
    }
  }

  lemma {:induction false} AddPrefixGrows(env: Environment, s: Builder, nodeId: NodeId, refs: seq<Reference>, k: nat)
    requires k <= |refs|
    ensures s.model.Keys <= AddPrefix(env, s, nodeId, refs, k).model.Keys
  {
    if k > 0 {
      AddPrefixGrows(env, s, nodeId, refs, k - 1);
    }
  }

  lemma {:induction false} StoredAreGood(env: Environment, cs: seq<Callback>, n: NodeId)
    requires n in OnCallbacks(env, INITIAL, cs).model && n !in Good(cs)
    ensures OnCallbacks(env, INITIAL, cs).model[n] == map[]
    decreases |cs|
  {
    if cs != [] {
      var told, c := cs[..|cs| - 1], cs[|cs| - 1];
      var s := OnCallbacks(env, INITIAL, told);
      if n in s.model {
        StoredAreGood(env, told, n);
      }
      if OnCallback(env, s, c) != s {
        AddPrefixTouches(env, s, c.nodeId, c.references, |c.references|, n);
      }
    }
  }

  lemma BadResultBreaksTheCopy(env: Environment, cs: seq<Callback>, i: nat)
    requires InOrder({ROOT}, cs) && i < |cs| && IsBad(cs[i]) && cs[i].references != []
    ensures !Copied(cs, OnCallbacks(env, INITIAL, cs).model)
  {
    var n, m := cs[i].nodeId, OnCallbacks(env, INITIAL, cs).model;
    InOrderAt({ROOT}, cs, i);
    FoundAt(cs, i);
    FoundIsKnown({ROOT}, cs);
    if n in m {
      if n in Good(cs) {
        var j := GoodAt(cs, n);
        assert false;
      }
      StoredAreGood(env, cs, n);
      StoredIsNotEmpty(cs[i].references);
    }
  }

  lemma StoredIsNotEmpty(refs: seq<Reference>)
    requires refs != []
    ensures Stored(refs) != map[]
  {
    StoredKeepsEachEdge(refs, refs[0].typeId, refs[0].target);
    assert IsEdge(refs[0], refs[0].typeId, refs[0].target);
  }

  /** The browser makes such callbacks: a run from the root in which a second page fails. */
  lemma BadLaterPageIsNotCopied(env: Environment, x: Reference, point: ContinuationPoint, bad: StatusCode)
    returns (bs: seq<Browser>, rs: seq<Response>)
    requires x.target != ROOT && bad != Success
    ensures IsBrowse([ROOT], bs, rs) && NoFailure(bs, rs) && bs[|rs|].request == Idle
    ensures !Copied(bs[|rs|].callbacks, OnCallbacks(env, INITIAL, bs[|rs|].callbacks).model)
  {
    bs, rs := BadLaterPageIsTold(ROOT, x, point, bad);
    RunKeepsInv([ROOT], bs, rs, |rs|);
    assert Elements([ROOT]) == {ROOT};
    BadResultBreaksTheCopy(env, bs[|rs|].callbacks, 0);
  }

  /** For every sequence of callbacks the browser can make, failed calls and failed nodes
      included: the model is an exact copy of the told graph if and only if no result with a
      bad status carries references. */
  lemma NodeSetCopiesIff(env: Environment, cs: seq<Callback>)
    requires InOrder({ROOT}, cs) && Cooperative(env, cs)
    ensures Copied(cs, OnCallbacks(env, INITIAL, cs).model) <==> BadResultsAreEmpty(cs)
  {
    if BadResultsAreEmpty(cs) {
      CallbacksCopy(env, cs);
    } else {
      var i :| 0 <= i < |cs| && IsBad(cs[i]) && cs[i].references != [];
      BadResultBreaksTheCopy(env, cs, i);
    }
  }

  /** End to end: after a complete recursive browse from the root, the information model
      holds no dangling reference, and it is exactly the graph reachable over the delivered
      references if and only if no result with a bad status carried references. */
  lemma NodeSetIsTheReachableGraphIff(env: Environment, bs: seq<Browser>, rs: seq<Response>)
    requires IsBrowse([NodeId(0, Numeric(84))], bs, rs) && NoFailure(bs, rs) && bs[|rs|].request == Idle
    requires Cooperative(env, bs[|rs|].callbacks)
    ensures var cs := bs[|rs|].callbacks;
            var m := OnCallbacks(env, INITIAL, cs).model;
            && NoDangling(m)
            && (forall n :: n in Found(cs) <==> Reachable(ToldGraph(cs), {ROOT}, n))
            && (IsGraph(Found(cs), cs, m) <==> BadResultsAreEmpty(cs))
  {
    var cs := bs[|rs|].callbacks;
    BrowseVisitsExactlyTheReachableNodes([ROOT], bs, rs);
    assert Elements([ROOT]) == {ROOT};
    NodeSetCopiesIff(env, cs);
    CooperativeKeepsNoDangling(env, cs);
  }

  /** `m` has exactly these nodes, each with exactly the references told for it. */
  ghost predicate IsGraph(nodes: set<NodeId>, cs: seq<Callback>, m: Model) {
    m.Keys == nodes && forall n :: n in m ==> m[n] == Stored(RefsTold(cs, n))
  }

  lemma CooperativeKeepsNoDangling(env: Environment, cs: seq<Callback>)
    requires Cooperative(env, cs)
    ensures NoDangling(OnCallbacks(env, INITIAL, cs).model)
  {
    forall c, r | c in cs && c.NodeResult? && r in c.references ensures Global(env, r.target) == r.target {
      var i :| 0 <= i < |cs| && cs[i] == c;
      assert Readable(env, cs[i].references);
    }
    CallbacksKeepNoDangling(env, cs);
  }

  // ---------------------------------------------------------------------
  // Results whose node is not in the model
  // ---------------------------------------------------------------------

  /** The targets of the references that good results carried. */
  ghost function Announced(cs: seq<Callback>): set<NodeId> {
    if cs == [] then {}
    else
      var told, c := cs[..|cs| - 1], cs[|cs| - 1];
      if c.NodeResult? && c.statusCode == Success then Announced(told) + Targets(c.references) else Announced(told)
  }

  /** A good result, or any result if `all`. */
  predicate Counts(c: Callback, all: bool) {
    c.NodeResult? && (all || c.statusCode == Success)
  }

  /** Every result that counts finds its node in the model. For good results alone this says
      that the not-found branch of the handler is never taken. */
  ghost predicate FindsAll(env: Environment, cs: seq<Callback>, all: bool) {
    cs != [] ==>
      var told, c := cs[..|cs| - 1], cs[|cs| - 1];
      FindsAll(env, told, all) && (Counts(c, all) ==> c.nodeId in OnCallbacks(env, INITIAL, told).model)
  }

  /** Every result that counts is about the root or a target of an earlier good result. */
  ghost predicate AllAnnounced(cs: seq<Callback>, all: bool) {
    cs != [] ==>
      var told, c := cs[..|cs| - 1], cs[|cs| - 1];
      AllAnnounced(told, all) && (Counts(c, all) ==> c.nodeId in {ROOT} + Announced(told))
  }

  lemma {:induction false} AddPrefixKeys(
    env: Environment, s: Builder, nodeId: NodeId, refs: seq<Reference>, k: nat)
    requires k <= |refs| && nodeId in s.model && Readable(env, refs) && forall i :: env.readStatus(i) == Success
    ensures AddPrefix(env, s, nodeId, refs, k).model.Keys == s.model.Keys + FirstTargets(refs, k)
  {
    if k > 0 {
      AddPrefixKeys(env, s, nodeId, refs, k - 1);
      assert refs[k - 1] in refs;
      AddReferenceEffect(env, AddPrefix(env, s, nodeId, refs, k - 1), nodeId, refs[k - 1]);
    }
  }

  /** The targets of the first `k` references. */
  ghost function FirstTargets(refs: seq<Reference>, k: nat): set<NodeId>
    requires k <= |refs|
  {
    if k == 0 then {} else FirstTargets(refs, k - 1) + {refs[k - 1].target}
  }

  lemma {:induction false} FirstTargetsAre(refs: seq<Reference>, k: nat)
    requires k <= |refs|
    ensures FirstTargets(refs, k) == Targets(refs[..k])
  {
    if k > 0 {
      FirstTargetsAre(refs, k - 1);
      assert refs[..k][..k - 1] == refs[..k - 1];
      TargetsGrow(refs[..k]);
    }
  }

  lemma OnCallbackKeys(env: Environment, s: Builder, c: Callback)
    requires forall i :: env.readStatus(i) == Success
    requires c.NodeResult? ==> Readable(env, c.references)
    ensures OnCallback(env, s, c).model.Keys ==
            if c.NodeResult? && c.statusCode == Success && c.nodeId in s.model
            then s.model.Keys + Targets(c.references) else s.model.Keys
  {
    if c.NodeResult? && c.statusCode == Success && c.nodeId in s.model {
      assert c.references[..|c.references|] == c.references;
      FirstTargetsAre(c.references, |c.references|);
      AddPrefixKeys(env, s, c.nodeId, c.references, |c.references|);
    }
  }

  /** The model holds only announced nodes, and all of them if no good result is missed. */
  lemma {:induction false} ModelKeys(env: Environment, cs: seq<Callback>)
    requires Cooperative(env, cs)
    ensures OnCallbacks(env, INITIAL, cs).model.Keys <= {ROOT} + Announced(cs)
    ensures AllAnnounced(cs, false) ==> OnCallbacks(env, INITIAL, cs).model.Keys == {ROOT} + Announced(cs)
    decreases |cs|
  {
    if cs != [] {
      var told, c := cs[..|cs| - 1], cs[|cs| - 1];
      CooperativeFront(env, cs);
      ModelKeys(env, told);
      OnCallbackKeys(env, OnCallbacks(env, INITIAL, told), c);
    }
  }

  lemma CooperativeFront(env: Environment, cs: seq<Callback>)
    requires cs != [] && Cooperative(env, cs)
    ensures Cooperative(env, cs[..|cs| - 1])
    ensures cs[|cs| - 1].NodeResult? ==> Readable(env, cs[|cs| - 1].references)
  {
    var told := cs[..|cs| - 1];
    assert forall i :: 0 <= i < |told| ==> told[i] == cs[i];
  }

  lemma {:induction false} AnnouncedGoodResults(cs: seq<Callback>)
    requires AllAnnounced(cs, true)
    ensures AllAnnounced(cs, false)
    decreases |cs|
  {
    if cs != [] {
      AnnouncedGoodResults(cs[..|cs| - 1]);
    }
  }

  /** For every sequence of callbacks: each good result (or each result) finds its node in the
      model if and only if its node is the root or a target of an earlier good result. */
  lemma {:induction false} EveryResultFindsItsNodeIff(env: Environment, cs: seq<Callback>, all: bool)
    requires Cooperative(env, cs)
    ensures FindsAll(env, cs, all) <==> AllAnnounced(cs, all)
    decreases |cs|
  {
    if cs != [] {
      var told := cs[..|cs| - 1];
      CooperativeFront(env, cs);
      EveryResultFindsItsNodeIff(env, told, all);
      ModelKeys(env, told);
      if all && AllAnnounced(told, true) {
        AnnouncedGoodResults(told);
      }
    }
  }

  /** The order in which the browser reports guarantees it when bad results are empty. */
  lemma {:induction false} EmptyBadResultsAnnounceAll(cs: seq<Callback>)
    requires InOrder({ROOT}, cs) && BadResultsAreEmpty(cs)
    ensures AllAnnounced(cs, true) && Announced(cs) == Heard(cs)
    decreases |cs|
  {
    if cs != [] {
      var told := cs[..|cs| - 1];
      assert forall i :: 0 <= i < |told| ==> told[i] == cs[i];
      assert Targets([]) == {};
      assert IsBad(cs[|cs| - 1]) ==> cs[|cs| - 1].references == [];
      EmptyBadResultsAnnounceAll(told);
    }
  }

  /** An error on a later page reaches the listener together with the page held so far: the
      browser goes on to the targets of that page, but they are not in the model when their
      results arrive. */
  lemma TargetsOfBadResultsAreUnknown(env: Environment, code: StatusCode, r: Reference)
    requires code != Success && r.target != ROOT
    ensures var cs := [NodeResult(code, ROOT, [r])];
            && InOrder({ROOT}, cs + [NodeResult(Success, r.target, [])])
            && r.target !in OnCallbacks(env, INITIAL, cs).model
  {
    var c := NodeResult(code, ROOT, [r]);
    TellOneMore({ROOT}, [], c);
    assert [] + [c] == [c];
    assert r in [r] && r.target in Targets([r]);
    TellOneMore({ROOT}, [c], NodeResult(Success, r.target, []));
    assert OnCallbacks(env, INITIAL, [c]) == OnCallback(env, OnCallbacks(env, INITIAL, []), c);
  }
}
