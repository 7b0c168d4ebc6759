/**
 * The observable calls the engine makes into module and per-node hooks, recorded as a trace
 * of events, and the event sequences that creating and destroying a subtree produce.
 * An event names the vnode it concerns by the host node the vnode is, or becomes, bound to.
 */
module Events {
  import opened Wrappers
  import opened VNodes
  import opened HookTable

  datatype HookName =
    | InitHook | CreateHook | InsertHook | PrepatchHook | UpdateHook | PostpatchHook
    | DestroyHook | RemoveHook

  datatype Event =
    | ModuleHook(phase: Phase, index: nat, at: Option<NodeId>)  // the hook of `modules[index]` for `phase`
    | Hook(name: HookName, at: Option<NodeId>)               // a hook in `vnode.data.hook`

  /** One call per entry of a hook list, in list order. */
  function ModuleCalls(ph: Phase, ids: seq<nat>, at: Option<NodeId>): (r: seq<Event>)
    ensures |r| == |ids|
    ensures forall i :: 0 <= i < |ids| ==> r[i] == ModuleHook(ph, ids[i], at)
  {
    seq(|ids|, i requires 0 <= i < |ids| => ModuleHook(ph, ids[i], at))
  }

  /** One more entry of a hook list, after calls already recorded in `t`. */
  lemma ModuleCallsSnoc(t: seq<Event>, ph: Phase, ids: seq<nat>, i: nat, at: Option<NodeId>)
    requires i < |ids|
    ensures t + ModuleCalls(ph, ids[..i + 1], at) == t + ModuleCalls(ph, ids[..i], at) + [ModuleHook(ph, ids[i], at)]
  {
    assert ModuleCalls(ph, ids[..i + 1], at) == ModuleCalls(ph, ids[..i], at) + [ModuleHook(ph, ids[i], at)];
  }

  lemma ModuleCallsAppend(ph: Phase, a: seq<nat>, b: seq<nat>, at: Option<NodeId>)
    ensures ModuleCalls(ph, a + b, at) == ModuleCalls(ph, a, at) + ModuleCalls(ph, b, at)
  {
  }

  /** The slots of a children array; an undefined array has none. */
  function Items(ch: Children): seq<Option<VNode>> {
    if ch.Array? then ch.items else []
  }

  // ----- destruction (src/init.ts:231-246) -----

  /** The calls made for one node with data: its own `destroy` hook, then every module's. */
  function OwnDestroy(v: VNode, ds: seq<nat>): seq<Event> {
    (if HooksOf(v).destroy then [Hook(DestroyHook, v.elm)] else []) + ModuleCalls(Destroy, ds, v.elm)
  }

  /** The events of `invokeDestroyHook(v)` when the module destroy list is `ds`. */
  function DestroyEvents(v: VNode, ds: seq<nat>): seq<Event>
    decreases v, 1
  {
    if v.data.None? then []
    else OwnDestroy(v, ds) + DestroyKids(v.children, |Items(v.children)|, ds)
  }

  /** The destroy events of the first `k` children slots. */
  function DestroyKids(ch: Children, k: nat, ds: seq<nat>): seq<Event>
    requires k <= |Items(ch)|
    decreases ch, k
  {
    if k == 0 then []
    else DestroyKids(ch, k - 1, ds) + (if ch.items[k - 1].Some? then DestroyEvents(ch.items[k - 1].value, ds) else [])
  }

  /** An independent description of the cascade: the nodes reached, in pre-order; a node without
      data is not reached and neither is anything below it. */
  function PreOrder(v: VNode): seq<VNode>
    decreases v, 1
  {
    if v.data.None? then [] else [v] + PreOrderKids(v.children, |Items(v.children)|)
  }

  function PreOrderKids(ch: Children, k: nat): seq<VNode>
    requires k <= |Items(ch)|
    decreases ch, k
  {
    if k == 0 then []
    else PreOrderKids(ch, k - 1) + (if ch.items[k - 1].Some? then PreOrder(ch.items[k - 1].value) else [])
  }

  /** The own calls of each listed node, in list order. */
  function OwnAll(ns: seq<VNode>, ds: seq<nat>): seq<Event> {
    if |ns| == 0 then [] else OwnDestroy(ns[0], ds) + OwnAll(ns[1..], ds)
  }

  lemma {:induction false} OwnAllAppend(a: seq<VNode>, b: seq<VNode>, ds: seq<nat>)
    ensures OwnAll(a + b, ds) == OwnAll(a, ds) + OwnAll(b, ds)
  {
    if |a| == 0 {
      assert a + b == b;
    } else {
      assert (a + b)[1..] == a[1..] + b;
      OwnAllAppend(a[1..], b, ds);
    }
  }

  /** The destroy cascade is a pre-order walk: each reached node's own calls come before those of
      its descendants, and children are visited in order. */
  lemma {:induction false} DestroyIsPreOrder(v: VNode, ds: seq<nat>)
    ensures DestroyEvents(v, ds) == OwnAll(PreOrder(v), ds)
    decreases v, 1
  {
    if v.data.Some? {
      DestroyKidsIsPreOrder(v.children, |Items(v.children)|, ds);
      OwnAllAppend([v], PreOrderKids(v.children, |Items(v.children)|), ds);
      assert OwnAll([v], ds) == OwnDestroy(v, ds) by {
        assert [v][1..] == [];
      }
    }
  }

  lemma {:induction false} DestroyKidsIsPreOrder(ch: Children, k: nat, ds: seq<nat>)
    requires k <= |Items(ch)|
    ensures DestroyKids(ch, k, ds) == OwnAll(PreOrderKids(ch, k), ds)
    decreases ch, k
  {
    if k > 0 {
      var before := PreOrderKids(ch, k - 1);
      DestroyKidsIsPreOrder(ch, k - 1, ds);
      if ch.items[k - 1].Some? {
        var c := ch.items[k - 1].value;
        DestroyIsPreOrder(c, ds);
        OwnAllAppend(before, PreOrder(c), ds);
        assert PreOrderKids(ch, k) == before + PreOrder(c);
        assert DestroyKids(ch, k, ds) == DestroyKids(ch, k - 1, ds) + DestroyEvents(c, ds);
      } else {
        assert PreOrderKids(ch, k) == before + [];
        assert before + [] == before;
        assert DestroyKids(ch, k, ds) == DestroyKids(ch, k - 1, ds) + [];
      }
    }
  }

  /** Every node the cascade reaches has data. */
  lemma {:induction false} PreOrderHasData(v: VNode)
    ensures forall n :: n in PreOrder(v) ==> n.data.Some?
    decreases v, 1
  {
    if v.data.Some? {
      PreOrderKidsHaveData(v.children, |Items(v.children)|);
    }
  }

  lemma {:induction false} PreOrderKidsHaveData(ch: Children, k: nat)
    requires k <= |Items(ch)|
    ensures forall n :: n in PreOrderKids(ch, k) ==> n.data.Some?
    decreases ch, k
  {
    if k > 0 {
      PreOrderKidsHaveData(ch, k - 1);
      if ch.items[k - 1].Some? {
        PreOrderHasData(ch.items[k - 1].value);
      }
    }
  }

  // ----- creation (src/init.ts:128-211) -----

  /** The `init` hook call, made for any vnode with data. */
  function InitEvent(r: VNode): seq<Event> {
    if HooksOf(r).init then [Hook(InitHook, r.elm)] else []
  }

  /** The events of `createElm` for the vnode `r` it returned, when the module create list is `cs`:
      `init`, then for an element the module `create` calls, the children's events and the
      node's own `create` hook. */
  function CreateEvents(r: VNode, cs: seq<nat>): seq<Event>
    decreases r, 2
  {
    InitEvent(r) + if IsElement(r) then ElementEvents(r, cs) else []
  }

  /** The events of an element after its `init` hook. */
  function ElementEvents(r: VNode, cs: seq<nat>): seq<Event>
    decreases r, 1
  {
    ModuleCalls(Create, cs, r.elm) + CreateKids(r.children, |Items(r.children)|, cs) +
    (if HooksOf(r).create then [Hook(CreateHook, r.elm)] else [])
  }

  function CreateKids(ch: Children, k: nat, cs: seq<nat>): seq<Event>
    requires k <= |Items(ch)|
    decreases ch, k
  {
    if k == 0 then []
    else CreateKids(ch, k - 1, cs) + (if ch.items[k - 1].Some? then CreateEvents(ch.items[k - 1].value, cs) else [])
  }

  /** The vnodes `createElm` appends to the insert queue: elements with an `insert` hook, each
      after its descendants. */
  function InsertQueue(r: VNode): seq<VNode>
    decreases r, 1
  {
    if IsElement(r) then
      InsertKids(r.children, |Items(r.children)|) + (if HooksOf(r).insert then [r] else [])
    else []
  }

  function InsertKids(ch: Children, k: nat): seq<VNode>
    requires k <= |Items(ch)|
    decreases ch, k
  {
    if k == 0 then []
    else InsertKids(ch, k - 1) + (if ch.items[k - 1].Some? then InsertQueue(ch.items[k - 1].value) else [])
  }

  /** An independent description: every element of the tree, in post-order. */
  function PostOrder(r: VNode): seq<VNode>
    decreases r, 1
  {
    if IsElement(r) then PostOrderKids(r.children, |Items(r.children)|) + [r] else []
  }

  function PostOrderKids(ch: Children, k: nat): seq<VNode>
    requires k <= |Items(ch)|
    decreases ch, k
  {
    if k == 0 then []
    else PostOrderKids(ch, k - 1) + (if ch.items[k - 1].Some? then PostOrder(ch.items[k - 1].value) else [])
  }

  /** The nodes of a list that carry an `insert` hook, in list order. */
  function WithInsertHook(ns: seq<VNode>): seq<VNode> {
    if |ns| == 0 then []
    else WithInsertHook(ns[..|ns| - 1]) + (if HooksOf(ns[|ns| - 1]).insert then [ns[|ns| - 1]] else [])
  }

  lemma {:induction false} WithInsertHookAppend(a: seq<VNode>, b: seq<VNode>)
    ensures WithInsertHook(a + b) == WithInsertHook(a) + WithInsertHook(b)
    decreases |b|
  {
    if |b| == 0 {
      assert a + b == a;
    } else {
      assert (a + b)[..|a + b| - 1] == a + b[..|b| - 1];
      WithInsertHookAppend(a, b[..|b| - 1]);
    }
  }

  /** The insert queue lists the tree's hooked elements in post-order. */
  lemma {:induction false} InsertQueueIsPostOrder(r: VNode)
    ensures InsertQueue(r) == WithInsertHook(PostOrder(r))
    decreases r, 1
  {
    if IsElement(r) {
      var kids := PostOrderKids(r.children, |Items(r.children)|);
      InsertKidsIsPostOrder(r.children, |Items(r.children)|);
      WithInsertHookAppend(kids, [r]);
      assert WithInsertHook([r]) == (if HooksOf(r).insert then [r] else []) by {
        assert [r][..0] == [];
      }
    }
  }

  lemma {:induction false} InsertKidsIsPostOrder(ch: Children, k: nat)
    requires k <= |Items(ch)|
    ensures InsertKids(ch, k) == WithInsertHook(PostOrderKids(ch, k))
    decreases ch, k
  {
    if k > 0 {
      var before := PostOrderKids(ch, k - 1);
      InsertKidsIsPostOrder(ch, k - 1);
      if ch.items[k - 1].Some? {
        var c := ch.items[k - 1].value;
        InsertQueueIsPostOrder(c);
        WithInsertHookAppend(before, PostOrder(c));
        assert PostOrderKids(ch, k) == before + PostOrder(c);
        assert InsertKids(ch, k) == InsertKids(ch, k - 1) + InsertQueue(c);
      } else {
        assert PostOrderKids(ch, k) == before + [];
        assert before + [] == before;
        assert InsertKids(ch, k) == InsertKids(ch, k - 1) + [];
      }
    }
  }

  /** The events of a prefix of the slots do not depend on the slots after it. */
  lemma {:induction false} CreateKidsPrefix(a: seq<Option<VNode>>, b: seq<Option<VNode>>, k: nat, cs: seq<nat>)
    requires k <= |a|
    ensures CreateKids(Array(a + b), k, cs) == CreateKids(Array(a), k, cs)
  {
    if k > 0 {
      CreateKidsPrefix(a, b, k - 1, cs);
      var last := if a[k - 1].Some? then CreateEvents(a[k - 1].value, cs) else [];
      assert Array(a + b).items[k - 1] == a[k - 1];
      assert CreateKids(Array(a + b), k, cs) == CreateKids(Array(a + b), k - 1, cs) + last;
      assert CreateKids(Array(a), k, cs) == CreateKids(Array(a), k - 1, cs) + last;
    }
  }

  /** Creating one more slot appends that slot's events. */
  lemma CreateKidsSnoc(a: seq<Option<VNode>>, x: Option<VNode>, cs: seq<nat>)
    ensures CreateKids(Array(a + [x]), |a| + 1, cs) ==
            CreateKids(Array(a), |a|, cs) + (if x.Some? then CreateEvents(x.value, cs) else [])
  {
    var last := if x.Some? then CreateEvents(x.value, cs) else [];
    assert Array(a + [x]).items[|a|] == x;
    assert CreateKids(Array(a + [x]), |a| + 1, cs) == CreateKids(Array(a + [x]), |a|, cs) + last;
    CreateKidsPrefix(a, [x], |a|, cs);
  }

  lemma {:induction false} InsertKidsPrefix(a: seq<Option<VNode>>, b: seq<Option<VNode>>, k: nat)
    requires k <= |a|
    ensures InsertKids(Array(a + b), k) == InsertKids(Array(a), k)
  {
    if k > 0 {
      InsertKidsPrefix(a, b, k - 1);
      var last := if a[k - 1].Some? then InsertQueue(a[k - 1].value) else [];
      assert Array(a + b).items[k - 1] == a[k - 1];
      assert InsertKids(Array(a + b), k) == InsertKids(Array(a + b), k - 1) + last;
      assert InsertKids(Array(a), k) == InsertKids(Array(a), k - 1) + last;
    }
  }

  lemma InsertKidsSnoc(a: seq<Option<VNode>>, x: Option<VNode>)
    ensures InsertKids(Array(a + [x]), |a| + 1) ==
            InsertKids(Array(a), |a|) + (if x.Some? then InsertQueue(x.value) else [])
  {
    var last := if x.Some? then InsertQueue(x.value) else [];
    assert Array(a + [x]).items[|a|] == x;
    assert InsertKids(Array(a + [x]), |a| + 1) == InsertKids(Array(a + [x]), |a|) + last;
    InsertKidsPrefix(a, [x], |a|);
  }

  // ----- removal (src/init.ts:249-279) -----

  /** The events of removing one slot: nothing for a null slot or a text vnode; otherwise the
      destroy cascade, every module's `remove` hook, then the node's own `remove` hook. */
  function RemoveEvents(ch: Option<VNode>, rs: seq<nat>, ds: seq<nat>): seq<Event> {
    if ch.None? || ch.value.sel.None? then []
    else
      DestroyEvents(ch.value, ds) + ModuleCalls(Remove, rs, ch.value.elm) +
      (if HooksOf(ch.value).remove then [Hook(RemoveHook, ch.value.elm)] else [])
  }

  /** The events of removing the slots `lo .. k-1`, in order. */
  function RemoveAllEvents(s: seq<Option<VNode>>, lo: nat, k: nat, rs: seq<nat>, ds: seq<nat>): seq<Event>
    requires lo <= k <= |s|
    decreases k
  {
    if k == lo then [] else RemoveAllEvents(s, lo, k - 1, rs, ds) + RemoveEvents(s[k - 1], rs, ds)
  }
}
