/**
 * The patch engine that `init` returns (src/init.ts:57-537), imperative as the source is: the
 * host document it renders into, the hook table built once, the record of every hook call and
 * the insert queue. Each method changes the engine's state exactly as the function of the same
 * name in Creation, Teardown or Reconcile says; what those functions promise is proved there.
 */
module Engine {
  import opened Wrappers
  import opened Seqs
  import opened VNodes
  import opened Selector
  import opened HookTable
  import opened HostTree
  import opened Events
  import opened KeyMap
  import opened Removal
  import opened Mount
  import opened Machine
  import Creation
  import Teardown
  import Reconcile

  /** A JavaScript array holding the slots of a children list. */
  method ToArray(s: seq<Option<VNode>>) returns (a: array<Option<VNode>>)
    ensures fresh(a) && a[..] == s
  {
    a := new Option<VNode>[|s|](i requires 0 <= i < |s| => s[i]);
  }

  /** `a[i]`, undefined outside the array. */
  function At(a: array<Option<VNode>>, i: int): Option<VNode>
    reads a
  {
    if 0 <= i < a.Length then a[i] else None
  }

  /** The cursors and cached vnodes of updateChildren's loop, and the key map once built. */
  datatype Cursors = Cursors(
    oldStartIdx: int, oldEndIdx: int, newStartIdx: int, newEndIdx: int,
    oldStartVnode: Option<VNode>, oldEndVnode: Option<VNode>,
    newStartVnode: Option<VNode>, newEndVnode: Option<VNode>,
    oldKeyToIdx: Option<map<string, nat>>)

  lemma InsertCallsSnoc(q: seq<VNode>, i: nat)
    requires i < |q|
    ensures Reconcile.InsertCalls(q[..i + 1]) == Reconcile.InsertCalls(q[..i]) + [Hook(InsertHook, q[i].elm)]
  {
  }

  class Engine {
    /** The DOM adapter: the host document the engine creates, moves and removes nodes in. */
    const host: Host
    /** The modules given to `init`, in order. */
    const modules: seq<Module>
    /** `cbs`: per phase, the modules that define that phase's callback. */
    const cbs: Table
    /** Every hook call made so far, in order. */
    var trace: seq<Event>
    /** `insertedVnodeQueue` of the patch in progress. */
    var queue: seq<VNode>

    function Config(): Cfg {
      Cfg(modules, cbs)
    }

    function State(): St
      reads this, host
    {
      St(host.doc, trace, queue)
    }

    /** `init(modules, domApi)`: build the hook table once. */
    constructor (modules: seq<Module>, host: Host)
      ensures this.host == host && this.modules == modules && Configured(Config())
      ensures trace == [] && queue == []
    {
      var table := BuildTable(modules);
      this.host, this.modules, cbs := host, modules, table;
      trace, queue := [], [];
    }

    /** `for (i = 0; i < cbs[phase].length; ++i) cbs[phase][i](...)` */
    method CallModules(ph: Phase, at: Option<NodeId>)
      modifies `trace
      ensures trace == old(trace) + ModuleCalls(ph, cbs.Get(ph), at)
    {
      var hooks := cbs.Get(ph);
      for i := 0 to |hooks|
        invariant trace == old(trace) + ModuleCalls(ph, hooks[..i], at)
      {
        assert hooks[..i + 1] == hooks[..i] + [hooks[i]];
        ModuleCallsAppend(ph, hooks[..i], [hooks[i]], at);
        AppendAssoc(old(trace), ModuleCalls(ph, hooks[..i], at), [ModuleHook(ph, hooks[i], at)]);
        trace := trace + [ModuleHook(ph, hooks[i], at)];
      }
      assert hooks[..|hooks|] == hooks;
    }

    /** `hook?.name?.(...)`: one of the node's own hooks, when it is there. */
    method CallHook(present: bool, name: HookName, at: Option<NodeId>)
      modifies `trace
      ensures trace == old(trace) + HookIf(present, name, at)
    {
      if present {
        trace := trace + [Hook(name, at)];
      } else {
        AppendNil(trace);
      }
    }

    /** invokeDestroyHook (src/init.ts:231-246) */
    method InvokeDestroyHook(v: VNode)
      modifies `trace
      decreases v
      ensures trace == old(trace) + DestroyEvents(v, cbs.destroy)
    {
      if v.data.Some? {
        ghost var own := OwnDestroy(v, cbs.destroy);
        CallHook(HooksOf(v).destroy, DestroyHook, v.elm);
        CallModules(Phase.Destroy, v.elm);
        AppendAssoc(old(trace), HookIf(HooksOf(v).destroy, DestroyHook, v.elm), ModuleCalls(Phase.Destroy, cbs.destroy, v.elm));
        ghost var t1 := trace;
        if v.children.Array? {
          var cs := v.children.items;
          for j := 0 to |cs|
            invariant trace == t1 + DestroyKids(v.children, j, cbs.destroy)
          {
            if cs[j].Some? {
              InvokeDestroyHook(cs[j].value);
            }
            AppendAssoc(t1, DestroyKids(v.children, j, cbs.destroy),
                        if cs[j].Some? then DestroyEvents(cs[j].value, cbs.destroy) else []);
          }
        }
        AppendAssoc(old(trace), own, DestroyKids(v.children, |Items(v.children)|, cbs.destroy));
      }
    }

    // ----- createElm and addVnodes -----

    /** createElm (src/init.ts:128-211) */
    method CreateElm(v: VNode) returns (r: VNode)
      modifies this, host
      decreases v, 2
      ensures Made(State(), r) == Creation.Create(Config(), old(State()), v)
    {
      CallHook(HooksOf(v).init, InitHook, Some(host.doc.next));
      if v.sel == Some(CommentSel) {
        var t := v.text.GetOr("");
        var e := host.CreateComment(t);
        r := v.(text := Some(t), elm := Some(e));
      } else if v.sel.Some? {
        r := CreateElement(v);
      } else {
        var e := host.CreateTextNode(v.text.GetOr("undefined"));
        r := v.(elm := Some(e));
      }
    }

    /** The element branch of createElm: the selector parse, the element with its `id` and
        `class`, the module `create` hooks, the children or the text child, the node's own
        `create` hook and the insert queue. */
    method CreateElement(v: VNode) returns (r: VNode)
      requires v.sel.Some?
      modifies this, host
      decreases v, 1
      ensures Made(State(), r) == Creation.CreateElement(Config(), old(State()), v)
    {
      var p := ParseSelector(v.sel.value);
      var e := host.CreateElement(p.tag, NsOf(v));
      if p.id.Some? {
        host.SetAttribute(e, "id", p.id.value);
      }
      if p.cls.Some? {
        host.SetAttribute(e, "class", p.cls.value);
      }
      CallModules(Phase.Create, Some(e));
      ghost var s1 := State();
      if v.children.Array? {
        var built := CreateChildren(v, e);
        r := v.(children := Array(built), elm := Some(e));
      } else if v.text.Some? {
        var t := host.CreateTextNode(v.text.value);
        host.AppendChild(e, t);
        r := v.(elm := Some(e));
      } else {
        r := v.(elm := Some(e));
      }
      assert Made(State(), r) == Creation.ElementContent(Config(), s1, e, v);
      CallHook(HooksOf(v).create, CreateHook, Some(e));
      if HooksOf(v).insert {
        queue := queue + [r];
      } else {
        AppendNil(queue);
      }
    }

    /** The children loop of createElm: each non-null child is created and appended to `e`. */
    method CreateChildren(v: VNode, e: NodeId) returns (built: seq<Option<VNode>>)
      requires v.children.Array?
      modifies this, host
      decreases v, 0
      ensures MadeAll(State(), built) == Creation.CreateChildren(Config(), old(State()), e, v, |v.children.items|)
    {
      var cs := v.children.items;
      built := [];
      for i := 0 to |cs|
        invariant MadeAll(State(), built) == Creation.CreateChildren(Config(), old(State()), e, v, i)
      {
        if cs[i].Some? {
          var c := CreateElm(cs[i].value);
          host.AppendChild(e, c.elm.value);
          built := built + [Some(c)];
        } else {
          built := built + [None];
        }
      }
    }

    /** addVnodes (src/init.ts:214-228): the slots `startIdx .. endIdx`, both included. */
    method AddVnodes(parentElm: Option<NodeId>, before: Option<NodeId>, vnodes: array<Option<VNode>>,
                     startIdx: int, endIdx: int)
      requires 0 <= startIdx <= endIdx + 1 <= vnodes.Length
      modifies this, host, vnodes
      ensures MadeAll(State(), vnodes[..]) ==
              Creation.AddVnodes(Config(), old(State()), parentElm, before, old(vnodes[..]), startIdx, endIdx + 1)
    {
      var i := startIdx;
      while i <= endIdx
        invariant startIdx <= i <= endIdx + 1
        invariant MadeAll(State(), vnodes[..]) ==
                  Creation.AddVnodes(Config(), old(State()), parentElm, before, old(vnodes[..]), startIdx, i)
      {
        var ch := vnodes[i];
        if ch.Some? {
          var c := CreateElm(ch.value);
          if parentElm.Some? {
            host.InsertBefore(parentElm.value, c.elm.value, before);
          }
          vnodes[i] := Some(c);
        }
        i := i + 1;
      }
    }

    // ----- removeVnodes -----

    /** removeVnodes (src/init.ts:249-279): the slots `startIdx .. endIdx`, both included. */
    method RemoveVnodes(parentElm: Option<NodeId>, vnodes: array<Option<VNode>>, startIdx: int, endIdx: int)
      requires 0 <= startIdx <= endIdx + 1 <= vnodes.Length
      modifies this, host
      ensures State() == Teardown.RemoveVnodes(Config(), old(State()), parentElm, vnodes[..], startIdx, endIdx + 1)
    {
      var i := startIdx;
      while i <= endIdx
        invariant startIdx <= i <= endIdx + 1
        invariant State() == Teardown.RemoveVnodes(Config(), old(State()), parentElm, vnodes[..], startIdx, i)
      {
        RemoveOne(parentElm, vnodes[i]);
        i := i + 1;
      }
    }

    /** One slot of removeVnodes: the destroy cascade, then the remove hooks of `RemoveHooks`;
        a text vnode is removed from the parent directly. */
    method RemoveOne(parentElm: Option<NodeId>, ch: Option<VNode>)
      modifies this, host
      ensures State() == Teardown.RemoveOne(Config(), old(State()), parentElm, ch)
    {
      if ch.Some? {
        var v := ch.value;
        if v.sel.Some? {
          ghost var s0 := State();
          InvokeDestroyHook(v);
          RemoveHooks(v);
          ghost var ds, ms := DestroyEvents(v, cbs.destroy), ModuleCalls(Phase.Remove, cbs.remove, v.elm);
          ghost var hs: seq<Event> := if HooksOf(v).remove then [Hook(RemoveHook, v.elm)] else [];
          AppendAssoc(s0.trace, ds, ms);
          AppendAssoc(s0.trace, ds + ms, hs);
          assert trace == s0.trace + RemoveEvents(ch, cbs.remove, cbs.destroy);
          assert State() == Teardown.RemoveOne(Config(), s0, parentElm, ch);
        } else if parentElm.Some? && v.elm.Some? {
          host.RemoveChild(parentElm.value, v.elm.value);
        }
      }
    }

    /** The countdown part of one slot (src/init.ts:262-272): a fresh countdown `rm` of
        `cbs.remove.length + 1`, every module `remove` callback, then the node's own `remove` hook
        or, without one, `rm()`. The node leaves its parent exactly when the countdown fires. */
    method RemoveHooks(v: VNode)
      modifies `trace, host
      ensures trace == old(trace) + ModuleCalls(Phase.Remove, cbs.remove, v.elm) +
                       (if HooksOf(v).remove then [Hook(RemoveHook, v.elm)] else [])
      ensures host.doc == if Fired(|cbs.remove| + 1, Teardown.SyncCalls(Config(), v)) == 1
                          then DetachedAt(old(host.doc), v.elm) else old(host.doc)
    {
      var listeners := |cbs.remove| + 1;
      var rm := new RemoveCountdown(host, v.elm, listeners);
      RemoveModules(v, rm);
      if HooksOf(v).remove {
        trace := trace + [Hook(RemoveHook, v.elm)];
        if HooksOf(v).removeCallsBack {
          rm.Call();
        }
      } else {
        AppendNil(trace);
        rm.Call();
      }
      assert rm.calls == Teardown.SyncCalls(Config(), v);
      FiredExactlyOnce(listeners, Teardown.SyncCalls(Config(), v));
    }

    /** The loop over the module `remove` callbacks (src/init.ts:264): each one is handed the
        countdown `rm`, and those that call back at once count it down. */
    method RemoveModules(v: VNode, rm: RemoveCountdown)
      requires rm.Valid() && rm.host == host && rm.elm == v.elm
      requires rm.calls == 0 && rm.initial == |cbs.remove| + 1
      modifies `trace, rm, host
      ensures rm.Valid() && rm.calls == Teardown.CallbackCount(Config(), cbs.remove)
      ensures host.doc == old(host.doc)
      ensures trace == old(trace) + ModuleCalls(Phase.Remove, cbs.remove, v.elm)
    {
      var rs := cbs.remove;
      for i := 0 to |rs|
        invariant rm.Valid() && rm.calls == Teardown.CallbackCount(Config(), rs[..i])
        invariant host.doc == old(host.doc)
        invariant trace == old(trace) + ModuleCalls(Phase.Remove, rs[..i], v.elm)
      {
        ModuleCallsSnoc(old(trace), Phase.Remove, rs, i, v.elm);
        Teardown.CallbackCountSnoc(Config(), rs, i);
        trace := trace + [ModuleHook(Phase.Remove, rs[i], v.elm)];
        if rs[i] < |modules| && modules[rs[i]].removeCallsBack {
          rm.Call();
        }
      }
      assert rs[..|rs|] == rs;
    }

    // ----- updateChildren, patchVnode and patch -----

    /** The variables of updateChildren's loop, as the value `Reconcile.Step` works on. */
    ghost function Vars(oldCh: array<Option<VNode>>, newCh: array<Option<VNode>>, k: Cursors): Reconcile.Loop
      reads this, host, oldCh, newCh
    {
      Reconcile.Loop(State(), oldCh[..], newCh[..], k.oldStartIdx, k.oldEndIdx, k.newStartIdx, k.newEndIdx,
                     k.oldStartVnode, k.oldEndVnode, k.newStartVnode, k.newEndVnode, k.oldKeyToIdx)
    }

    /** updateChildren (src/init.ts:282-418) of the element `parentElm`, from the old children
        array `oldCh` to the new one `newCh`, the children of `pv`. */
    method UpdateChildren(parentElm: Option<NodeId>, oldCh: array<Option<VNode>>, newCh: array<Option<VNode>>, ghost pv: VNode)
      requires pv.children.Array? && newCh[..] == pv.children.items && oldCh != newCh
      modifies this, host, oldCh, newCh
      decreases pv, 3
      ensures MadeAll(State(), newCh[..]) == Reconcile.UpdateChildren(Config(), old(State()), parentElm, old(oldCh[..]), pv)
    {
      ghost var s0, o0 := State(), oldCh[..];
      var oldStartVnode := At(oldCh, 0);
      var oldEndVnode := At(oldCh, oldCh.Length - 1);
      var newStartVnode := At(newCh, 0);
      var newEndVnode := At(newCh, newCh.Length - 1);
      var k := Cursors(0, oldCh.Length - 1, 0, newCh.Length - 1,
                       oldStartVnode, oldEndVnode, newStartVnode, newEndVnode, None);
      assert Vars(oldCh, newCh, k) == Reconcile.Start(s0, o0, pv.children.items);
      ghost var w := Reconcile.Run(Config(), parentElm, pv, Vars(oldCh, newCh, k));
      while k.oldStartIdx <= k.oldEndIdx && k.newStartIdx <= k.newEndIdx
        invariant Reconcile.Shape(pv.children.items, Vars(oldCh, newCh, k))
        invariant Reconcile.Run(Config(), parentElm, pv, Vars(oldCh, newCh, k)) == w
        decreases Reconcile.Measure(Vars(oldCh, newCh, k))
      {
        k := Step(parentElm, oldCh, newCh, pv, k);
      }
      assert Vars(oldCh, newCh, k) == w;
      assert Reconcile.UpdateChildren(Config(), s0, parentElm, o0, pv) == Reconcile.Leftovers(Config(), parentElm, pv, w);
      Leftovers(parentElm, oldCh, newCh, pv, k);
    }

    /** After the loop (src/init.ts:403-417): add the new vnodes left over before the host node of
        the slot after the new window, or remove the old vnodes left over. */
    method Leftovers(parentElm: Option<NodeId>, oldCh: array<Option<VNode>>, newCh: array<Option<VNode>>, ghost pv: VNode, k: Cursors)
      requires pv.children.Array? && oldCh != newCh
      requires Reconcile.Shape(pv.children.items, Vars(oldCh, newCh, k))
      modifies this, host, newCh
      ensures MadeAll(State(), newCh[..]) == Reconcile.Leftovers(Config(), parentElm, pv, old(Vars(oldCh, newCh, k)))
    {
      ghost var u := Vars(oldCh, newCh, k);
      if k.oldStartIdx <= k.oldEndIdx || k.newStartIdx <= k.newEndIdx {
        if k.oldStartIdx > k.oldEndIdx {
          var after := At(newCh, k.newEndIdx + 1);
          var before := if after.None? then None else after.value.elm;
          assert Reconcile.Leftovers(Config(), parentElm, pv, u) ==
                 Creation.AddVnodes(Config(), State(), parentElm, before, newCh[..], k.newStartIdx, k.newEndIdx + 1);
          AddVnodes(parentElm, before, newCh, k.newStartIdx, k.newEndIdx);
        } else {
          assert Reconcile.Leftovers(Config(), parentElm, pv, u) ==
                 MadeAll(Teardown.RemoveVnodes(Config(), State(), parentElm, oldCh[..], k.oldStartIdx, k.oldEndIdx + 1), newCh[..]);
          RemoveVnodes(parentElm, oldCh, k.oldStartIdx, k.oldEndIdx);
        }
      }
    }

    /** One iteration of updateChildren's loop (src/init.ts:302-400). */
    method Step(parentElm: Option<NodeId>, oldCh: array<Option<VNode>>, newCh: array<Option<VNode>>, ghost pv: VNode, k: Cursors)
      returns (k': Cursors)
      requires pv.children.Array? && oldCh != newCh
      requires Reconcile.Shape(pv.children.items, Vars(oldCh, newCh, k)) && Reconcile.Running(Vars(oldCh, newCh, k))
      modifies this, host, oldCh, newCh
      decreases pv, 2
      ensures Vars(oldCh, newCh, k') == Reconcile.Step(Config(), parentElm, pv, old(Vars(oldCh, newCh, k)))
    {
      assert k.newStartVnode == pv.children.items[k.newStartIdx] && k.newEndVnode == pv.children.items[k.newEndIdx];
      if k.oldStartVnode.None? {
        var v := At(oldCh, k.oldStartIdx + 1);
        k' := k.(oldStartIdx := k.oldStartIdx + 1, oldStartVnode := v);
      } else if k.oldEndVnode.None? {
        var v := At(oldCh, k.oldEndIdx - 1);
        k' := k.(oldEndIdx := k.oldEndIdx - 1, oldEndVnode := v);
      } else if k.newStartVnode.None? {
        var v := At(newCh, k.newStartIdx + 1);
        k' := k.(newStartIdx := k.newStartIdx + 1, newStartVnode := v);
      } else if k.newEndVnode.None? {
        var v := At(newCh, k.newEndIdx - 1);
        k' := k.(newEndIdx := k.newEndIdx - 1, newEndVnode := v);
      } else if SameVnode(k.oldStartVnode.value, k.newStartVnode.value) {
        k' := StepStarts(parentElm, oldCh, newCh, pv, k);
      } else if SameVnode(k.oldEndVnode.value, k.newEndVnode.value) {
        k' := StepEnds(parentElm, oldCh, newCh, pv, k);
      } else if SameVnode(k.oldStartVnode.value, k.newEndVnode.value) {
        k' := StepRight(parentElm, oldCh, newCh, pv, k);
      } else if SameVnode(k.oldEndVnode.value, k.newStartVnode.value) {
        k' := StepLeft(parentElm, oldCh, newCh, pv, k);
      } else {
        k' := Keyed(parentElm, oldCh, newCh, pv, k);
      }
    }

    /** Both starts are the same vnode: patch in place and advance both starts (src/init.ts:319-323). */
    method StepStarts(parentElm: Option<NodeId>, oldCh: array<Option<VNode>>, newCh: array<Option<VNode>>, ghost pv: VNode, k: Cursors)
      returns (k': Cursors)
      requires pv.children.Array? && oldCh != newCh
      requires Reconcile.Shape(pv.children.items, Vars(oldCh, newCh, k)) && Reconcile.Running(Vars(oldCh, newCh, k))
      requires k.oldStartVnode.Some? && k.oldEndVnode.Some? && k.newStartVnode.Some? && k.newEndVnode.Some?
      requires SameVnode(k.oldStartVnode.value, k.newStartVnode.value)
      modifies this, host, oldCh, newCh
      decreases pv, 1
      ensures Vars(oldCh, newCh, k') == Reconcile.Step(Config(), parentElm, pv, old(Vars(oldCh, newCh, k)))
    {
      assert k.newStartVnode == pv.children.items[k.newStartIdx] && k.newEndVnode == pv.children.items[k.newEndIdx];
      Reconcile.StepStartsValue(Config(), parentElm, pv, Vars(oldCh, newCh, k));
      var r := PatchInto(newCh, k.newStartIdx, k.oldStartVnode.value, k.newStartVnode.value);
      var o := At(oldCh, k.oldStartIdx + 1);
      var n := At(newCh, k.newStartIdx + 1);
      k' := k.(oldStartIdx := k.oldStartIdx + 1, oldStartVnode := o, newStartIdx := k.newStartIdx + 1, newStartVnode := n);
    }

    /** Both ends are the same vnode: patch in place and retreat both ends (src/init.ts:325-329). */
    method StepEnds(parentElm: Option<NodeId>, oldCh: array<Option<VNode>>, newCh: array<Option<VNode>>, ghost pv: VNode, k: Cursors)
      returns (k': Cursors)
      requires pv.children.Array? && oldCh != newCh
      requires Reconcile.Shape(pv.children.items, Vars(oldCh, newCh, k)) && Reconcile.Running(Vars(oldCh, newCh, k))
      requires k.oldStartVnode.Some? && k.oldEndVnode.Some? && k.newStartVnode.Some? && k.newEndVnode.Some?
      requires !SameVnode(k.oldStartVnode.value, k.newStartVnode.value) && SameVnode(k.oldEndVnode.value, k.newEndVnode.value)
      modifies this, host, oldCh, newCh
      decreases pv, 1
      ensures Vars(oldCh, newCh, k') == Reconcile.Step(Config(), parentElm, pv, old(Vars(oldCh, newCh, k)))
    {
      assert k.newStartVnode == pv.children.items[k.newStartIdx] && k.newEndVnode == pv.children.items[k.newEndIdx];
      Reconcile.StepEndsValue(Config(), parentElm, pv, Vars(oldCh, newCh, k));
      var r := PatchInto(newCh, k.newEndIdx, k.oldEndVnode.value, k.newEndVnode.value);
      var o := At(oldCh, k.oldEndIdx - 1);
      var n := At(newCh, k.newEndIdx - 1);
      k' := k.(oldEndIdx := k.oldEndIdx - 1, oldEndVnode := o, newEndIdx := k.newEndIdx - 1, newEndVnode := n);
    }

    /** The old start became the new end: patch it and move its host node after the old end's (src/init.ts:331-350). */
    method StepRight(parentElm: Option<NodeId>, oldCh: array<Option<VNode>>, newCh: array<Option<VNode>>, ghost pv: VNode, k: Cursors)
      returns (k': Cursors)
      requires pv.children.Array? && oldCh != newCh
      requires Reconcile.Shape(pv.children.items, Vars(oldCh, newCh, k)) && Reconcile.Running(Vars(oldCh, newCh, k))
      requires k.oldStartVnode.Some? && k.oldEndVnode.Some? && k.newStartVnode.Some? && k.newEndVnode.Some?
      requires !SameVnode(k.oldStartVnode.value, k.newStartVnode.value) && !SameVnode(k.oldEndVnode.value, k.newEndVnode.value) && SameVnode(k.oldStartVnode.value, k.newEndVnode.value)
      modifies this, host, oldCh, newCh
      decreases pv, 1
      ensures Vars(oldCh, newCh, k') == Reconcile.Step(Config(), parentElm, pv, old(Vars(oldCh, newCh, k)))
    {
      assert k.newStartVnode == pv.children.items[k.newStartIdx] && k.newEndVnode == pv.children.items[k.newEndIdx];
      Reconcile.StepRightValue(Config(), parentElm, pv, Vars(oldCh, newCh, k));
      var r := PatchMovedRight(parentElm, newCh, k.newEndIdx, k.oldStartVnode.value, k.newEndVnode.value, k.oldEndVnode.value.elm);
      var o := At(oldCh, k.oldStartIdx + 1);
      var n := At(newCh, k.newEndIdx - 1);
      k' := k.(oldStartIdx := k.oldStartIdx + 1, oldStartVnode := o, newEndIdx := k.newEndIdx - 1, newEndVnode := n);
    }

    /** The old end became the new start: patch it and move its host node before the old start's (src/init.ts:351-359). */
    method StepLeft(parentElm: Option<NodeId>, oldCh: array<Option<VNode>>, newCh: array<Option<VNode>>, ghost pv: VNode, k: Cursors)
      returns (k': Cursors)
      requires pv.children.Array? && oldCh != newCh
      requires Reconcile.Shape(pv.children.items, Vars(oldCh, newCh, k)) && Reconcile.Running(Vars(oldCh, newCh, k))
      requires k.oldStartVnode.Some? && k.oldEndVnode.Some? && k.newStartVnode.Some? && k.newEndVnode.Some?
      requires !SameVnode(k.oldStartVnode.value, k.newStartVnode.value) && !SameVnode(k.oldEndVnode.value, k.newEndVnode.value) && !SameVnode(k.oldStartVnode.value, k.newEndVnode.value) && SameVnode(k.oldEndVnode.value, k.newStartVnode.value)
      modifies this, host, oldCh, newCh
      decreases pv, 1
      ensures Vars(oldCh, newCh, k') == Reconcile.Step(Config(), parentElm, pv, old(Vars(oldCh, newCh, k)))
    {
      assert k.newStartVnode == pv.children.items[k.newStartIdx] && k.newEndVnode == pv.children.items[k.newEndIdx];
      Reconcile.StepLeftValue(Config(), parentElm, pv, Vars(oldCh, newCh, k));
      var r := PatchMovedLeft(parentElm, newCh, k.newStartIdx, k.oldEndVnode.value, k.newStartVnode.value, k.oldStartVnode.value.elm);
      var o := At(oldCh, k.oldEndIdx - 1);
      var n := At(newCh, k.newStartIdx + 1);
      k' := k.(oldEndIdx := k.oldEndIdx - 1, oldEndVnode := o, newStartIdx := k.newStartIdx + 1, newStartVnode := n);
    }

    /** The keyed branch of the loop (src/init.ts:362-400): build the key map on first use, look
        the new start vnode's key up among the old children, and either create a new element or
        patch the old vnode found there, tombstone its slot, and move its host node before the old
        start. */
    method Keyed(parentElm: Option<NodeId>, oldCh: array<Option<VNode>>, newCh: array<Option<VNode>>, ghost pv: VNode, k: Cursors)
      returns (k': Cursors)
      requires pv.children.Array? && oldCh != newCh
      requires Reconcile.Shape(pv.children.items, Vars(oldCh, newCh, k)) && Reconcile.Running(Vars(oldCh, newCh, k))
      requires k.oldStartVnode.Some? && k.newStartVnode.Some?
      modifies this, host, oldCh, newCh
      decreases pv, 1
      ensures Vars(oldCh, newCh, k') == Reconcile.Keyed(Config(), parentElm, pv, old(Vars(oldCh, newCh, k)))
    {
      assert k.newStartVnode == pv.children.items[k.newStartIdx];
      var km: map<string, nat>;
      if k.oldKeyToIdx.None? {
        km := CreateKeyToOldIdx(oldCh, k.oldStartIdx, k.oldEndIdx);
      } else {
        km := k.oldKeyToIdx.value;
      }
      var idxInOld := Reconcile.Lookup(km, k.newStartVnode.value.key);
      var elmToMove: Option<VNode> := None;
      if idxInOld.Some? {
        elmToMove := At(oldCh, idxInOld.value);
      }
      if elmToMove.None? || elmToMove.value.sel != k.newStartVnode.value.sel {
        k' := KeyedCreate(parentElm, oldCh, newCh, pv, k, km);
      } else {
        k' := KeyedMove(parentElm, oldCh, newCh, pv, k, km, idxInOld.value);
      }
    }

    /** No old vnode of the same key and selector: create the new start vnode's element before the
        old start's host node (src/init.ts:371-389). */
    method KeyedCreate(parentElm: Option<NodeId>, oldCh: array<Option<VNode>>, newCh: array<Option<VNode>>, ghost pv: VNode,
                       k: Cursors, km: map<string, nat>)
      returns (k': Cursors)
      requires pv.children.Array? && oldCh != newCh
      requires Reconcile.Shape(pv.children.items, Vars(oldCh, newCh, k)) && Reconcile.Running(Vars(oldCh, newCh, k))
      requires k.oldStartVnode.Some? && k.newStartVnode.Some?
      requires km == if k.oldKeyToIdx.Some? then k.oldKeyToIdx.value else KeyIdx(oldCh[..], k.oldStartIdx, k.oldEndIdx + 1)
      requires var idx := Reconcile.Lookup(km, k.newStartVnode.value.key);
        idx.None? || At(oldCh, idx.value).None? || At(oldCh, idx.value).value.sel != k.newStartVnode.value.sel
      modifies this, host, oldCh, newCh
      decreases pv, 0
      ensures Vars(oldCh, newCh, k') == Reconcile.Keyed(Config(), parentElm, pv, old(Vars(oldCh, newCh, k)))
    {
      Reconcile.KeyedNewValue(Config(), parentElm, pv, Vars(oldCh, newCh, k), km);
      var r := CreateBefore(parentElm, newCh, k.newStartIdx, k.newStartVnode.value, k.oldStartVnode.value.elm);
      var n := At(newCh, k.newStartIdx + 1);
      k' := k.(newStartIdx := k.newStartIdx + 1, newStartVnode := n, oldKeyToIdx := Some(km));
    }

    /** The old vnode at `idx` has the new start vnode's key and selector: patch it, tombstone its
        slot and move its host node before the old start's (src/init.ts:391-396). */
    method KeyedMove(parentElm: Option<NodeId>, oldCh: array<Option<VNode>>, newCh: array<Option<VNode>>, ghost pv: VNode,
                     k: Cursors, km: map<string, nat>, idx: nat)
      returns (k': Cursors)
      requires pv.children.Array? && oldCh != newCh
      requires Reconcile.Shape(pv.children.items, Vars(oldCh, newCh, k)) && Reconcile.Running(Vars(oldCh, newCh, k))
      requires k.oldStartVnode.Some? && k.newStartVnode.Some?
      requires km == if k.oldKeyToIdx.Some? then k.oldKeyToIdx.value else KeyIdx(oldCh[..], k.oldStartIdx, k.oldEndIdx + 1)
      requires Reconcile.Lookup(km, k.newStartVnode.value.key) == Some(idx)
      requires idx < oldCh.Length && oldCh[idx].Some? && oldCh[idx].value.sel == k.newStartVnode.value.sel
      modifies this, host, oldCh, newCh
      decreases pv, 0
      ensures Vars(oldCh, newCh, k') == Reconcile.Keyed(Config(), parentElm, pv, old(Vars(oldCh, newCh, k)))
    {
      assert k.newStartVnode == pv.children.items[k.newStartIdx];
      Reconcile.KeyedMovedValue(Config(), parentElm, pv, Vars(oldCh, newCh, k), km, idx);
      var r := PatchMoved(parentElm, oldCh, newCh, k.newStartIdx, idx, oldCh[idx].value, k.newStartVnode.value,
                          k.oldStartVnode.value.elm);
      var n := At(newCh, k.newStartIdx + 1);
      k' := k.(newStartIdx := k.newStartIdx + 1, newStartVnode := n, oldKeyToIdx := Some(km));
    }

    /** Patch `o` with `nv` and store the patched vnode in slot `i` of `newCh`
        (src/init.ts:319-329). */
    method PatchInto(newCh: array<Option<VNode>>, i: int, o: VNode, nv: VNode) returns (r: VNode)
      requires 0 <= i < newCh.Length
      modifies this, host, newCh
      decreases nv, 6
      ensures var m := Reconcile.PatchVnode(Config(), old(State()), o, nv);
        State() == m.st && r == m.r && newCh[..] == old(newCh[..])[i := Some(r)]
    {
      r := PatchVnode(o, nv);
      newCh[i] := Some(r);
    }

    /** An old start vnode that became the new end: patch it, move its host node after the old
        end's host node, and store it in slot `i` of `newCh` (src/init.ts:331-350). */
    method PatchMovedRight(parentElm: Option<NodeId>, newCh: array<Option<VNode>>, i: int, o: VNode, nv: VNode,
                           endElm: Option<NodeId>)
      returns (r: VNode)
      requires 0 <= i < newCh.Length
      modifies this, host, newCh
      decreases nv, 6
      ensures var m := Reconcile.PatchVnode(Config(), old(State()), o, nv);
        && State() == m.st.(doc := InsertedAt(m.st.doc, parentElm, o.elm, NextSiblingAt(m.st.doc, endElm)))
        && r == m.r && newCh[..] == old(newCh[..])[i := Some(r)]
    {
      r := PatchVnode(o, nv);
      if parentElm.Some? && o.elm.Some? {
        var ref := if endElm.Some? then host.NextSibling(endElm.value) else None;
        host.InsertBefore(parentElm.value, o.elm.value, ref);
      }
      newCh[i] := Some(r);
    }

    /** An old end vnode that became the new start: patch it, move its host node before `ref`,
        the old start's host node, and store it in slot `i` of `newCh` (src/init.ts:351-359). */
    method PatchMovedLeft(parentElm: Option<NodeId>, newCh: array<Option<VNode>>, i: int, o: VNode, nv: VNode,
                          ref: Option<NodeId>)
      returns (r: VNode)
      requires 0 <= i < newCh.Length
      modifies this, host, newCh
      decreases nv, 6
      ensures var m := Reconcile.PatchVnode(Config(), old(State()), o, nv);
        && State() == m.st.(doc := InsertedAt(m.st.doc, parentElm, o.elm, ref))
        && r == m.r && newCh[..] == old(newCh[..])[i := Some(r)]
    {
      r := PatchVnode(o, nv);
      if parentElm.Some? && o.elm.Some? {
        host.InsertBefore(parentElm.value, o.elm.value, ref);
      }
      newCh[i] := Some(r);
    }

    /** A new vnode with no old counterpart: create its host node, put it before `ref` and
        store the vnode, bound to it, in slot `i` of `newCh` (src/init.ts:371-389). */
    method CreateBefore(parentElm: Option<NodeId>, newCh: array<Option<VNode>>, i: int, nv: VNode, ref: Option<NodeId>)
      returns (r: VNode)
      requires 0 <= i < newCh.Length
      modifies this, host, newCh
      ensures var n := Creation.Create(Config(), old(State()), nv);
        && State() == n.st.(doc := InsertedAt(n.st.doc, parentElm, n.r.elm, ref)) && r == n.r
        && newCh[..] == old(newCh[..])[i := Some(r)]
    {
      r := CreateElm(nv);
      if parentElm.Some? && r.elm.Some? {
        host.InsertBefore(parentElm.value, r.elm.value, ref);
      }
      newCh[i] := Some(r);
    }

    /** An old vnode found by key: patch it with the new one, tombstone its slot `idx` of
        `oldCh`, move its host node before `ref` and store the patched vnode in slot `i` of
        `newCh` (src/init.ts:391-396). */
    method PatchMoved(parentElm: Option<NodeId>, oldCh: array<Option<VNode>>, newCh: array<Option<VNode>>, i: int, idx: int,
                      o: VNode, nv: VNode, ref: Option<NodeId>)
      returns (r: VNode)
      requires 0 <= i < newCh.Length && 0 <= idx < oldCh.Length && oldCh != newCh
      modifies this, host, oldCh, newCh
      decreases nv, 6
      ensures var m := Reconcile.PatchVnode(Config(), old(State()), o, nv);
        && State() == m.st.(doc := InsertedAt(m.st.doc, parentElm, o.elm, ref)) && r == m.r
        && oldCh[..] == old(oldCh[..])[idx := None] && newCh[..] == old(newCh[..])[i := Some(r)]
    {
      r := PatchVnode(o, nv);
      oldCh[idx] := None;
      if parentElm.Some? && o.elm.Some? {
        host.InsertBefore(parentElm.value, o.elm.value, ref);
      }
      newCh[i] := Some(r);
    }

    /** The content branches of patchVnode (src/init.ts:458-483) on the host node `o.elm`. */
    method PatchContent(o: VNode, v: VNode) returns (r: VNode)
      modifies this, host
      decreases v, 4
      ensures Made(State(), r) == Reconcile.PatchContent(Config(), old(State()), o, v)
    {
      var e := o.elm;
      if v.text.None? {
        if o.children.Array? && v.children.Array? {
          if o.children != v.children {
            var oldCh := ToArray(o.children.items);
            var ch := ToArray(v.children.items);
            UpdateChildren(e, oldCh, ch, v);
            r := v.(elm := e, children := Array(ch[..]));
          } else {
            r := v.(elm := e);
          }
        } else if v.children.Array? {
          if o.text.Some? && e.Some? {
            host.SetTextContent(e.value, "");
          }
          var ch := ToArray(v.children.items);
          AddVnodes(e, None, ch, 0, ch.Length - 1);
          r := v.(elm := e, children := Array(ch[..]));
        } else if o.children.Array? {
          var oldCh := ToArray(o.children.items);
          RemoveVnodes(e, oldCh, 0, oldCh.Length - 1);
          r := v.(elm := e);
        } else {
          if o.text.Some? && e.Some? {
            host.SetTextContent(e.value, "");
          }
          r := v.(elm := e);
        }
      } else if o.text != v.text {
        if o.children.Array? {
          var oldCh := ToArray(o.children.items);
          RemoveVnodes(e, oldCh, 0, oldCh.Length - 1);
        }
        if e.Some? {
          host.SetTextContent(e.value, v.text.value);
        }
        r := v.(elm := e);
      } else {
        r := v.(elm := e);
      }
    }

    /** patchVnode (src/init.ts:422-486) */
    method PatchVnode(o: VNode, v: VNode) returns (r: VNode)
      modifies this, host
      decreases v, 5
      ensures Made(State(), r) == Reconcile.PatchVnode(Config(), old(State()), o, v)
    {
      CallHook(HooksOf(v).prepatch, PrepatchHook, o.elm);
      if o == v {
        r := v;
        return;
      }
      if v.data.Some? {
        ghost var t1 := trace;
        CallModules(Phase.Update, o.elm);
        CallHook(HooksOf(v).update, UpdateHook, o.elm);
        AppendAssoc(t1, ModuleCalls(Phase.Update, cbs.update, o.elm), HookIf(HooksOf(v).update, UpdateHook, o.elm));
      }
      r := PatchContent(o, v);
      CallHook(HooksOf(v).postpatch, PostpatchHook, o.elm);
    }

    /** The `patch` function that init returns (src/init.ts:488-537). */
    method Patch(t: Reconcile.Target, v: VNode) returns (r: VNode)
      requires Reconcile.Patchable(host.doc, t)
      modifies this, host
      ensures Made(State(), r) == Reconcile.Patch(Config(), old(State()), t, v)
    {
      ghost var s0 := State();
      queue := [];
      CallModules(Phase.Pre, None);
      var o := if t.Virtual? then t.v else Reconcile.EmptyNodeAt(host.doc, t.elm);
      ghost var s1 := State();
      assert s1 == Emit(s0.(queue := []), ModuleCalls(Phase.Pre, cbs.pre, None));
      assert o == Reconcile.OldVnode(s0.doc, t);
      r := Replace(o, v);
      ghost var m := Made(State(), r);
      InvokeInsertHooks();
      CallModules(Phase.Post, None);
      AppendAssoc(m.st.trace, Reconcile.InsertCalls(m.st.queue), ModuleCalls(Phase.Post, cbs.post, None));
      assert State() == Emit(m.st, Reconcile.InsertCalls(m.st.queue) + ModuleCalls(Phase.Post, cbs.post, None));
    }

    /** The middle of patch (src/init.ts:511-526): patch the old vnode when it is the same vnode
        as the new one; otherwise create the new one, put it where the old one was, and remove
        the old one. */
    method Replace(o: VNode, v: VNode) returns (r: VNode)
      modifies this, host
      ensures Made(State(), r) == Reconcile.Replace(Config(), old(State()), o, v)
    {
      if SameVnode(o, v) {
        r := PatchVnode(o, v);
      } else {
        var parent := if o.elm.Some? then host.ParentNode(o.elm.value) else None;
        r := CreateElm(v);
        if parent.Some? {
          if r.elm.Some? {
            var ref := if o.elm.Some? then host.NextSibling(o.elm.value) else None;
            host.InsertBefore(parent.value, r.elm.value, ref);
          }
          var olds := ToArray([Some(o)]);
          RemoveVnodes(parent, olds, 0, 0);
        }
      }
    }

    /** The loop of patch over the insert queue (src/init.ts:528-530): each queued vnode's
        `insert` hook, in queue order. */
    method InvokeInsertHooks()
      modifies `trace
      ensures trace == old(trace) + Reconcile.InsertCalls(queue)
    {
      var inserted := queue;
      for i := 0 to |inserted|
        invariant trace == old(trace) + Reconcile.InsertCalls(inserted[..i])
      {
        InsertCallsSnoc(inserted, i);
        AppendAssoc(old(trace), Reconcile.InsertCalls(inserted[..i]), [Hook(InsertHook, inserted[i].elm)]);
        trace := trace + [Hook(InsertHook, inserted[i].elm)];
      }
      assert inserted[..|inserted|] == inserted;
    }
  }
}
