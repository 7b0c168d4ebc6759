/**
 * Patching keeps the host document well-formed: every child list names known nodes whose parent
 * links point back, no list names a node twice, and ids stay below the next free one. The proof
 * follows the recursion of patchVnode (src/init.ts:422-486) through updateChildren
 * (src/init.ts:282-418) and back, one lemma per function, and ends with `patch`
 * (src/init.ts:488-537).
 */
module Integrity {
  import opened Wrappers
  import opened VNodes
  import opened HookTable
  import opened HostTree
  import opened Events
  import opened Machine
  import opened Creation
  import opened Teardown
  import opened Reconcile

  lemma InsertedAtWf(d: Doc, p: Option<NodeId>, x: Option<NodeId>, ref: Option<NodeId>)
    requires Wf(d)
    ensures Wf(InsertedAt(d, p, x, ref))
  {
    if p.Some? && x.Some? {
      InsertedWf(d, p.value, x.value, ref);
    }
  }

  lemma WithTextAtWf(d: Doc, n: Option<NodeId>, t: string)
    requires Wf(d)
    ensures Wf(WithTextAt(d, n, t))
  {
    if n.Some? {
      WithTextWf(d, n.value, t);
    }
  }

  /** addVnodes keeps the document well-formed. */
  lemma {:induction false} AddVnodesWf(c: Cfg, s: St, p: Option<NodeId>, before: Option<NodeId>,
                                       vs: seq<Option<VNode>>, lo: nat, k: nat)
    requires lo <= k <= |vs| && Wf(s.doc)
    ensures Wf(AddVnodes(c, s, p, before, vs, lo, k).st.doc)
    decreases k
  {
    if k > lo {
      AddVnodesWf(c, s, p, before, vs, lo, k - 1);
      var m := AddVnodes(c, s, p, before, vs, lo, k - 1);
      if vs[k - 1].Some? {
        CreateWf(c, m.st, vs[k - 1].value);
        var n := Creation.Create(c, m.st, vs[k - 1].value);
        InsertedAtWf(n.st.doc, p, n.r.elm, before);
      }
    }
  }

  /** patchVnode keeps the document well-formed. */
  lemma {:induction false} PatchVnodeWf(c: Cfg, s: St, o: VNode, v: VNode)
    requires Wf(s.doc)
    ensures Wf(PatchVnode(c, s, o, v).st.doc)
    decreases v, 5
  {
    var s1 := Emit(s, HookIf(HooksOf(v).prepatch, PrepatchHook, o.elm));
    if o != v {
      var s2 := if v.data.Some? then Emit(s1, ModuleCalls(Phase.Update, c.cbs.update, o.elm) + HookIf(HooksOf(v).update, UpdateHook, o.elm)) else s1;
      PatchContentWf(c, s2, o, v);
    }
  }

  lemma {:induction false} PatchContentWf(c: Cfg, s: St, o: VNode, v: VNode)
    requires Wf(s.doc)
    ensures Wf(PatchContent(c, s, o, v).st.doc)
    decreases v, 4
  {
    var e := o.elm;
    if v.text.None? {
      if o.children.Array? && v.children.Array? {
        if o.children != v.children {
          UpdateChildrenWf(c, s, e, o.children.items, v);
        }
      } else if v.children.Array? {
        WithTextAtWf(s.doc, e, "");
        var s1 := if o.text.Some? then s.(doc := WithTextAt(s.doc, e, "")) else s;
        AddVnodesWf(c, s1, e, None, v.children.items, 0, |v.children.items|);
      } else if o.children.Array? {
        RemoveVnodesWf(c, s, e, o.children.items, 0, |o.children.items|);
      } else if o.text.Some? {
        WithTextAtWf(s.doc, e, "");
      }
    } else if o.text != v.text {
      var s1 := if o.children.Array? then RemoveVnodes(c, s, e, o.children.items, 0, |o.children.items|) else s;
      if o.children.Array? {
        RemoveVnodesWf(c, s, e, o.children.items, 0, |o.children.items|);
      }
      WithTextAtWf(s1.doc, e, v.text.value);
    }
  }

  /** updateChildren keeps the document well-formed. */
  lemma {:induction false} UpdateChildrenWf(c: Cfg, s: St, p: Option<NodeId>, oldCh: seq<Option<VNode>>, pv: VNode)
    requires pv.children.Array? && Wf(s.doc)
    ensures Wf(UpdateChildren(c, s, p, oldCh, pv).st.doc)
    decreases pv, 3
  {
    var u := Start(s, oldCh, pv.children.items);
    RunWf(c, p, pv, u);
    LeftoversWf(c, p, pv, Run(c, p, pv, u));
  }

  lemma {:induction false} RunWf(c: Cfg, p: Option<NodeId>, pv: VNode, u: Loop)
    requires pv.children.Array? && Shape(pv.children.items, u) && Wf(u.st.doc)
    ensures Wf(Run(c, p, pv, u).st.doc)
    decreases pv, 2, Measure(u)
  {
    if Running(u) {
      StepWf(c, p, pv, u);
      RunWf(c, p, pv, Step(c, p, pv, u));
    }
  }

  /** One iteration of the loop keeps the document well-formed, whichever branch it takes. */
  lemma {:induction false} StepWf(c: Cfg, p: Option<NodeId>, pv: VNode, u: Loop)
    requires pv.children.Array? && Shape(pv.children.items, u) && Running(u) && Wf(u.st.doc)
    ensures Wf(Step(c, p, pv, u).st.doc)
    decreases pv, 1
  {
    if u.oldStart.Some? && u.oldEnd.Some? && u.newStart.Some? && u.newEnd.Some? {
      var os, oe, ns, ne := u.oldStart.value, u.oldEnd.value, u.newStart.value, u.newEnd.value;
      assert u.newStart == pv.children.items[u.ns] && u.newEnd == pv.children.items[u.ne];
      if SameVnode(os, ns) {
        StepStartsValue(c, p, pv, u);
        PatchVnodeWf(c, u.st, os, ns);
      } else if SameVnode(oe, ne) {
        StepEndsValue(c, p, pv, u);
        PatchVnodeWf(c, u.st, oe, ne);
      } else if SameVnode(os, ne) {
        StepRightValue(c, p, pv, u);
        PatchVnodeWf(c, u.st, os, ne);
        var m := PatchVnode(c, u.st, os, ne);
        InsertedAtWf(m.st.doc, p, os.elm, NextSiblingAt(m.st.doc, oe.elm));
      } else if SameVnode(oe, ns) {
        StepLeftValue(c, p, pv, u);
        PatchVnodeWf(c, u.st, oe, ns);
        var m := PatchVnode(c, u.st, oe, ns);
        InsertedAtWf(m.st.doc, p, oe.elm, os.elm);
      } else {
        assert Step(c, p, pv, u) == Keyed(c, p, pv, u);
        KeyedWf(c, p, pv, u);
      }
    }
  }

  lemma {:induction false} KeyedWf(c: Cfg, p: Option<NodeId>, pv: VNode, u: Loop)
    requires pv.children.Array? && Shape(pv.children.items, u) && Running(u) && Wf(u.st.doc)
    requires u.oldStart.Some? && u.newStart.Some?
    ensures Wf(Keyed(c, p, pv, u).st.doc)
    decreases pv, 0, 1
  {
    assert u.newStart == pv.children.items[u.ns];
    var km := if u.keyMap.Some? then u.keyMap.value else KeyMap.KeyIdx(u.oldCh, u.os, u.oe + 1);
    var idx := Lookup(km, u.newStart.value.key);
    var elmToMove := if idx.Some? then Get(u.oldCh, idx.value) else None;
    if elmToMove.None? || elmToMove.value.sel != u.newStart.value.sel {
      KeyedNewValue(c, p, pv, u, km);
      CreateWf(c, u.st, u.newStart.value);
      var n := Creation.Create(c, u.st, u.newStart.value);
      InsertedAtWf(n.st.doc, p, n.r.elm, u.oldStart.value.elm);
    } else {
      var i := idx.value;
      KeyedMovedValue(c, p, pv, u, km, i);
      PatchVnodeWf(c, u.st, u.oldCh[i].value, u.newStart.value);
      var m := PatchVnode(c, u.st, u.oldCh[i].value, u.newStart.value);
      InsertedAtWf(m.st.doc, p, u.oldCh[i].value.elm, u.oldStart.value.elm);
    }
  }

  lemma LeftoversWf(c: Cfg, p: Option<NodeId>, pv: VNode, w: Loop)
    requires pv.children.Array? && Shape(pv.children.items, w) && Wf(w.st.doc)
    ensures Wf(Leftovers(c, p, pv, w).st.doc)
  {
    if w.os > w.oe && w.ns <= w.ne {
      var after := Get(w.newCh, w.ne + 1);
      var before := if after.None? then None else after.value.elm;
      AddVnodesWf(c, w.st, p, before, w.newCh, w.ns, w.ne + 1);
    } else if w.os <= w.oe {
      RemoveVnodesWf(c, w.st, p, w.oldCh, w.os, w.oe + 1);
    }
  }

  /** The middle of `patch` keeps the document well-formed, whether it patches or replaces. */
  lemma ReplaceWf(c: Cfg, s: St, o: VNode, v: VNode)
    requires Wf(s.doc)
    ensures Wf(Replace(c, s, o, v).st.doc)
  {
    if SameVnode(o, v) {
      PatchVnodeWf(c, s, o, v);
    } else {
      var parent := ParentAt(s.doc, o.elm);
      CreateWf(c, s, v);
      var n := Creation.Create(c, s, v);
      if parent.Some? {
        InsertedAtWf(n.st.doc, parent, n.r.elm, NextSiblingAt(n.st.doc, o.elm));
        var d := InsertedAt(n.st.doc, parent, n.r.elm, NextSiblingAt(n.st.doc, o.elm));
        RemoveVnodesWf(c, n.st.(doc := d), parent, [Some(o)], 0, 1);
      }
    }
  }

  /** `patch` keeps the document well-formed. */
  lemma PatchWf(c: Cfg, s: St, t: Target, v: VNode)
    requires Patchable(s.doc, t) && Wf(s.doc)
    ensures Wf(Patch(c, s, t, v).st.doc)
  {
    var s1 := Emit(s.(queue := []), ModuleCalls(Phase.Pre, c.cbs.pre, None));
    ReplaceWf(c, s1, OldVnode(s.doc, t), v);
  }
}
