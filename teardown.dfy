/**
 * Taking subtrees away: removeVnodes (src/init.ts:249-279) with the destroy cascade
 * (src/init.ts:231-246) and the shared removal callback of createRmCb (src/init.ts:118-125).
 *
 * A remove hook is opaque code that is handed the callback; the model records the call and lets
 * the hook's `removeCallsBack` flag say whether it calls the callback before returning. A hook
 * that keeps the callback for later leaves the node attached as far as this patch is concerned.
 */
module Teardown {
  import opened Wrappers
  import opened Seqs
  import opened VNodes
  import opened HookTable
  import opened HostTree
  import opened Events
  import opened Removal
  import opened Machine

  /** Whether the remove callback of `modules[i]` calls the completion callback before returning. */
  predicate CallsBack(c: Cfg, i: nat) {
    i < |c.modules| && c.modules[i].removeCallsBack
  }

  /** How many of the listed module callbacks call back at once. */
  function CallbackCount(c: Cfg, ids: seq<nat>): (n: nat)
    ensures n <= |ids|
    ensures n == |ids| <==> forall j :: 0 <= j < |ids| ==> CallsBack(c, ids[j])
  {
    if |ids| == 0 then 0
    else CallbackCount(c, ids[..|ids| - 1]) + (if CallsBack(c, ids[|ids| - 1]) then 1 else 0)
  }

  /** One more module callback in the list. */
  lemma CallbackCountSnoc(c: Cfg, ids: seq<nat>, i: nat)
    requires i < |ids|
    ensures CallbackCount(c, ids[..i + 1]) == CallbackCount(c, ids[..i]) + if CallsBack(c, ids[i]) then 1 else 0
  {
    assert ids[..i + 1][..i] == ids[..i];
  }

  /** The calls of the shared callback made while `removeVnodes` handles `v`: one per module
      callback that calls back, then one from the node's own remove hook if it calls back, or one
      from removeVnodes itself when the node has no remove hook. */
  function SyncCalls(c: Cfg, v: VNode): nat {
    CallbackCount(c, c.cbs.remove) + if HooksOf(v).remove then (if HooksOf(v).removeCallsBack then 1 else 0) else 1
  }

  /** One slot of removeVnodes: nothing for a null slot; for a text vnode, `removeChild(parent,
      elm)` with no hook at all; otherwise the destroy cascade, the module `remove` hooks and the
      node's own `remove` hook, the node leaving its parent when the countdown reaches zero. */
  function RemoveOne(c: Cfg, s: St, p: Option<NodeId>, ch: Option<VNode>): (s': St)
    ensures s'.queue == s.queue && s'.doc.next == s.doc.next && s.trace <= s'.trace
  {
    if ch.None? then s
    else if ch.value.sel.Some? then
      var v := ch.value;
      var s1 := Emit(s, RemoveEvents(ch, c.cbs.remove, c.cbs.destroy));
      if Fired(|c.cbs.remove| + 1, SyncCalls(c, v)) == 1 then s1.(doc := DetachedAt(s1.doc, v.elm)) else s1
    else
      s.(doc := RemovedAt(s.doc, p, ch.value.elm))
  }

  /** removeVnodes over the slots `lo .. k-1`, in order. */
  function RemoveVnodes(c: Cfg, s: St, p: Option<NodeId>, vs: seq<Option<VNode>>, lo: nat, k: nat): (s': St)
    requires lo <= k <= |vs|
    decreases k
    ensures s'.queue == s.queue && s'.doc.next == s.doc.next && s.trace <= s'.trace
  {
    if k == lo then s else RemoveOne(c, RemoveVnodes(c, s, p, vs, lo, k - 1), p, vs[k - 1])
  }

  /** Removal completes during the call exactly when every module remove callback calls back and
      the node either has no remove hook or its hook calls back. */
  predicate Synchronous(c: Cfg, v: VNode) {
    && (forall j :: 0 <= j < |c.cbs.remove| ==> CallsBack(c, c.cbs.remove[j]))
    && (HooksOf(v).remove ==> HooksOf(v).removeCallsBack)
  }

  /** The countdown fires during removeVnodes exactly when removal is synchronous; it starts at
      `cbs.remove.length + 1`, which no smaller number of calls reaches. */
  lemma RemoveDetachesIff(c: Cfg, s: St, p: Option<NodeId>, v: VNode)
    requires v.sel.Some?
    ensures RemoveOne(c, s, p, Some(v)).doc ==
            if Synchronous(c, v) then DetachedAt(s.doc, v.elm) else s.doc
  {
    FiredExactlyOnce(|c.cbs.remove| + 1, SyncCalls(c, v));
  }

  /** With no module remove callbacks and no remove hook on the node, removal is immediate. */
  lemma NoHooksRemoveAtOnce(c: Cfg, s: St, p: Option<NodeId>, v: VNode)
    requires v.sel.Some? && |c.cbs.remove| == 0 && !HooksOf(v).remove
    ensures RemoveOne(c, s, p, Some(v)).doc == DetachedAt(s.doc, v.elm)
  {
    RemoveDetachesIff(c, s, p, v);
  }

  /** A text vnode is removed directly from the given parent, and no hook runs. */
  lemma TextRemovedDirectly(c: Cfg, s: St, p: Option<NodeId>, v: VNode)
    requires v.sel.None?
    ensures RemoveOne(c, s, p, Some(v)) == s.(doc := RemovedAt(s.doc, p, v.elm))
  {
  }

  /** One slot records the destroy cascade and the remove hooks of `RemoveEvents`. */
  lemma RemoveOneTrace(c: Cfg, s: St, p: Option<NodeId>, ch: Option<VNode>)
    ensures RemoveOne(c, s, p, ch).trace == s.trace + RemoveEvents(ch, c.cbs.remove, c.cbs.destroy)
  {
    if ch.None? || ch.value.sel.None? {
      AppendNil(s.trace);
    }
  }

  /** One more slot appends that slot's events. */
  lemma RemoveVnodesSnoc(c: Cfg, s: St, p: Option<NodeId>, vs: seq<Option<VNode>>, lo: nat, k: nat)
    requires lo < k <= |vs|
    ensures RemoveVnodes(c, s, p, vs, lo, k).trace ==
            RemoveVnodes(c, s, p, vs, lo, k - 1).trace + RemoveEvents(vs[k - 1], c.cbs.remove, c.cbs.destroy)
  {
    RemoveOneTrace(c, RemoveVnodes(c, s, p, vs, lo, k - 1), p, vs[k - 1]);
  }

  /** removeVnodes records, slot by slot, the destroy cascade and the remove hooks. */
  lemma {:induction false} RemoveVnodesTrace(c: Cfg, s: St, p: Option<NodeId>, vs: seq<Option<VNode>>, lo: nat, k: nat)
    requires lo <= k <= |vs|
    ensures RemoveVnodes(c, s, p, vs, lo, k).trace == s.trace + RemoveAllEvents(vs, lo, k, c.cbs.remove, c.cbs.destroy)
    decreases k
  {
    if k > lo {
      RemoveVnodesTrace(c, s, p, vs, lo, k - 1);
      RemoveVnodesSnoc(c, s, p, vs, lo, k);
      AppendAssoc(s.trace, RemoveAllEvents(vs, lo, k - 1, c.cbs.remove, c.cbs.destroy),
                  RemoveEvents(vs[k - 1], c.cbs.remove, c.cbs.destroy));
    }
  }

  /** Removing one slot keeps the document well-formed. */
  lemma RemoveOneWf(c: Cfg, s: St, p: Option<NodeId>, ch: Option<VNode>)
    requires Wf(s.doc)
    ensures Wf(RemoveOne(c, s, p, ch).doc)
  {
    if ch.Some? && ch.value.sel.Some? {
      RemoveDetachesIff(c, s, p, ch.value);
      DetachedAtWf(s.doc, ch.value.elm);
    } else if ch.Some? && p.Some? && ch.value.elm.Some? {
      RemovedWf(s.doc, p.value, ch.value.elm.value);
    }
  }

  /** Removal keeps the document well-formed. */
  lemma {:induction false} RemoveVnodesWf(c: Cfg, s: St, p: Option<NodeId>, vs: seq<Option<VNode>>, lo: nat, k: nat)
    requires lo <= k <= |vs| && Wf(s.doc)
    ensures Wf(RemoveVnodes(c, s, p, vs, lo, k).doc)
    decreases k
  {
    if k > lo {
      RemoveVnodesWf(c, s, p, vs, lo, k - 1);
      RemoveOneWf(c, RemoveVnodes(c, s, p, vs, lo, k - 1), p, vs[k - 1]);
    }
  }

  /** What removal does to the document depends on the document alone, not on the hook calls
      recorded before it. */
  lemma {:induction false} RemoveVnodesDoc(c: Cfg, s1: St, s2: St, p: Option<NodeId>, vs: seq<Option<VNode>>, lo: nat, k: nat)
    requires lo <= k <= |vs| && s1.doc == s2.doc
    ensures RemoveVnodes(c, s1, p, vs, lo, k).doc == RemoveVnodes(c, s2, p, vs, lo, k).doc
    decreases k
  {
    if k > lo {
      RemoveVnodesDoc(c, s1, s2, p, vs, lo, k - 1);
    }
  }
}
