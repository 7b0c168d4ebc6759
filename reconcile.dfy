/**
 * Patching: updateChildren (src/init.ts:282-418), patchVnode (src/init.ts:422-486) and the
 * function `patch` that init returns (src/init.ts:488-537), as functions from the state before
 * to the state after.
 *
 * The loop of updateChildren is a value `Loop` holding every variable the source's loop updates,
 * the four cached vnodes included: after a keyed move writes a tombstone into `oldCh`, the cached
 * `oldStartVnode`/`oldEndVnode` are not refreshed, and neither are they here.
 */
module Reconcile {
  import opened Wrappers
  import opened Seqs
  import opened VNodes
  import opened Selector
  import opened HookTable
  import opened HostTree
  import opened Events
  import opened KeyMap
  import opened Machine
  import opened Creation
  import opened Teardown

  /** `a[i]` in JavaScript: an index outside the array reads as undefined. */
  function Get(a: seq<Option<VNode>>, i: int): (r: Option<VNode>)
    ensures r.Some? ==> 0 <= i < |a| && a[i] == r
    ensures 0 <= i < |a| ==> r == a[i]
  {
    if 0 <= i < |a| then a[i] else None
  }

  /** The variables of updateChildren's loop. */
  datatype Loop = Loop(
    st: St,
    oldCh: seq<Option<VNode>>, newCh: seq<Option<VNode>>,
    os: int, oe: int, ns: int, ne: int,          // oldStartIdx, oldEndIdx, newStartIdx, newEndIdx
    oldStart: Option<VNode>, oldEnd: Option<VNode>,
    newStart: Option<VNode>, newEnd: Option<VNode>,
    keyMap: Option<map<string, nat>>)           // oldKeyToIdx, undefined until first needed

  /** The variables before the first iteration. */
  function Start(s: St, oldCh: seq<Option<VNode>>, newCh: seq<Option<VNode>>): Loop {
    Loop(s, oldCh, newCh, 0, |oldCh| - 1, 0, |newCh| - 1,
         Get(oldCh, 0), Get(oldCh, |oldCh| - 1), Get(newCh, 0), Get(newCh, |newCh| - 1), None)
  }

  /** What holds between iterations: the cursors stay within the arrays and never cross by more
      than one, the unvisited window of `newCh` is still the caller's, and the cached new vnodes
      are the ones at the cursors. */
  predicate Shape(items: seq<Option<VNode>>, u: Loop) {
    && |u.newCh| == |items|
    && 0 <= u.os <= u.oe + 1 <= |u.oldCh|
    && 0 <= u.ns <= u.ne + 1 <= |u.newCh|
    && (forall j :: u.ns <= j <= u.ne ==> u.newCh[j] == items[j])
    && (u.ns <= u.ne ==> u.newStart == u.newCh[u.ns] && u.newEnd == u.newCh[u.ne])
  }

  /** The loop condition. */
  predicate Running(u: Loop) {
    u.os <= u.oe && u.ns <= u.ne
  }

  /** The slots of both windows not yet visited: each iteration visits at least one. */
  function Measure(u: Loop): int {
    (u.oe - u.os + 1) + (u.ne - u.ns + 1)
  }

  /** Every slot of `oldCh` is either unchanged or a tombstone. */
  predicate Tombstoned(before: seq<Option<VNode>>, after: seq<Option<VNode>>) {
    |after| == |before| && forall j :: 0 <= j < |before| ==> after[j] == before[j] || after[j].None?
  }

  /** What an iteration keeps and how it progresses: the shape holds again, at least one slot is
      visited, a built key map is kept, old slots only become tombstones, and the state only grows. */
  predicate Advances(items: seq<Option<VNode>>, u: Loop, w: Loop) {
    && Shape(items, w) && Measure(w) < Measure(u)
    && (u.keyMap.Some? ==> w.keyMap == u.keyMap)
    && Tombstoned(u.oldCh, w.oldCh) && Appends(u.st, w.st)
  }

  /**
   * One iteration of the loop, branch by branch in the source's order: skip a null cached vnode;
   * patch start with start, or end with end; patch a node that moved right (old start, new end)
   * or left (old end, new start) and move its host node; otherwise the keyed search.
   */
  function Step(c: Cfg, p: Option<NodeId>, pv: VNode, u: Loop): (w: Loop)
    requires pv.children.Array? && Shape(pv.children.items, u) && Running(u)
    decreases pv, 1
    ensures Advances(pv.children.items, u, w)
  {
    if u.oldStart.None? then
      u.(os := u.os + 1, oldStart := Get(u.oldCh, u.os + 1))
    else if u.oldEnd.None? then
      u.(oe := u.oe - 1, oldEnd := Get(u.oldCh, u.oe - 1))
    else if u.newStart.None? then
      u.(ns := u.ns + 1, newStart := Get(u.newCh, u.ns + 1))
    else if u.newEnd.None? then
      u.(ne := u.ne - 1, newEnd := Get(u.newCh, u.ne - 1))
    else if SameVnode(u.oldStart.value, u.newStart.value) then
      PatchStarts(c, pv, u)
    else if SameVnode(u.oldEnd.value, u.newEnd.value) then
      PatchEnds(c, pv, u)
    else if SameVnode(u.oldStart.value, u.newEnd.value) then
      MovedRight(c, p, pv, u)
    else if SameVnode(u.oldEnd.value, u.newStart.value) then
      MovedLeft(c, p, pv, u)
    else
      Keyed(c, p, pv, u)
  }

  /** Both starts are the same vnode: patch it and advance both starts. */
  function PatchStarts(c: Cfg, pv: VNode, u: Loop): (w: Loop)
    requires pv.children.Array? && Shape(pv.children.items, u) && Running(u)
    requires u.oldStart.Some? && u.newStart.Some?
    decreases pv, 0
    ensures Advances(pv.children.items, u, w)
  {
    assert u.newStart == pv.children.items[u.ns];
    var m := PatchVnode(c, u.st, u.oldStart.value, u.newStart.value);
    var newCh := u.newCh[u.ns := Some(m.r)];
    u.(st := m.st, newCh := newCh,
       os := u.os + 1, oldStart := Get(u.oldCh, u.os + 1),
       ns := u.ns + 1, newStart := Get(newCh, u.ns + 1))
  }

  /** Both ends are the same vnode: patch it and retreat both ends. */
  function PatchEnds(c: Cfg, pv: VNode, u: Loop): (w: Loop)
    requires pv.children.Array? && Shape(pv.children.items, u) && Running(u)
    requires u.oldEnd.Some? && u.newEnd.Some?
    decreases pv, 0
    ensures Advances(pv.children.items, u, w)
  {
    assert u.newEnd == pv.children.items[u.ne];
    var m := PatchVnode(c, u.st, u.oldEnd.value, u.newEnd.value);
    var newCh := u.newCh[u.ne := Some(m.r)];
    u.(st := m.st, newCh := newCh,
       oe := u.oe - 1, oldEnd := Get(u.oldCh, u.oe - 1),
       ne := u.ne - 1, newEnd := Get(newCh, u.ne - 1))
  }

  /** The old start vnode is the new end: patch it, move its host node just after the old end's
      host node, advance the old start and retreat the new end. */
  function MovedRight(c: Cfg, p: Option<NodeId>, pv: VNode, u: Loop): (w: Loop)
    requires pv.children.Array? && Shape(pv.children.items, u) && Running(u)
    requires u.oldStart.Some? && u.oldEnd.Some? && u.newEnd.Some?
    decreases pv, 0
    ensures Advances(pv.children.items, u, w)
  {
    assert u.newEnd == pv.children.items[u.ne];
    var m := PatchVnode(c, u.st, u.oldStart.value, u.newEnd.value);
    var d := InsertedAt(m.st.doc, p, u.oldStart.value.elm, NextSiblingAt(m.st.doc, u.oldEnd.value.elm));
    var newCh := u.newCh[u.ne := Some(m.r)];
    u.(st := m.st.(doc := d), newCh := newCh,
       os := u.os + 1, oldStart := Get(u.oldCh, u.os + 1),
       ne := u.ne - 1, newEnd := Get(newCh, u.ne - 1))
  }

  /** The old end vnode is the new start: patch it, move its host node before the old start's
      host node, retreat the old end and advance the new start. */
  function MovedLeft(c: Cfg, p: Option<NodeId>, pv: VNode, u: Loop): (w: Loop)
    requires pv.children.Array? && Shape(pv.children.items, u) && Running(u)
    requires u.oldStart.Some? && u.oldEnd.Some? && u.newStart.Some?
    decreases pv, 0
    ensures Advances(pv.children.items, u, w)
  {
    assert u.newStart == pv.children.items[u.ns];
    var m := PatchVnode(c, u.st, u.oldEnd.value, u.newStart.value);
    var d := InsertedAt(m.st.doc, p, u.oldEnd.value.elm, u.oldStart.value.elm);
    var newCh := u.newCh[u.ns := Some(m.r)];
    u.(st := m.st.(doc := d), newCh := newCh,
       oe := u.oe - 1, oldEnd := Get(u.oldCh, u.oe - 1),
       ns := u.ns + 1, newStart := Get(newCh, u.ns + 1))
  }

  /** The index `oldKeyToIdx[key]` finds; an undefined key is looked up as the string "undefined". */
  function Lookup(km: map<string, nat>, key: Option<string>): Option<nat> {
    var k := key.GetOr("undefined");
    if k in km then Some(km[k]) else None
  }

  /**
   * The keyed branch: build the key map on first use, look up the new start vnode's key, and
   * either create a new node (no index, or a different selector there) or patch the old vnode
   * found, tombstone its slot and move its host node. Either way the node lands before the old
   * start vnode's host node.
   */
  function Keyed(c: Cfg, p: Option<NodeId>, pv: VNode, u: Loop): (w: Loop)
    requires pv.children.Array? && Shape(pv.children.items, u) && Running(u)
    requires u.oldStart.Some? && u.newStart.Some?
    decreases pv, 0, 1
    ensures Shape(pv.children.items, w) && w.ns == u.ns + 1
    ensures w.os == u.os && w.oe == u.oe && w.ne == u.ne
    ensures w.keyMap == Some(if u.keyMap.Some? then u.keyMap.value else KeyIdx(u.oldCh, u.os, u.oe + 1))
    ensures Tombstoned(u.oldCh, w.oldCh) && Appends(u.st, w.st)
  {
    var km := if u.keyMap.Some? then u.keyMap.value else KeyIdx(u.oldCh, u.os, u.oe + 1);
    var idx := Lookup(km, u.newStart.value.key);
    var elmToMove := if idx.Some? then Get(u.oldCh, idx.value) else None;
    if elmToMove.None? || elmToMove.value.sel != u.newStart.value.sel then KeyedNew(c, p, pv, u, km)
    else KeyedFound(c, p, pv, u, km, idx.value)
  }

  /** No old vnode with the key and the selector: create the new start vnode's tree and insert it
      before the old start vnode's host node. */
  function KeyedNew(c: Cfg, p: Option<NodeId>, pv: VNode, u: Loop, km: map<string, nat>): (w: Loop)
    requires pv.children.Array? && Shape(pv.children.items, u) && Running(u)
    requires u.oldStart.Some? && u.newStart.Some?
    ensures Shape(pv.children.items, w) && w.ns == u.ns + 1
    ensures w.os == u.os && w.oe == u.oe && w.ne == u.ne && w.keyMap == Some(km)
    ensures w.oldCh == u.oldCh && Appends(u.st, w.st)
  {
    var n := Creation.Create(c, u.st, u.newStart.value);
    var newCh := u.newCh[u.ns := Some(n.r)];
    u.(st := n.st.(doc := InsertedAt(n.st.doc, p, n.r.elm, u.oldStart.value.elm)), newCh := newCh,
       ns := u.ns + 1, newStart := Get(newCh, u.ns + 1), keyMap := Some(km))
  }

  /** The old vnode at `i` has the key and the selector: patch it, tombstone its slot and move its
      host node before the old start vnode's host node. */
  function KeyedFound(c: Cfg, p: Option<NodeId>, pv: VNode, u: Loop, km: map<string, nat>, i: nat): (w: Loop)
    requires pv.children.Array? && Shape(pv.children.items, u) && Running(u)
    requires u.oldStart.Some? && u.newStart.Some? && i < |u.oldCh| && u.oldCh[i].Some?
    decreases pv, 0, 0
    ensures Shape(pv.children.items, w) && w.ns == u.ns + 1
    ensures w.os == u.os && w.oe == u.oe && w.ne == u.ne && w.keyMap == Some(km)
    ensures w.oldCh == u.oldCh[i := None] && Appends(u.st, w.st)
  {
    assert u.newStart == pv.children.items[u.ns];
    var o := u.oldCh[i].value;
    var m := PatchVnode(c, u.st, o, u.newStart.value);
    var newCh := u.newCh[u.ns := Some(m.r)];
    u.(st := m.st.(doc := InsertedAt(m.st.doc, p, o.elm, u.oldStart.value.elm)),
       oldCh := u.oldCh[i := None], newCh := newCh,
       ns := u.ns + 1, newStart := Get(newCh, u.ns + 1), keyMap := Some(km))
  }

  /** The loop, from the variables `u` until one window is exhausted. */
  function Run(c: Cfg, p: Option<NodeId>, pv: VNode, u: Loop): (w: Loop)
    requires pv.children.Array? && Shape(pv.children.items, u)
    decreases pv, 2, Measure(u)
    ensures Shape(pv.children.items, w) && !Running(w)
    ensures u.keyMap.Some? ==> w.keyMap == u.keyMap
    ensures Tombstoned(u.oldCh, w.oldCh) && Appends(u.st, w.st)
  {
    if Running(u) then Run(c, p, pv, Step(c, p, pv, u)) else u
  }

  /**
   * What updateChildren does once the loop has stopped at `w`: either the new vnodes left over are
   * created and inserted before the host node of the slot after the new window (at the end when
   * that slot is null or past the end), or the old vnodes left over are removed.
   */
  function Leftovers(c: Cfg, p: Option<NodeId>, pv: VNode, w: Loop): (m: MadeAll)
    requires pv.children.Array? && Shape(pv.children.items, w)
    ensures |m.items| == |pv.children.items| && Appends(w.st, m.st)
  {
    if w.os > w.oe && w.ns <= w.ne then
      var after := Get(w.newCh, w.ne + 1);
      var before := if after.None? then None else after.value.elm;
      AddVnodes(c, w.st, p, before, w.newCh, w.ns, w.ne + 1)
    else if w.os <= w.oe then
      MadeAll(RemoveVnodes(c, w.st, p, w.oldCh, w.os, w.oe + 1), w.newCh)
    else
      MadeAll(w.st, w.newCh)
  }

  /**
   * updateChildren of the element `p`, from the old children `oldCh` to the children of `pv`:
   * the loop, then the leftovers. The result is `pv`'s children array with its slots bound.
   */
  function UpdateChildren(c: Cfg, s: St, p: Option<NodeId>, oldCh: seq<Option<VNode>>, pv: VNode): (m: MadeAll)
    requires pv.children.Array?
    decreases pv, 3
    ensures |m.items| == |pv.children.items| && Appends(s, m.st)
  {
    Leftovers(c, p, pv, Run(c, p, pv, Start(s, oldCh, pv.children.items)))
  }

  /**
   * The content branches of patchVnode on the host node `o.elm`: with no new text, reconcile two
   * children arrays, add children where there were none (clearing old text first), remove
   * children that are gone, or clear old text; with a new text that differs from the old, remove
   * the old children and set the text.
   */
  function PatchContent(c: Cfg, s: St, o: VNode, v: VNode): (m: Made)
    decreases v, 4
    ensures m.r == v.(elm := o.elm, children := m.r.children)
    ensures m.r.children.Array? <==> v.children.Array?
    ensures m.r.children.Array? ==> |m.r.children.items| == |v.children.items|
    ensures Appends(s, m.st)
  {
    var e := o.elm;
    if v.text.None? then
      if o.children.Array? && v.children.Array? then
        if o.children != v.children then
          var u := UpdateChildren(c, s, e, o.children.items, v);
          Made(u.st, v.(elm := e, children := Array(u.items)))
        else
          Made(s, v.(elm := e))
      else if v.children.Array? then
        var s1 := if o.text.Some? then s.(doc := WithTextAt(s.doc, e, "")) else s;
        var a := AddVnodes(c, s1, e, None, v.children.items, 0, |v.children.items|);
        Made(a.st, v.(elm := e, children := Array(a.items)))
      else if o.children.Array? then
        Made(RemoveVnodes(c, s, e, o.children.items, 0, |o.children.items|), v.(elm := e))
      else if o.text.Some? then
        Made(s.(doc := WithTextAt(s.doc, e, "")), v.(elm := e))
      else
        Made(s, v.(elm := e))
    else if o.text != v.text then
      var s1 := if o.children.Array? then RemoveVnodes(c, s, e, o.children.items, 0, |o.children.items|) else s;
      Made(s1.(doc := WithTextAt(s1.doc, e, v.text.value)), v.(elm := e))
    else
      Made(s, v.(elm := e))
  }

  /**
   * patchVnode: the `prepatch` hook, the new vnode takes the old one's host node, and unless both
   * are the same vnode, the module `update` hooks and the `update` hook (when there is data), the
   * content, and the `postpatch` hook.
   */
  function PatchVnode(c: Cfg, s: St, o: VNode, v: VNode): (m: Made)
    decreases v, 5
    ensures m.r == v.(elm := o.elm, children := m.r.children)
    ensures m.r.children.Array? <==> v.children.Array?
    ensures Appends(s, m.st)
  {
    var s1 := Emit(s, HookIf(HooksOf(v).prepatch, PrepatchHook, o.elm));
    if o == v then
      Made(s1, v)
    else
      var s2 := if v.data.Some? then Emit(s1, ModuleCalls(Phase.Update, c.cbs.update, o.elm) + HookIf(HooksOf(v).update, UpdateHook, o.elm)) else s1;
      var b := PatchContent(c, s2, o, v);
      Made(Emit(b.st, HookIf(HooksOf(v).postpatch, PostpatchHook, o.elm)), b.r)
  }

  // ----- patch (src/init.ts:488-537) -----

  /** What `patch` is given as its old argument: a vnode, or a live element of the document. */
  datatype Target = Virtual(v: VNode) | Live(elm: NodeId)

  /** What `patch` demands of its old argument: a vnode with a selector, or an element. */
  predicate Patchable(d: Doc, t: Target) {
    match t
    case Virtual(v) => IsVnode(v)
    case Live(e) => e in d.nodes && d.nodes[e].Element?
  }

  /** emptyNodeAt (src/init.ts:98-115): a vnode for a live element, with empty data, no children,
      and the selector assembled from the lower-cased tag, the `id` and the `class` attribute. */
  function EmptyNodeAt(d: Doc, e: NodeId): (v: VNode)
    requires e in d.nodes && d.nodes[e].Element?
  {
    var h := d.nodes[e];
    var id := if "id" in h.attrs then h.attrs["id"] else "";
    var classes := if "class" in h.attrs then Some(h.attrs["class"]) else None;
    VNode(Some(SelectorOf(LowerAscii(h.tag), id, classes)), None, Some(Data(None, None, NoHooks)),
          Array([]), None, Some(e))
  }

  /** The vnode `patch` works from. */
  function OldVnode(d: Doc, t: Target): (o: VNode)
    requires Patchable(d, t)
    ensures IsVnode(o)
    ensures t.Virtual? ==> o == t.v
    ensures t.Live? ==> o.elm == Some(t.elm) && o.key.None? && o.children == Array([])
  {
    if t.Virtual? then t.v else EmptyNodeAt(d, t.elm)
  }

  /** The `insert` hook of each queued vnode, in queue order. */
  function InsertCalls(q: seq<VNode>): (es: seq<Event>)
    ensures |es| == |q| && forall i :: 0 <= i < |q| ==> es[i] == Hook(InsertHook, q[i].elm)
  {
    seq(|q|, i requires 0 <= i < |q| => Hook(InsertHook, q[i].elm))
  }

  /** The middle of `patch`: patch a vnode the same as the old one in place; otherwise create the
      new tree, put it after the old host node in the old node's parent and remove the old vnode
      from there (a detached old node is left alone). */
  function Replace(c: Cfg, s: St, o: VNode, v: VNode): (m: Made) {
    if SameVnode(o, v) then PatchVnode(c, s, o, v)
    else
      var parent := ParentAt(s.doc, o.elm);
      var n := Creation.Create(c, s, v);
      if parent.Some? then
        var d := InsertedAt(n.st.doc, parent, n.r.elm, NextSiblingAt(n.st.doc, o.elm));
        Made(RemoveVnodes(c, n.st.(doc := d), parent, [Some(o)], 0, 1), n.r)
      else n
  }

  /** patch: a fresh insert queue, the module `pre` hooks, the patch or replacement, the `insert`
      hook of every queued vnode, then the module `post` hooks. */
  function Patch(c: Cfg, s: St, t: Target, v: VNode): (m: Made)
    requires Patchable(s.doc, t)
  {
    var s1 := Emit(s.(queue := []), ModuleCalls(Phase.Pre, c.cbs.pre, None));
    var m := Replace(c, s1, OldVnode(s.doc, t), v);
    Made(Emit(m.st, InsertCalls(m.st.queue) + ModuleCalls(Phase.Post, c.cbs.post, None)), m.r)
  }

  // ----- what patchVnode promises -----

  /** Patching a vnode with itself runs `prepatch` and stops there: no update hook, no host call,
      no `postpatch`. */
  lemma PatchSelf(c: Cfg, s: St, v: VNode)
    ensures PatchVnode(c, s, v, v) == Made(Emit(s, HookIf(HooksOf(v).prepatch, PrepatchHook, v.elm)), v)
  {
  }

  /** Otherwise `prepatch` comes first, then the module `update` hooks and the node's `update`
      hook when it has data, and `postpatch`, when present, is the last call. */
  lemma PatchVnodeHookOrder(c: Cfg, s: St, o: VNode, v: VNode)
    requires o != v
    ensures var t := PatchVnode(c, s, o, v).st.trace;
      && s.trace + HookIf(HooksOf(v).prepatch, PrepatchHook, o.elm)
         + (if v.data.Some? then ModuleCalls(Phase.Update, c.cbs.update, o.elm) + HookIf(HooksOf(v).update, UpdateHook, o.elm) else [])
         <= t
      && (HooksOf(v).postpatch ==> t[|t| - 1] == Hook(PostpatchHook, o.elm))
  {
    var pre := HookIf(HooksOf(v).prepatch, PrepatchHook, o.elm);
    var upd := if v.data.Some? then ModuleCalls(Phase.Update, c.cbs.update, o.elm) + HookIf(HooksOf(v).update, UpdateHook, o.elm) else [];
    var s2 := Emit(Emit(s, pre), upd);
    AppendAssoc(s.trace, pre, upd);
    assert PatchVnode(c, s, o, v).st.trace == PatchContent(c, s2, o, v).st.trace + HookIf(HooksOf(v).postpatch, PostpatchHook, o.elm);
  }

  /** A new text equal to the old one: no host call at all. */
  lemma PatchEqualText(c: Cfg, s: St, o: VNode, v: VNode)
    requires v.text.Some? && o.text == v.text
    ensures PatchVnode(c, s, o, v).st.doc == s.doc
  {
  }

  /** A new text that differs: the old children are removed first, then the text is set. */
  lemma PatchNewText(c: Cfg, s: St, o: VNode, v: VNode)
    requires v.text.Some? && o.text != v.text
    ensures PatchVnode(c, s, o, v).st.doc ==
      WithTextAt(RemoveVnodes(c, s, o.elm, Items(o.children), 0, |Items(o.children)|).doc, o.elm, v.text.value)
  {
    var s1 := Emit(s, HookIf(HooksOf(v).prepatch, PrepatchHook, o.elm));
    var s2 := if v.data.Some? then Emit(s1, ModuleCalls(Phase.Update, c.cbs.update, o.elm) + HookIf(HooksOf(v).update, UpdateHook, o.elm)) else s1;
    RemoveVnodesDoc(c, s2, s, o.elm, Items(o.children), 0, |Items(o.children)|);
  }

  // ----- what the keyed branch of updateChildren promises -----

  /** The key map, built on first use, maps each key of the old window to the last old index in
      the window that carries it. */
  lemma KeyedMap(c: Cfg, p: Option<NodeId>, pv: VNode, u: Loop)
    requires pv.children.Array? && Shape(pv.children.items, u) && Running(u)
    requires u.oldStart.Some? && u.newStart.Some? && u.keyMap.None?
    ensures var km := Keyed(c, p, pv, u).keyMap.value;
      && (forall k :: k in km ==> u.os <= km[k] <= u.oe && KeyAt(u.oldCh, km[k]) == Some(k))
      && (forall j :: u.os <= j <= u.oe && KeyAt(u.oldCh, j).Some? ==>
            KeyAt(u.oldCh, j).value in km && j <= km[KeyAt(u.oldCh, j).value])
  {
    KeyIdxSpec(u.oldCh, u.os, u.oe + 1);
  }

  /** An old vnode found by key with the new vnode's selector is patched, its slot becomes a
      tombstone, and the new vnode takes over its host node, which moves before the old start
      vnode's host node. */
  lemma KeyedMoves(c: Cfg, p: Option<NodeId>, pv: VNode, u: Loop, i: nat)
    requires pv.children.Array? && Shape(pv.children.items, u) && Running(u)
    requires u.oldStart.Some? && u.newStart.Some?
    requires var km := if u.keyMap.Some? then u.keyMap.value else KeyIdx(u.oldCh, u.os, u.oe + 1);
      Lookup(km, u.newStart.value.key) == Some(i)
    requires i < |u.oldCh| && u.oldCh[i].Some? && u.oldCh[i].value.sel == u.newStart.value.sel
    ensures var w := Keyed(c, p, pv, u);
      var m := PatchVnode(c, u.st, u.oldCh[i].value, u.newStart.value);
      && w.oldCh == u.oldCh[i := None]
      && w.newCh[u.ns] == Some(m.r) && m.r.elm == u.oldCh[i].value.elm
      && w.st.doc == InsertedAt(m.st.doc, p, u.oldCh[i].value.elm, u.oldStart.value.elm)
  {
  }

  /** Otherwise the new vnode gets a new host node, inserted before the old start vnode's host
      node, and the old children are left as they are. */
  lemma KeyedCreates(c: Cfg, p: Option<NodeId>, pv: VNode, u: Loop)
    requires pv.children.Array? && Shape(pv.children.items, u) && Running(u)
    requires u.oldStart.Some? && u.newStart.Some?
    requires var km := if u.keyMap.Some? then u.keyMap.value else KeyIdx(u.oldCh, u.os, u.oe + 1);
      var idx := Lookup(km, u.newStart.value.key);
      idx.None? || Get(u.oldCh, idx.value).None? || Get(u.oldCh, idx.value).value.sel != u.newStart.value.sel
    ensures var w := Keyed(c, p, pv, u);
      var n := Creation.Create(c, u.st, u.newStart.value);
      && w.oldCh == u.oldCh
      && w.newCh[u.ns] == Some(n.r) && n.r.elm == Some(u.st.doc.next)
      && w.st.doc == InsertedAt(n.st.doc, p, Some(u.st.doc.next), u.oldStart.value.elm)
  {
  }

  /** The four patching branches of Step, each as one value: the engine's loop steps through
      these rather than through Step's chain of tests. */
  lemma StepStartsValue(c: Cfg, p: Option<NodeId>, pv: VNode, u: Loop)
    requires pv.children.Array? && Shape(pv.children.items, u) && Running(u)
    requires u.oldStart.Some? && u.oldEnd.Some? && u.newStart.Some? && u.newEnd.Some?
    requires SameVnode(u.oldStart.value, u.newStart.value)
    ensures var m := PatchVnode(c, u.st, u.oldStart.value, u.newStart.value);
      var newCh := u.newCh[u.ns := Some(m.r)];
      Step(c, p, pv, u) == u.(st := m.st, newCh := newCh, os := u.os + 1, oldStart := Get(u.oldCh, u.os + 1),
                              ns := u.ns + 1, newStart := Get(newCh, u.ns + 1))
  {
  }

  lemma StepEndsValue(c: Cfg, p: Option<NodeId>, pv: VNode, u: Loop)
    requires pv.children.Array? && Shape(pv.children.items, u) && Running(u)
    requires u.oldStart.Some? && u.oldEnd.Some? && u.newStart.Some? && u.newEnd.Some?
    requires !SameVnode(u.oldStart.value, u.newStart.value) && SameVnode(u.oldEnd.value, u.newEnd.value)
    ensures var m := PatchVnode(c, u.st, u.oldEnd.value, u.newEnd.value);
      var newCh := u.newCh[u.ne := Some(m.r)];
      Step(c, p, pv, u) == u.(st := m.st, newCh := newCh, oe := u.oe - 1, oldEnd := Get(u.oldCh, u.oe - 1),
                              ne := u.ne - 1, newEnd := Get(newCh, u.ne - 1))
  {
  }

  lemma StepRightValue(c: Cfg, p: Option<NodeId>, pv: VNode, u: Loop)
    requires pv.children.Array? && Shape(pv.children.items, u) && Running(u)
    requires u.oldStart.Some? && u.oldEnd.Some? && u.newStart.Some? && u.newEnd.Some?
    requires !SameVnode(u.oldStart.value, u.newStart.value) && !SameVnode(u.oldEnd.value, u.newEnd.value)
    requires SameVnode(u.oldStart.value, u.newEnd.value)
    ensures var m := PatchVnode(c, u.st, u.oldStart.value, u.newEnd.value);
      var d := InsertedAt(m.st.doc, p, u.oldStart.value.elm, NextSiblingAt(m.st.doc, u.oldEnd.value.elm));
      var newCh := u.newCh[u.ne := Some(m.r)];
      Step(c, p, pv, u) == u.(st := m.st.(doc := d), newCh := newCh, os := u.os + 1, oldStart := Get(u.oldCh, u.os + 1),
                              ne := u.ne - 1, newEnd := Get(newCh, u.ne - 1))
  {
  }

  lemma StepLeftValue(c: Cfg, p: Option<NodeId>, pv: VNode, u: Loop)
    requires pv.children.Array? && Shape(pv.children.items, u) && Running(u)
    requires u.oldStart.Some? && u.oldEnd.Some? && u.newStart.Some? && u.newEnd.Some?
    requires !SameVnode(u.oldStart.value, u.newStart.value) && !SameVnode(u.oldEnd.value, u.newEnd.value)
    requires !SameVnode(u.oldStart.value, u.newEnd.value) && SameVnode(u.oldEnd.value, u.newStart.value)
    ensures var m := PatchVnode(c, u.st, u.oldEnd.value, u.newStart.value);
      var d := InsertedAt(m.st.doc, p, u.oldEnd.value.elm, u.oldStart.value.elm);
      var newCh := u.newCh[u.ns := Some(m.r)];
      Step(c, p, pv, u) == u.(st := m.st.(doc := d), newCh := newCh, oe := u.oe - 1, oldEnd := Get(u.oldCh, u.oe - 1),
                              ns := u.ns + 1, newStart := Get(newCh, u.ns + 1))
  {
  }

  /** In the four sameVnode branches no host node is created: the new vnode, patched, takes over
      the old vnode's host node, and the two cursors that matched move one slot inwards. The keyed
      branch only advances the new start. */
  lemma StepReusesHost(c: Cfg, p: Option<NodeId>, pv: VNode, u: Loop)
    requires pv.children.Array? && Shape(pv.children.items, u) && Running(u)
    requires u.oldStart.Some? && u.oldEnd.Some? && u.newStart.Some? && u.newEnd.Some?
    ensures var w := Step(c, p, pv, u);
      var os, oe, ns, ne := u.oldStart.value, u.oldEnd.value, u.newStart.value, u.newEnd.value;
      && (SameVnode(os, ns) ==>
            && w.newCh[u.ns].Some? && w.newCh[u.ns].value == ns.(elm := os.elm, children := w.newCh[u.ns].value.children)
            && w.os == u.os + 1 && w.ns == u.ns + 1 && w.oe == u.oe && w.ne == u.ne)
      && (!SameVnode(os, ns) && SameVnode(oe, ne) ==>
            && w.newCh[u.ne].Some? && w.newCh[u.ne].value == ne.(elm := oe.elm, children := w.newCh[u.ne].value.children)
            && w.os == u.os && w.ns == u.ns && w.oe == u.oe - 1 && w.ne == u.ne - 1)
      && (!SameVnode(os, ns) && !SameVnode(oe, ne) && SameVnode(os, ne) ==>
            && w.newCh[u.ne].Some? && w.newCh[u.ne].value == ne.(elm := os.elm, children := w.newCh[u.ne].value.children)
            && w.os == u.os + 1 && w.ns == u.ns && w.oe == u.oe && w.ne == u.ne - 1)
      && (!SameVnode(os, ns) && !SameVnode(oe, ne) && !SameVnode(os, ne) && SameVnode(oe, ns) ==>
            && w.newCh[u.ns].Some? && w.newCh[u.ns].value == ns.(elm := oe.elm, children := w.newCh[u.ns].value.children)
            && w.os == u.os && w.ns == u.ns + 1 && w.oe == u.oe - 1 && w.ne == u.ne)
      && (!SameVnode(os, ns) && !SameVnode(oe, ne) && !SameVnode(os, ne) && !SameVnode(oe, ns) ==>
            w.os == u.os && w.ns == u.ns + 1 && w.oe == u.oe && w.ne == u.ne)
  {
    var os, oe, ns, ne := u.oldStart.value, u.oldEnd.value, u.newStart.value, u.newEnd.value;
    if SameVnode(os, ns) {
      StepStartsValue(c, p, pv, u);
    } else if SameVnode(oe, ne) {
      StepEndsValue(c, p, pv, u);
    } else if SameVnode(os, ne) {
      StepRightValue(c, p, pv, u);
    } else if SameVnode(oe, ns) {
      StepLeftValue(c, p, pv, u);
    }
  }

  /** Keyed, when a new host node is created, as one value (used by the engine's loop). */
  lemma KeyedNewValue(c: Cfg, p: Option<NodeId>, pv: VNode, u: Loop, km: map<string, nat>)
    requires pv.children.Array? && Shape(pv.children.items, u) && Running(u)
    requires u.oldStart.Some? && u.newStart.Some?
    requires km == if u.keyMap.Some? then u.keyMap.value else KeyIdx(u.oldCh, u.os, u.oe + 1)
    requires var idx := Lookup(km, u.newStart.value.key);
      idx.None? || Get(u.oldCh, idx.value).None? || Get(u.oldCh, idx.value).value.sel != u.newStart.value.sel
    ensures var n := Creation.Create(c, u.st, u.newStart.value);
      var newCh := u.newCh[u.ns := Some(n.r)];
      Keyed(c, p, pv, u) ==
        u.(st := n.st.(doc := InsertedAt(n.st.doc, p, n.r.elm, u.oldStart.value.elm)), newCh := newCh,
           ns := u.ns + 1, newStart := Get(newCh, u.ns + 1), keyMap := Some(km))
  {
  }

  /** Keyed, when an old vnode is found and moved, as one value (used by the engine's loop). */
  lemma KeyedMovedValue(c: Cfg, p: Option<NodeId>, pv: VNode, u: Loop, km: map<string, nat>, i: nat)
    requires pv.children.Array? && Shape(pv.children.items, u) && Running(u)
    requires u.oldStart.Some? && u.newStart.Some?
    requires km == if u.keyMap.Some? then u.keyMap.value else KeyIdx(u.oldCh, u.os, u.oe + 1)
    requires Lookup(km, u.newStart.value.key) == Some(i)
    requires i < |u.oldCh| && u.oldCh[i].Some? && u.oldCh[i].value.sel == u.newStart.value.sel
    ensures var m := PatchVnode(c, u.st, u.oldCh[i].value, u.newStart.value);
      var newCh := u.newCh[u.ns := Some(m.r)];
      Keyed(c, p, pv, u) ==
        u.(st := m.st.(doc := InsertedAt(m.st.doc, p, u.oldCh[i].value.elm, u.oldStart.value.elm)),
           oldCh := u.oldCh[i := None], newCh := newCh,
           ns := u.ns + 1, newStart := Get(newCh, u.ns + 1), keyMap := Some(km))
  {
  }

  // ----- what patch promises -----

  /** The new tree's selector survives a round trip through the host: an element created for
      `tag#id.classes` (a lower-case tag) and read back by emptyNodeAt has that selector again. */
  lemma EmptyNodeAtRoundTrip(d: Doc, tag: string, id: string, classes: Option<string>, ns: Option<string>)
    requires tag != "" && '#' !in tag && '.' !in tag && '.' !in id && LowerAscii(tag) == tag
    requires classes.Some? ==> '#' !in classes.value && '.' !in classes.value
    ensures var sel := SelectorOf(tag, id, classes);
      var d1 := NewElementDoc(d, sel, ns);
      d.next in d1.nodes && d1.nodes[d.next].Element? && EmptyNodeAt(d1, d.next).sel == Some(sel)
  {
    var sel := SelectorOf(tag, id, classes);
    var p := ParseSelector(sel);
    ParseSelectorOf(tag, id, classes);
    NewElementDocIs(d, sel, ns);
    var h := NewElementDoc(d, sel, ns).nodes[d.next];
    assert h == Element(tag, ns, AttrsOf(p));
    var id' := if "id" in h.attrs then h.attrs["id"] else "";
    var classes' := if "class" in h.attrs then Some(h.attrs["class"]) else None;
    assert id' == id;
    assert classes' == (if classes.Some? && classes.value != "" then classes else None);
    assert SelectorOf(tag, id', classes') == sel;
  }

  /** `patch` starts with the module `pre` hooks and ends with the `insert` hooks of the queued
      vnodes followed by the module `post` hooks. */
  lemma PatchHookOrder(c: Cfg, s: St, t: Target, v: VNode)
    requires Patchable(s.doc, t)
    ensures var s1 := Emit(s.(queue := []), ModuleCalls(Phase.Pre, c.cbs.pre, None));
      var m := Replace(c, s1, OldVnode(s.doc, t), v);
      && s.trace + ModuleCalls(Phase.Pre, c.cbs.pre, None) <= m.st.trace
      && Patch(c, s, t, v).st.trace == m.st.trace + InsertCalls(m.st.queue) + ModuleCalls(Phase.Post, c.cbs.post, None)
  {
  }

  /** Replacing records the creation of the new tree, then the removal of the old vnode when the
      old host node has a parent; the queue holds the new tree's hooked elements. */
  lemma ReplaceRecords(c: Cfg, s: St, o: VNode, v: VNode)
    requires !SameVnode(o, v) && s.queue == []
    ensures var r := Replace(c, s, o, v);
      var removal := if ParentAt(s.doc, o.elm).Some? then RemoveEvents(Some(o), c.cbs.remove, c.cbs.destroy) else [];
      && r.st.trace == s.trace + CreateEvents(r.r, c.cbs.create) + removal
      && r.st.queue == InsertQueue(r.r)
  {
    var n := Creation.Create(c, s, v);
    CreateRecords(c, s, v);
    assert n.st.queue == InsertQueue(n.r);
    var parent := ParentAt(s.doc, o.elm);
    var created := s.trace + CreateEvents(n.r, c.cbs.create);
    if parent.Some? {
      var d := InsertedAt(n.st.doc, parent, n.r.elm, NextSiblingAt(n.st.doc, o.elm));
      RemoveVnodesTrace(c, n.st.(doc := d), parent, [Some(o)], 0, 1);
      assert RemoveAllEvents([Some(o)], 0, 1, c.cbs.remove, c.cbs.destroy) == RemoveEvents(Some(o), c.cbs.remove, c.cbs.destroy);
    } else {
      AppendNil(created);
    }
  }

  /** When the old vnode is not the same as the new one, `patch` creates the whole new tree, puts
      it in the old node's place, removes the old vnode, and then calls the `insert` hook of every
      new node that has one, children before parents. */
  lemma PatchReplaces(c: Cfg, s: St, t: Target, v: VNode)
    requires Patchable(s.doc, t) && !SameVnode(OldVnode(s.doc, t), v)
    ensures var o := OldVnode(s.doc, t);
      var m := Patch(c, s, t, v);
      var removal := if ParentAt(s.doc, o.elm).Some? then RemoveEvents(Some(o), c.cbs.remove, c.cbs.destroy) else [];
      m.st.trace == s.trace + ModuleCalls(Phase.Pre, c.cbs.pre, None) + CreateEvents(m.r, c.cbs.create)
                    + removal + InsertCalls(InsertQueue(m.r)) + ModuleCalls(Phase.Post, c.cbs.post, None)
  {
    var o := OldVnode(s.doc, t);
    var s1 := Emit(s.(queue := []), ModuleCalls(Phase.Pre, c.cbs.pre, None));
    var r := Replace(c, s1, o, v);
    ReplaceRecords(c, s1, o, v);
    AppendAssoc(r.st.trace, InsertCalls(r.st.queue), ModuleCalls(Phase.Post, c.cbs.post, None));
  }
}
