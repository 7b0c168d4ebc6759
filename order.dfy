/**
 * The order updateChildren (src/init.ts:282-418) leaves a parent's host children in, for lists
 * of leaf children: afterwards the parent's child list is exactly the host nodes of the new
 * children, in the order of the new array.
 *
 * The loop keeps the parent's child list in three parts: the host nodes of the new slots placed
 * at the front (`newCh[..newStartIdx]`), those of the old window still to visit
 * (`oldCh[oldStartIdx..oldEndIdx]`), and those of the new slots placed at the back
 * (`newCh[newEndIdx+1..]`). Each branch of the loop body moves one node from the old window to
 * one of the placed parts, or places a freshly created node; the leftovers step then inserts the
 * new nodes still missing before the back part, or removes the old nodes still in the window.
 */
module Order {
  import opened Wrappers
  import opened Seqs
  import opened VNodes
  import opened HookTable
  import opened HostTree
  import opened Events
  import opened KeyMap
  import opened Machine
  import opened Mount
  import opened Creation
  import opened Teardown
  import opened Reconcile

  // ----- the host nodes of slot ranges -----

  /** The host node of one slot, if it has one. */
  function ElmOf(x: Option<VNode>): seq<NodeId> {
    if x.Some? && x.value.elm.Some? then [x.value.elm.value] else []
  }

  lemma ElmsOne(x: Option<VNode>)
    ensures Elms([x]) == ElmOf(x)
  {
    assert [x][1..] == [];
  }

  /** A slot range splits into its first slot and the rest. */
  lemma ElmsFront(s: seq<Option<VNode>>, i: nat, j: nat)
    requires i < j <= |s|
    ensures Elms(s[i..j]) == ElmOf(s[i]) + Elms(s[i + 1..j])
  {
    assert s[i..j][1..] == s[i + 1..j];
  }

  /** A slot range splits into the rest and its last slot. */
  lemma ElmsBack(s: seq<Option<VNode>>, i: nat, j: nat)
    requires i < j <= |s|
    ensures Elms(s[i..j]) == Elms(s[i..j - 1]) + ElmOf(s[j - 1])
  {
    assert s[i..j] == s[i..j - 1] + [s[j - 1]];
    ElmsAppend(s[i..j - 1], [s[j - 1]]);
    ElmsOne(s[j - 1]);
  }

  /** A slot range splits at any point. */
  lemma ElmsSplit(s: seq<Option<VNode>>, i: nat, j: nat, k: nat)
    requires i <= j <= k <= |s|
    ensures Elms(s[i..k]) == Elms(s[i..j]) + Elms(s[j..k])
  {
    assert s[i..k] == s[i..j] + s[j..k];
    ElmsAppend(s[i..j], s[j..k]);
  }

  // ----- moving one element of a list free of duplicates -----

  lemma NoDupsMiddle<T>(a: seq<T>, x: T, b: seq<T>)
    requires NoDups(a + [x] + b)
    ensures x !in a && x !in b
  {
    NoDupsAppend(a + [x], b);
    NoDupsAppend(a, [x]);
  }

  /** The element after `e`: the head of what follows it. */
  lemma AfterAt<T>(a: seq<T>, e: T, b: seq<T>)
    requires NoDups(a + [e] + b)
    ensures e in a + [e] + b
    ensures After(a + [e] + b, e) == if |b| > 0 then Some(b[0]) else None
  {
    var s := a + [e] + b;
    NoDupsMiddle(a, e, b);
    assert s[|a|] == e && s[..|a|] == a;
    IndexOfAt(s, |a|);
  }

  /** Taking out the one occurrence of `x` from a list free of duplicates. */
  lemma WithoutOne<T>(a: seq<T>, x: T, b: seq<T>)
    requires NoDups(a + [x] + b)
    ensures Without(a + [x] + b, x) == a + b
  {
    NoDupsMiddle(a, x, b);
    WithoutMiddle(a, x, b);
  }

  /** Moving `x` before its left neighbour part `r :: m1`: `insertBefore(x, r)`. */
  lemma MoveEarlier<T>(a: seq<T>, r: T, m1: seq<T>, x: T, m2: seq<T>)
    requires NoDups(a + [r] + m1 + [x] + m2)
    ensures InsertBefore(Without(a + [r] + m1 + [x] + m2, x), x, Some(r)) == a + [x] + [r] + m1 + m2
  {
    var s := a + [r] + m1 + [x] + m2;
    WithoutOne(a + [r] + m1, x, m2);
    var t := a + [r] + m1 + m2;
    assert Without(s, x) == t;
    assert s == a + [r] + (m1 + [x] + m2);
    NoDupsMiddle(a, r, m1 + [x] + m2);
    assert t == a + [r] + (m1 + m2);
    InsertBeforeAt(a, r, m1 + m2, x);
    assert a + [x] + [r] + (m1 + m2) == a + [x] + [r] + m1 + m2;
  }

  /** Moving `x` behind the part `b`, before the head of `c` (or to the end when `c` is empty). */
  lemma MoveLater<T>(a: seq<T>, x: T, b: seq<T>, c: seq<T>)
    requires NoDups(a + [x] + b + c)
    ensures InsertBefore(Without(a + [x] + b + c, x), x, if |c| > 0 then Some(c[0]) else None) == a + b + [x] + c
  {
    assert a + [x] + b + c == a + [x] + (b + c);
    WithoutOne(a, x, b + c);
    if |c| > 0 {
      InsertBeforeHead(a, x, b, c);
    } else {
      InsertBeforeNone(a + (b + c), x);
      assert a + (b + c) + [x] == a + b + [x] + c;
    }
  }

  lemma InsertBeforeHead<T>(a: seq<T>, x: T, b: seq<T>, c: seq<T>)
    requires NoDups(a + [x] + b + c) && |c| > 0
    ensures InsertBefore(a + (b + c), x, Some(c[0])) == a + b + [x] + c
  {
    NoDupsAppend(a + [x] + b, c);
    assert c[0] in c;
    assert c[0] !in a + b;
    assert a + (b + c) == (a + b) + [c[0]] + c[1..];
    InsertBeforeAt(a + b, c[0], c[1..], x);
    assert (a + b) + [x] + [c[0]] + c[1..] == a + b + [x] + c;
  }

  /** Moving `x` before its own next sibling leaves the list as it was. */
  lemma StayPut<T>(a: seq<T>, x: T, c: seq<T>)
    requires NoDups(a + [x] + c)
    ensures x in a + [x] + c
    ensures InsertBefore(Without(a + [x] + c, x), x, After(a + [x] + c, x)) == a + [x] + c
  {
    AfterAt(a, x, c);
    assert a + [x] + c == a + [x] + [] + c;
    MoveLater(a, x, [], c);
    assert a + [] + [x] + c == a + [x] + c;
  }

  // ----- what the host calls do to the parent's child list -----

  /** Moving a child of `p` within `p`: it leaves its place and is put before `ref`, where a
      reference to itself means its next sibling. */
  lemma InsertedKid(d: Doc, p: NodeId, x: NodeId, ref: Option<NodeId>)
    requires Parent(d, p) && x in d.kids[p]
    requires ref.Some? ==> ref.value in d.kids[p]
    ensures var d' := Inserted(d, p, x, ref);
      && Parent(d', p)
      && d'.kids[p] == InsertBefore(Without(d.kids[p], x), x, EffectiveRef(d.kids[p], x, ref))
  {
    InsertedKidList(d, p, x, ref);
    InsertedWf(d, p, x, ref);
    WithoutSubset(d.kids[p], x);
    InsertBeforeMembers(Without(d.kids[p], x), x, EffectiveRef(d.kids[p], x, ref));
  }

  lemma InsertedKidList(d: Doc, p: NodeId, x: NodeId, ref: Option<NodeId>)
    requires Parent(d, p) && x in d.kids[p]
    requires ref.Some? ==> ref.value in d.kids[p]
    ensures p in Inserted(d, p, x, ref).kids
    ensures Inserted(d, p, x, ref).kids[p] == InsertBefore(Without(d.kids[p], x), x, EffectiveRef(d.kids[p], x, ref))
  {
    assert p in d.nodes;
    assert x in d.nodes && x in d.parent && d.parent[x] == p;
    assert CanInsert(d, p, x, ref);
    assert DetachKids(d.kids, d.parent, x)[p] == Without(d.kids[p], x);
  }

  /** Inserting a detached node into `p` before `ref`. */
  lemma InsertedNew(d: Doc, p: NodeId, y: NodeId, ref: Option<NodeId>)
    requires Parent(d, p) && y in d.nodes && y != p && y !in d.parent
    requires ref.Some? ==> ref.value in d.kids[p] && ref.value != y
    ensures var d' := Inserted(d, p, y, ref);
      Parent(d', p) && d'.kids[p] == InsertBefore(d.kids[p], y, ref)
  {
    InsertedWf(d, p, y, ref);
    assert CanInsert(d, p, y, ref);
    InsertBeforeMembers(d.kids[p], y, ref);
  }

  /** Taking a child out of `p`. */
  lemma RemovedKid(d: Doc, p: NodeId, x: NodeId)
    requires Parent(d, p) && x in d.kids[p]
    ensures var d' := Removed(d, p, x);
      Parent(d', p) && d'.kids[p] == Without(d.kids[p], x)
  {
    RemovedWf(d, p, x);
    WithoutSubset(d.kids[p], x);
  }

  /** Patching a leaf child of `p` changes at most that child's own content. */
  lemma PatchLeaf(c: Cfg, s: St, o: VNode, v: VNode, p: NodeId)
    requires Parent(s.doc, p)
    requires o.children.Missing? && v.children.Missing? && o.elm.Some? && o.elm.value != p
    ensures var m := PatchVnode(c, s, o, v);
      Parent(m.st.doc, p) && m.st.doc.kids[p] == s.doc.kids[p] && m.r.elm == o.elm
  {
    var m := PatchVnode(c, s, o, v);
    PatchLeafDoc(c, s, o, v);
    if m.st.doc != s.doc {
      WithTextKeeps(s.doc, p, o.elm.value, if v.text.None? then "" else v.text.value);
    }
  }

  /** The only host call patching a leaf makes is `setTextContent` on its own node. */
  lemma PatchLeafDoc(c: Cfg, s: St, o: VNode, v: VNode)
    requires o.children.Missing? && v.children.Missing? && o.elm.Some?
    ensures var d := PatchVnode(c, s, o, v).st.doc;
      d == s.doc || d == WithText(s.doc, o.elm.value, if v.text.None? then "" else v.text.value)
  {
    var s1 := Emit(s, HookIf(HooksOf(v).prepatch, PrepatchHook, o.elm));
    if o != v {
      var s2 := if v.data.Some? then Emit(s1, ModuleCalls(Phase.Update, c.cbs.update, o.elm) + HookIf(HooksOf(v).update, UpdateHook, o.elm)) else s1;
      assert s2.doc == s.doc;
    }
  }

  /** `setTextContent` on another node keeps `p`'s child list. */
  lemma WithTextKeeps(d: Doc, p: NodeId, e: NodeId, t: string)
    requires Parent(d, p) && e != p
    ensures Parent(WithText(d, e, t), p) && WithText(d, e, t).kids[p] == d.kids[p]
  {
    WithTextWf(d, e, t);
    assert p < d.next;
  }

  /** Creating a vnode that may be rendered leaves `p`'s child list alone and yields a fresh,
      detached host node. */
  lemma CreateFresh(c: Cfg, s: St, v: VNode, p: NodeId)
    requires Parent(s.doc, p) && Renderable(v)
    ensures var n := Creation.Create(c, s, v);
      && Parent(n.st.doc, p) && n.st.doc.kids[p] == s.doc.kids[p]
      && n.r.elm == Some(s.doc.next) && s.doc.next in n.st.doc.nodes && s.doc.next !in n.st.doc.parent
      && s.doc.next != p && s.doc.next !in s.doc.kids[p]
  {
    CreateWf(c, s, v);
    WfParentsBelow(s.doc);
    CreateRenders(c, s, v);
    var n := Creation.Create(c, s, v);
    assert p < s.doc.next;
    assert AgreeOn(s.doc.nodes, s.doc.kids, n.st.doc.nodes, n.st.doc.kids, 0, s.doc.next);
  }

  // ----- the lists updateChildren is given -----

  /** The string the key map is searched with for a new slot (`undefined` becomes "undefined"). */
  function LookupKeyOf(x: Option<VNode>): Option<string> {
    if x.Some? then Some(x.value.key.GetOr("undefined")) else None
  }

  /** Every old child is null or a leaf bound to a host node. */
  predicate OldLeaves(old0: seq<Option<VNode>>) {
    forall i :: 0 <= i < |old0| && old0[i].Some? ==> old0[i].value.elm.Some? && old0[i].value.children.Missing?
  }

  /** Every new child is a leaf vnode createElm can render. */
  predicate NewLeaves(items: seq<Option<VNode>>) {
    forall j :: 0 <= j < |items| ==> items[j].Some? && items[j].value.children.Missing? && Renderable(items[j].value)
  }

  /** An old and a new child that the key lookup pairs and whose selectors agree are the same
      vnode in the sense of sameVnode. */
  predicate KeysCompatible(old0: seq<Option<VNode>>, items: seq<Option<VNode>>) {
    forall i, j ::
      && 0 <= i < |old0| && 0 <= j < |items| && old0[i].Some? && items[j].Some?
      && old0[i].value.key == LookupKeyOf(items[j]) && old0[i].value.sel == items[j].value.sel
      ==> SameVnode(old0[i].value, items[j].value)
  }

  /** A key an old child carries is looked up by at most one new child. */
  predicate KeysLookedUpOnce(old0: seq<Option<VNode>>, items: seq<Option<VNode>>) {
    forall i, j1, j2 ::
      && 0 <= i < |old0| && 0 <= j1 < j2 < |items| && old0[i].Some? && old0[i].value.key.Some?
      && LookupKeyOf(items[j1]) == old0[i].value.key
      ==> LookupKeyOf(items[j2]) != old0[i].value.key
  }

  /** Every old element child leaves the document during removeVnodes. */
  predicate RemovedAtOnce(c: Cfg, old0: seq<Option<VNode>>) {
    forall i :: 0 <= i < |old0| && old0[i].Some? && old0[i].value.sel.Some? ==> Synchronous(c, old0[i].value)
  }

  /** What the lists demand, apart from the document. */
  predicate Lists(c: Cfg, old0: seq<Option<VNode>>, items: seq<Option<VNode>>) {
    OldLeaves(old0) && NewLeaves(items) && KeysCompatible(old0, items) && KeysLookedUpOnce(old0, items) && RemovedAtOnce(c, old0)
  }

  /** `p` is an element of a well-formed document whose child list is not under itself. */
  ghost predicate Parent(d: Doc, p: NodeId) {
    Wf(d) && p in d.kids && p !in d.kids[p]
  }

  /** The situation the order theorem covers: the old children are bound, in order, to the host
      children of `p`, and the lists are flat. */
  ghost predicate Flat(c: Cfg, p: NodeId, d: Doc, old0: seq<Option<VNode>>, items: seq<Option<VNode>>) {
    Parent(d, p) && d.kids[p] == Elms(old0) && Lists(c, old0, items)
  }

  // ----- the loop invariant -----

  /** The parent's child list the loop keeps: the placed front, the old window, the placed back. */
  function Layout(u: Loop): seq<NodeId>
    requires 0 <= u.os <= u.oe + 1 <= |u.oldCh| && 0 <= u.ns <= u.ne + 1 <= |u.newCh|
  {
    Elms(u.newCh[..u.ns]) + Elms(u.oldCh[u.os..u.oe + 1]) + Elms(u.newCh[u.ne + 1..])
  }

  /** The slots outside the new window are placed: bound to a host node. */
  predicate Placed(u: Loop) {
    forall j :: 0 <= j < |u.newCh| && !(u.ns <= j <= u.ne) ==> u.newCh[j].Some? && u.newCh[j].value.elm.Some?
  }

  /** A key map entry `k -> i` names an old child that carries `k`, and if that child has left
      the old window without being tombstoned, no new child still to visit looks `k` up. */
  predicate EntryOk(old0: seq<Option<VNode>>, items: seq<Option<VNode>>, u: Loop, k: string, i: nat) {
    && KeyAt(old0, i) == Some(k)
    && (|| u.os <= i <= u.oe
        || Get(u.oldCh, i).None?
        || forall j :: u.ns <= j <= u.ne && 0 <= j < |items| ==> LookupKeyOf(items[j]) != Some(k))
  }

  predicate MapOk(old0: seq<Option<VNode>>, items: seq<Option<VNode>>, u: Loop, km: map<string, nat>) {
    forall k :: k in km ==> EntryOk(old0, items, u, k, km[k])
  }

  /** What holds between iterations. */
  ghost predicate Inv(old0: seq<Option<VNode>>, items: seq<Option<VNode>>, p: NodeId, u: Loop) {
    && Shape(items, u)
    && Parent(u.st.doc, p) && u.st.doc.kids[p] == Layout(u)
    && Tombstoned(old0, u.oldCh)
    && u.oldStart == Get(u.oldCh, u.os) && u.oldEnd == Get(u.oldCh, u.oe)
    && Placed(u)
    && (u.keyMap.Some? ==> MapOk(old0, items, u, u.keyMap.value))
  }

  /** The new child `j0` looks up the key of the old child `i`, so no other new child does. */
  lemma LookedUpOnce(old0: seq<Option<VNode>>, items: seq<Option<VNode>>, i: nat, j0: nat, j: nat)
    requires KeysLookedUpOnce(old0, items)
    requires i < |old0| && old0[i].Some? && old0[i].value.key.Some?
    requires j0 < |items| && j < |items| && j != j0 && LookupKeyOf(items[j0]) == old0[i].value.key
    ensures LookupKeyOf(items[j]) != old0[i].value.key
  {
    if j < j0 {
    } else {
    }
  }

  /** The key map stays valid while the windows shrink, as long as every old slot leaving the
      window is a tombstone or the slot `i0` matched, by sameVnode, with the new slot `j0` that
      leaves the new window. */
  lemma MapShrinks(old0: seq<Option<VNode>>, items: seq<Option<VNode>>, u: Loop, w: Loop,
                   km: map<string, nat>, i0: int, j0: int)
    requires KeysLookedUpOnce(old0, items) && Tombstoned(old0, u.oldCh) && Tombstoned(u.oldCh, w.oldCh)
    requires u.os <= w.os && w.oe <= u.oe && u.ns <= w.ns && w.ne <= u.ne
    requires forall i :: u.os <= i <= u.oe && !(w.os <= i <= w.oe) ==> Get(u.oldCh, i).None? || i == i0
    requires u.os <= i0 <= u.oe && !(w.os <= i0 <= w.oe) && Get(u.oldCh, i0).Some? ==>
      && 0 <= j0 < |items| && u.ns <= j0 <= u.ne && !(w.ns <= j0 <= w.ne) && items[j0].Some?
      && SameVnode(Get(u.oldCh, i0).value, items[j0].value)
    requires MapOk(old0, items, u, km)
    ensures MapOk(old0, items, w, km)
  {
    forall k | k in km ensures EntryOk(old0, items, w, k, km[k]) {
      var i := km[k];
      assert EntryOk(old0, items, u, k, i);
      if u.os <= i <= u.oe && !(w.os <= i <= w.oe) && Get(u.oldCh, i).Some? {
        assert u.oldCh[i] == old0[i];
        forall j | w.ns <= j <= w.ne && 0 <= j < |items| ensures LookupKeyOf(items[j]) != Some(k) {
          LookedUpOnce(old0, items, i, j0, j);
        }
      }
    }
  }

  // ----- each branch of the loop body keeps the invariant -----

  /** The bounds Layout needs. */
  predicate Bounds(u: Loop) {
    0 <= u.os <= u.oe + 1 <= |u.oldCh| && 0 <= u.ns <= u.ne + 1 <= |u.newCh|
  }

  lemma SkipStartLayout(u: Loop)
    requires Bounds(u) && u.os <= u.oe && Get(u.oldCh, u.os).None?
    ensures Layout(u.(os := u.os + 1, oldStart := Get(u.oldCh, u.os + 1))) == Layout(u)
  {
    ElmsFront(u.oldCh, u.os, u.oe + 1);
  }

  lemma SkipStartMap(old0: seq<Option<VNode>>, items: seq<Option<VNode>>, u: Loop, km: map<string, nat>)
    requires u.os <= u.oe && Get(u.oldCh, u.os).None? && MapOk(old0, items, u, km)
    ensures MapOk(old0, items, u.(os := u.os + 1, oldStart := Get(u.oldCh, u.os + 1)), km)
  {
    var w := u.(os := u.os + 1, oldStart := Get(u.oldCh, u.os + 1));
    forall k | k in km ensures EntryOk(old0, items, w, k, km[k]) {
      assert EntryOk(old0, items, u, k, km[k]);
    }
  }

  /** A null old start slot is skipped. */
  lemma SkipStartInv(old0: seq<Option<VNode>>, items: seq<Option<VNode>>, p: NodeId, u: Loop)
    requires Inv(old0, items, p, u) && Running(u) && u.oldStart.None?
    ensures Inv(old0, items, p, u.(os := u.os + 1, oldStart := Get(u.oldCh, u.os + 1)))
  {
    SkipStartLayout(u);
    if u.keyMap.Some? {
      SkipStartMap(old0, items, u, u.keyMap.value);
    }
  }

  // ----- the new slots placed at either end -----

  /** Binding the new start slot adds its host node to the placed front. */
  lemma PlaceFront(u: Loop, r: VNode)
    requires Bounds(u) && u.ns <= u.ne && r.elm.Some?
    ensures Elms(u.newCh[u.ns := Some(r)][..u.ns + 1]) == Elms(u.newCh[..u.ns]) + [r.elm.value]
    ensures Elms(u.newCh[u.ns := Some(r)][u.ne + 1..]) == Elms(u.newCh[u.ne + 1..])
  {
    assert u.newCh[u.ns := Some(r)][..u.ns + 1] == u.newCh[..u.ns] + [Some(r)];
    ElmsAppend(u.newCh[..u.ns], [Some(r)]);
    ElmsOne(Some(r));
    assert u.newCh[u.ns := Some(r)][u.ne + 1..] == u.newCh[u.ne + 1..];
  }

  /** Binding the new end slot adds its host node to the placed back. */
  lemma PlaceBack(u: Loop, r: VNode)
    requires Bounds(u) && u.ns <= u.ne && r.elm.Some?
    ensures Elms(u.newCh[u.ne := Some(r)][u.ne..]) == [r.elm.value] + Elms(u.newCh[u.ne + 1..])
    ensures Elms(u.newCh[u.ne := Some(r)][..u.ns]) == Elms(u.newCh[..u.ns])
  {
    assert u.newCh[u.ne := Some(r)][u.ne..] == [Some(r)] + u.newCh[u.ne + 1..];
    ElmsAppend([Some(r)], u.newCh[u.ne + 1..]);
    ElmsOne(Some(r));
    assert u.newCh[u.ne := Some(r)][..u.ns] == u.newCh[..u.ns];
  }

  // ----- the host calls of each branch on the parent's child list -----

  /** The next sibling of a child of `p` is the head of what follows it in `p`'s list. */
  lemma NextSiblingIs(d: Doc, p: NodeId, a: seq<NodeId>, e: NodeId, c: seq<NodeId>)
    requires Parent(d, p) && d.kids[p] == a + [e] + c
    ensures NextSiblingAt(d, Some(e)) == if |c| > 0 then Some(c[0]) else None
  {
    assert e in d.kids[p];
    assert d.parent[e] == p;
    AfterAt(a, e, c);
  }

  /** `insertBefore(p, x, ref)` where `ref` heads the part `c` after `x :: b`: `x` moves behind `b`. */
  lemma MoveLaterDoc(d: Doc, p: NodeId, a: seq<NodeId>, x: NodeId, b: seq<NodeId>, c: seq<NodeId>, ref: Option<NodeId>)
    requires Parent(d, p) && d.kids[p] == a + [x] + b + c && ref == (if |c| > 0 then Some(c[0]) else None)
    ensures var d' := InsertedAt(d, Some(p), Some(x), ref);
      Parent(d', p) && d'.kids[p] == a + b + [x] + c
  {
    assert d.kids[p] == a + [x] + (b + c);
    NoDupsMiddle(a, x, b + c);
    InsertedKid(d, p, x, ref);
    MoveLater(a, x, b, c);
  }

  /** `insertBefore(p, x, r)` where `r` starts the part `r :: m` before `x`: `x` moves in front. */
  lemma MovedLeftDoc(d: Doc, p: NodeId, a: seq<NodeId>, r: NodeId, m: seq<NodeId>, x: NodeId, c: seq<NodeId>)
    requires Parent(d, p) && d.kids[p] == a + [r] + m + [x] + c
    ensures var d' := InsertedAt(d, Some(p), Some(x), Some(r));
      Parent(d', p) && d'.kids[p] == a + [x] + [r] + m + c
  {
    NoDupsMiddle(a + [r] + m, x, c);
    InsertedKid(d, p, x, Some(r));
    MoveEarlier(a, r, m, x, c);
  }

  /** `insertBefore(p, x, x)`: the node stays where it is. */
  lemma InPlaceDoc(d: Doc, p: NodeId, a: seq<NodeId>, x: NodeId, c: seq<NodeId>)
    requires Parent(d, p) && d.kids[p] == a + [x] + c
    ensures var d' := InsertedAt(d, Some(p), Some(x), Some(x));
      Parent(d', p) && d'.kids[p] == a + [x] + c
  {
    InsertedKid(d, p, x, Some(x));
    StayPut(a, x, c);
  }

  /** `insertBefore(p, y, r)` for a detached node `y`. */
  lemma NewBeforeDoc(d: Doc, p: NodeId, a: seq<NodeId>, r: NodeId, c: seq<NodeId>, y: NodeId)
    requires Parent(d, p) && d.kids[p] == a + [r] + c
    requires y in d.nodes && y !in d.parent && y != p && y !in d.kids[p]
    ensures var d' := InsertedAt(d, Some(p), Some(y), Some(r));
      Parent(d', p) && d'.kids[p] == a + [y] + [r] + c
  {
    NoDupsMiddle(a, r, c);
    InsertedNew(d, p, y, Some(r));
    InsertBeforeAt(a, r, c, y);
  }

  // ----- the loop variables after each branch, with the node just bound -----

  function AfterStarts(u: Loop, st: St, r: VNode): Loop
    requires 0 <= u.ns < |u.newCh|
  {
    var newCh := u.newCh[u.ns := Some(r)];
    u.(st := st, newCh := newCh, os := u.os + 1, oldStart := Get(u.oldCh, u.os + 1),
       ns := u.ns + 1, newStart := Get(newCh, u.ns + 1))
  }

  function AfterEnds(u: Loop, st: St, r: VNode): Loop
    requires 0 <= u.ne < |u.newCh|
  {
    var newCh := u.newCh[u.ne := Some(r)];
    u.(st := st, newCh := newCh, oe := u.oe - 1, oldEnd := Get(u.oldCh, u.oe - 1),
       ne := u.ne - 1, newEnd := Get(newCh, u.ne - 1))
  }

  function AfterMovedRight(u: Loop, p: NodeId, st: St, r: VNode): Loop
    requires 0 <= u.ne < |u.newCh| && u.oldStart.Some? && u.oldEnd.Some?
  {
    var d := InsertedAt(st.doc, Some(p), u.oldStart.value.elm, NextSiblingAt(st.doc, u.oldEnd.value.elm));
    var newCh := u.newCh[u.ne := Some(r)];
    u.(st := st.(doc := d), newCh := newCh, os := u.os + 1, oldStart := Get(u.oldCh, u.os + 1),
       ne := u.ne - 1, newEnd := Get(newCh, u.ne - 1))
  }

  function AfterMovedLeft(u: Loop, p: NodeId, st: St, r: VNode): Loop
    requires 0 <= u.ns < |u.newCh| && u.oldStart.Some? && u.oldEnd.Some?
  {
    var d := InsertedAt(st.doc, Some(p), u.oldEnd.value.elm, u.oldStart.value.elm);
    var newCh := u.newCh[u.ns := Some(r)];
    u.(st := st.(doc := d), newCh := newCh, oe := u.oe - 1, oldEnd := Get(u.oldCh, u.oe - 1),
       ns := u.ns + 1, newStart := Get(newCh, u.ns + 1))
  }

  function AfterKeyedNew(u: Loop, p: NodeId, km: map<string, nat>, n: Made): Loop
    requires 0 <= u.ns < |u.newCh| && u.oldStart.Some?
  {
    var newCh := u.newCh[u.ns := Some(n.r)];
    u.(st := n.st.(doc := InsertedAt(n.st.doc, Some(p), n.r.elm, u.oldStart.value.elm)), newCh := newCh,
       ns := u.ns + 1, newStart := Get(newCh, u.ns + 1), keyMap := Some(km))
  }

  function AfterKeyedFound(u: Loop, p: NodeId, km: map<string, nat>, i: nat, st: St, r: VNode): Loop
    requires 0 <= u.ns < |u.newCh| && u.oldStart.Some? && i < |u.oldCh| && u.oldCh[i].Some?
  {
    var newCh := u.newCh[u.ns := Some(r)];
    u.(st := st.(doc := InsertedAt(st.doc, Some(p), u.oldCh[i].value.elm, u.oldStart.value.elm)),
       oldCh := u.oldCh[i := None], newCh := newCh,
       ns := u.ns + 1, newStart := Get(newCh, u.ns + 1), keyMap := Some(km))
  }

  // ----- the parent's child list the loop keeps, after each branch -----

  /** The three parts of the layout, named. */
  lemma LayoutParts(u: Loop, P: seq<NodeId>, W: seq<NodeId>, S: seq<NodeId>)
    requires Bounds(u)
    requires P == Elms(u.newCh[..u.ns]) && W == Elms(u.oldCh[u.os..u.oe + 1]) && S == Elms(u.newCh[u.ne + 1..])
    ensures Layout(u) == P + W + S
  {
  }

  /** The layout once the new start slot is bound, whatever happened to the old window. */
  lemma FrontLayout(u: Loop, w: Loop, x: VNode)
    requires Bounds(u) && u.ns <= u.ne && x.elm.Some?
    requires w.newCh == u.newCh[u.ns := Some(x)] && w.ns == u.ns + 1 && w.ne == u.ne
    requires 0 <= w.os <= w.oe + 1 <= |w.oldCh|
    ensures Layout(w) == (Elms(u.newCh[..u.ns]) + [x.elm.value]) + Elms(w.oldCh[w.os..w.oe + 1]) + Elms(u.newCh[u.ne + 1..])
  {
    PlaceFront(u, x);
  }

  /** The layout once the new end slot is bound, whatever happened to the old window. */
  lemma BackLayout(u: Loop, w: Loop, x: VNode)
    requires Bounds(u) && u.ns <= u.ne && x.elm.Some?
    requires w.newCh == u.newCh[u.ne := Some(x)] && w.ne == u.ne - 1 && w.ns == u.ns
    requires 0 <= w.os <= w.oe + 1 <= |w.oldCh|
    ensures Layout(w) == Elms(u.newCh[..u.ns]) + Elms(w.oldCh[w.os..w.oe + 1]) + ([x.elm.value] + Elms(u.newCh[u.ne + 1..]))
  {
    PlaceBack(u, x);
  }

  lemma StartsLayout(u: Loop, st: St, r: VNode)
    requires Bounds(u) && u.os <= u.oe && u.ns <= u.ne && r.elm.Some?
    requires ElmOf(u.oldCh[u.os]) == [r.elm.value]
    ensures Layout(AfterStarts(u, st, r)) == Layout(u)
  {
    var w := AfterStarts(u, st, r);
    var P, W1, S := Elms(u.newCh[..u.ns]), Elms(u.oldCh[u.os + 1..u.oe + 1]), Elms(u.newCh[u.ne + 1..]);
    var x := r.elm.value;
    PlaceFront(u, r);
    ElmsFront(u.oldCh, u.os, u.oe + 1);
    LayoutParts(u, P, [x] + W1, S);
    LayoutParts(w, P + [x], W1, S);
    AppendAssoc(P, [x], W1);
  }

  lemma EndsLayout(u: Loop, st: St, r: VNode)
    requires Bounds(u) && u.os <= u.oe && u.ns <= u.ne && r.elm.Some?
    requires ElmOf(u.oldCh[u.oe]) == [r.elm.value]
    ensures Layout(AfterEnds(u, st, r)) == Layout(u)
  {
    var w := AfterEnds(u, st, r);
    var P, W1, S := Elms(u.newCh[..u.ns]), Elms(u.oldCh[u.os..u.oe]), Elms(u.newCh[u.ne + 1..]);
    var x := r.elm.value;
    PlaceBack(u, r);
    ElmsBack(u.oldCh, u.os, u.oe + 1);
    LayoutParts(u, P, W1 + [x], S);
    LayoutParts(w, P, W1, [x] + S);
    AppendAssoc(P, W1 + [x], S);
    AppendAssoc(P, W1, [x] + S);
    AppendAssoc(W1, [x], S);
  }

  lemma MovedLeftLayout(u: Loop, p: NodeId, st: St, r: VNode)
    requires Bounds(u) && u.os <= u.oe && u.ns <= u.ne && r.elm.Some? && u.oldStart.Some? && u.oldEnd.Some?
    requires ElmOf(u.oldCh[u.oe]) == [r.elm.value]
    ensures var P, W0, S := Elms(u.newCh[..u.ns]), Elms(u.oldCh[u.os..u.oe]), Elms(u.newCh[u.ne + 1..]);
      && Layout(u) == P + (W0 + [r.elm.value]) + S
      && Layout(AfterMovedLeft(u, p, st, r)) == (P + [r.elm.value]) + W0 + S
  {
    var w := AfterMovedLeft(u, p, st, r);
    var P, W0, S := Elms(u.newCh[..u.ns]), Elms(u.oldCh[u.os..u.oe]), Elms(u.newCh[u.ne + 1..]);
    PlaceFront(u, r);
    ElmsBack(u.oldCh, u.os, u.oe + 1);
    LayoutParts(u, P, W0 + [r.elm.value], S);
    LayoutParts(w, P + [r.elm.value], W0, S);
  }

  /** A window split around an inner slot `i`. */
  lemma ElmsAround(s: seq<Option<VNode>>, lo: nat, i: nat, hi: nat)
    requires lo < i < hi <= |s|
    ensures Elms(s[lo..hi]) == ElmOf(s[lo]) + Elms(s[lo + 1..i]) + ElmOf(s[i]) + Elms(s[i + 1..hi])
  {
    var a, m1, b, m2 := ElmOf(s[lo]), Elms(s[lo + 1..i]), ElmOf(s[i]), Elms(s[i + 1..hi]);
    ElmsFront(s, lo, hi);
    ElmsSplit(s, lo + 1, i, hi);
    ElmsFront(s, i, hi);
    assert Elms(s[lo..hi]) == a + (m1 + (b + m2));
    AppendAssoc(m1, b, m2);
    AppendAssoc(a, m1 + b, m2);
    AppendAssoc(a, m1, b);
  }

  /** The old window around slot `i` once that slot is cleared. */
  lemma WindowTomb(oldCh: seq<Option<VNode>>, os: nat, i: nat, oe: nat)
    requires os < i < oe < |oldCh|
    ensures Elms(oldCh[i := None][os..oe + 1]) == ElmOf(oldCh[os]) + Elms(oldCh[os + 1..i]) + [] + Elms(oldCh[i + 1..oe + 1])
  {
    var t := oldCh[i := None];
    ElmsAround(t, os, i, oe + 1);
    assert t[os + 1..i] == oldCh[os + 1..i];
    assert t[i + 1..oe + 1] == oldCh[i + 1..oe + 1];
  }

  // ----- the invariant after each branch -----

  /** The old slot at `i` is untouched, so it is the old child, a bound leaf. */
  lemma OldSlot(old0: seq<Option<VNode>>, oldCh: seq<Option<VNode>>, i: int)
    requires OldLeaves(old0) && Tombstoned(old0, oldCh) && Get(oldCh, i).Some?
    ensures 0 <= i < |old0| && oldCh[i] == old0[i] && Get(oldCh, i).value.elm.Some?
    ensures ElmOf(oldCh[i]) == [Get(oldCh, i).value.elm.value]
  {
  }

  /** Binding the new start slot keeps the window's shape and places that slot. */
  lemma FrontShape(items: seq<Option<VNode>>, u: Loop, w: Loop, x: VNode)
    requires Shape(items, u) && Placed(u) && u.ns <= u.ne && x.elm.Some?
    requires w.newCh == u.newCh[u.ns := Some(x)] && w.ns == u.ns + 1 && w.ne == u.ne
    requires w.newStart == Get(w.newCh, w.ns) && w.newEnd == u.newEnd
    requires 0 <= w.os <= w.oe + 1 <= |w.oldCh|
    ensures Shape(items, w) && Placed(w)
  {
  }

  /** Binding the new end slot keeps the window's shape and places that slot. */
  lemma BackShape(items: seq<Option<VNode>>, u: Loop, w: Loop, x: VNode)
    requires Shape(items, u) && Placed(u) && u.ns <= u.ne && x.elm.Some?
    requires w.newCh == u.newCh[u.ne := Some(x)] && w.ne == u.ne - 1 && w.ns == u.ns
    requires w.newEnd == Get(w.newCh, w.ne) && w.newStart == u.newStart
    requires 0 <= w.os <= w.oe + 1 <= |w.oldCh|
    ensures Shape(items, w) && Placed(w)
  {
  }

  /** The key map survives the start slots leaving both windows together. */
  lemma StartsMap(old0: seq<Option<VNode>>, items: seq<Option<VNode>>, u: Loop, st: St, r: VNode, km: map<string, nat>)
    requires Shape(items, u) && Running(u) && KeysLookedUpOnce(old0, items) && Tombstoned(old0, u.oldCh)
    requires u.oldStart == Get(u.oldCh, u.os) && u.oldStart.Some? && u.newStart.Some?
    requires SameVnode(u.oldStart.value, u.newStart.value) && MapOk(old0, items, u, km)
    ensures MapOk(old0, items, AfterStarts(u, st, r), km)
  {
    MapShrinks(old0, items, u, AfterStarts(u, st, r), km, u.os, u.ns);
  }

  /** The key map survives the end slots leaving both windows together. */
  lemma EndsMap(old0: seq<Option<VNode>>, items: seq<Option<VNode>>, u: Loop, st: St, r: VNode, km: map<string, nat>)
    requires Shape(items, u) && Running(u) && KeysLookedUpOnce(old0, items) && Tombstoned(old0, u.oldCh)
    requires u.oldEnd == Get(u.oldCh, u.oe) && u.oldEnd.Some? && u.newEnd.Some?
    requires SameVnode(u.oldEnd.value, u.newEnd.value) && MapOk(old0, items, u, km)
    ensures MapOk(old0, items, AfterEnds(u, st, r), km)
  {
    MapShrinks(old0, items, u, AfterEnds(u, st, r), km, u.oe, u.ne);
  }

  /** Both starts were the same vnode: the old start is patched in place and becomes placed. */
  lemma StartsInv(old0: seq<Option<VNode>>, items: seq<Option<VNode>>, p: NodeId, u: Loop, st: St, r: VNode)
    requires Inv(old0, items, p, u) && Running(u) && KeysLookedUpOnce(old0, items) && OldLeaves(old0)
    requires u.oldStart.Some? && u.newStart.Some? && SameVnode(u.oldStart.value, u.newStart.value)
    requires Parent(st.doc, p) && st.doc.kids[p] == u.st.doc.kids[p] && r.elm == u.oldStart.value.elm
    ensures Inv(old0, items, p, AfterStarts(u, st, r))
  {
    var w := AfterStarts(u, st, r);
    OldSlot(old0, u.oldCh, u.os);
    FrontShape(items, u, w, r);
    StartsLayout(u, st, r);
    if u.keyMap.Some? {
      StartsMap(old0, items, u, st, r, u.keyMap.value);
    }
  }

  /** Both ends were the same vnode: the old end is patched in place and becomes placed. */
  lemma EndsInv(old0: seq<Option<VNode>>, items: seq<Option<VNode>>, p: NodeId, u: Loop, st: St, r: VNode)
    requires Inv(old0, items, p, u) && Running(u) && KeysLookedUpOnce(old0, items) && OldLeaves(old0)
    requires u.oldEnd.Some? && u.newEnd.Some? && SameVnode(u.oldEnd.value, u.newEnd.value)
    requires Parent(st.doc, p) && st.doc.kids[p] == u.st.doc.kids[p] && r.elm == u.oldEnd.value.elm
    ensures Inv(old0, items, p, AfterEnds(u, st, r))
  {
    var w := AfterEnds(u, st, r);
    OldSlot(old0, u.oldCh, u.oe);
    BackShape(items, u, w, r);
    EndsLayout(u, st, r);
    if u.keyMap.Some? {
      EndsMap(old0, items, u, st, r, u.keyMap.value);
    }
  }

  /** The key map survives the old start and the new end leaving both windows. */
  lemma MovedRightMap(old0: seq<Option<VNode>>, items: seq<Option<VNode>>, u: Loop, p: NodeId, st: St, r: VNode, km: map<string, nat>)
    requires Shape(items, u) && Running(u) && KeysLookedUpOnce(old0, items) && Tombstoned(old0, u.oldCh)
    requires u.oldStart == Get(u.oldCh, u.os) && u.oldStart.Some? && u.oldEnd.Some? && u.newEnd.Some?
    requires SameVnode(u.oldStart.value, u.newEnd.value) && MapOk(old0, items, u, km)
    ensures MapOk(old0, items, AfterMovedRight(u, p, st, r), km)
  {
    MapShrinks(old0, items, u, AfterMovedRight(u, p, st, r), km, u.os, u.ne);
  }

  /** The key map survives the old end and the new start leaving both windows. */
  lemma MovedLeftMap(old0: seq<Option<VNode>>, items: seq<Option<VNode>>, u: Loop, p: NodeId, st: St, r: VNode, km: map<string, nat>)
    requires Shape(items, u) && Running(u) && KeysLookedUpOnce(old0, items) && Tombstoned(old0, u.oldCh)
    requires u.oldEnd == Get(u.oldCh, u.oe) && u.oldStart.Some? && u.oldEnd.Some? && u.newStart.Some?
    requires SameVnode(u.oldEnd.value, u.newStart.value) && MapOk(old0, items, u, km)
    ensures MapOk(old0, items, AfterMovedLeft(u, p, st, r), km)
  {
    MapShrinks(old0, items, u, AfterMovedLeft(u, p, st, r), km, u.oe, u.ns);
  }

  /** The key map survives the new start leaving the new window. */
  lemma KeyedNewMap(old0: seq<Option<VNode>>, items: seq<Option<VNode>>, u: Loop, p: NodeId, km: map<string, nat>, n: Made)
    requires Shape(items, u) && Running(u) && KeysLookedUpOnce(old0, items) && Tombstoned(old0, u.oldCh)
    requires u.oldStart.Some? && MapOk(old0, items, u, km)
    ensures MapOk(old0, items, AfterKeyedNew(u, p, km, n), km)
  {
    MapShrinks(old0, items, u, AfterKeyedNew(u, p, km, n), km, -1, -1);
  }

  /** The key map survives the matched old slot becoming a tombstone. */
  lemma KeyedFoundMap(old0: seq<Option<VNode>>, items: seq<Option<VNode>>, u: Loop, p: NodeId, km: map<string, nat>,
                      i: nat, st: St, r: VNode)
    requires Shape(items, u) && Running(u) && KeysLookedUpOnce(old0, items) && Tombstoned(old0, u.oldCh)
    requires u.oldStart.Some? && i < |u.oldCh| && u.oldCh[i].Some? && MapOk(old0, items, u, km)
    ensures Tombstoned(old0, u.oldCh[i := None])
    ensures MapOk(old0, items, AfterKeyedFound(u, p, km, i, st, r), km)
  {
    MapShrinks(old0, items, u, AfterKeyedFound(u, p, km, i, st, r), km, -1, -1);
  }

  // ----- regrouping the parts of the child list -----

  lemma RegroupTail<T>(P: seq<T>, x: T, W0: seq<T>, e: T, S: seq<T>)
    ensures P + ([x] + (W0 + [e])) + S == P + [x] + W0 + [e] + S
    ensures P + ([x] + (W0 + [e])) + S == P + [x] + (W0 + [e]) + S
    ensures P + (W0 + [e]) + [x] + S == P + (W0 + [e]) + ([x] + S)
  {
    AppendAssoc([x], W0, [e]);
    AppendAssoc(P, [x], W0 + [e]);
    AppendAssoc(P + [x], W0, [e]);
    AppendAssoc(P + (W0 + [e]), [x], S);
  }

  lemma RegroupSame<T>(P: seq<T>, x: T, S: seq<T>)
    ensures P + ([x] + []) + S == P + [x] + S
    ensures P + ([x] + []) + S == P + [x] + [] + S
    ensures P + [] + [x] + S == P + [] + ([x] + S)
  {
    AppendNil([x]);
    AppendNil(P);
    AppendNil(P + [x]);
    AppendAssoc(P, [x], S);
  }

  lemma RegroupLeft<T>(P: seq<T>, r0: T, M: seq<T>, x: T, S: seq<T>)
    ensures P + ([r0] + M + [x]) + S == P + [r0] + M + [x] + S
    ensures P + [x] + [r0] + M + S == (P + [x]) + ([r0] + M) + S
  {
    AppendAssoc(P, [r0] + M, [x]);
    AppendAssoc(P, [r0], M);
    AppendAssoc(P + [x], [r0], M);
  }

  lemma RegroupNew<T>(P: seq<T>, r0: T, W1: seq<T>, S: seq<T>, y: T)
    ensures P + ([r0] + W1) + S == P + [r0] + (W1 + S)
    ensures P + [y] + [r0] + (W1 + S) == (P + [y]) + ([r0] + W1) + S
  {
    AppendAssoc(P, [r0], W1);
    AppendAssoc(P + [r0], W1, S);
    AppendAssoc(P + [y], [r0], W1);
    AppendAssoc(P + [y] + [r0], W1, S);
  }

  lemma RegroupFound<T>(P: seq<T>, r0: T, M1: seq<T>, x: T, M2: seq<T>, S: seq<T>)
    ensures P + ([r0] + M1 + [x] + M2) + S == P + [r0] + M1 + [x] + (M2 + S)
    ensures P + [x] + [r0] + M1 + (M2 + S) == (P + [x]) + ([r0] + M1 + M2) + S
  {
    AppendAssoc(P, [r0] + M1 + [x], M2);
    AppendAssoc(P, [r0] + M1, [x]);
    AppendAssoc(P, [r0], M1);
    AppendAssoc(P + [r0] + M1 + [x], M2, S);
    var R := P + [x];
    AppendAssoc(R, [r0] + M1, M2);
    AppendAssoc(R, [r0], M1);
    AppendAssoc(R + [r0] + M1, M2, S);
  }

  /** Replacing the window of a list by its parts. */
  lemma SubstWindow<T>(L: seq<T>, P: seq<T>, W: seq<T>, S: seq<T>, W': seq<T>)
    requires L == P + W + S && W == W'
    ensures L == P + W' + S
  {
  }

  /** Naming the single elements of a window. */
  lemma SubstEnds<T>(W: seq<T>, a: seq<T>, M1: seq<T>, b: seq<T>, M2: seq<T>, r0: T, x: T)
    requires W == a + M1 + b + M2 && a == [r0] && b == [x]
    ensures W == [r0] + M1 + [x] + M2
  {
  }

  /** Naming the head of the window of a list. */
  lemma SubstHead<T>(L: seq<T>, A: seq<T>, W: seq<T>, S: seq<T>, a: seq<T>, W1: seq<T>, x: T)
    requires L == A + W + S && W == a + W1 && a == [x]
    ensures L == A + ([x] + W1) + S
  {
  }

  /** Naming the last element of the window of a list, after a head `x`. */
  lemma SubstLast<T>(L: seq<T>, P: seq<T>, x: T, W1: seq<T>, S: seq<T>, W0: seq<T>, b: seq<T>, e: T)
    requires L == P + ([x] + W1) + S && W1 == W0 + b && b == [e]
    ensures L == P + ([x] + (W0 + [e])) + S
  {
  }

  /** Naming the last element of the window of a list. */
  lemma SubstLastMid<T>(L: seq<T>, P: seq<T>, W1: seq<T>, S: seq<T>, W0: seq<T>, b: seq<T>, e: T)
    requires L == P + W1 + S && W1 == W0 + b && b == [e]
    ensures L == P + (W0 + [e]) + S
  {
  }

  /** Naming the single element left in the window of a list. */
  lemma SubstTomb<T>(L: seq<T>, A: seq<T>, W: seq<T>, S: seq<T>, a: seq<T>, M1: seq<T>, M2: seq<T>, r0: T)
    requires L == A + W + S && W == a + M1 + [] + M2 && a == [r0]
    ensures L == A + ([r0] + M1 + M2) + S
  {
  }

  // ----- the host calls of each branch, on the grouping the layout lemmas give -----

  /** The old start is the whole old window: inserting it before its own next sibling keeps it. */
  lemma RightSameDoc(d: Doc, p: NodeId, P: seq<NodeId>, x: NodeId, S: seq<NodeId>)
    requires Parent(d, p) && d.kids[p] == P + ([x] + []) + S
    ensures var d' := InsertedAt(d, Some(p), Some(x), NextSiblingAt(d, Some(x)));
      Parent(d', p) && d'.kids[p] == P + [] + ([x] + S)
  {
    RegroupSame(P, x, S);
    NextSiblingIs(d, p, P, x, S);
    MoveLaterDoc(d, p, P, x, [], S, NextSiblingAt(d, Some(x)));
  }

  /** The old start `x` goes just after the old end `e`. */
  lemma RightTailDoc(d: Doc, p: NodeId, P: seq<NodeId>, x: NodeId, W0: seq<NodeId>, e: NodeId, S: seq<NodeId>)
    requires Parent(d, p) && d.kids[p] == P + ([x] + (W0 + [e])) + S
    ensures var d' := InsertedAt(d, Some(p), Some(x), NextSiblingAt(d, Some(e)));
      Parent(d', p) && d'.kids[p] == P + (W0 + [e]) + ([x] + S)
  {
    RegroupTail(P, x, W0, e, S);
    NextSiblingIs(d, p, P + [x] + W0, e, S);
    MoveLaterDoc(d, p, P, x, W0 + [e], S, NextSiblingAt(d, Some(e)));
  }

  lemma LeftDoc(d: Doc, p: NodeId, P: seq<NodeId>, r0: NodeId, M: seq<NodeId>, x: NodeId, S: seq<NodeId>)
    requires Parent(d, p) && d.kids[p] == P + (([r0] + M) + [x]) + S
    ensures var d' := InsertedAt(d, Some(p), Some(x), Some(r0));
      Parent(d', p) && d'.kids[p] == (P + [x]) + ([r0] + M) + S
  {
    RegroupLeft(P, r0, M, x, S);
    MovedLeftDoc(d, p, P, r0, M, x, S);
  }

  lemma SameDoc(d: Doc, p: NodeId, P: seq<NodeId>, x: NodeId, S: seq<NodeId>)
    requires Parent(d, p) && d.kids[p] == P + ([] + [x]) + S
    ensures var d' := InsertedAt(d, Some(p), Some(x), Some(x));
      Parent(d', p) && d'.kids[p] == (P + [x]) + [] + S
  {
    assert [] + [x] == [x];
    InPlaceDoc(d, p, P, x, S);
    AppendNil(P + [x]);
  }

  lemma NewFrontDoc(d: Doc, p: NodeId, P: seq<NodeId>, r0: NodeId, W1: seq<NodeId>, S: seq<NodeId>, y: NodeId)
    requires Parent(d, p) && d.kids[p] == P + ([r0] + W1) + S
    requires y in d.nodes && y !in d.parent && y != p && y !in d.kids[p]
    ensures var d' := InsertedAt(d, Some(p), Some(y), Some(r0));
      Parent(d', p) && d'.kids[p] == (P + [y]) + ([r0] + W1) + S
  {
    RegroupNew(P, r0, W1, S, y);
    NewBeforeDoc(d, p, P, r0, W1 + S, y);
  }

  lemma FoundFrontDoc(d: Doc, p: NodeId, P: seq<NodeId>, r0: NodeId, M1: seq<NodeId>, x: NodeId, M2: seq<NodeId>, S: seq<NodeId>)
    requires Parent(d, p) && d.kids[p] == P + ([r0] + M1 + [x] + M2) + S
    ensures var d' := InsertedAt(d, Some(p), Some(x), Some(r0));
      Parent(d', p) && d'.kids[p] == (P + [x]) + ([r0] + M1 + M2) + S
  {
    RegroupFound(P, r0, M1, x, M2, S);
    MovedLeftDoc(d, p, P, r0, M1, x, M2 + S);
  }

  // ----- the parent's child list after each branch -----

  lemma StartsKids(u: Loop, p: NodeId, st: St, r: VNode)
    requires Bounds(u) && Running(u) && r.elm.Some? && ElmOf(u.oldCh[u.os]) == [r.elm.value]
    requires Parent(st.doc, p) && st.doc.kids[p] == Layout(u)
    ensures var w := AfterStarts(u, st, r); Parent(w.st.doc, p) && w.st.doc.kids[p] == Layout(w)
  {
    StartsLayout(u, st, r);
  }

  lemma EndsKids(u: Loop, p: NodeId, st: St, r: VNode)
    requires Bounds(u) && Running(u) && r.elm.Some? && ElmOf(u.oldCh[u.oe]) == [r.elm.value]
    requires Parent(st.doc, p) && st.doc.kids[p] == Layout(u)
    ensures var w := AfterEnds(u, st, r); Parent(w.st.doc, p) && w.st.doc.kids[p] == Layout(w)
  {
    EndsLayout(u, st, r);
  }

  /** The layout with the head of the old window named. */
  lemma HeadBefore(u: Loop, x: NodeId)
    requires Bounds(u) && u.os <= u.oe && ElmOf(u.oldCh[u.os]) == [x]
    ensures Layout(u) == Elms(u.newCh[..u.ns]) + ([x] + Elms(u.oldCh[u.os + 1..u.oe + 1])) + Elms(u.newCh[u.ne + 1..])
  {
    ElmsFront(u.oldCh, u.os, u.oe + 1);
    SubstHead(Layout(u), Elms(u.newCh[..u.ns]), Elms(u.oldCh[u.os..u.oe + 1]), Elms(u.newCh[u.ne + 1..]),
              ElmOf(u.oldCh[u.os]), Elms(u.oldCh[u.os + 1..u.oe + 1]), x);
  }

  /** The layout after the old start moved behind the old window. */
  lemma MovedRightAfter(u: Loop, p: NodeId, st: St, r: VNode)
    requires Bounds(u) && Running(u) && r.elm.Some? && u.oldStart.Some? && u.oldEnd.Some?
    ensures Layout(AfterMovedRight(u, p, st, r)) ==
            Elms(u.newCh[..u.ns]) + Elms(u.oldCh[u.os + 1..u.oe + 1]) + ([r.elm.value] + Elms(u.newCh[u.ne + 1..]))
  {
    BackLayout(u, AfterMovedRight(u, p, st, r), r);
  }

  /** The layout after a created node went in front of the old window. */
  lemma KeyedNewAfter(u: Loop, p: NodeId, km: map<string, nat>, n: Made)
    requires Bounds(u) && Running(u) && n.r.elm.Some? && u.oldStart.Some?
    requires u.oldStart.value.elm.Some? && ElmOf(u.oldCh[u.os]) == [u.oldStart.value.elm.value]
    ensures Layout(AfterKeyedNew(u, p, km, n)) ==
            (Elms(u.newCh[..u.ns]) + [n.r.elm.value]) + ([u.oldStart.value.elm.value] + Elms(u.oldCh[u.os + 1..u.oe + 1]))
            + Elms(u.newCh[u.ne + 1..])
  {
    var w := AfterKeyedNew(u, p, km, n);
    FrontLayout(u, w, n.r);
    ElmsFront(u.oldCh, u.os, u.oe + 1);
    SubstHead(Layout(w), Elms(u.newCh[..u.ns]) + [n.r.elm.value], Elms(u.oldCh[u.os..u.oe + 1]), Elms(u.newCh[u.ne + 1..]),
              ElmOf(u.oldCh[u.os]), Elms(u.oldCh[u.os + 1..u.oe + 1]), u.oldStart.value.elm.value);
  }

  /** The layout when the old window is the old start alone, before and after it is moved. */
  lemma MovedRightSameLayout(u: Loop, p: NodeId, st: St, r: VNode)
    requires Bounds(u) && Running(u) && u.os == u.oe && r.elm.Some? && u.oldStart.Some? && u.oldEnd.Some?
    requires ElmOf(u.oldCh[u.os]) == [r.elm.value]
    ensures Layout(u) == Elms(u.newCh[..u.ns]) + ([r.elm.value] + []) + Elms(u.newCh[u.ne + 1..])
    ensures Layout(AfterMovedRight(u, p, st, r)) == Elms(u.newCh[..u.ns]) + [] + ([r.elm.value] + Elms(u.newCh[u.ne + 1..]))
  {
    var P, W1, S := Elms(u.newCh[..u.ns]), Elms(u.oldCh[u.os + 1..u.oe + 1]), Elms(u.newCh[u.ne + 1..]);
    var x := r.elm.value;
    HeadBefore(u, x);
    MovedRightAfter(u, p, st, r);
    assert u.oldCh[u.os + 1..u.oe + 1] == [];
    SubstWindow(Layout(u), P, [x] + W1, S, [x] + []);
    SubstWindow(Layout(AfterMovedRight(u, p, st, r)), P, W1, [x] + S, []);
  }

  /** The layout before the old start moves behind the old end `e`. */
  lemma MovedRightTailBefore(u: Loop, x: NodeId, e: NodeId)
    requires Bounds(u) && u.os < u.oe && ElmOf(u.oldCh[u.os]) == [x] && ElmOf(u.oldCh[u.oe]) == [e]
    ensures Layout(u) == Elms(u.newCh[..u.ns]) + ([x] + (Elms(u.oldCh[u.os + 1..u.oe]) + [e])) + Elms(u.newCh[u.ne + 1..])
  {
    HeadBefore(u, x);
    ElmsBack(u.oldCh, u.os + 1, u.oe + 1);
    SubstLast(Layout(u), Elms(u.newCh[..u.ns]), x, Elms(u.oldCh[u.os + 1..u.oe + 1]), Elms(u.newCh[u.ne + 1..]),
              Elms(u.oldCh[u.os + 1..u.oe]), ElmOf(u.oldCh[u.oe]), e);
  }

  /** The layout after the old start moved behind the old end `e`. */
  lemma MovedRightTailAfter(u: Loop, p: NodeId, st: St, r: VNode, e: NodeId)
    requires Bounds(u) && Running(u) && u.os < u.oe && r.elm.Some? && u.oldStart.Some? && u.oldEnd.Some?
    requires ElmOf(u.oldCh[u.oe]) == [e]
    ensures Layout(AfterMovedRight(u, p, st, r)) ==
            Elms(u.newCh[..u.ns]) + (Elms(u.oldCh[u.os + 1..u.oe]) + [e]) + ([r.elm.value] + Elms(u.newCh[u.ne + 1..]))
  {
    MovedRightAfter(u, p, st, r);
    ElmsBack(u.oldCh, u.os + 1, u.oe + 1);
    SubstLastMid(Layout(AfterMovedRight(u, p, st, r)), Elms(u.newCh[..u.ns]), Elms(u.oldCh[u.os + 1..u.oe + 1]),
                 [r.elm.value] + Elms(u.newCh[u.ne + 1..]), Elms(u.oldCh[u.os + 1..u.oe]), ElmOf(u.oldCh[u.oe]), e);
  }

  lemma MovedRightSameKids(u: Loop, p: NodeId, st: St, r: VNode)
    requires Bounds(u) && Running(u) && u.os == u.oe && r.elm.Some? && u.oldStart.Some? && u.oldEnd.Some?
    requires ElmOf(u.oldCh[u.os]) == [r.elm.value] && u.oldStart.value.elm == r.elm && u.oldEnd.value.elm == r.elm
    requires Parent(st.doc, p) && st.doc.kids[p] == Layout(u)
    ensures var w := AfterMovedRight(u, p, st, r); Parent(w.st.doc, p) && w.st.doc.kids[p] == Layout(w)
  {
    MovedRightSameLayout(u, p, st, r);
    RightSameDoc(st.doc, p, Elms(u.newCh[..u.ns]), r.elm.value, Elms(u.newCh[u.ne + 1..]));
  }

  lemma MovedRightTailKids(u: Loop, p: NodeId, st: St, r: VNode)
    requires Bounds(u) && Running(u) && u.os < u.oe && r.elm.Some? && u.oldStart.Some? && u.oldEnd.Some?
    requires ElmOf(u.oldCh[u.os]) == [r.elm.value] && u.oldStart.value.elm == r.elm
    requires u.oldEnd.value.elm.Some? && ElmOf(u.oldCh[u.oe]) == [u.oldEnd.value.elm.value]
    requires Parent(st.doc, p) && st.doc.kids[p] == Layout(u)
    ensures var w := AfterMovedRight(u, p, st, r); Parent(w.st.doc, p) && w.st.doc.kids[p] == Layout(w)
  {
    var e := u.oldEnd.value.elm.value;
    MovedRightTailBefore(u, r.elm.value, e);
    MovedRightTailAfter(u, p, st, r, e);
    RightTailDoc(st.doc, p, Elms(u.newCh[..u.ns]), r.elm.value, Elms(u.oldCh[u.os + 1..u.oe]), e, Elms(u.newCh[u.ne + 1..]));
  }

  lemma MovedRightKids(u: Loop, p: NodeId, st: St, r: VNode)
    requires Bounds(u) && Running(u) && r.elm.Some? && u.oldStart.Some? && u.oldEnd.Some?
    requires ElmOf(u.oldCh[u.os]) == [r.elm.value] && u.oldStart.value.elm == r.elm
    requires u.oldEnd.value.elm.Some? && ElmOf(u.oldCh[u.oe]) == [u.oldEnd.value.elm.value]
    requires u.os == u.oe ==> u.oldEnd.value.elm == r.elm
    requires Parent(st.doc, p) && st.doc.kids[p] == Layout(u)
    ensures var w := AfterMovedRight(u, p, st, r); Parent(w.st.doc, p) && w.st.doc.kids[p] == Layout(w)
  {
    if u.os == u.oe {
      MovedRightSameKids(u, p, st, r);
    } else {
      MovedRightTailKids(u, p, st, r);
    }
  }

  lemma MovedLeftKids(u: Loop, p: NodeId, st: St, r: VNode)
    requires Bounds(u) && Running(u) && r.elm.Some? && u.oldStart.Some? && u.oldEnd.Some?
    requires ElmOf(u.oldCh[u.oe]) == [r.elm.value] && u.oldEnd.value.elm == r.elm
    requires u.oldStart.value.elm.Some? && ElmOf(u.oldCh[u.os]) == [u.oldStart.value.elm.value]
    requires u.os == u.oe ==> u.oldStart.value.elm == r.elm
    requires Parent(st.doc, p) && st.doc.kids[p] == Layout(u)
    ensures var w := AfterMovedLeft(u, p, st, r); Parent(w.st.doc, p) && w.st.doc.kids[p] == Layout(w)
  {
    var P, W0, S := Elms(u.newCh[..u.ns]), Elms(u.oldCh[u.os..u.oe]), Elms(u.newCh[u.ne + 1..]);
    var x := r.elm.value;
    MovedLeftLayout(u, p, st, r);
    if u.os == u.oe {
      assert W0 == [];
      SameDoc(st.doc, p, P, x, S);
    } else {
      var r0, M := u.oldStart.value.elm.value, Elms(u.oldCh[u.os + 1..u.oe]);
      ElmsFront(u.oldCh, u.os, u.oe);
      LeftDoc(st.doc, p, P, r0, M, x, S);
    }
  }

  lemma KeyedNewKids(u: Loop, p: NodeId, km: map<string, nat>, n: Made)
    requires Bounds(u) && Running(u) && n.r.elm.Some? && u.oldStart.Some?
    requires u.oldStart.value.elm.Some? && ElmOf(u.oldCh[u.os]) == [u.oldStart.value.elm.value]
    requires Parent(n.st.doc, p) && n.st.doc.kids[p] == Layout(u)
    requires n.r.elm.value in n.st.doc.nodes && n.r.elm.value !in n.st.doc.parent
    requires n.r.elm.value != p && n.r.elm.value !in n.st.doc.kids[p]
    ensures var w := AfterKeyedNew(u, p, km, n); Parent(w.st.doc, p) && w.st.doc.kids[p] == Layout(w)
  {
    var P, W1, S := Elms(u.newCh[..u.ns]), Elms(u.oldCh[u.os + 1..u.oe + 1]), Elms(u.newCh[u.ne + 1..]);
    var r0 := u.oldStart.value.elm.value;
    HeadBefore(u, r0);
    KeyedNewAfter(u, p, km, n);
    NewFrontDoc(n.st.doc, p, P, r0, W1, S, n.r.elm.value);
  }

  /** The layout before the matched slot `i` moves, with its single elements named. */
  lemma KeyedFoundBefore(u: Loop, i: nat, x: NodeId)
    requires Bounds(u) && u.os < i < u.oe && u.oldStart.Some? && u.oldStart.value.elm.Some?
    requires ElmOf(u.oldCh[u.os]) == [u.oldStart.value.elm.value] && ElmOf(u.oldCh[i]) == [x]
    ensures Layout(u) == Elms(u.newCh[..u.ns])
                         + ([u.oldStart.value.elm.value] + Elms(u.oldCh[u.os + 1..i]) + [x] + Elms(u.oldCh[i + 1..u.oe + 1]))
                         + Elms(u.newCh[u.ne + 1..])
  {
    var W := Elms(u.oldCh[u.os..u.oe + 1]);
    ElmsAround(u.oldCh, u.os, i, u.oe + 1);
    SubstEnds(W, ElmOf(u.oldCh[u.os]), Elms(u.oldCh[u.os + 1..i]), ElmOf(u.oldCh[i]), Elms(u.oldCh[i + 1..u.oe + 1]),
              u.oldStart.value.elm.value, x);
  }

  /** The layout after the matched slot `i` moved to the front and became a tombstone. */
  lemma KeyedFoundAfter(u: Loop, p: NodeId, km: map<string, nat>, i: nat, st: St, r: VNode)
    requires Bounds(u) && Running(u) && r.elm.Some? && u.oldStart.Some? && u.os < i < u.oe
    requires u.oldCh[i].Some? && u.oldStart.value.elm.Some? && ElmOf(u.oldCh[u.os]) == [u.oldStart.value.elm.value]
    ensures Layout(AfterKeyedFound(u, p, km, i, st, r)) ==
            (Elms(u.newCh[..u.ns]) + [r.elm.value])
            + ([u.oldStart.value.elm.value] + Elms(u.oldCh[u.os + 1..i]) + Elms(u.oldCh[i + 1..u.oe + 1]))
            + Elms(u.newCh[u.ne + 1..])
  {
    var w := AfterKeyedFound(u, p, km, i, st, r);
    FrontLayout(u, w, r);
    WindowTomb(u.oldCh, u.os, i, u.oe);
    SubstTomb(Layout(w), Elms(u.newCh[..u.ns]) + [r.elm.value], Elms(w.oldCh[w.os..w.oe + 1]), Elms(u.newCh[u.ne + 1..]),
              ElmOf(u.oldCh[u.os]), Elms(u.oldCh[u.os + 1..i]), Elms(u.oldCh[i + 1..u.oe + 1]), u.oldStart.value.elm.value);
  }

  lemma KeyedFoundKids(u: Loop, p: NodeId, km: map<string, nat>, i: nat, st: St, r: VNode)
    requires Bounds(u) && Running(u) && r.elm.Some? && u.oldStart.Some? && u.os < i < u.oe
    requires u.oldCh[i].Some? && ElmOf(u.oldCh[i]) == [r.elm.value]
    requires u.oldStart.value.elm.Some? && ElmOf(u.oldCh[u.os]) == [u.oldStart.value.elm.value]
    requires Parent(st.doc, p) && st.doc.kids[p] == Layout(u) && u.oldCh[i].value.elm == r.elm
    ensures var w := AfterKeyedFound(u, p, km, i, st, r); Parent(w.st.doc, p) && w.st.doc.kids[p] == Layout(w)
  {
    KeyedFoundBefore(u, i, r.elm.value);
    KeyedFoundAfter(u, p, km, i, st, r);
    FoundFrontDoc(st.doc, p, Elms(u.newCh[..u.ns]), u.oldStart.value.elm.value, Elms(u.oldCh[u.os + 1..i]), r.elm.value,
                  Elms(u.oldCh[i + 1..u.oe + 1]), Elms(u.newCh[u.ne + 1..]));
  }

  // ----- the invariant after the moves and the keyed branches -----

  /** The old start was the same vnode as the new end: it moves behind the old window. */
  lemma MovedRightInv(old0: seq<Option<VNode>>, items: seq<Option<VNode>>, p: NodeId, u: Loop, st: St, r: VNode)
    requires Inv(old0, items, p, u) && Running(u) && KeysLookedUpOnce(old0, items) && OldLeaves(old0)
    requires u.oldStart.Some? && u.oldEnd.Some? && u.newEnd.Some? && SameVnode(u.oldStart.value, u.newEnd.value)
    requires Parent(st.doc, p) && st.doc.kids[p] == u.st.doc.kids[p] && r.elm == u.oldStart.value.elm
    ensures Inv(old0, items, p, AfterMovedRight(u, p, st, r))
  {
    var w := AfterMovedRight(u, p, st, r);
    OldSlot(old0, u.oldCh, u.os);
    OldSlot(old0, u.oldCh, u.oe);
    BackShape(items, u, w, r);
    MovedRightKids(u, p, st, r);
    if u.keyMap.Some? {
      MovedRightMap(old0, items, u, p, st, r, u.keyMap.value);
    }
  }

  /** The old end was the same vnode as the new start: it moves in front of the old window. */
  lemma MovedLeftInv(old0: seq<Option<VNode>>, items: seq<Option<VNode>>, p: NodeId, u: Loop, st: St, r: VNode)
    requires Inv(old0, items, p, u) && Running(u) && KeysLookedUpOnce(old0, items) && OldLeaves(old0)
    requires u.oldStart.Some? && u.oldEnd.Some? && u.newStart.Some? && SameVnode(u.oldEnd.value, u.newStart.value)
    requires Parent(st.doc, p) && st.doc.kids[p] == u.st.doc.kids[p] && r.elm == u.oldEnd.value.elm
    ensures Inv(old0, items, p, AfterMovedLeft(u, p, st, r))
  {
    var w := AfterMovedLeft(u, p, st, r);
    OldSlot(old0, u.oldCh, u.os);
    OldSlot(old0, u.oldCh, u.oe);
    FrontShape(items, u, w, r);
    MovedLeftKids(u, p, st, r);
    if u.keyMap.Some? {
      MovedLeftMap(old0, items, u, p, st, r, u.keyMap.value);
    }
  }

  /** A new child with no old counterpart is created and inserted before the old start. */
  lemma KeyedNewInv(old0: seq<Option<VNode>>, items: seq<Option<VNode>>, p: NodeId, u: Loop, km: map<string, nat>, n: Made)
    requires Inv(old0, items, p, u) && Running(u) && KeysLookedUpOnce(old0, items) && OldLeaves(old0)
    requires u.oldStart.Some? && u.newStart.Some? && MapOk(old0, items, u, km)
    requires Parent(n.st.doc, p) && n.st.doc.kids[p] == u.st.doc.kids[p] && n.r.elm.Some?
    requires n.r.elm.value in n.st.doc.nodes && n.r.elm.value !in n.st.doc.parent
    requires n.r.elm.value != p && n.r.elm.value !in u.st.doc.kids[p]
    ensures Inv(old0, items, p, AfterKeyedNew(u, p, km, n))
  {
    var w := AfterKeyedNew(u, p, km, n);
    OldSlot(old0, u.oldCh, u.os);
    FrontShape(items, u, w, n.r);
    KeyedNewKids(u, p, km, n);
    KeyedNewMap(old0, items, u, p, km, n);
  }

  /** A new child whose key names an old child inside the window: that child is patched, moved in
      front of the old start, and its slot becomes a tombstone. */
  lemma KeyedFoundInv(old0: seq<Option<VNode>>, items: seq<Option<VNode>>, p: NodeId, u: Loop, km: map<string, nat>,
                      i: nat, st: St, r: VNode)
    requires Inv(old0, items, p, u) && Running(u) && KeysLookedUpOnce(old0, items) && OldLeaves(old0)
    requires u.oldStart.Some? && u.newStart.Some? && MapOk(old0, items, u, km)
    requires u.os < i < u.oe && u.oldCh[i].Some?
    requires Parent(st.doc, p) && st.doc.kids[p] == u.st.doc.kids[p] && r.elm == u.oldCh[i].value.elm
    ensures Inv(old0, items, p, AfterKeyedFound(u, p, km, i, st, r))
  {
    var w := AfterKeyedFound(u, p, km, i, st, r);
    OldSlot(old0, u.oldCh, u.os);
    OldSlot(old0, u.oldCh, i);
    FrontShape(items, u, w, r);
    KeyedFoundKids(u, p, km, i, st, r);
    KeyedFoundMap(old0, items, u, p, km, i, st, r);
  }

  // ----- each iteration of the loop keeps the invariant -----

  /** A bound old slot inside the window contributes its host node to the layout. */
  lemma WindowMember(u: Loop, i: int)
    requires Bounds(u) && u.os <= i <= u.oe && Get(u.oldCh, i).Some? && Get(u.oldCh, i).value.elm.Some?
    ensures Get(u.oldCh, i).value.elm.value in Layout(u)
  {
    ElmsSplit(u.oldCh, u.os, i, u.oe + 1);
    ElmsFront(u.oldCh, i, u.oe + 1);
  }

  lemma SkipEndLayout(u: Loop)
    requires Bounds(u) && u.os <= u.oe && Get(u.oldCh, u.oe).None?
    ensures Layout(u.(oe := u.oe - 1, oldEnd := Get(u.oldCh, u.oe - 1))) == Layout(u)
  {
    ElmsBack(u.oldCh, u.os, u.oe + 1);
  }

  lemma SkipEndMap(old0: seq<Option<VNode>>, items: seq<Option<VNode>>, u: Loop, km: map<string, nat>)
    requires u.os <= u.oe && Get(u.oldCh, u.oe).None? && MapOk(old0, items, u, km)
    ensures MapOk(old0, items, u.(oe := u.oe - 1, oldEnd := Get(u.oldCh, u.oe - 1)), km)
  {
    var w := u.(oe := u.oe - 1, oldEnd := Get(u.oldCh, u.oe - 1));
    forall k | k in km ensures EntryOk(old0, items, w, k, km[k]) {
      assert EntryOk(old0, items, u, k, km[k]);
    }
  }

  /** A null old end slot is skipped. */
  lemma SkipEndInv(old0: seq<Option<VNode>>, items: seq<Option<VNode>>, p: NodeId, u: Loop)
    requires Inv(old0, items, p, u) && Running(u) && u.oldEnd.None?
    ensures Inv(old0, items, p, u.(oe := u.oe - 1, oldEnd := Get(u.oldCh, u.oe - 1)))
  {
    SkipEndLayout(u);
    if u.keyMap.Some? {
      SkipEndMap(old0, items, u, u.keyMap.value);
    }
  }

  /** The old slot `i` in the window is a bound leaf child of `p`, other than `p` itself. */
  lemma WindowLeaf(old0: seq<Option<VNode>>, items: seq<Option<VNode>>, p: NodeId, u: Loop, i: int)
    requires Inv(old0, items, p, u) && OldLeaves(old0) && u.os <= i <= u.oe && Get(u.oldCh, i).Some?
    ensures Get(u.oldCh, i).value.children.Missing? && Get(u.oldCh, i).value.elm.Some?
    ensures Get(u.oldCh, i).value.elm.value != p
  {
    OldSlot(old0, u.oldCh, i);
    WindowMember(u, i);
  }

  // ----- which branch an iteration takes, apart from the invariant -----

  /** The four cached vnodes are all present. */
  predicate Cached(u: Loop) {
    u.oldStart.Some? && u.oldEnd.Some? && u.newStart.Some? && u.newEnd.Some?
  }

  /** None of the four sameVnode tests matched. */
  predicate Unmatched(u: Loop)
    requires Cached(u)
  {
    && !SameVnode(u.oldStart.value, u.newStart.value) && !SameVnode(u.oldEnd.value, u.newEnd.value)
    && !SameVnode(u.oldStart.value, u.newEnd.value) && !SameVnode(u.oldEnd.value, u.newStart.value)
  }

  lemma StepIsSkipStart(c: Cfg, p: NodeId, pv: VNode, u: Loop)
    requires pv.children.Array? && Shape(pv.children.items, u) && Running(u) && u.oldStart.None?
    ensures Step(c, Some(p), pv, u) == u.(os := u.os + 1, oldStart := Get(u.oldCh, u.os + 1))
  {
  }

  lemma StepIsSkipEnd(c: Cfg, p: NodeId, pv: VNode, u: Loop)
    requires pv.children.Array? && Shape(pv.children.items, u) && Running(u) && u.oldStart.Some? && u.oldEnd.None?
    ensures Step(c, Some(p), pv, u) == u.(oe := u.oe - 1, oldEnd := Get(u.oldCh, u.oe - 1))
  {
  }

  lemma StepIsStarts(c: Cfg, p: NodeId, pv: VNode, u: Loop)
    requires pv.children.Array? && Shape(pv.children.items, u) && Running(u) && Cached(u)
    requires SameVnode(u.oldStart.value, u.newStart.value)
    ensures var m := PatchVnode(c, u.st, u.oldStart.value, u.newStart.value);
      Step(c, Some(p), pv, u) == AfterStarts(u, m.st, m.r)
  {
  }

  lemma StepIsEnds(c: Cfg, p: NodeId, pv: VNode, u: Loop)
    requires pv.children.Array? && Shape(pv.children.items, u) && Running(u) && Cached(u)
    requires !SameVnode(u.oldStart.value, u.newStart.value) && SameVnode(u.oldEnd.value, u.newEnd.value)
    ensures var m := PatchVnode(c, u.st, u.oldEnd.value, u.newEnd.value);
      Step(c, Some(p), pv, u) == AfterEnds(u, m.st, m.r)
  {
  }

  lemma StepIsMovedRight(c: Cfg, p: NodeId, pv: VNode, u: Loop)
    requires pv.children.Array? && Shape(pv.children.items, u) && Running(u) && Cached(u)
    requires !SameVnode(u.oldStart.value, u.newStart.value) && !SameVnode(u.oldEnd.value, u.newEnd.value)
    requires SameVnode(u.oldStart.value, u.newEnd.value)
    ensures var m := PatchVnode(c, u.st, u.oldStart.value, u.newEnd.value);
      Step(c, Some(p), pv, u) == AfterMovedRight(u, p, m.st, m.r)
  {
  }

  lemma StepIsMovedLeft(c: Cfg, p: NodeId, pv: VNode, u: Loop)
    requires pv.children.Array? && Shape(pv.children.items, u) && Running(u) && Cached(u)
    requires !SameVnode(u.oldStart.value, u.newStart.value) && !SameVnode(u.oldEnd.value, u.newEnd.value)
    requires !SameVnode(u.oldStart.value, u.newEnd.value) && SameVnode(u.oldEnd.value, u.newStart.value)
    ensures var m := PatchVnode(c, u.st, u.oldEnd.value, u.newStart.value);
      Step(c, Some(p), pv, u) == AfterMovedLeft(u, p, m.st, m.r)
  {
  }

  /** The keyed branch creates a new host node when the key finds no old child with the new
      vnode's selector. */
  lemma StepIsKeyedNew(c: Cfg, p: NodeId, pv: VNode, u: Loop, km: map<string, nat>)
    requires pv.children.Array? && Shape(pv.children.items, u) && Running(u) && Cached(u) && Unmatched(u)
    requires km == if u.keyMap.Some? then u.keyMap.value else KeyIdx(u.oldCh, u.os, u.oe + 1)
    requires var idx := Lookup(km, u.newStart.value.key);
      idx.None? || Get(u.oldCh, idx.value).None? || Get(u.oldCh, idx.value).value.sel != u.newStart.value.sel
    ensures Step(c, Some(p), pv, u) == AfterKeyedNew(u, p, km, Creation.Create(c, u.st, u.newStart.value))
  {
  }

  /** The keyed branch reuses the old child at `i` when the key finds it with the new vnode's
      selector. */
  lemma StepIsKeyedFound(c: Cfg, p: NodeId, pv: VNode, u: Loop, km: map<string, nat>, i: nat)
    requires pv.children.Array? && Shape(pv.children.items, u) && Running(u) && Cached(u) && Unmatched(u)
    requires km == if u.keyMap.Some? then u.keyMap.value else KeyIdx(u.oldCh, u.os, u.oe + 1)
    requires Lookup(km, u.newStart.value.key) == Some(i)
    requires Get(u.oldCh, i).Some? && Get(u.oldCh, i).value.sel == u.newStart.value.sel
    ensures var m := PatchVnode(c, u.st, u.oldCh[i].value, u.newStart.value);
      Step(c, Some(p), pv, u) == AfterKeyedFound(u, p, km, i, m.st, m.r)
  {
    assert Step(c, Some(p), pv, u) == Keyed(c, Some(p), pv, u);
    assert Keyed(c, Some(p), pv, u) == KeyedFound(c, Some(p), pv, u, km, i);
  }

  // ----- each iteration keeps the invariant, branch by branch -----

  /** What the lists demand of the loop. */
  predicate LoopLists(old0: seq<Option<VNode>>, items: seq<Option<VNode>>) {
    OldLeaves(old0) && NewLeaves(items) && KeysCompatible(old0, items) && KeysLookedUpOnce(old0, items)
  }

  lemma SkipStartKeeps(c: Cfg, p: NodeId, pv: VNode, old0: seq<Option<VNode>>, u: Loop)
    requires pv.children.Array? && Inv(old0, pv.children.items, p, u) && Running(u) && u.oldStart.None?
    ensures Inv(old0, pv.children.items, p, Step(c, Some(p), pv, u))
  {
    StepIsSkipStart(c, p, pv, u);
    SkipStartInv(old0, pv.children.items, p, u);
  }

  lemma SkipEndKeeps(c: Cfg, p: NodeId, pv: VNode, old0: seq<Option<VNode>>, u: Loop)
    requires pv.children.Array? && Inv(old0, pv.children.items, p, u) && Running(u)
    requires u.oldStart.Some? && u.oldEnd.None?
    ensures Inv(old0, pv.children.items, p, Step(c, Some(p), pv, u))
  {
    StepIsSkipEnd(c, p, pv, u);
    SkipEndInv(old0, pv.children.items, p, u);
  }

  /** Both starts are the same vnode. */
  lemma StartsKeeps(c: Cfg, p: NodeId, pv: VNode, old0: seq<Option<VNode>>, u: Loop)
    requires pv.children.Array? && Inv(old0, pv.children.items, p, u) && Running(u) && Cached(u)
    requires LoopLists(old0, pv.children.items)
    requires SameVnode(u.oldStart.value, u.newStart.value)
    ensures Inv(old0, pv.children.items, p, Step(c, Some(p), pv, u))
  {
    WindowLeaf(old0, pv.children.items, p, u, u.os);
    var m := PatchVnode(c, u.st, u.oldStart.value, u.newStart.value);
    PatchLeaf(c, u.st, u.oldStart.value, u.newStart.value, p);
    StepIsStarts(c, p, pv, u);
    StartsInv(old0, pv.children.items, p, u, m.st, m.r);
  }

  /** Both ends are the same vnode. */
  lemma EndsKeeps(c: Cfg, p: NodeId, pv: VNode, old0: seq<Option<VNode>>, u: Loop)
    requires pv.children.Array? && Inv(old0, pv.children.items, p, u) && Running(u) && Cached(u)
    requires LoopLists(old0, pv.children.items)
    requires !SameVnode(u.oldStart.value, u.newStart.value) && SameVnode(u.oldEnd.value, u.newEnd.value)
    ensures Inv(old0, pv.children.items, p, Step(c, Some(p), pv, u))
  {
    WindowLeaf(old0, pv.children.items, p, u, u.oe);
    var m := PatchVnode(c, u.st, u.oldEnd.value, u.newEnd.value);
    PatchLeaf(c, u.st, u.oldEnd.value, u.newEnd.value, p);
    StepIsEnds(c, p, pv, u);
    EndsInv(old0, pv.children.items, p, u, m.st, m.r);
  }

  /** The old start is the new end. */
  lemma MovedRightKeeps(c: Cfg, p: NodeId, pv: VNode, old0: seq<Option<VNode>>, u: Loop)
    requires pv.children.Array? && Inv(old0, pv.children.items, p, u) && Running(u) && Cached(u)
    requires LoopLists(old0, pv.children.items)
    requires !SameVnode(u.oldStart.value, u.newStart.value) && !SameVnode(u.oldEnd.value, u.newEnd.value)
    requires SameVnode(u.oldStart.value, u.newEnd.value)
    ensures Inv(old0, pv.children.items, p, Step(c, Some(p), pv, u))
  {
    WindowLeaf(old0, pv.children.items, p, u, u.os);
    var m := PatchVnode(c, u.st, u.oldStart.value, u.newEnd.value);
    PatchLeaf(c, u.st, u.oldStart.value, u.newEnd.value, p);
    StepIsMovedRight(c, p, pv, u);
    MovedRightInv(old0, pv.children.items, p, u, m.st, m.r);
  }

  /** The old end is the new start. */
  lemma MovedLeftKeeps(c: Cfg, p: NodeId, pv: VNode, old0: seq<Option<VNode>>, u: Loop)
    requires pv.children.Array? && Inv(old0, pv.children.items, p, u) && Running(u) && Cached(u)
    requires LoopLists(old0, pv.children.items)
    requires !SameVnode(u.oldStart.value, u.newStart.value) && !SameVnode(u.oldEnd.value, u.newEnd.value)
    requires !SameVnode(u.oldStart.value, u.newEnd.value) && SameVnode(u.oldEnd.value, u.newStart.value)
    ensures Inv(old0, pv.children.items, p, Step(c, Some(p), pv, u))
  {
    WindowLeaf(old0, pv.children.items, p, u, u.oe);
    var m := PatchVnode(c, u.st, u.oldEnd.value, u.newStart.value);
    PatchLeaf(c, u.st, u.oldEnd.value, u.newStart.value, p);
    StepIsMovedLeft(c, p, pv, u);
    MovedLeftInv(old0, pv.children.items, p, u, m.st, m.r);
  }

  /** No old child to reuse: a new host node is created. */
  lemma KeyedNewKeeps(c: Cfg, p: NodeId, pv: VNode, old0: seq<Option<VNode>>, u: Loop, km: map<string, nat>)
    requires pv.children.Array? && Inv(old0, pv.children.items, p, u) && Running(u) && Cached(u) && Unmatched(u)
    requires LoopLists(old0, pv.children.items) && MapOk(old0, pv.children.items, u, km)
    requires km == if u.keyMap.Some? then u.keyMap.value else KeyIdx(u.oldCh, u.os, u.oe + 1)
    requires var idx := Lookup(km, u.newStart.value.key);
      idx.None? || Get(u.oldCh, idx.value).None? || Get(u.oldCh, idx.value).value.sel != u.newStart.value.sel
    ensures Inv(old0, pv.children.items, p, Step(c, Some(p), pv, u))
  {
    var n := Creation.Create(c, u.st, u.newStart.value);
    CreateFresh(c, u.st, u.newStart.value, p);
    StepIsKeyedNew(c, p, pv, u, km);
    KeyedNewInv(old0, pv.children.items, p, u, km, n);
  }

  /** An old child inside the window is reused. */
  lemma KeyedFoundKeeps(c: Cfg, p: NodeId, pv: VNode, old0: seq<Option<VNode>>, u: Loop, km: map<string, nat>, i: nat)
    requires pv.children.Array? && Inv(old0, pv.children.items, p, u) && Running(u) && Cached(u) && Unmatched(u)
    requires LoopLists(old0, pv.children.items) && MapOk(old0, pv.children.items, u, km)
    requires km == if u.keyMap.Some? then u.keyMap.value else KeyIdx(u.oldCh, u.os, u.oe + 1)
    requires Lookup(km, u.newStart.value.key) == Some(i)
    requires u.os < i < u.oe && u.oldCh[i].Some? && u.oldCh[i].value.sel == u.newStart.value.sel
    ensures Inv(old0, pv.children.items, p, Step(c, Some(p), pv, u))
  {
    WindowLeaf(old0, pv.children.items, p, u, i);
    var o := u.oldCh[i].value;
    var m := PatchVnode(c, u.st, o, u.newStart.value);
    PatchLeaf(c, u.st, o, u.newStart.value, p);
    StepIsKeyedFound(c, p, pv, u, km, i);
    KeyedFoundInv(old0, pv.children.items, p, u, km, i, m.st, m.r);
  }

  /** The key map built on first use satisfies the map invariant: each entry names a slot of the
      window that carries its key. */
  lemma FreshMapOk(old0: seq<Option<VNode>>, items: seq<Option<VNode>>, u: Loop)
    requires Tombstoned(old0, u.oldCh)
    ensures MapOk(old0, items, u, KeyIdx(u.oldCh, u.os, u.oe + 1))
  {
    var km := KeyIdx(u.oldCh, u.os, u.oe + 1);
    KeyIdxSpec(u.oldCh, u.os, u.oe + 1);
    forall k | k in km ensures EntryOk(old0, items, u, k, km[k]) {
      assert u.oldCh[km[k]] == old0[km[k]];
    }
  }

  /** An old child the keyed branch finds lies strictly inside the old window: the ends of the
      window were already tried by the sameVnode tests before it. */
  lemma FoundInside(old0: seq<Option<VNode>>, items: seq<Option<VNode>>, u: Loop, km: map<string, nat>, i: nat)
    requires Shape(items, u) && Running(u) && Tombstoned(old0, u.oldCh) && KeysCompatible(old0, items)
    requires u.oldStart == Get(u.oldCh, u.os) && u.oldEnd == Get(u.oldCh, u.oe) && MapOk(old0, items, u, km)
    requires u.oldStart.Some? && u.oldEnd.Some? && u.newStart.Some?
    requires !SameVnode(u.oldStart.value, u.newStart.value) && !SameVnode(u.oldEnd.value, u.newStart.value)
    requires Lookup(km, u.newStart.value.key) == Some(i)
    requires Get(u.oldCh, i).Some? && Get(u.oldCh, i).value.sel == u.newStart.value.sel
    ensures u.os < i < u.oe
  {
    var k := u.newStart.value.key.GetOr("undefined");
    assert EntryOk(old0, items, u, k, i);
    assert LookupKeyOf(items[u.ns]) == Some(k);
    assert u.oldCh[i] == old0[i];
    assert SameVnode(old0[i].value, items[u.ns].value);
  }

  /** The keyed branch. */
  lemma KeyedKeeps(c: Cfg, p: NodeId, pv: VNode, old0: seq<Option<VNode>>, u: Loop)
    requires pv.children.Array? && Inv(old0, pv.children.items, p, u) && Running(u) && Cached(u) && Unmatched(u)
    requires LoopLists(old0, pv.children.items)
    ensures Inv(old0, pv.children.items, p, Step(c, Some(p), pv, u))
  {
    var km := if u.keyMap.Some? then u.keyMap.value else KeyIdx(u.oldCh, u.os, u.oe + 1);
    if u.keyMap.None? {
      FreshMapOk(old0, pv.children.items, u);
    }
    var idx := Lookup(km, u.newStart.value.key);
    var elmToMove := if idx.Some? then Get(u.oldCh, idx.value) else None;
    if elmToMove.None? || elmToMove.value.sel != u.newStart.value.sel {
      KeyedNewKeeps(c, p, pv, old0, u, km);
    } else {
      FoundInside(old0, pv.children.items, u, km, idx.value);
      KeyedFoundKeeps(c, p, pv, old0, u, km, idx.value);
    }
  }

  /** One iteration keeps the invariant, whichever branch it takes. */
  lemma StepKeeps(c: Cfg, p: NodeId, pv: VNode, old0: seq<Option<VNode>>, u: Loop)
    requires pv.children.Array? && Inv(old0, pv.children.items, p, u) && Running(u)
    requires LoopLists(old0, pv.children.items)
    ensures Inv(old0, pv.children.items, p, Step(c, Some(p), pv, u))
  {
    assert u.newStart == pv.children.items[u.ns] && u.newEnd == pv.children.items[u.ne];
    if u.oldStart.None? {
      SkipStartKeeps(c, p, pv, old0, u);
    } else if u.oldEnd.None? {
      SkipEndKeeps(c, p, pv, old0, u);
    } else if SameVnode(u.oldStart.value, u.newStart.value) {
      StartsKeeps(c, p, pv, old0, u);
    } else if SameVnode(u.oldEnd.value, u.newEnd.value) {
      EndsKeeps(c, p, pv, old0, u);
    } else if SameVnode(u.oldStart.value, u.newEnd.value) {
      MovedRightKeeps(c, p, pv, old0, u);
    } else if SameVnode(u.oldEnd.value, u.newStart.value) {
      MovedLeftKeeps(c, p, pv, old0, u);
    } else {
      KeyedKeeps(c, p, pv, old0, u);
    }
  }

  /** The loop keeps the invariant until it stops. */
  lemma {:induction false} RunKeeps(c: Cfg, p: NodeId, pv: VNode, old0: seq<Option<VNode>>, u: Loop)
    requires pv.children.Array? && Inv(old0, pv.children.items, p, u) && LoopLists(old0, pv.children.items)
    ensures Inv(old0, pv.children.items, p, Run(c, Some(p), pv, u))
    decreases Measure(u)
  {
    if Running(u) {
      StepKeeps(c, p, pv, old0, u);
      RunKeeps(c, p, pv, old0, Step(c, Some(p), pv, u));
    }
  }

  // ----- the leftovers -----

  /** Every slot is bound to a host node. */
  predicate Bound(items: seq<Option<VNode>>) {
    forall j :: 0 <= j < |items| ==> items[j].Some? && items[j].value.elm.Some?
  }

  /** The first node of a list, the reference `insertBefore` is given. */
  function First(S: seq<NodeId>): (r: Option<NodeId>)
    ensures r.Some? <==> |S| > 0
  {
    if |S| > 0 then Some(S[0]) else None
  }

  /** A slot list splits into three ranges. */
  lemma ElmsThree(s: seq<Option<VNode>>, i: nat, j: nat)
    requires i <= j <= |s|
    ensures Elms(s) == Elms(s[..i]) + Elms(s[i..j]) + Elms(s[j..])
  {
    assert s == s[..i] + s[i..j] + s[j..];
    ElmsAppend(s[..i] + s[i..j], s[j..]);
    ElmsAppend(s[..i], s[i..j]);
  }

  /** Binding the last slot of a range adds its host node at the end. */
  lemma ElmsSnoc(items: seq<Option<VNode>>, lo: nat, k: nat, r: VNode)
    requires lo < k <= |items| && r.elm.Some?
    ensures Elms(items[k - 1 := Some(r)][lo..k]) == Elms(items[lo..k - 1]) + [r.elm.value]
  {
    assert items[k - 1 := Some(r)][lo..k] == items[lo..k - 1] + [Some(r)];
    ElmsAppend(items[lo..k - 1], [Some(r)]);
    ElmsOne(Some(r));
  }

  lemma RegroupAdd<T>(P: seq<T>, E: seq<T>, y: T, S: seq<T>)
    requires |S| > 0
    ensures P + E + S == (P + E) + [S[0]] + S[1..]
    ensures (P + E) + [y] + [S[0]] + S[1..] == P + (E + [y]) + S
  {
    assert S == [S[0]] + S[1..];
    AppendAssoc(P + E, [S[0]], S[1..]);
    AppendAssoc(P, E, [y]);
    AppendAssoc(P + E + [y], [S[0]], S[1..]);
  }

  /** `insertBefore(p, y, before)` for a detached node, where `before` heads the part `S`. */
  lemma AddOneDoc(d: Doc, p: NodeId, P: seq<NodeId>, E: seq<NodeId>, S: seq<NodeId>, y: NodeId, before: Option<NodeId>)
    requires Parent(d, p) && d.kids[p] == P + E + S
    requires y in d.nodes && y !in d.parent && y != p && y !in d.kids[p]
    requires before == First(S)
    ensures var d' := InsertedAt(d, Some(p), Some(y), before);
      Parent(d', p) && d'.kids[p] == P + (E + [y]) + S
  {
    if |S| > 0 {
      RegroupAdd(P, E, y, S);
      NewBeforeDoc(d, p, P + E, S[0], S[1..], y);
    } else {
      InsertedNew(d, p, y, None);
      AppendNil(P + E);
      AppendNil(P + (E + [y]));
      AppendAssoc(P, E, [y]);
    }
  }

  /** One more slot of addVnodes: its new host node lands after those created before it. */
  lemma AddStep(c: Cfg, m: MadeAll, p: NodeId, before: Option<NodeId>, vs: seq<Option<VNode>>,
                lo: nat, k: nat, P: seq<NodeId>, S: seq<NodeId>)
    requires lo < k <= |vs| && |m.items| == |vs| && vs[k - 1].Some? && Renderable(vs[k - 1].value)
    requires Parent(m.st.doc, p) && m.st.doc.kids[p] == P + Elms(m.items[lo..k - 1]) + S
    requires before == First(S)
    ensures var n := Creation.Create(c, m.st, vs[k - 1].value);
      var d := InsertedAt(n.st.doc, Some(p), n.r.elm, before);
      Parent(d, p) && d.kids[p] == P + Elms(m.items[k - 1 := Some(n.r)][lo..k]) + S
  {
    var n := Creation.Create(c, m.st, vs[k - 1].value);
    CreateFresh(c, m.st, vs[k - 1].value, p);
    AddOneDoc(n.st.doc, p, P, Elms(m.items[lo..k - 1]), S, m.st.doc.next, before);
    ElmsSnoc(m.items, lo, k, n.r);
  }

  /** addVnodes of leaves before `before`, the head of `S`: the created nodes land between `P`
      and `S`, in slot order. */
  lemma {:induction false} AddLeaves(c: Cfg, s: St, p: NodeId, before: Option<NodeId>, vs: seq<Option<VNode>>,
                                     lo: nat, k: nat, P: seq<NodeId>, S: seq<NodeId>)
    requires lo <= k <= |vs| && Parent(s.doc, p) && s.doc.kids[p] == P + S
    requires before == First(S)
    requires forall j :: lo <= j < k ==> vs[j].Some? && Renderable(vs[j].value)
    ensures var m := AddVnodes(c, s, Some(p), before, vs, lo, k);
      Parent(m.st.doc, p) && m.st.doc.kids[p] == P + Elms(m.items[lo..k]) + S
    decreases k
  {
    if k == lo {
      var m := AddVnodes(c, s, Some(p), before, vs, lo, k);
      assert m.items[lo..k] == [];
    } else {
      AddLeaves(c, s, p, before, vs, lo, k - 1, P, S);
      AddStep(c, AddVnodes(c, s, Some(p), before, vs, lo, k - 1), p, before, vs, lo, k, P, S);
    }
  }

  /** addVnodes binds every slot it creates. */
  lemma {:induction false} AddBound(c: Cfg, s: St, p: Option<NodeId>, before: Option<NodeId>, vs: seq<Option<VNode>>,
                                    lo: nat, k: nat)
    requires lo <= k <= |vs|
    requires forall j :: lo <= j < k ==> vs[j].Some?
    ensures Bound(AddVnodes(c, s, p, before, vs, lo, k).items[lo..k])
    decreases k
  {
    if k > lo {
      AddBound(c, s, p, before, vs, lo, k - 1);
      var m := AddVnodes(c, s, p, before, vs, lo, k - 1);
      var n := Creation.Create(c, m.st, vs[k - 1].value);
      assert n.r.elm.Some?;
      assert Bound(m.items[lo..k - 1]);
      AddSlot(c, s, p, before, vs, lo, k);
      BoundSnoc(m.items[lo..k - 1], Some(n.r));
    }
  }

  /** The slot addVnodes fills last. */
  lemma AddSlot(c: Cfg, s: St, p: Option<NodeId>, before: Option<NodeId>, vs: seq<Option<VNode>>, lo: nat, k: nat)
    requires lo < k <= |vs| && vs[k - 1].Some?
    ensures var m := AddVnodes(c, s, p, before, vs, lo, k - 1);
      AddVnodes(c, s, p, before, vs, lo, k).items[lo..k] ==
      m.items[lo..k - 1] + [Some(Creation.Create(c, m.st, vs[k - 1].value).r)]
  {
  }

  lemma BoundSnoc(items: seq<Option<VNode>>, x: Option<VNode>)
    requires Bound(items) && x.Some? && x.value.elm.Some?
    ensures Bound(items + [x])
  {
    assert forall j :: 0 <= j < |items| ==> (items + [x])[j] == items[j];
  }

  /** removeVnodes of one bound slot takes its host node out of `p` (at once, for an element). */
  lemma RemoveOneKid(c: Cfg, s: St, p: NodeId, P: seq<NodeId>, v: VNode, R: seq<NodeId>)
    requires Parent(s.doc, p) && v.elm.Some? && s.doc.kids[p] == P + [v.elm.value] + R
    requires v.sel.Some? ==> Synchronous(c, v)
    ensures var s' := RemoveOne(c, s, Some(p), Some(v));
      Parent(s'.doc, p) && s'.doc.kids[p] == P + R
  {
    var x := v.elm.value;
    assert x in s.doc.kids[p];
    if v.sel.Some? {
      RemoveDetachesIff(c, s, Some(p), v);
      assert x in s.doc.nodes && x in s.doc.parent && s.doc.parent[x] == p;
    } else {
      TextRemovedDirectly(c, s, Some(p), v);
    }
    RemovedKid(s.doc, p, x);
    WithoutOne(P, x, R);
  }

  lemma RegroupRemove<T>(P: seq<T>, x: T, R: seq<T>, S: seq<T>)
    ensures P + ([x] + R) + S == P + [x] + (R + S)
    ensures P + (R + S) == P + R + S
  {
    AppendAssoc(P, [x] + R, S);
    AppendAssoc(P, [x], R + S);
    AppendAssoc(P, R, S);
  }

  /** One more slot of removeVnodes: its host node, if any, leaves `p`. */
  lemma RemoveStep(c: Cfg, s: St, p: NodeId, vs: seq<Option<VNode>>, k: nat, hi: nat, P: seq<NodeId>, S: seq<NodeId>)
    requires 0 < k <= hi <= |vs|
    requires Parent(s.doc, p) && s.doc.kids[p] == P + Elms(vs[k - 1..hi]) + S
    requires vs[k - 1].Some? ==>
      vs[k - 1].value.elm.Some? && (vs[k - 1].value.sel.Some? ==> Synchronous(c, vs[k - 1].value))
    ensures var s' := RemoveOne(c, s, Some(p), vs[k - 1]);
      Parent(s'.doc, p) && s'.doc.kids[p] == P + Elms(vs[k..hi]) + S
  {
    ElmsFront(vs, k - 1, hi);
    if vs[k - 1].Some? {
      var x := vs[k - 1].value.elm.value;
      RegroupRemove(P, x, Elms(vs[k..hi]), S);
      RemoveOneKid(c, s, p, P, vs[k - 1].value, Elms(vs[k..hi]) + S);
    }
  }

  /** removeVnodes of bound leaves between `P` and `S`: their host nodes leave `p` one by one. */
  lemma {:induction false} RemoveLeaves(c: Cfg, s: St, p: NodeId, vs: seq<Option<VNode>>, lo: nat, k: nat, hi: nat,
                                        P: seq<NodeId>, S: seq<NodeId>)
    requires lo <= k <= hi <= |vs|
    requires Parent(s.doc, p) && s.doc.kids[p] == P + Elms(vs[lo..hi]) + S
    requires forall j :: lo <= j < hi && vs[j].Some? ==>
      vs[j].value.elm.Some? && (vs[j].value.sel.Some? ==> Synchronous(c, vs[j].value))
    ensures var s' := RemoveVnodes(c, s, Some(p), vs, lo, k);
      Parent(s'.doc, p) && s'.doc.kids[p] == P + Elms(vs[k..hi]) + S
    decreases k
  {
    if k > lo {
      RemoveLeaves(c, s, p, vs, lo, k - 1, hi, P, S);
      RemoveStep(c, RemoveVnodes(c, s, Some(p), vs, lo, k - 1), p, vs, k, hi, P, S);
    }
  }

  // ----- after the loop -----

  /** Bound ranges make a bound list. */
  lemma BoundThree(s: seq<Option<VNode>>, i: nat, j: nat)
    requires i <= j <= |s| && Bound(s[..i]) && Bound(s[i..j]) && Bound(s[j..])
    ensures Bound(s)
  {
    forall k | 0 <= k < |s| ensures s[k].Some? && s[k].value.elm.Some? {
      if k < i {
        assert s[k] == s[..i][k];
      } else if k < j {
        assert s[k] == s[i..j][k - i];
      } else {
        assert s[k] == s[j..][k - j];
      }
    }
  }

  /** A range of bound slots. */
  lemma BoundSlice(s: seq<Option<VNode>>, i: nat, j: nat)
    requires i <= j <= |s| && forall k :: i <= k < j ==> s[k].Some? && s[k].value.elm.Some?
    ensures Bound(s[i..j])
  {
    forall k | 0 <= k < j - i ensures s[i..j][k].Some? && s[i..j][k].value.elm.Some? {
      assert s[i..j][k] == s[i + k];
    }
  }

  /** The placed slots on either side of the new window are bound. */
  lemma PlacedEnds(w: Loop)
    requires Bounds(w) && Placed(w)
    ensures Bound(w.newCh[..w.ns]) && Bound(w.newCh[w.ne + 1..])
  {
    BoundSlice(w.newCh, 0, w.ns);
    BoundSlice(w.newCh, w.ne + 1, |w.newCh|);
    assert w.newCh[..w.ns] == w.newCh[0..w.ns];
    assert w.newCh[w.ne + 1..] == w.newCh[w.ne + 1..|w.newCh|];
  }

  /** With the old window empty, the layout is the placed front followed by the placed back. */
  lemma EmptyOldWindow(w: Loop)
    requires Bounds(w) && w.os == w.oe + 1
    ensures Layout(w) == Elms(w.newCh[..w.ns]) + Elms(w.newCh[w.ne + 1..])
  {
    assert w.oldCh[w.os..w.oe + 1] == [];
    AppendNil(Elms(w.newCh[..w.ns]));
  }

  /** The reference node of addVnodes for the leftovers: the host node of the slot after the new
      window, none when that slot is null or past the end. */
  function RefAfter(w: Loop): Option<NodeId> {
    var after := Get(w.newCh, w.ne + 1);
    if after.None? then None else after.value.elm
  }

  /** The reference addVnodes inserts before is the first host node of the placed back, or none
      when the back is empty. */
  lemma BeforeIsHead(w: Loop)
    requires Bounds(w) && Placed(w)
    ensures var S := Elms(w.newCh[w.ne + 1..]);
      RefAfter(w) == First(S)
  {
    if w.ne + 1 < |w.newCh| {
      assert w.newCh[w.ne + 1..] == w.newCh[w.ne + 1..|w.newCh|];
      ElmsFront(w.newCh, w.ne + 1, |w.newCh|);
    } else {
      assert w.newCh[w.ne + 1..] == [];
    }
  }

  /** With both windows empty, the parent's list is the host nodes of the new children. */
  lemma Closed(w: Loop)
    requires Bounds(w) && Placed(w) && w.ns == w.ne + 1
    ensures Elms(w.newCh) == Elms(w.newCh[..w.ns]) + Elms(w.newCh[w.ne + 1..]) && Bound(w.newCh)
  {
    ElmsThree(w.newCh, w.ns, w.ns);
    assert w.newCh[w.ns..w.ns] == [];
    AppendNil(Elms(w.newCh[..w.ns]));
    PlacedEnds(w);
    BoundThree(w.newCh, w.ns, w.ns);
  }

  /** What the leftovers branch does once the loop has stopped, as one value each. */
  lemma LeftoversIsAdd(c: Cfg, p: NodeId, pv: VNode, w: Loop)
    requires pv.children.Array? && Shape(pv.children.items, w) && w.os > w.oe && w.ns <= w.ne
    ensures Leftovers(c, Some(p), pv, w) == AddVnodes(c, w.st, Some(p), RefAfter(w), w.newCh, w.ns, w.ne + 1)
  {
  }

  lemma LeftoversIsRemove(c: Cfg, p: NodeId, pv: VNode, w: Loop)
    requires pv.children.Array? && Shape(pv.children.items, w) && w.os <= w.oe
    ensures Leftovers(c, Some(p), pv, w) == MadeAll(RemoveVnodes(c, w.st, Some(p), w.oldCh, w.os, w.oe + 1), w.newCh)
  {
  }

  /** A list that agrees with `newCh` outside `i .. j-1`, joined from its three ranges. */
  lemma JoinThree(K: seq<NodeId>, items: seq<Option<VNode>>, newCh: seq<Option<VNode>>, i: nat, j: nat)
    requires i <= j <= |items| == |newCh| && items[..i] == newCh[..i] && items[j..] == newCh[j..]
    requires K == Elms(newCh[..i]) + Elms(items[i..j]) + Elms(newCh[j..])
    ensures K == Elms(items)
  {
    ElmsThree(items, i, j);
  }

  /** addVnodes of the new window binds every slot. */
  lemma AddTailBound(c: Cfg, p: NodeId, w: Loop)
    requires Bounds(w) && Placed(w) && w.ns <= w.ne
    requires forall j :: w.ns <= j < w.ne + 1 ==> w.newCh[j].Some?
    ensures var m := AddVnodes(c, w.st, Some(p), RefAfter(w), w.newCh, w.ns, w.ne + 1);
      Bound(m.items)
  {
    var before := RefAfter(w);
    AddBound(c, w.st, Some(p), before, w.newCh, w.ns, w.ne + 1);
    var m := AddVnodes(c, w.st, Some(p), before, w.newCh, w.ns, w.ne + 1);
    PlacedEnds(w);
    BoundThree(m.items, w.ns, w.ne + 1);
  }

  /** addVnodes between a placed front and a placed back leaves the parent's list equal to the
      host nodes of all the slots. */
  lemma AddJoin(c: Cfg, s: St, p: NodeId, before: Option<NodeId>, vs: seq<Option<VNode>>, lo: nat, k: nat)
    requires lo <= k <= |vs| && Parent(s.doc, p) && s.doc.kids[p] == Elms(vs[..lo]) + Elms(vs[k..])
    requires before == First(Elms(vs[k..]))
    requires forall j :: lo <= j < k ==> vs[j].Some? && Renderable(vs[j].value)
    ensures var m := AddVnodes(c, s, Some(p), before, vs, lo, k);
      Parent(m.st.doc, p) && m.st.doc.kids[p] == Elms(m.items)
  {
    AddLeaves(c, s, p, before, vs, lo, k, Elms(vs[..lo]), Elms(vs[k..]));
    var m := AddVnodes(c, s, Some(p), before, vs, lo, k);
    JoinThree(m.st.doc.kids[p], m.items, vs, lo, k);
  }

  /** addVnodes of the new window, between the placed front and the placed back. */
  lemma AddTail(c: Cfg, p: NodeId, w: Loop)
    requires Bounds(w) && Placed(w) && w.ns <= w.ne
    requires Parent(w.st.doc, p) && w.st.doc.kids[p] == Elms(w.newCh[..w.ns]) + Elms(w.newCh[w.ne + 1..])
    requires forall j :: w.ns <= j < w.ne + 1 ==> w.newCh[j].Some? && Renderable(w.newCh[j].value)
    ensures var m := AddVnodes(c, w.st, Some(p), RefAfter(w), w.newCh, w.ns, w.ne + 1);
      Parent(m.st.doc, p) && m.st.doc.kids[p] == Elms(m.items)
  {
    BeforeIsHead(w);
    AddJoin(c, w.st, p, RefAfter(w), w.newCh, w.ns, w.ne + 1);
  }

  /** The new children left over are created between the placed front and the placed back. */
  lemma AddLeftovers(c: Cfg, p: NodeId, pv: VNode, old0: seq<Option<VNode>>, w: Loop)
    requires pv.children.Array? && Inv(old0, pv.children.items, p, w) && NewLeaves(pv.children.items)
    requires w.os > w.oe && w.ns <= w.ne
    ensures var m := Leftovers(c, Some(p), pv, w);
      Parent(m.st.doc, p) && m.st.doc.kids[p] == Elms(m.items) && Bound(m.items)
  {
    EmptyOldWindow(w);
    assert forall j :: w.ns <= j < w.ne + 1 ==> w.newCh[j] == pv.children.items[j];
    AddTail(c, p, w);
    AddTailBound(c, p, w);
    LeftoversIsAdd(c, p, pv, w);
  }

  /** The old slots left in the window are bound leaves whose removal completes at once. */
  lemma RemoveSlots(c: Cfg, old0: seq<Option<VNode>>, oldCh: seq<Option<VNode>>, lo: nat, hi: nat)
    requires OldLeaves(old0) && RemovedAtOnce(c, old0) && Tombstoned(old0, oldCh) && lo <= hi <= |oldCh|
    ensures forall j :: lo <= j < hi && oldCh[j].Some? ==>
      oldCh[j].value.elm.Some? && (oldCh[j].value.sel.Some? ==> Synchronous(c, oldCh[j].value))
  {
    forall j | lo <= j < hi && oldCh[j].Some?
      ensures oldCh[j].value.elm.Some? && (oldCh[j].value.sel.Some? ==> Synchronous(c, oldCh[j].value))
    {
      OldSlot(old0, oldCh, j);
    }
  }

  /** removeVnodes of the old window, between the placed front and the placed back. */
  lemma RemoveTail(c: Cfg, p: NodeId, w: Loop)
    requires Bounds(w) && Placed(w) && w.os <= w.oe && w.ns == w.ne + 1
    requires Parent(w.st.doc, p) && w.st.doc.kids[p] == Layout(w)
    requires forall j :: w.os <= j < w.oe + 1 && w.oldCh[j].Some? ==>
      w.oldCh[j].value.elm.Some? && (w.oldCh[j].value.sel.Some? ==> Synchronous(c, w.oldCh[j].value))
    ensures var s' := RemoveVnodes(c, w.st, Some(p), w.oldCh, w.os, w.oe + 1);
      Parent(s'.doc, p) && s'.doc.kids[p] == Elms(w.newCh) && Bound(w.newCh)
  {
    var P := Elms(w.newCh[..w.ns]);
    var S := Elms(w.newCh[w.ne + 1..]);
    RemoveLeaves(c, w.st, p, w.oldCh, w.os, w.oe + 1, w.oe + 1, P, S);
    assert w.oldCh[w.oe + 1..w.oe + 1] == [];
    AppendNil(P);
    Closed(w);
  }

  /** The old children left over are removed from between the placed front and the placed back. */
  lemma RemoveLeftovers(c: Cfg, p: NodeId, pv: VNode, old0: seq<Option<VNode>>, w: Loop)
    requires pv.children.Array? && Inv(old0, pv.children.items, p, w) && !Running(w)
    requires OldLeaves(old0) && RemovedAtOnce(c, old0)
    requires w.os <= w.oe
    ensures var m := Leftovers(c, Some(p), pv, w);
      Parent(m.st.doc, p) && m.st.doc.kids[p] == Elms(m.items) && Bound(m.items)
  {
    RemoveSlots(c, old0, w.oldCh, w.os, w.oe + 1);
    RemoveTail(c, p, w);
    LeftoversIsRemove(c, p, pv, w);
  }

  /** Both windows ran out together: nothing is left to add or remove. */
  lemma NoLeftovers(c: Cfg, p: NodeId, pv: VNode, old0: seq<Option<VNode>>, w: Loop)
    requires pv.children.Array? && Inv(old0, pv.children.items, p, w) && !Running(w)
    requires w.os > w.oe && w.ns > w.ne
    ensures var m := Leftovers(c, Some(p), pv, w);
      Parent(m.st.doc, p) && m.st.doc.kids[p] == Elms(m.items) && Bound(m.items)
  {
    EmptyOldWindow(w);
    Closed(w);
  }

  /** Before the loop, the layout is the old children's host nodes. */
  lemma StartInv(s: St, p: NodeId, old0: seq<Option<VNode>>, items: seq<Option<VNode>>)
    requires Parent(s.doc, p) && s.doc.kids[p] == Elms(old0)
    ensures Inv(old0, items, p, Start(s, old0, items))
  {
    var u := Start(s, old0, items);
    assert u.newCh[..u.ns] == [] && u.newCh[u.ne + 1..] == [] && u.oldCh[u.os..u.oe + 1] == old0;
    AppendNil(Elms(old0));
  }

  /**
   * The order theorem of updateChildren: for flat lists (leaf children, each new key looked up
   * once, matching keys and selectors meaning the same vnode, removal completing at once), once
   * updateChildren returns, the element's child list is exactly the host nodes of the new
   * children, in the order of the new children array, and every new child is bound to one.
   */
  lemma UpdateChildrenOrder(c: Cfg, s: St, p: NodeId, old0: seq<Option<VNode>>, pv: VNode)
    requires pv.children.Array? && Flat(c, p, s.doc, old0, pv.children.items)
    ensures var m := UpdateChildren(c, s, Some(p), old0, pv);
      Parent(m.st.doc, p) && m.st.doc.kids[p] == Elms(m.items) && Bound(m.items)
  {
    var u := Start(s, old0, pv.children.items);
    StartInv(s, p, old0, pv.children.items);
    RunKeeps(c, p, pv, old0, u);
    var w := Run(c, Some(p), pv, u);
    if w.os > w.oe && w.ns <= w.ne {
      AddLeftovers(c, p, pv, old0, w);
    } else if w.os <= w.oe {
      RemoveLeftovers(c, p, pv, old0, w);
    } else {
      NoLeftovers(c, p, pv, old0, w);
    }
  }

  // ----- replacing the root (src/init.ts:513-526) -----

  /** Inserting `y` before the next sibling of `e` puts it right after `e`. */
  lemma InsertAfter<T>(A: seq<T>, e: T, B: seq<T>, y: T)
    requires NoDups(A + [e] + B)
    ensures InsertBefore(A + [e] + B, y, if |B| > 0 then Some(B[0]) else None) == A + [e, y] + B
  {
    if |B| > 0 {
      NoDupsAppend(A + [e], B);
      assert B[0] in B;
      assert A + [e] + B == (A + [e]) + [B[0]] + B[1..];
      InsertBeforeAt(A + [e], B[0], B[1..], y);
      assert (A + [e]) + [y] + [B[0]] + B[1..] == A + [e, y] + B;
    } else {
      InsertBeforeNone(A + [e] + B, y);
      assert A + [e] + B + [y] == A + [e, y] + B;
    }
  }

  lemma Regroup<T>(A: seq<T>, e: T, y: T, B: seq<T>)
    ensures A + [e, y] + B == A + [e] + ([y] + B)
  {
    assert [e, y] == [e] + [y];
  }

  /** `insertBefore(q, y, nextSibling(e))` for a detached node `y`: it lands right after `e`. */
  lemma InsertAfterDoc(d: Doc, q: NodeId, A: seq<NodeId>, e: NodeId, B: seq<NodeId>, y: NodeId)
    requires Parent(d, q) && d.kids[q] == A + [e] + B
    requires y in d.nodes && y !in d.parent && y != q && y !in d.kids[q]
    ensures var d' := InsertedAt(d, Some(q), Some(y), NextSiblingAt(d, Some(e)));
      Parent(d', q) && d'.kids[q] == A + [e] + ([y] + B)
  {
    NextSiblingIs(d, q, A, e, B);
    var K := A + [e] + B;
    var ref := if |B| > 0 then Some(B[0]) else None;
    Regroup(A, e, y, B);
    if |B| > 0 {
      assert K[|A| + 1] == B[0];
    }
    InsertNextTo(d, q, K, y, ref);
    InsertAfter(A, e, B, y);
  }

  lemma InsertNextTo(d: Doc, q: NodeId, K: seq<NodeId>, y: NodeId, ref: Option<NodeId>)
    requires Parent(d, q) && d.kids[q] == K && y in d.nodes && y !in d.parent && y != q
    requires ref.Some? ==> ref.value in K && ref.value != y
    ensures var d' := InsertedAt(d, Some(q), Some(y), ref);
      Parent(d', q) && d'.kids[q] == InsertBefore(K, y, ref)
  {
    InsertedNew(d, q, y, ref);
  }

  /** The first half of replacing the root: the new root's fresh host node goes in just after
      the old one's. */
  lemma ReplaceInserts(c: Cfg, s: St, q: NodeId, v: VNode, A: seq<NodeId>, e: NodeId, B: seq<NodeId>)
    requires Parent(s.doc, q) && s.doc.kids[q] == A + [e] + B && Renderable(v)
    ensures var n := Creation.Create(c, s, v);
      var d := InsertedAt(n.st.doc, Some(q), n.r.elm, NextSiblingAt(n.st.doc, Some(e)));
      && n.r.elm == Some(s.doc.next) && Parent(d, q) && d.kids[q] == A + [e] + ([s.doc.next] + B)
  {
    CreateFresh(c, s, v, q);
    var n := Creation.Create(c, s, v);
    InsertAfterDoc(n.st.doc, q, A, e, B, s.doc.next);
  }

  /** The second half: the old root's host node leaves `q`. */
  lemma ReplaceRemoves(c: Cfg, st: St, q: NodeId, o: VNode, A: seq<NodeId>, R: seq<NodeId>)
    requires Parent(st.doc, q) && o.elm.Some? && st.doc.kids[q] == A + [o.elm.value] + R
    requires o.sel.Some? ==> Synchronous(c, o)
    ensures var m := RemoveVnodes(c, st, Some(q), [Some(o)], 0, 1);
      Parent(m.doc, q) && m.doc.kids[q] == A + R
  {
    assert RemoveVnodes(c, st, Some(q), [Some(o)], 0, 1) == RemoveOne(c, st, Some(q), Some(o));
    RemoveOneKid(c, st, q, A, o, R);
  }

  /**
   * When the new root is not the same vnode as the old one and the old root's host node `e` sits
   * in the element `q`, `patch` first inserts the new root's fresh host node `y` into `q` just
   * after `e` (`ReplaceInserts`: both are then children of `q`), and then removes the old vnode:
   * `y` ends up in `e`'s place in `q`'s child list, everything else in `q` staying where it was.
   */
  lemma ReplaceDoc(c: Cfg, s: St, q: NodeId, o: VNode, v: VNode, A: seq<NodeId>, B: seq<NodeId>)
    requires Parent(s.doc, q) && o.elm.Some? && s.doc.kids[q] == A + [o.elm.value] + B
    requires !SameVnode(o, v) && Renderable(v) && (o.sel.Some? ==> Synchronous(c, o))
    ensures ParentAt(s.doc, o.elm) == Some(q)
    ensures var m := Replace(c, s, o, v);
      && m.r.elm == Some(s.doc.next)
      && Parent(m.st.doc, q) && m.st.doc.kids[q] == A + [s.doc.next] + B
  {
    ParentOfKid(s.doc, q, A, o.elm.value, B);
    ReplaceInserts(c, s, q, v, A, o.elm.value, B);
    var n := Creation.Create(c, s, v);
    var d := InsertedAt(n.st.doc, Some(q), n.r.elm, NextSiblingAt(n.st.doc, o.elm));
    ReplaceRemoves(c, n.st.(doc := d), q, o, A, [s.doc.next] + B);
    ReplaceUnfold(c, s, q, o, v);
  }

  lemma ParentOfKid(d: Doc, q: NodeId, A: seq<NodeId>, e: NodeId, B: seq<NodeId>)
    requires Parent(d, q) && d.kids[q] == A + [e] + B
    ensures ParentAt(d, Some(e)) == Some(q)
  {
    assert e in d.kids[q];
  }

  /** `patch`'s replacement branch when the old root's host node has a parent `q`. */
  lemma ReplaceUnfold(c: Cfg, s: St, q: NodeId, o: VNode, v: VNode)
    requires !SameVnode(o, v) && ParentAt(s.doc, o.elm) == Some(q)
    ensures var n := Creation.Create(c, s, v);
      var d := InsertedAt(n.st.doc, Some(q), n.r.elm, NextSiblingAt(n.st.doc, o.elm));
      Replace(c, s, o, v) == Made(RemoveVnodes(c, n.st.(doc := d), Some(q), [Some(o)], 0, 1), n.r)
  {
  }
}
