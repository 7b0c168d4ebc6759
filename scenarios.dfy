/**
 * Four runs of updateChildren (src/init.ts:282-418) followed step by step on keyed list items
 * that carry data but no hooks, no text and no children.
 */
module Scenarios {
  import opened Wrappers
  import opened VNodes
  import opened HookTable
  import opened HostTree
  import opened Events
  import opened Machine
  import opened Reconcile
  import opened Order
  import opened Teardown

  /** `h('li', {key: k})`, bound to the host node `e` once it has been rendered. */
  function Li(k: string, e: Option<NodeId>): VNode {
    VNode(Some("li"), Some(k), Some(Data(None, None, NoHooks)), Missing, None, e)
  }

  /** The module `update` hooks, called on the host node `e`. */
  function Updates(c: Cfg, e: NodeId): seq<Event> {
    ModuleCalls(Phase.Update, c.cbs.update, Some(e))
  }

  /** Patching a rendered item with its new version only calls the module `update` hooks: the
      host node and the document are left alone. */
  lemma PatchLi(c: Cfg, s: St, k: string, e: NodeId)
    ensures PatchVnode(c, s, Li(k, Some(e)), Li(k, None)) == Made(Emit(s, Updates(c, e)), Li(k, Some(e)))
  {
    assert Emit(s, []) == s;
    var s2 := Emit(s, Updates(c, e));
    assert PatchContent(c, s2, Li(k, Some(e)), Li(k, None)) == Made(s2, Li(k, Some(e)));
    assert Emit(s2, []) == s2;
  }

  // ----- [a, b, c] becomes [c, a, b] -----

  function RotOld(a1: NodeId, a2: NodeId, a3: NodeId): seq<Option<VNode>> {
    [Some(Li("a", Some(a1))), Some(Li("b", Some(a2))), Some(Li("c", Some(a3)))]
  }

  function RotNew(): seq<Option<VNode>> {
    [Some(Li("c", None)), Some(Li("a", None)), Some(Li("b", None))]
  }

  /** First iteration: the old end `c` is the new start, so it is patched and moved before `a`. */
  lemma RotFirst(c: Cfg, s: St, p: NodeId, a1: NodeId, a2: NodeId, a3: NodeId, pv: VNode)
    requires pv.children == Array(RotNew())
    ensures var u := Start(s, RotOld(a1, a2, a3), RotNew());
      var s1 := Emit(s, Updates(c, a3));
      var newCh := RotNew()[0 := Some(Li("c", Some(a3)))];
      && Shape(pv.children.items, u) && Running(u)
      && Step(c, Some(p), pv, u)
         == u.(st := s1.(doc := InsertedAt(s.doc, Some(p), Some(a3), Some(a1))), newCh := newCh,
               oe := 1, oldEnd := Some(Li("b", Some(a2))), ns := 1, newStart := Some(Li("a", None)))
  {
    var u := Start(s, RotOld(a1, a2, a3), RotNew());
    PatchLi(c, s, "c", a3);
    assert Step(c, Some(p), pv, u) == MovedLeft(c, Some(p), pv, u);
  }

  /** The loop after the first iteration, with the state `st` it has reached. */
  function RotAt(st: St, a1: NodeId, a2: NodeId, a3: NodeId, done: seq<Option<VNode>>, k: int): Loop {
    Loop(st, RotOld(a1, a2, a3), done, k, 1, k + 1, 2,
         Get(RotOld(a1, a2, a3), k), Some(Li("b", Some(a2))), Get(done, k + 1), Some(Li("b", None)), None)
  }

  /** Second iteration: the starts are both `a`, which is patched in place. */
  lemma RotSecond(c: Cfg, s1: St, a1: NodeId, a2: NodeId, a3: NodeId, p: NodeId, pv: VNode)
    requires pv.children == Array(RotNew())
    ensures var u := RotAt(s1, a1, a2, a3, RotNew()[0 := Some(Li("c", Some(a3)))], 0);
      && Shape(pv.children.items, u) && Running(u)
      && Step(c, Some(p), pv, u)
         == RotAt(Emit(s1, Updates(c, a1)), a1, a2, a3, RotNew()[0 := Some(Li("c", Some(a3)))][1 := Some(Li("a", Some(a1)))], 1)
  {
    var u := RotAt(s1, a1, a2, a3, RotNew()[0 := Some(Li("c", Some(a3)))], 0);
    PatchLi(c, s1, "a", a1);
    assert Step(c, Some(p), pv, u) == PatchStarts(c, pv, u);
  }

  /** Third iteration: the starts are both `b`, which is patched in place; both windows are
      then empty. */
  lemma RotThird(c: Cfg, s2: St, a1: NodeId, a2: NodeId, a3: NodeId, p: NodeId, pv: VNode)
    requires pv.children == Array(RotNew())
    ensures var u := RotAt(s2, a1, a2, a3, RotNew()[0 := Some(Li("c", Some(a3)))][1 := Some(Li("a", Some(a1)))], 1);
      var w := Step(c, Some(p), pv, u);
      && Shape(pv.children.items, u) && Running(u) && !Running(w)
      && w.st == Emit(s2, Updates(c, a2)) && w.os == 2 && w.oe == 1 && w.ns == 3 && w.ne == 2
      && w.newCh == [Some(Li("c", Some(a3))), Some(Li("a", Some(a1))), Some(Li("b", Some(a2)))]
  {
    var u := RotAt(s2, a1, a2, a3, RotNew()[0 := Some(Li("c", Some(a3)))][1 := Some(Li("a", Some(a1)))], 1);
    PatchLi(c, s2, "b", a2);
    assert Step(c, Some(p), pv, u) == PatchStarts(c, pv, u);
  }

  /** Second and third iterations, and the end of the loop. */
  lemma RotRest(c: Cfg, s1: St, a1: NodeId, a2: NodeId, a3: NodeId, p: NodeId, pv: VNode)
    requires pv.children == Array(RotNew())
    ensures var u := RotAt(s1, a1, a2, a3, RotNew()[0 := Some(Li("c", Some(a3)))], 0);
      var w := Run(c, Some(p), pv, u);
      && Shape(pv.children.items, u)
      && w.st == Emit(Emit(s1, Updates(c, a1)), Updates(c, a2))
      && w.newCh == [Some(Li("c", Some(a3))), Some(Li("a", Some(a1))), Some(Li("b", Some(a2)))]
      && w.os == 2 && w.oe == 1 && w.ns == 3 && w.ne == 2
  {
    RotSecond(c, s1, a1, a2, a3, p, pv);
    RotThird(c, Emit(s1, Updates(c, a1)), a1, a2, a3, p, pv);
    var u := RotAt(s1, a1, a2, a3, RotNew()[0 := Some(Li("c", Some(a3)))], 0);
    var u2 := Step(c, Some(p), pv, u);
    var w := Step(c, Some(p), pv, u2);
    assert Run(c, Some(p), pv, u) == Run(c, Some(p), pv, u2);
    assert Run(c, Some(p), pv, u2) == Run(c, Some(p), pv, w) == w;
  }

  /** The whole loop: `c` moved before `a`, then `a` and `b` patched in place. */
  lemma RotLoop(c: Cfg, s: St, p: NodeId, a1: NodeId, a2: NodeId, a3: NodeId, pv: VNode)
    requires pv.children == Array(RotNew())
    ensures var w := Run(c, Some(p), pv, Start(s, RotOld(a1, a2, a3), RotNew()));
      && Shape(pv.children.items, w) && w.os == 2 && w.oe == 1 && w.ns == 3 && w.ne == 2
      && w.st == Emit(Emit(Emit(s, Updates(c, a3)), Updates(c, a1)), Updates(c, a2))
                   .(doc := InsertedAt(s.doc, Some(p), Some(a3), Some(a1)))
      && w.newCh == [Some(Li("c", Some(a3))), Some(Li("a", Some(a1))), Some(Li("b", Some(a2)))]
  {
    var u := Start(s, RotOld(a1, a2, a3), RotNew());
    RotFirst(c, s, p, a1, a2, a3, pv);
    var u1 := Step(c, Some(p), pv, u);
    RotRest(c, u1.st, a1, a2, a3, p, pv);
    assert Run(c, Some(p), pv, u) == Run(c, Some(p), pv, u1);
  }

  /** The move of the first iteration: `a3` goes before `a1`, and no node is added. */
  lemma RotDoc(d: Doc, p: NodeId, a1: NodeId, a2: NodeId, a3: NodeId)
    requires Parent(d, p) && d.kids[p] == [a1, a2, a3]
    ensures var d' := InsertedAt(d, Some(p), Some(a3), Some(a1));
      Parent(d', p) && d'.kids[p] == [a3, a1, a2] && d'.next == d.next
  {
    assert d.kids[p] == [] + [a1] + [a2] + [a3] + [];
    MovedLeftDoc(d, p, [], a1, [a2], a3, []);
    assert a3 in d.kids[p];
  }

  /**
   * Reordering keyed children that are all kept: rendering [a, b, c] as [c, a, b] moves the
   * host node of `c` in front of `a`'s and re-binds every new child to the host node its key had
   * before. Nothing is created and nothing destroyed or removed: the only hook calls are the
   * module `update` hooks of the three patched children, the next free host id and the insert
   * queue are unchanged, and the parent keeps the same multiset of host children.
   */
  lemma KeyedRotation(c: Cfg, s: St, p: NodeId, a1: NodeId, a2: NodeId, a3: NodeId, pv: VNode)
    requires Parent(s.doc, p) && s.doc.kids[p] == [a1, a2, a3]
    requires pv.children == Array(RotNew())
    ensures var m := UpdateChildren(c, s, Some(p), RotOld(a1, a2, a3), pv);
      && m.items == [Some(Li("c", Some(a3))), Some(Li("a", Some(a1))), Some(Li("b", Some(a2)))]
      && m.st.trace == s.trace + Updates(c, a3) + Updates(c, a1) + Updates(c, a2)
      && m.st.doc.next == s.doc.next && m.st.queue == s.queue
      && Parent(m.st.doc, p) && m.st.doc.kids[p] == [a3, a1, a2]
      && multiset(m.st.doc.kids[p]) == multiset(s.doc.kids[p])
  {
    RotLoop(c, s, p, a1, a2, a3, pv);
    RotDoc(s.doc, p, a1, a2, a3);
    var w := Run(c, Some(p), pv, Start(s, RotOld(a1, a2, a3), RotNew()));
    assert UpdateChildren(c, s, Some(p), RotOld(a1, a2, a3), pv) == MadeAll(w.st, w.newCh);
  }

  // ----- a null slot before the last new child -----

  function NsOld(x: NodeId, y: NodeId): seq<Option<VNode>> {
    [Some(Li("c", Some(x))), Some(Li("a", Some(y)))]
  }

  function NsNew(): seq<Option<VNode>> {
    [Some(Li("a", None)), Some(Li("b", None)), None, Some(Li("c", None))]
  }

  /** First iteration: the old start `c` is the new end, so it is patched and moved after the
      old end `a`, that is to the end of the parent. */
  lemma NsFirst(c: Cfg, s: St, p: NodeId, x: NodeId, y: NodeId, pv: VNode)
    requires pv.children == Array(NsNew())
    ensures var u := Start(s, NsOld(x, y), NsNew());
      var s1 := Emit(s, Updates(c, x));
      && Shape(pv.children.items, u) && Running(u)
      && Step(c, Some(p), pv, u)
         == u.(st := s1.(doc := InsertedAt(s.doc, Some(p), Some(x), NextSiblingAt(s.doc, Some(y)))),
               newCh := NsNew()[3 := Some(Li("c", Some(x)))],
               os := 1, oldStart := Some(Li("a", Some(y))), ne := 2, newEnd := None)
  {
    var u := Start(s, NsOld(x, y), NsNew());
    PatchLi(c, s, "c", x);
    assert Step(c, Some(p), pv, u) == MovedRight(c, Some(p), pv, u);
  }

  /** The move of the first iteration: `x` goes after `y`, at the end of `p`. */
  lemma NsMoveDoc(d: Doc, p: NodeId, x: NodeId, y: NodeId)
    requires Parent(d, p) && d.kids[p] == [x, y]
    ensures var d' := InsertedAt(d, Some(p), Some(x), NextSiblingAt(d, Some(y)));
      Parent(d', p) && d'.kids[p] == [y, x] && d'.next == d.next
  {
    assert d.kids[p] == [x] + [y] + [];
    NextSiblingIs(d, p, [x], y, []);
    assert d.kids[p] == [] + [x] + [y] + [];
    MoveLaterDoc(d, p, [], x, [y], [], None);
  }

  /** The loop after the first iteration, with the state `st` it has reached. */
  function NsAt(st: St, x: NodeId, y: NodeId, ne: int, newEnd: Option<VNode>): Loop {
    Loop(st, NsOld(x, y), NsNew()[3 := Some(Li("c", Some(x)))], 1, 1, 0, ne,
         Some(Li("a", Some(y))), Some(Li("a", Some(y))), Some(Li("a", None)), newEnd, None)
  }

  /** Second iteration: the new end is the null slot, which is skipped. Third: the starts are
      both `a`, which is patched in place, and the old window is then empty. */
  lemma NsRest(c: Cfg, s1: St, p: NodeId, x: NodeId, y: NodeId, pv: VNode)
    requires pv.children == Array(NsNew())
    ensures var u := NsAt(s1, x, y, 2, None);
      var w := Run(c, Some(p), pv, u);
      && Shape(pv.children.items, u)
      && w.st == Emit(s1, Updates(c, y)) && w.os == 2 && w.oe == 1 && w.ns == 1 && w.ne == 1
      && w.newCh == [Some(Li("a", Some(y))), Some(Li("b", None)), None, Some(Li("c", Some(x)))]
  {
    var u := NsAt(s1, x, y, 2, None);
    var u2 := Step(c, Some(p), pv, u);
    assert u2 == NsAt(s1, x, y, 1, Some(Li("b", None)));
    PatchLi(c, s1, "a", y);
    var w := Step(c, Some(p), pv, u2);
    assert w == PatchStarts(c, pv, u2);
    assert Run(c, Some(p), pv, u) == Run(c, Some(p), pv, u2);
    assert Run(c, Some(p), pv, u2) == Run(c, Some(p), pv, w) == w;
  }

  /** `addVnodes` over the one slot of `b`: create it and insert it at the end of `p`. */
  lemma NsAdd(c: Cfg, st: St, p: NodeId, vs: seq<Option<VNode>>)
    requires |vs| == 4 && vs[1] == Some(Li("b", None))
    ensures var n := Creation.Create(c, st, Li("b", None));
      Creation.AddVnodes(c, st, Some(p), None, vs, 1, 2)
      == MadeAll(n.st.(doc := InsertedAt(n.st.doc, Some(p), n.r.elm, None)), vs[1 := Some(n.r)])
  {
    assert Creation.AddVnodes(c, st, Some(p), None, vs, 1, 1) == MadeAll(st, vs);
  }

  /** The leftovers step: `b` is the only new vnode left, the slot after it is null, so its new
      host node is appended to the parent. */
  lemma NsLeftovers(c: Cfg, st: St, p: NodeId, x: NodeId, y: NodeId, pv: VNode, w: Loop)
    requires Parent(st.doc, p) && st.doc.kids[p] == [y, x]
    requires pv.children == Array(NsNew()) && Shape(pv.children.items, w)
    requires w.st == st && w.os == 2 && w.oe == 1 && w.ns == 1 && w.ne == 1
    requires w.newCh == [Some(Li("a", Some(y))), Some(Li("b", None)), None, Some(Li("c", Some(x)))]
    ensures var m := Leftovers(c, Some(p), pv, w);
      && m.items[0] == w.newCh[0] && m.items[2] == w.newCh[2] && m.items[3] == w.newCh[3]
      && m.items[1].Some? && m.items[1].value.elm == Some(st.doc.next)
      && Parent(m.st.doc, p) && m.st.doc.kids[p] == [y, x, st.doc.next]
  {
    NsAppend(c, st, p, w.newCh);
    assert Leftovers(c, Some(p), pv, w) == Creation.AddVnodes(c, st, Some(p), None, w.newCh, 1, 2);
  }

  /** The new host node of `b` goes at the end of `p`. */
  lemma NsAppend(c: Cfg, st: St, p: NodeId, vs: seq<Option<VNode>>)
    requires Parent(st.doc, p) && |vs| == 4 && vs[1] == Some(Li("b", None))
    ensures var m := Creation.AddVnodes(c, st, Some(p), None, vs, 1, 2);
      && m.items == vs[1 := m.items[1]] && m.items[1].Some? && m.items[1].value.elm == Some(st.doc.next)
      && Parent(m.st.doc, p) && m.st.doc.kids[p] == st.doc.kids[p] + [st.doc.next]
  {
    var b := Li("b", None);
    CreateFresh(c, st, b, p);
    var n := Creation.Create(c, st, b);
    InsertNextTo(n.st.doc, p, st.doc.kids[p], st.doc.next, None);
    Seqs.InsertBeforeNone(st.doc.kids[p], st.doc.next);
    NsAdd(c, st, p, vs);
  }

  /**
   * A null slot just before the last new child: with old children [c, a] on host nodes [x, y]
   * and new children [a, b, null, c], `a` keeps `y`, `c` keeps `x` and `b` gets a fresh node,
   * but the fresh node is appended after `x` instead of going between `y` and `x`: the parent
   * ends up with [y, x, fresh] although the new array's order is a, b, c.
   */
  lemma NullSlotAppends(c: Cfg, s: St, p: NodeId, x: NodeId, y: NodeId, pv: VNode)
    requires Parent(s.doc, p) && s.doc.kids[p] == [x, y]
    requires pv.children == Array(NsNew())
    ensures var m := UpdateChildren(c, s, Some(p), NsOld(x, y), pv);
      && m.items[0] == Some(Li("a", Some(y))) && m.items[2].None? && m.items[3] == Some(Li("c", Some(x)))
      && m.items[1].Some? && m.items[1].value.elm == Some(s.doc.next)
      && Parent(m.st.doc, p) && m.st.doc.kids[p] == [y, x, s.doc.next]
  {
    var u := Start(s, NsOld(x, y), NsNew());
    NsFirst(c, s, p, x, y, pv);
    var u1 := Step(c, Some(p), pv, u);
    NsMoveDoc(s.doc, p, x, y);
    assert u1 == NsAt(u1.st, x, y, 2, None);
    NsRest(c, u1.st, p, x, y, pv);
    assert Run(c, Some(p), pv, u) == Run(c, Some(p), pv, u1);
    var w := Run(c, Some(p), pv, u1);
    assert w.st.doc == u1.st.doc;
    NsLeftovers(c, w.st, p, x, y, pv, w);
  }

  // ----- [a, b] becomes [a, x, b] -----

  function InsOld(a1: NodeId, a2: NodeId): seq<Option<VNode>> {
    [Some(Li("a", Some(a1))), Some(Li("b", Some(a2)))]
  }

  function InsNew(): seq<Option<VNode>> {
    [Some(Li("a", None)), Some(Li("x", None)), Some(Li("b", None))]
  }

  /** Rendering a new item creates one host element, calls the module `create` hooks on it and
      binds the item to it; nothing is queued. */
  lemma CreateLi(c: Cfg, s: St, k: string)
    ensures var n := Creation.Create(c, s, Li(k, None));
      && n.r == Li(k, Some(s.doc.next)) && n.st.doc.next == s.doc.next + 1 && n.st.queue == s.queue
      && n.st.trace == s.trace + ModuleCalls(Phase.Create, c.cbs.create, Some(s.doc.next))
  {
    var v := Li(k, None);
    assert Emit(s, []) == s;
    var s1 := Emit(s.(doc := Creation.NewElementDoc(s.doc, "li", None)), ModuleCalls(Phase.Create, c.cbs.create, Some(s.doc.next)));
    assert s1.doc.next == s.doc.next + 1;
    assert Creation.ElementContent(c, s1, s.doc.next, v) == Made(s1, Li(k, Some(s.doc.next)));
    assert Emit(s1, []) == s1;
  }

  /** Both iterations: the starts are both `a`, then the ends are both `b`; each is patched in
      place and the old window is then empty. */
  lemma InsLoop(c: Cfg, s: St, p: NodeId, a1: NodeId, a2: NodeId, pv: VNode)
    requires pv.children == Array(InsNew())
    ensures var w := Run(c, Some(p), pv, Start(s, InsOld(a1, a2), InsNew()));
      && w.st == Emit(Emit(s, Updates(c, a1)), Updates(c, a2))
      && w.os == 1 && w.oe == 0 && w.ns == 1 && w.ne == 1
      && w.newCh == [Some(Li("a", Some(a1))), Some(Li("x", None)), Some(Li("b", Some(a2)))]
  {
    var u := Start(s, InsOld(a1, a2), InsNew());
    PatchLi(c, s, "a", a1);
    var u1 := Step(c, Some(p), pv, u);
    assert u1 == PatchStarts(c, pv, u);
    var s1 := Emit(s, Updates(c, a1));
    PatchLi(c, s1, "b", a2);
    var w := Step(c, Some(p), pv, u1);
    assert w == PatchEnds(c, pv, u1);
    assert Run(c, Some(p), pv, u) == Run(c, Some(p), pv, u1);
    assert Run(c, Some(p), pv, u1) == Run(c, Some(p), pv, w) == w;
  }

  /** `addVnodes` over the one slot of `x`, before the host node of `b`. */
  lemma InsAdd(c: Cfg, st: St, p: NodeId, a2: NodeId, vs: seq<Option<VNode>>)
    requires |vs| == 3 && vs[1] == Some(Li("x", None))
    ensures var n := Creation.Create(c, st, Li("x", None));
      Creation.AddVnodes(c, st, Some(p), Some(a2), vs, 1, 2)
      == MadeAll(n.st.(doc := InsertedAt(n.st.doc, Some(p), n.r.elm, Some(a2))), vs[1 := Some(n.r)])
  {
    assert Creation.AddVnodes(c, st, Some(p), Some(a2), vs, 1, 1) == MadeAll(st, vs);
  }

  /** A detached node inserted before the second of two children lands between them. */
  lemma InsBetweenDoc(d: Doc, p: NodeId, a1: NodeId, a2: NodeId, y: NodeId)
    requires Parent(d, p) && d.kids[p] == [a1, a2] && y in d.nodes && y !in d.parent && y != p
    ensures var d' := InsertedAt(d, Some(p), Some(y), Some(a2));
      Parent(d', p) && d'.kids[p] == [a1, y, a2]
  {
    assert Seqs.NoDups(d.kids[p]);
    assert d.kids[p][0] != d.kids[p][1];
    InsertNextTo(d, p, [a1, a2], y, Some(a2));
    assert [a1, a2] == [a1] + [a2] + [];
    Seqs.InsertBeforeAt([a1], a2, [], y);
  }

  /** The new host node of `x` goes in between those of `a` and `b`. */
  lemma InsBetween(c: Cfg, st: St, p: NodeId, a1: NodeId, a2: NodeId, vs: seq<Option<VNode>>)
    requires Parent(st.doc, p) && st.doc.kids[p] == [a1, a2]
    requires |vs| == 3 && vs[1] == Some(Li("x", None))
    ensures var m := Creation.AddVnodes(c, st, Some(p), Some(a2), vs, 1, 2);
      && m.items == vs[1 := Some(Li("x", Some(st.doc.next)))]
      && m.st.trace == st.trace + ModuleCalls(Phase.Create, c.cbs.create, Some(st.doc.next))
      && m.st.doc.next == st.doc.next + 1 && m.st.queue == st.queue
      && Parent(m.st.doc, p) && m.st.doc.kids[p] == [a1, st.doc.next, a2]
  {
    var x := Li("x", None);
    CreateFresh(c, st, x, p);
    CreateLi(c, st, "x");
    var n := Creation.Create(c, st, x);
    InsBetweenDoc(n.st.doc, p, a1, a2, st.doc.next);
    InsAdd(c, st, p, a2, vs);
  }

  /**
   * Pure insertion: rendering [a, b] as [a, x, b] keeps the host nodes of `a` and `b`, creates
   * exactly one host node for `x` and inserts it between them. The hook calls are the module
   * `update` hooks of `a` and `b`, then the module `create` hooks of the new node.
   */
  lemma PureInsertion(c: Cfg, s: St, p: NodeId, a1: NodeId, a2: NodeId, pv: VNode)
    requires Parent(s.doc, p) && s.doc.kids[p] == [a1, a2]
    requires pv.children == Array(InsNew())
    ensures var m := UpdateChildren(c, s, Some(p), InsOld(a1, a2), pv);
      && m.items == [Some(Li("a", Some(a1))), Some(Li("x", Some(s.doc.next))), Some(Li("b", Some(a2)))]
      && m.st.trace == s.trace + Updates(c, a1) + Updates(c, a2)
                       + ModuleCalls(Phase.Create, c.cbs.create, Some(s.doc.next))
      && m.st.doc.next == s.doc.next + 1 && m.st.queue == s.queue
      && Parent(m.st.doc, p) && m.st.doc.kids[p] == [a1, s.doc.next, a2]
  {
    InsLoop(c, s, p, a1, a2, pv);
    var w := Run(c, Some(p), pv, Start(s, InsOld(a1, a2), InsNew()));
    assert w.st.doc == s.doc;
    InsBetween(c, w.st, p, a1, a2, w.newCh);
    assert Leftovers(c, Some(p), pv, w) == Creation.AddVnodes(c, w.st, Some(p), Some(a2), w.newCh, 1, 2);
  }

  // ----- [a, b, c] becomes [a, c] -----

  function RemOld(a1: NodeId, a2: NodeId, a3: NodeId): seq<Option<VNode>> {
    [Some(Li("a", Some(a1))), Some(Li("b", Some(a2))), Some(Li("c", Some(a3)))]
  }

  function RemNew(): seq<Option<VNode>> {
    [Some(Li("a", None)), Some(Li("c", None))]
  }

  /** Both iterations: the starts are both `a`, then the ends are both `c`; each is patched in
      place and the new window is then empty, with `b` left in the old one. */
  lemma RemLoop(c: Cfg, s: St, p: NodeId, a1: NodeId, a2: NodeId, a3: NodeId, pv: VNode)
    requires pv.children == Array(RemNew())
    ensures var w := Run(c, Some(p), pv, Start(s, RemOld(a1, a2, a3), RemNew()));
      && w.st == Emit(Emit(s, Updates(c, a1)), Updates(c, a3))
      && w.oldCh == RemOld(a1, a2, a3) && w.os == 1 && w.oe == 1 && w.ns == 1 && w.ne == 0
      && w.newCh == [Some(Li("a", Some(a1))), Some(Li("c", Some(a3)))]
  {
    var u := Start(s, RemOld(a1, a2, a3), RemNew());
    PatchLi(c, s, "a", a1);
    var u1 := Step(c, Some(p), pv, u);
    assert u1 == PatchStarts(c, pv, u);
    var s1 := Emit(s, Updates(c, a1));
    PatchLi(c, s1, "c", a3);
    var w := Step(c, Some(p), pv, u1);
    assert w == PatchEnds(c, pv, u1);
    assert Run(c, Some(p), pv, u) == Run(c, Some(p), pv, u1);
    assert Run(c, Some(p), pv, u1) == Run(c, Some(p), pv, w) == w;
  }

  /**
   * Pure removal: rendering [a, b, c] as [a, c] keeps the host nodes of `a` and `c` and removes
   * `b`'s from the parent. The hook calls are the module `update` hooks of `a` and `c`, then
   * `b`'s removal events (its destroy cascade and the module `remove` hooks); nothing is
   * created or queued. The hypothesis is that the module `remove` callbacks call back at once,
   * so that the host node leaves its parent during the call.
   */
  lemma PureRemoval(c: Cfg, s: St, p: NodeId, a1: NodeId, a2: NodeId, a3: NodeId, pv: VNode)
    requires Parent(s.doc, p) && s.doc.kids[p] == [a1, a2, a3]
    requires pv.children == Array(RemNew())
    requires Synchronous(c, Li("b", Some(a2)))
    ensures var m := UpdateChildren(c, s, Some(p), RemOld(a1, a2, a3), pv);
      && m.items == [Some(Li("a", Some(a1))), Some(Li("c", Some(a3)))]
      && m.st.trace == s.trace + Updates(c, a1) + Updates(c, a3)
                       + RemoveEvents(Some(Li("b", Some(a2))), c.cbs.remove, c.cbs.destroy)
      && m.st.doc.next == s.doc.next && m.st.queue == s.queue
      && Parent(m.st.doc, p) && m.st.doc.kids[p] == [a1, a3]
  {
    RemLoop(c, s, p, a1, a2, a3, pv);
    var w := Run(c, Some(p), pv, Start(s, RemOld(a1, a2, a3), RemNew()));
    assert w.st.doc == s.doc;
    var b := Some(Li("b", Some(a2)));
    assert RemoveVnodes(c, w.st, Some(p), w.oldCh, 1, 1) == w.st && w.oldCh[1] == b;
    assert Leftovers(c, Some(p), pv, w) == MadeAll(RemoveOne(c, w.st, Some(p), b), w.newCh);
    RemoveOneTrace(c, w.st, Some(p), b);
    assert s.doc.kids[p] == [a1] + [a2] + [a3];
    RemoveOneKid(c, w.st, p, [a1], b.value, [a3]);
  }
}
