/**
 * Building new subtrees: createElm (src/init.ts:128-211) and addVnodes (src/init.ts:214-228),
 * as functions from the state before to the state after, with what they promise: the trace and
 * the insert queue they produce, and the fresh, detached host tree that mirrors the vnode.
 */
module Creation {
  import opened Wrappers
  import opened Seqs
  import opened VNodes
  import opened Selector
  import opened HookTable
  import opened HostTree
  import opened Events
  import opened Mount
  import opened Machine

  /**
   * createElm: the `init` hook, then a comment node (a missing text becomes ""), an element with
   * its subtree, or a text node. The new host node is the next free id, and `r` is `v` bound to it.
   */
  function Create(c: Cfg, s: St, v: VNode): (m: Made)
    decreases v, 2
    ensures m.r.elm == Some(s.doc.next) && s.doc.next < m.st.doc.next
    ensures Appends(s, m.st)
  {
    var e := s.doc.next;
    var s1 := Emit(s, HookIf(HooksOf(v).init, InitHook, Some(e)));
    if v.sel == Some(CommentSel) then
      var t := v.text.GetOr("");
      Made(s1.(doc := AddNode(s1.doc, Comment(t))), v.(text := Some(t), elm := Some(e)))
    else if v.sel.Some? then
      CreateElement(c, s1, v)
    else
      Made(s1.(doc := AddNode(s1.doc, Text(v.text.GetOr("undefined")))), v.(elm := Some(e)))
  }

  /** The new element for a selector: the parsed tag in the namespace, then its `id` and its
      `class` attribute when the parse yields them. */
  function NewElementDoc(d: Doc, sel: string, ns: Option<string>): Doc {
    var p := ParseSelector(sel);
    var d1 := AddNode(d, Element(p.tag, ns, map[]));
    var d2 := if p.id.Some? then WithAttribute(d1, d.next, "id", p.id.value) else d1;
    if p.cls.Some? then WithAttribute(d2, d.next, "class", p.cls.value) else d2
  }

  /** The element branch of createElm after `init`: the element, the module `create` hooks, the
      content, the node's own `create` hook, and the insert queue. */
  function CreateElement(c: Cfg, s: St, v: VNode): (m: Made)
    requires v.sel.Some?
    decreases v, 1
    ensures m.r.elm == Some(s.doc.next) && s.doc.next < m.st.doc.next
    ensures Appends(s, m.st)
  {
    var e := s.doc.next;
    var s1 := Emit(s.(doc := NewElementDoc(s.doc, v.sel.value, NsOf(v))), ModuleCalls(Phase.Create, c.cbs.create, Some(e)));
    var b := ElementContent(c, s1, e, v);
    var s2 := Emit(b.st, HookIf(HooksOf(v).create, CreateHook, Some(e)));
    Made(s2.(queue := s2.queue + if HooksOf(v).insert then [b.r] else []), b.r)
  }

  /** What goes into a new element `e`: its children when it has a children array, otherwise a
      single text node when it has text, otherwise nothing. */
  function ElementContent(c: Cfg, s: St, e: NodeId, v: VNode): (m: Made)
    decreases v, 0, |Items(v.children)| + 1
    ensures m.r.elm == Some(e) && Appends(s, m.st)
  {
    if v.children.Array? then
      var k := CreateChildren(c, s, e, v, |v.children.items|);
      Made(k.st, v.(children := Array(k.items), elm := Some(e)))
    else if v.text.Some? then
      Made(s.(doc := Inserted(AddNode(s.doc, Text(v.text.value)), e, s.doc.next, None)), v.(elm := Some(e)))
    else
      Made(s, v.(elm := Some(e)))
  }

  /** The children loop of createElm over the first `k` slots: each non-null child is created and
      appended to `e`. */
  function CreateChildren(c: Cfg, s: St, e: NodeId, v: VNode, k: nat): (m: MadeAll)
    requires v.children.Array? && k <= |v.children.items|
    decreases v, 0, k
    ensures |m.items| == k && Appends(s, m.st)
  {
    if k == 0 then MadeAll(s, [])
    else
      var m := CreateChildren(c, s, e, v, k - 1);
      var ch := v.children.items[k - 1];
      if ch.Some? then
        var n := Create(c, m.st, ch.value);
        MadeAll(n.st.(doc := Inserted(n.st.doc, e, n.r.elm.value, None)), m.items + [Some(n.r)])
      else
        MadeAll(m.st, m.items + [None])
  }
  /** `items` answers the first slots of `slots`: null where the slot is null, otherwise bound to
      a host node in `lo .. hi-1`, the ids increasing from slot to slot. */
  predicate BoundIncreasing(items: seq<Option<VNode>>, slots: seq<Option<VNode>>, lo: nat, hi: nat) {
    && |items| <= |slots|
    && (forall j :: 0 <= j < |items| ==> (items[j].Some? <==> slots[j].Some?))
    && (forall j :: 0 <= j < |items| && items[j].Some? ==>
          items[j].value.elm.Some? && lo <= items[j].value.elm.value < hi)
    && (forall i, j :: 0 <= i < j < |items| && items[i].Some? && items[j].Some? ==>
          items[i].value.elm.value < items[j].value.elm.value)
  }

  lemma BoundSnoc(items: seq<Option<VNode>>, slots: seq<Option<VNode>>, lo: nat, hi: nat, x: Option<VNode>, hi': nat)
    requires BoundIncreasing(items, slots, lo, hi) && |items| < |slots| && lo <= hi <= hi'
    requires x.Some? <==> slots[|items|].Some?
    requires x.Some? ==> x.value.elm == Some(hi) && hi < hi'
    ensures BoundIncreasing(items + [x], slots, lo, hi')
  {
    var r := items + [x];
    forall j | 0 <= j < |r| && r[j].Some?
      ensures r[j].value.elm.Some? && lo <= r[j].value.elm.value < hi'
    {
      if j < |items| {
        assert r[j] == items[j];
      }
    }
  }

  /** The slots come back bound, each non-null one to a fresh host node, in increasing id order,
      and null slots stay null. */
  lemma {:induction false} CreateChildrenBinds(c: Cfg, s: St, e: NodeId, v: VNode, k: nat)
    requires v.children.Array? && k <= |v.children.items|
    ensures var m := CreateChildren(c, s, e, v, k);
      BoundIncreasing(m.items, v.children.items, s.doc.next, m.st.doc.next)
  {
    if k > 0 {
      CreateChildrenBinds(c, s, e, v, k - 1);
      var m := CreateChildren(c, s, e, v, k - 1);
      var ch := v.children.items[k - 1];
      if ch.Some? {
        var n := Create(c, m.st, ch.value);
        BoundSnoc(m.items, v.children.items, s.doc.next, m.st.doc.next, Some(n.r), n.st.doc.next);
      } else {
        BoundSnoc(m.items, v.children.items, s.doc.next, m.st.doc.next, None, m.st.doc.next);
      }
    }
  }



  /**
   * addVnodes (src/init.ts:214-228) over the slots `lo .. k-1`: each non-null vnode is created and
   * inserted into `p` before `before` (at the end when `before` is null). The created vnodes are
   * written back into their slots; the other slots are untouched.
   */
  function AddVnodes(c: Cfg, s: St, p: Option<NodeId>, before: Option<NodeId>,
                     vs: seq<Option<VNode>>, lo: nat, k: nat): (m: MadeAll)
    requires lo <= k <= |vs|
    decreases k
    ensures |m.items| == |vs| && m.items[..lo] == vs[..lo] && m.items[k..] == vs[k..]
    ensures forall j :: lo <= j < k ==> (m.items[j].Some? <==> vs[j].Some?)
    ensures Appends(s, m.st)
  {
    if k == lo then MadeAll(s, vs)
    else
      var m := AddVnodes(c, s, p, before, vs, lo, k - 1);
      if vs[k - 1].Some? then
        var n := Create(c, m.st, vs[k - 1].value);
        MadeAll(n.st.(doc := InsertedAt(n.st.doc, p, n.r.elm, before)), m.items[k - 1 := Some(n.r)])
      else
        m
  }

  // ----- the trace and the insert queue -----

  /** Records of one more child slot, after those of the slots before it. */
  lemma KidsSnocRecords(s: St, items: seq<Option<VNode>>, x: Option<VNode>, m: St, f: St, cs: seq<nat>)
    requires m.trace == s.trace + CreateKids(Array(items), |items|, cs)
    requires m.queue == s.queue + InsertKids(Array(items), |items|)
    requires f.trace == m.trace + (if x.Some? then CreateEvents(x.value, cs) else [])
    requires f.queue == m.queue + (if x.Some? then InsertQueue(x.value) else [])
    ensures f.trace == s.trace + CreateKids(Array(items + [x]), |items| + 1, cs)
    ensures f.queue == s.queue + InsertKids(Array(items + [x]), |items| + 1)
  {
    CreateKidsSnoc(items, x, cs);
    InsertKidsSnoc(items, x);
    AppendAssoc(s.trace, CreateKids(Array(items), |items|, cs), if x.Some? then CreateEvents(x.value, cs) else []);
    AppendAssoc(s.queue, InsertKids(Array(items), |items|), if x.Some? then InsertQueue(x.value) else []);
  }

  /** createElm records the events `CreateEvents` describes and queues the tree's hooked elements
      in post-order. */
  lemma {:induction false} CreateRecords(c: Cfg, s: St, v: VNode)
    ensures Create(c, s, v).st.trace == s.trace + CreateEvents(Create(c, s, v).r, c.cbs.create)
    ensures Create(c, s, v).st.queue == s.queue + InsertQueue(Create(c, s, v).r)
    decreases v, 2
  {
    var e := s.doc.next;
    var init := HookIf(HooksOf(v).init, InitHook, Some(e));
    var s1 := Emit(s, init);
    var r := Create(c, s, v).r;
    if v.sel == Some(CommentSel) || v.sel.None? {
      AppendNil(s1.trace);
      AppendNil(s.queue);
    } else {
      ElementRecords(c, s1, v);
      AppendAssoc(s.trace, init, ElementEvents(r, c.cbs.create));
    }
  }

  lemma {:induction false} ElementRecords(c: Cfg, s: St, v: VNode)
    requires v.sel.Some? && v.sel.value != CommentSel
    ensures CreateElement(c, s, v).st.trace == s.trace + ElementEvents(CreateElement(c, s, v).r, c.cbs.create)
    ensures CreateElement(c, s, v).st.queue == s.queue + InsertQueue(CreateElement(c, s, v).r)
    decreases v, 1
  {
    var e := s.doc.next;
    var calls := ModuleCalls(Phase.Create, c.cbs.create, Some(e));
    var s1 := Emit(s.(doc := NewElementDoc(s.doc, v.sel.value, NsOf(v))), calls);
    var r := CreateElement(c, s, v).r;
    var kidsEvents := CreateKids(r.children, |Items(r.children)|, c.cbs.create);
    var kidsQueue := InsertKids(r.children, |Items(r.children)|);
    ContentRecords(c, s1, e, v);
    AppendAssoc(s.trace, calls, kidsEvents);
    AppendAssoc(s.trace, calls + kidsEvents, HookIf(HooksOf(v).create, CreateHook, Some(e)));
    AppendAssoc(s.queue, kidsQueue, if HooksOf(v).insert then [r] else []);
  }

  lemma {:induction false} ContentRecords(c: Cfg, s: St, e: NodeId, v: VNode)
    ensures var b := ElementContent(c, s, e, v);
      && b.st.trace == s.trace + CreateKids(b.r.children, |Items(b.r.children)|, c.cbs.create)
      && b.st.queue == s.queue + InsertKids(b.r.children, |Items(b.r.children)|)
    decreases v, 0, |Items(v.children)| + 1
  {
    if v.children.Array? {
      ChildrenRecords(c, s, e, v, |v.children.items|);
    } else {
      AppendNil(s.trace);
      AppendNil(s.queue);
    }
  }

  lemma {:induction false} ChildrenRecords(c: Cfg, s: St, e: NodeId, v: VNode, k: nat)
    requires v.children.Array? && k <= |v.children.items|
    ensures var m := CreateChildren(c, s, e, v, k);
      && m.st.trace == s.trace + CreateKids(Array(m.items), k, c.cbs.create)
      && m.st.queue == s.queue + InsertKids(Array(m.items), k)
    decreases v, 0, k
  {
    if k > 0 {
      ChildrenRecords(c, s, e, v, k - 1);
      var m := CreateChildren(c, s, e, v, k - 1);
      var full := CreateChildren(c, s, e, v, k);
      var ch := v.children.items[k - 1];
      var cs := c.cbs.create;
      assert |m.items| == k - 1;
      if ch.Some? {
        var n := Create(c, m.st, ch.value);
        CreateRecords(c, m.st, ch.value);
        assert full.items == m.items + [Some(n.r)];
        assert full.st.trace == n.st.trace && full.st.queue == n.st.queue;
        KidsSnocRecords(s, m.items, Some(n.r), m.st, full.st, cs);
      } else {
        assert full == MadeAll(m.st, m.items + [None]);
        KidsSnocRecords(s, m.items, None, m.st, full.st, cs);
      }
    }
  }

  // ----- the host tree -----

  /** Every attached node is older than `next`. */
  ghost predicate ParentsBelow(d: Doc) {
    forall x :: x in d.parent ==> x < d.next
  }

  lemma WfParentsBelow(d: Doc)
    requires Wf(d)
    ensures ParentsBelow(d)
  {
    forall x | x in d.parent ensures x < d.next {
      assert x in d.kids[d.parent[x]];
    }
  }

  /** `m` holds `v` built as a fresh, detached tree on top of `d0`: bound node for node to `v`,
      rendered from ids `d0.next` onwards, and nothing older changed. */
  ghost predicate Renders(v: VNode, d0: Doc, m: Made) {
    && Built(v, m.r)
    && m.r.elm.Some? && m.r.elm.value !in m.st.doc.parent
    && RenderedIn(m.st.doc.nodes, m.st.doc.kids, m.r, d0.next, m.st.doc.next)
    && Grows(d0, m.st.doc)
    && ParentsBelow(m.st.doc)
  }

  /** The element createElm makes, with its attributes set. */
  lemma NewElementDocIs(d: Doc, sel: string, ns: Option<string>)
    ensures NewElementDoc(d, sel, ns) == AddNode(d, ElementFor(sel, ns))
  {
    var p := ParseSelector(sel);
    var e := d.next;
    var d1 := AddNode(d, Element(p.tag, ns, map[]));
    var withId: map<string, string> := if p.id.Some? then map["id" := p.id.value] else map[];
    var d2 := if p.id.Some? then WithAttribute(d1, e, "id", p.id.value) else d1;
    assert d2 == AddNode(d, Element(p.tag, ns, withId));
    if p.cls.Some? {
      assert WithAttribute(d2, e, "class", p.cls.value) == AddNode(d, Element(p.tag, ns, withId["class" := p.cls.value]));
    }
  }

  /** createElm renders `v` into fresh, detached host nodes. */
  lemma {:induction false} CreateRenders(c: Cfg, s: St, v: VNode)
    requires ParentsBelow(s.doc) && Renderable(v)
    ensures Renders(v, s.doc, Create(c, s, v))
    decreases v, 2
  {
    var d := s.doc;
    if v.sel == Some(CommentSel) {
      NewNodeExtends(d.nodes, d.kids, d.parent, d.next, Comment(v.text.GetOr("")));
    } else if v.sel.Some? {
      ElementRenders(c, Emit(s, HookIf(HooksOf(v).init, InitHook, Some(d.next))), v);
    } else {
      NewNodeExtends(d.nodes, d.kids, d.parent, d.next, Text(v.text.value));
    }
  }

  lemma {:induction false} ElementRenders(c: Cfg, s: St, v: VNode)
    requires ParentsBelow(s.doc) && Renderable(v) && IsElement(v)
    ensures Renders(v, s.doc, CreateElement(c, s, v))
    decreases v, 1
  {
    var d := s.doc;
    var e := d.next;
    var h := ElementFor(v.sel.value, NsOf(v));
    var d1 := NewElementDoc(d, v.sel.value, NsOf(v));
    NewElementDocIs(d, v.sel.value, NsOf(v));
    NewNodeExtends(d.nodes, d.kids, d.parent, d.next, h);
    var s1 := Emit(s.(doc := d1), ModuleCalls(Phase.Create, c.cbs.create, Some(e)));
    ContentRenders(c, s1, e, v);
    var b := ElementContent(c, s1, e, v);
    var d2 := b.st.doc;
    ExtendsIsBut(d.nodes, d.kids, d.parent, d.next, d1.nodes, d1.kids, d1.parent, d1.next, e);
    ExtendsButTrans(d.nodes, d.kids, d.parent, d.next, d1.nodes, d1.kids, d1.parent, d1.next,
                    d2.nodes, d2.kids, d2.parent, d2.next, e);
    ExtendsButFresh(d.nodes, d.kids, d.parent, d.next, d2.nodes, d2.kids, d2.parent, d2.next, e);
  }

  /** The content of a new, empty, detached element `e` renders as the element's subtree. */
  lemma {:induction false} ContentRenders(c: Cfg, s: St, e: NodeId, v: VNode)
    requires ParentsBelow(s.doc) && Renderable(v) && IsElement(v)
    requires e + 1 == s.doc.next && e in s.doc.nodes && e in s.doc.kids && s.doc.kids[e] == [] && e !in s.doc.parent
    requires s.doc.nodes[e] == ElementFor(v.sel.value, NsOf(v))
    ensures var b := ElementContent(c, s, e, v);
      && Built(v, b.r) && e !in b.st.doc.parent
      && RenderedIn(b.st.doc.nodes, b.st.doc.kids, b.r, e, b.st.doc.next)
      && GrowsBut(s.doc, b.st.doc, e)
      && ParentsBelow(b.st.doc)
    decreases v, 0, |Items(v.children)| + 1
  {
    var d := s.doc;
    if v.children.Array? {
      var n := |v.children.items|;
      ChildrenRenders(c, s, e, v, n);
      var k := CreateChildren(c, s, e, v, n);
      ElementRendered(v, k.items, e, k.st.doc.nodes, k.st.doc.kids, k.st.doc.next);
    } else if v.text.Some? {
      TextChildRenders(d, e, v);
    } else {
      TextElementRendered(v, e, None, d.nodes, d.kids, d.next);
      ExtendsButRefl(d.nodes, d.kids, d.parent, d.next, e);
    }
  }

  lemma TextChildRenders(d: Doc, e: NodeId, v: VNode)
    requires ParentsBelow(d) && IsElement(v) && v.children.Missing? && v.text.Some?
    requires e + 1 == d.next && e in d.nodes && e in d.kids && d.kids[e] == [] && e !in d.parent
    requires d.nodes[e] == ElementFor(v.sel.value, NsOf(v))
    ensures var d3 := Inserted(AddNode(d, Text(v.text.value)), e, d.next, None);
      && Built(v, v.(elm := Some(e))) && e !in d3.parent
      && RenderedIn(d3.nodes, d3.kids, v.(elm := Some(e)), e, d3.next)
      && GrowsBut(d, d3, e)
      && ParentsBelow(d3)
  {
    var t := d.next;
    var d2 := AddNode(d, Text(v.text.value));
    InsertedDetached(d2, e, t);
    var d3 := Inserted(d2, e, t, None);
    TextElementRendered(v, e, Some(t), d3.nodes, d3.kids, d3.next);
  }

  lemma {:induction false} ChildrenRenders(c: Cfg, s: St, e: NodeId, v: VNode, k: nat)
    requires ParentsBelow(s.doc) && Renderable(v) && v.children.Array? && k <= |v.children.items|
    requires e < s.doc.next && e in s.doc.nodes && e in s.doc.kids && s.doc.kids[e] == []
    ensures var m := CreateChildren(c, s, e, v, k);
      && ParentsBelow(m.st.doc)
      && BuiltAll(v.children.items, m.items, m.st.doc.nodes, m.st.doc.kids, s.doc.next, m.st.doc.next)
      && e in m.st.doc.kids && m.st.doc.kids[e] == Elms(m.items)
      && GrowsBut(s.doc, m.st.doc, e)
    decreases v, 0, k
  {
    var d0 := s.doc;
    if k == 0 {
      ExtendsButRefl(d0.nodes, d0.kids, d0.parent, d0.next, e);
    } else {
      ChildrenRenders(c, s, e, v, k - 1);
      var m := CreateChildren(c, s, e, v, k - 1);
      var d1 := m.st.doc;
      var ch := v.children.items[k - 1];
      if ch.Some? {
        CreateRenders(c, m.st, ch.value);
        AppendCreated(v.children.items, m.items, e, d0, d1, Create(c, m.st, ch.value));
      } else {
        BuiltAllSnoc(v.children.items, m.items, None, d1.nodes, d1.kids, d1.nodes, d1.kids,
                     d0.next, d1.next, d1.next);
        ElmsAppend(m.items, [None]);
      }
    }
  }

  /** One round of the children loop: the child just created is appended to `e`. */
  lemma AppendCreated(cs: seq<Option<VNode>>, built: seq<Option<VNode>>, e: NodeId, d0: Doc, d1: Doc, n: Made)
    requires |built| < |cs| && cs[|built|].Some?
    requires BuiltAll(cs, built, d1.nodes, d1.kids, d0.next, d1.next) && d0.next <= d1.next
    requires e < d0.next && e in d1.nodes && e in d1.kids && d1.kids[e] == Elms(built) && GrowsBut(d0, d1, e)
    requires Renders(cs[|built|].value, d1, n)
    ensures var x := n.r.elm.value;
      var d3 := Inserted(n.st.doc, e, x, None);
      && ParentsBelow(d3)
      && BuiltAll(cs, built + [Some(n.r)], d3.nodes, d3.kids, d0.next, d3.next)
      && e in d3.kids && d3.kids[e] == Elms(built + [Some(n.r)])
      && GrowsBut(d0, d3, e)
  {
    var d2 := n.st.doc;
    var x := n.r.elm.value;
    ElmsIn(built, d1.nodes, d1.kids, d0.next, d1.next);
    assert d2.kids[e] == d1.kids[e];
    InsertedDetached(d2, e, x);
    var d3 := Inserted(d2, e, x, None);
    AppendKeepsBuilt(cs, built, n.r, e, d0, d1, d2, d3);
    ElmsAppend(built, [Some(n.r)]);
    assert GrowsBut(d1, d3, e);
    ExtendsButTrans(d0.nodes, d0.kids, d0.parent, d0.next, d1.nodes, d1.kids, d1.parent, d1.next,
                    d3.nodes, d3.kids, d3.parent, d3.next, e);
  }

  lemma AppendKeepsBuilt(cs: seq<Option<VNode>>, built: seq<Option<VNode>>, r: VNode, e: NodeId, d0: Doc, d1: Doc, d2: Doc, d3: Doc)
    requires |built| < |cs| && cs[|built|].Some?
    requires BuiltAll(cs, built, d1.nodes, d1.kids, d0.next, d1.next) && d0.next <= d1.next
    requires Built(cs[|built|].value, r) && RenderedIn(d2.nodes, d2.kids, r, d1.next, d2.next)
    requires Grows(d1, d2) && r.elm.Some? && e in d2.kids
    requires d3 == Doc(d2.nodes, d2.kids[e := d2.kids[e] + [r.elm.value]], d2.parent[r.elm.value := e], d2.next)
    requires e < d0.next
    ensures BuiltAll(cs, built + [Some(r)], d3.nodes, d3.kids, d0.next, d3.next)
  {
    RenderedFrame(d2.nodes, d2.kids, d3.nodes, d3.kids, r, d1.next, d2.next);
    assert AgreeOn(d1.nodes, d1.kids, d3.nodes, d3.kids, d0.next, d1.next);
    BuiltAllSnoc(cs, built, Some(r), d1.nodes, d1.kids, d3.nodes, d3.kids, d0.next, d1.next, d3.next);
  }

  // ----- well-formedness -----

  /** createElm keeps the document well-formed. */
  lemma {:induction false} CreateWf(c: Cfg, s: St, v: VNode)
    requires Wf(s.doc)
    ensures Wf(Create(c, s, v).st.doc)
    decreases v, 2
  {
    var d := s.doc;
    if v.sel == Some(CommentSel) {
      AddNodeWf(d, Comment(v.text.GetOr("")));
    } else if v.sel.Some? {
      var e := d.next;
      var s1 := Emit(s, HookIf(HooksOf(v).init, InitHook, Some(e)));
      NewElementDocIs(d, v.sel.value, NsOf(v));
      AddNodeWf(d, ElementFor(v.sel.value, NsOf(v)));
      ContentWf(c, Emit(s1.(doc := NewElementDoc(d, v.sel.value, NsOf(v))), ModuleCalls(Phase.Create, c.cbs.create, Some(e))), e, v);
    } else {
      AddNodeWf(d, Text(v.text.GetOr("undefined")));
    }
  }

  lemma {:induction false} ContentWf(c: Cfg, s: St, e: NodeId, v: VNode)
    requires Wf(s.doc)
    ensures Wf(ElementContent(c, s, e, v).st.doc)
    decreases v, 0, |Items(v.children)| + 1
  {
    if v.children.Array? {
      ChildrenWf(c, s, e, v, |v.children.items|);
    } else if v.text.Some? {
      AddNodeWf(s.doc, Text(v.text.value));
      InsertedWf(AddNode(s.doc, Text(v.text.value)), e, s.doc.next, None);
    }
  }

  lemma {:induction false} ChildrenWf(c: Cfg, s: St, e: NodeId, v: VNode, k: nat)
    requires Wf(s.doc) && v.children.Array? && k <= |v.children.items|
    ensures Wf(CreateChildren(c, s, e, v, k).st.doc)
    decreases v, 0, k
  {
    if k > 0 {
      ChildrenWf(c, s, e, v, k - 1);
      var m := CreateChildren(c, s, e, v, k - 1);
      var ch := v.children.items[k - 1];
      if ch.Some? {
        CreateWf(c, m.st, ch.value);
        var n := Create(c, m.st, ch.value);
        InsertedWf(n.st.doc, e, n.r.elm.value, None);
      }
    }
  }
}
