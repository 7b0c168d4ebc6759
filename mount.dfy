/**
 * How a vnode tree and the host document correspond: the tree a `createElm` call produced
 * (exactly), and the looser correspondence the engine relies on when it patches an old tree.
 */
module Mount {
  import opened Wrappers
  import opened VNodes
  import opened Selector
  import opened HostTree

  predicate IsSuffix<T(==)>(a: seq<T>, b: seq<T>) {
    |a| <= |b| && b[|b| - |a|..] == a
  }

  /** Every id of `s` lies in `[lo, hi)`. */
  predicate InRange(s: set<NodeId>, lo: nat, hi: nat) {
    forall e :: e in s ==> lo <= e < hi
  }

  /**
   * The host reflects a tree the engine rendered: every vnode is bound to a host node, and
   * the nodes of an element's children end its child list, in order (a live element that a
   * patch started from may hold further children before them).
   */
  ghost predicate Mounted(kids: map<NodeId, seq<NodeId>>, v: VNode)
    decreases v
  {
    && v.elm.Some? && v.elm.value in kids
    && (v.children.Array? ==>
          && IsSuffix(Elms(v.children.items), kids[v.elm.value])
          && forall i :: 0 <= i < |v.children.items| && v.children.items[i].Some? ==>
               Mounted(kids, v.children.items[i].value))
  }

  lemma ChildElmSet(v: VNode, i: nat)
    requires v.children.Array? && i < |v.children.items| && v.children.items[i].Some?
    ensures ElmSet(v.children.items[i].value) <= ElmSetOf(v.children.items) <= ElmSet(v)
  {
  }

  /** Mounted depends only on the child lists of the tree's own nodes. */
  lemma {:induction false} MountedFrame(k1: map<NodeId, seq<NodeId>>, k2: map<NodeId, seq<NodeId>>, v: VNode)
    requires Mounted(k1, v)
    requires forall e :: e in ElmSet(v) && e in k1 ==> e in k2 && k2[e] == k1[e]
    ensures Mounted(k2, v)
    decreases v
  {
    if v.children.Array? {
      var cs := v.children.items;
      forall i | 0 <= i < |cs| && cs[i].Some? ensures Mounted(k2, cs[i].value) {
        ChildElmSet(v, i);
        MountedFrame(k1, k2, cs[i].value);
      }
    }
  }

  /** The text a vnode holds once created: a comment without text gets the empty string. */
  function CreatedText(v: VNode): Option<string> {
    if v.sel == Some(CommentSel) && v.text.None? then Some("") else v.text
  }

  /** `r` is `v` as createElm leaves it: the same vnode, bound to host nodes all the way down. */
  ghost predicate Built(v: VNode, r: VNode)
    decreases v
  {
    && r.sel == v.sel && r.key == v.key && r.data == v.data && r.text == CreatedText(v)
    && r.elm.Some?
    && (v.children.Missing? ==> r.children.Missing?)
    && (v.children.Array? ==>
          && r.children.Array? && |r.children.items| == |v.children.items|
          && forall i :: 0 <= i < |v.children.items| ==>
               && (v.children.items[i].None? <==> r.children.items[i].None?)
               && (v.children.items[i].Some? ==> Built(v.children.items[i].value, r.children.items[i].value)))
  }

  /** `data.ns`, when there is data. */
  function NsOf(v: VNode): Option<string> {
    if v.data.Some? then v.data.value.ns else None
  }

  /** The host node createElm makes for an element selector: the parsed tag, the namespace and
      the `id` and `class` attributes of the parse. */
  function ElementFor(sel: string, ns: Option<string>): HostNode {
    Element(ParseSelector(sel).tag, ns, AttrsOf(ParseSelector(sel)))
  }

  /**
   * The host holds exactly the tree `r`, built from nodes with ids in `[lo, hi)`: a comment or
   * text node carrying the text, or an element for the selector whose children are the
   * children's nodes in order, or a single text node when it has text instead of children.
   */
  ghost predicate RenderedIn(nodes: map<NodeId, HostNode>, kids: map<NodeId, seq<NodeId>>, r: VNode, lo: nat, hi: nat)
    decreases r
  {
    && r.elm.Some? && lo <= r.elm.value < hi && r.elm.value in nodes && r.elm.value in kids
    && var e := r.elm.value;
       if r.sel == Some(CommentSel) then
         r.text.Some? && nodes[e] == Comment(r.text.value) && kids[e] == [] && r.children.Missing?
       else if r.sel.None? then
         r.text.Some? && nodes[e] == Text(r.text.value) && kids[e] == [] && r.children.Missing?
       else
         && nodes[e] == ElementFor(r.sel.value, NsOf(r))
         && match r.children
            case Array(cs) =>
              && kids[e] == Elms(cs)
              && forall i :: 0 <= i < |cs| && cs[i].Some? ==> RenderedIn(nodes, kids, cs[i].value, lo, hi)
            case Missing =>
              if r.text.Some? then
                && |kids[e]| == 1 && lo <= kids[e][0] < hi && kids[e][0] in nodes && kids[e][0] in kids
                && nodes[kids[e][0]] == Text(r.text.value) && kids[kids[e][0]] == []
              else kids[e] == []
  }

  /** The two documents agree on the nodes with ids in `[lo, hi)`. */
  ghost predicate AgreeOn(n1: map<NodeId, HostNode>, k1: map<NodeId, seq<NodeId>>,
                          n2: map<NodeId, HostNode>, k2: map<NodeId, seq<NodeId>>, lo: nat, hi: nat)
  {
    forall q :: lo <= q < hi ==>
      && (q in n1 ==> q in n2 && n2[q] == n1[q])
      && (q in k1 ==> q in k2 && k2[q] == k1[q])
  }

  lemma {:induction false} RenderedFrame(n1: map<NodeId, HostNode>, k1: map<NodeId, seq<NodeId>>,
                                         n2: map<NodeId, HostNode>, k2: map<NodeId, seq<NodeId>>,
                                         r: VNode, lo: nat, hi: nat)
    requires RenderedIn(n1, k1, r, lo, hi) && AgreeOn(n1, k1, n2, k2, lo, hi)
    ensures RenderedIn(n2, k2, r, lo, hi)
    decreases r
  {
    if r.sel.Some? && r.sel.value != CommentSel && r.children.Array? {
      var cs := r.children.items;
      forall i | 0 <= i < |cs| && cs[i].Some? ensures RenderedIn(n2, k2, cs[i].value, lo, hi) {
        RenderedFrame(n1, k1, n2, k2, cs[i].value, lo, hi);
      }
    }
  }

  lemma {:induction false} RenderedWiden(nodes: map<NodeId, HostNode>, kids: map<NodeId, seq<NodeId>>,
                                         r: VNode, lo: nat, hi: nat, lo2: nat, hi2: nat)
    requires RenderedIn(nodes, kids, r, lo, hi) && lo2 <= lo && hi <= hi2
    ensures RenderedIn(nodes, kids, r, lo2, hi2)
    decreases r
  {
    if r.sel.Some? && r.sel.value != CommentSel && r.children.Array? {
      var cs := r.children.items;
      forall i | 0 <= i < |cs| && cs[i].Some? ensures RenderedIn(nodes, kids, cs[i].value, lo2, hi2) {
        RenderedWiden(nodes, kids, cs[i].value, lo, hi, lo2, hi2);
      }
    }
  }

  /** A rendered tree is bound to nodes of its id range only. */
  lemma {:induction false} RenderedElmSet(nodes: map<NodeId, HostNode>, kids: map<NodeId, seq<NodeId>>,
                                          r: VNode, lo: nat, hi: nat)
    requires RenderedIn(nodes, kids, r, lo, hi)
    ensures InRange(ElmSet(r), lo, hi)
    decreases r
  {
    if r.children.Array? && r.sel.Some? && r.sel.value != CommentSel {
      var cs := r.children.items;
      forall i | 0 <= i < |cs| && cs[i].Some? ensures InRange(ElmSet(cs[i].value), lo, hi) {
        RenderedElmSet(nodes, kids, cs[i].value, lo, hi);
      }
    }
  }

  /** A freshly rendered tree is in particular mounted. */
  lemma {:induction false} RenderedMounted(nodes: map<NodeId, HostNode>, kids: map<NodeId, seq<NodeId>>,
                                           r: VNode, lo: nat, hi: nat)
    requires RenderedIn(nodes, kids, r, lo, hi)
    ensures Mounted(kids, r)
    decreases r
  {
    if r.children.Array? && r.sel.Some? && r.sel.value != CommentSel {
      var cs := r.children.items;
      forall i | 0 <= i < |cs| && cs[i].Some? ensures Mounted(kids, cs[i].value) {
        RenderedMounted(nodes, kids, cs[i].value, lo, hi);
      }
      assert kids[r.elm.value][|kids[r.elm.value]| - |Elms(cs)|..] == kids[r.elm.value];
    }
  }

  /** The second document only adds to the first: nodes below `next1` keep their data, their
      child lists and their parent (or lack of one). */
  ghost predicate Extends(n1: map<NodeId, HostNode>, k1: map<NodeId, seq<NodeId>>, p1: map<NodeId, NodeId>, next1: nat,
                          n2: map<NodeId, HostNode>, k2: map<NodeId, seq<NodeId>>, p2: map<NodeId, NodeId>, next2: nat)
  {
    && next1 <= next2
    && AgreeOn(n1, k1, n2, k2, 0, next1)
    && forall c :: c < next1 ==> (c in p2 <==> c in p1) && (c in p1 ==> p2[c] == p1[c])
  }

  /** Every tree of a slot range stays rendered when the document changes outside its ids. */
  lemma KeepRendered(s: seq<Option<VNode>>, n1: map<NodeId, HostNode>, k1: map<NodeId, seq<NodeId>>,
                     n2: map<NodeId, HostNode>, k2: map<NodeId, seq<NodeId>>, lo: nat, hi1: nat, hi2: nat)
    requires forall j :: 0 <= j < |s| && s[j].Some? ==> RenderedIn(n1, k1, s[j].value, lo, hi1)
    requires AgreeOn(n1, k1, n2, k2, lo, hi1) && hi1 <= hi2
    ensures forall j :: 0 <= j < |s| && s[j].Some? ==> RenderedIn(n2, k2, s[j].value, lo, hi2)
  {
    forall j | 0 <= j < |s| && s[j].Some? ensures RenderedIn(n2, k2, s[j].value, lo, hi2) {
      RenderedFrame(n1, k1, n2, k2, s[j].value, lo, hi1);
      RenderedWiden(n2, k2, s[j].value, lo, hi1, lo, hi2);
    }
  }

  lemma RenderedAllElmSet(s: seq<Option<VNode>>, nodes: map<NodeId, HostNode>, kids: map<NodeId, seq<NodeId>>, lo: nat, hi: nat)
    requires forall j :: 0 <= j < |s| && s[j].Some? ==> RenderedIn(nodes, kids, s[j].value, lo, hi)
    ensures forall j :: 0 <= j < |s| && s[j].Some? ==> InRange(ElmSet(s[j].value), lo, hi)
  {
    forall j | 0 <= j < |s| && s[j].Some? ensures InRange(ElmSet(s[j].value), lo, hi) {
      RenderedElmSet(nodes, kids, s[j].value, lo, hi);
    }
  }

  /** Like `Extends`, except that the child list of `e` may have changed. */
  ghost predicate ExtendsBut(n1: map<NodeId, HostNode>, k1: map<NodeId, seq<NodeId>>, p1: map<NodeId, NodeId>, next1: nat,
                             n2: map<NodeId, HostNode>, k2: map<NodeId, seq<NodeId>>, p2: map<NodeId, NodeId>, next2: nat,
                             e: NodeId)
  {
    && next1 <= next2
    && (forall q :: q < next1 ==>
          && (q in n1 ==> q in n2 && n2[q] == n1[q])
          && (q in k1 && q != e ==> q in k2 && k2[q] == k1[q]))
    && forall c :: c < next1 ==> (c in p2 <==> c in p1) && (c in p1 ==> p2[c] == p1[c])
  }

  lemma ExtendsButTrans(n1: map<NodeId, HostNode>, k1: map<NodeId, seq<NodeId>>, p1: map<NodeId, NodeId>, next1: nat,
                        n2: map<NodeId, HostNode>, k2: map<NodeId, seq<NodeId>>, p2: map<NodeId, NodeId>, next2: nat,
                        n3: map<NodeId, HostNode>, k3: map<NodeId, seq<NodeId>>, p3: map<NodeId, NodeId>, next3: nat,
                        e: NodeId)
    requires ExtendsBut(n1, k1, p1, next1, n2, k2, p2, next2, e)
    requires ExtendsBut(n2, k2, p2, next2, n3, k3, p3, next3, e)
    ensures ExtendsBut(n1, k1, p1, next1, n3, k3, p3, next3, e)
  {
  }

  lemma ExtendsIsBut(n1: map<NodeId, HostNode>, k1: map<NodeId, seq<NodeId>>, p1: map<NodeId, NodeId>, next1: nat,
                     n2: map<NodeId, HostNode>, k2: map<NodeId, seq<NodeId>>, p2: map<NodeId, NodeId>, next2: nat,
                     e: NodeId)
    requires Extends(n1, k1, p1, next1, n2, k2, p2, next2)
    ensures ExtendsBut(n1, k1, p1, next1, n2, k2, p2, next2, e)
  {
  }

  /** Changes confined to a node created after the first document are no changes to it. */
  lemma ExtendsButFresh(n1: map<NodeId, HostNode>, k1: map<NodeId, seq<NodeId>>, p1: map<NodeId, NodeId>, next1: nat,
                        n2: map<NodeId, HostNode>, k2: map<NodeId, seq<NodeId>>, p2: map<NodeId, NodeId>, next2: nat,
                        e: NodeId)
    requires ExtendsBut(n1, k1, p1, next1, n2, k2, p2, next2, e) && next1 <= e
    ensures Extends(n1, k1, p1, next1, n2, k2, p2, next2)
  {
  }

  lemma ExtendsButAgree(n1: map<NodeId, HostNode>, k1: map<NodeId, seq<NodeId>>, p1: map<NodeId, NodeId>, next1: nat,
                        n2: map<NodeId, HostNode>, k2: map<NodeId, seq<NodeId>>, p2: map<NodeId, NodeId>, next2: nat,
                        e: NodeId, lo: nat)
    requires ExtendsBut(n1, k1, p1, next1, n2, k2, p2, next2, e) && e < lo
    ensures AgreeOn(n1, k1, n2, k2, lo, next1)
  {
  }

  /** The first `|built|` slots of `cs` are built, each as its own rendered tree with ids in
      `[lo, hi)`, and no two of them share a host node. */
  ghost predicate BuiltAll(cs: seq<Option<VNode>>, built: seq<Option<VNode>>,
                           nodes: map<NodeId, HostNode>, kids: map<NodeId, seq<NodeId>>, lo: nat, hi: nat)
  {
    && |built| <= |cs|
    && (forall j :: 0 <= j < |built| ==> (cs[j].None? <==> built[j].None?))
    && (forall j :: 0 <= j < |built| && built[j].Some? ==>
          && cs[j].Some? && Built(cs[j].value, built[j].value)
          && RenderedIn(nodes, kids, built[j].value, lo, hi))
  }

  lemma BuiltAllSnoc(cs: seq<Option<VNode>>, built: seq<Option<VNode>>, slot: Option<VNode>,
                     n1: map<NodeId, HostNode>, k1: map<NodeId, seq<NodeId>>,
                     n2: map<NodeId, HostNode>, k2: map<NodeId, seq<NodeId>>, lo: nat, hi1: nat, hi2: nat)
    requires BuiltAll(cs, built, n1, k1, lo, hi1) && |built| < |cs|
    requires AgreeOn(n1, k1, n2, k2, lo, hi1) && lo <= hi1 <= hi2
    requires cs[|built|].None? <==> slot.None?
    requires slot.Some? ==> && Built(cs[|built|].value, slot.value)
                            && RenderedIn(n2, k2, slot.value, hi1, hi2)
    ensures BuiltAll(cs, built + [slot], n2, k2, lo, hi2)
  {
    KeepRendered(built, n1, k1, n2, k2, lo, hi1, hi2);
    if slot.Some? {
      RenderedWiden(n2, k2, slot.value, hi1, hi2, lo, hi2);
    }
  }

  /** Adding a node at the next free id extends the document. */
  lemma NewNodeExtends(n: map<NodeId, HostNode>, k: map<NodeId, seq<NodeId>>, p: map<NodeId, NodeId>, x: nat, h: HostNode)
    ensures Extends(n, k, p, x, n[x := h], k[x := []], p, x + 1)
  {
  }

  /** The element `r` built from `v`'s children `built` is rendered and distinct. */
  lemma ElementRendered(v: VNode, built: seq<Option<VNode>>, e: NodeId,
                        nodes: map<NodeId, HostNode>, kids: map<NodeId, seq<NodeId>>, hi: nat)
    requires IsElement(v) && v.children.Array? && |built| == |v.children.items|
    requires BuiltAll(v.children.items, built, nodes, kids, e + 1, hi)
    requires e in nodes && e in kids && e < hi && kids[e] == Elms(built)
    requires nodes[e] == ElementFor(v.sel.value, NsOf(v))
    ensures Built(v, v.(children := Array(built), elm := Some(e)))
    ensures RenderedIn(nodes, kids, v.(children := Array(built), elm := Some(e)), e, hi)
  {
    forall j | 0 <= j < |built| && built[j].Some?
      ensures RenderedIn(nodes, kids, built[j].value, e, hi)
    {
      RenderedWiden(nodes, kids, built[j].value, e + 1, hi, e, hi);
    }
  }

  /** The element `r` built from `v` without children, holding `t` as its text child. */
  lemma TextElementRendered(v: VNode, e: NodeId, t: Option<NodeId>,
                            nodes: map<NodeId, HostNode>, kids: map<NodeId, seq<NodeId>>, hi: nat)
    requires IsElement(v) && v.children.Missing? && (v.text.Some? <==> t.Some?)
    requires e in nodes && e in kids && e < hi && nodes[e] == ElementFor(v.sel.value, NsOf(v))
    requires t.None? ==> kids[e] == []
    requires t.Some? ==> && kids[e] == [t.value] && e < t.value < hi && t.value in nodes && t.value in kids
                         && nodes[t.value] == Text(v.text.value) && kids[t.value] == []
    ensures Built(v, v.(elm := Some(e)))
    ensures RenderedIn(nodes, kids, v.(elm := Some(e)), e, hi)
  {
  }

  /** A node added after `e` and appended as `e`'s last child changes only `e`'s child list. */
  lemma AppendFreshExtendsBut(n: map<NodeId, HostNode>, k: map<NodeId, seq<NodeId>>, p: map<NodeId, NodeId>,
                              x: nat, e: NodeId, h: HostNode, k2: map<NodeId, seq<NodeId>>)
    requires e < x
    requires forall q :: q in k && q != e ==> q in k2 && k2[q] == k[q]
    ensures ExtendsBut(n, k, p, x, n[x := h], k2, p[x := e], x + 1, e)
  {
  }

  lemma ExtendsButRefl(n: map<NodeId, HostNode>, k: map<NodeId, seq<NodeId>>, p: map<NodeId, NodeId>, x: nat, e: NodeId)
    ensures ExtendsBut(n, k, p, x, n, k, p, x, e)
  {
  }

  /** `Extends` between two documents. */
  ghost predicate Grows(d1: Doc, d2: Doc) {
    Extends(d1.nodes, d1.kids, d1.parent, d1.next, d2.nodes, d2.kids, d2.parent, d2.next)
  }

  /** `ExtendsBut` between two documents. */
  ghost predicate GrowsBut(d1: Doc, d2: Doc, e: NodeId) {
    ExtendsBut(d1.nodes, d1.kids, d1.parent, d1.next, d2.nodes, d2.kids, d2.parent, d2.next, e)
  }

  /** The host nodes of slots rendered in `[lo, hi)` lie in that range. */
  lemma {:induction false} ElmsIn(s: seq<Option<VNode>>, nodes: map<NodeId, HostNode>, kids: map<NodeId, seq<NodeId>>, lo: nat, hi: nat)
    requires forall j :: 0 <= j < |s| && s[j].Some? ==> RenderedIn(nodes, kids, s[j].value, lo, hi)
    ensures forall y :: y in Elms(s) ==> lo <= y < hi
  {
    if |s| > 0 {
      ElmsIn(s[1..], nodes, kids, lo, hi);
    }
  }
}
