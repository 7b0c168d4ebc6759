/**
 * The host document the engine mutates, reduced to what the DOMAPI adapter exposes to
 * src/init.ts: node creation, attributes, parent and sibling queries, and the moves
 * `insertBefore`, `removeChild`, `appendChild` and `setTextContent`.
 *
 * The document is a value (`Doc`); each DOM call is a total function from the document before
 * to the document after. Most calls the DOM would reject with an exception (an unknown node, a
 * node inserted under itself, a reference node that is not a child of the parent, removing a node
 * that is not a child) leave the document as it is. Two rejections are not modelled: inserting
 * an ancestor of the parent (the model then links a cycle) and inserting under a text or comment
 * node (the model then gives that node a child).
 */
module HostTree {
  import opened Wrappers
  import opened Seqs
  import opened VNodes

  datatype HostNode =
    | Element(tag: string, ns: Option<string>, attrs: map<string, string>)
    | Text(data: string)
    | Comment(data: string)

  datatype Doc = Doc(
    nodes: map<NodeId, HostNode>,     // every node ever created, by id
    kids: map<NodeId, seq<NodeId>>,   // the child list of every node
    parent: map<NodeId, NodeId>,      // the parent of every attached node
    next: NodeId)                     // the id the next created node gets

  const EmptyDoc := Doc(map[], map[], map[], 0)

  /**
   * A well-formed document: ids below `next`, a child list per node, parent links that agree
   * with the child lists in both directions, and no node listed twice under one parent.
   */
  ghost predicate Wf(d: Doc) {
    WfMaps(d.nodes, d.kids, d.parent, d.next)
  }

  ghost predicate WfMaps(nodes: map<NodeId, HostNode>, kids: map<NodeId, seq<NodeId>>,
                         parent: map<NodeId, NodeId>, next: NodeId)
  {
    && (forall n :: n in nodes ==> n < next)
    && kids.Keys == nodes.Keys
    && ParentsListed(kids, parent) && KidsLinked(nodes, kids, parent) && KidsDistinct(kids)
  }

  /** Every parent link is matched by the parent's child list. */
  ghost predicate ParentsListed(kids: map<NodeId, seq<NodeId>>, parent: map<NodeId, NodeId>) {
    forall c :: c in parent ==> parent[c] in kids && c in kids[parent[c]]
  }

  /** Every listed child is a known node whose parent link points back. */
  ghost predicate KidsLinked(nodes: map<NodeId, HostNode>, kids: map<NodeId, seq<NodeId>>, parent: map<NodeId, NodeId>) {
    forall p, c :: p in kids && c in kids[p] ==> c in nodes && c in parent && parent[c] == p
  }

  /** No child list names a node twice. */
  ghost predicate KidsDistinct(kids: map<NodeId, seq<NodeId>>) {
    forall p :: p in kids ==> NoDups(kids[p])
  }

  /** A new detached node without children, at id `d.next`. */
  function AddNode(d: Doc, h: HostNode): Doc {
    Doc(d.nodes[d.next := h], d.kids[d.next := []], d.parent, d.next + 1)
  }

  /** `elm.setAttribute(name, value)` on an element. */
  function WithAttribute(d: Doc, n: NodeId, name: string, value: string): Doc {
    if n in d.nodes && d.nodes[n].Element? then
      d.(nodes := d.nodes[n := d.nodes[n].(attrs := d.nodes[n].attrs[name := value])])
    else d
  }

  /** `parentNode(n)` */
  function ParentOf(d: Doc, n: NodeId): Option<NodeId> {
    if n in d.parent then Some(d.parent[n]) else None
  }

  /** `nextSibling(n)` */
  function NextSiblingOf(d: Doc, n: NodeId): Option<NodeId> {
    if n in d.parent && d.parent[n] in d.kids && n in d.kids[d.parent[n]] then After(d.kids[d.parent[n]], n)
    else None
  }

  /** DOM `insertBefore(p, x, ref)` with `ref == x` inserts before the next sibling of `x`. */
  function EffectiveRef(s: seq<NodeId>, x: NodeId, ref: Option<NodeId>): Option<NodeId>
    requires ref == Some(x) ==> x in s
  {
    if ref == Some(x) then After(s, x) else ref
  }

  /** The child lists after `x` leaves its parent, if it has one. */
  function DetachKids(kids: map<NodeId, seq<NodeId>>, parent: map<NodeId, NodeId>, x: NodeId)
    : map<NodeId, seq<NodeId>>
  {
    if x in parent && parent[x] in kids then kids[parent[x] := Without(kids[parent[x]], x)] else kids
  }

  /** What `insertBefore(p, x, ref)` accepts: known nodes, no node under itself, and a
      reference node that is a child of `p`. The DOM's further checks, that `x` is not an
      ancestor of `p` and that `p` is not a text or comment node, are not made here. */
  predicate CanInsert(d: Doc, p: NodeId, x: NodeId, ref: Option<NodeId>) {
    p in d.nodes && p in d.kids && x in d.nodes && x != p && (ref.Some? ==> ref.value in d.kids[p])
  }

  /** `insertBefore(p, x, ref)`: `x` leaves its current parent, if any, and is placed in `p`'s
      child list just before `ref`, or last when `ref` is null. */
  function Inserted(d: Doc, p: NodeId, x: NodeId, ref: Option<NodeId>): Doc {
    if CanInsert(d, p, x, ref) then
      var r := EffectiveRef(d.kids[p], x, ref);
      var k1 := DetachKids(d.kids, d.parent, x);
      d.(kids := k1[p := Seqs.InsertBefore(k1[p], x, r)], parent := d.parent[x := p])
    else d
  }

  /** `removeChild(p, x)` */
  function Removed(d: Doc, p: NodeId, x: NodeId): Doc {
    if p in d.kids && x in d.kids[p] then
      d.(kids := d.kids[p := Without(d.kids[p], x)], parent := d.parent - {x})
    else d
  }

  /** The parent links once every child of `n` is detached. */
  function Orphan(parent: map<NodeId, NodeId>, n: NodeId): map<NodeId, NodeId> {
    map c | c in parent && parent[c] != n :: parent[c]
  }

  /**
   * `setTextContent(n, s)`: on an element, every child is detached and, unless `s` is empty,
   * a single new text node holding `s` takes their place; on a text or comment node the
   * node's data becomes `s`.
   */
  function WithText(d: Doc, n: NodeId, s: string): Doc {
    if n !in d.nodes then d
    else if d.nodes[n].Element? then
      if s == "" then d.(kids := d.kids[n := []], parent := Orphan(d.parent, n))
      else Doc(d.nodes[d.next := Text(s)], d.kids[n := [d.next]][d.next := []],
               Orphan(d.parent, n)[d.next := n], d.next + 1)
    else if d.nodes[n].Text? then d.(nodes := d.nodes[n := Text(s)])
    else d.(nodes := d.nodes[n := Comment(s)])
  }

  // ----- calls whose node argument may be undefined (the source's `vnode.elm!`) -----

  function InsertedAt(d: Doc, p: Option<NodeId>, x: Option<NodeId>, ref: Option<NodeId>): Doc {
    if p.Some? && x.Some? then Inserted(d, p.value, x.value, ref) else d
  }

  function RemovedAt(d: Doc, p: Option<NodeId>, x: Option<NodeId>): Doc {
    if p.Some? && x.Some? then Removed(d, p.value, x.value) else d
  }

  function WithTextAt(d: Doc, n: Option<NodeId>, s: string): Doc {
    if n.Some? then WithText(d, n.value, s) else d
  }

  function ParentAt(d: Doc, n: Option<NodeId>): Option<NodeId> {
    if n.Some? then ParentOf(d, n.value) else None
  }

  function NextSiblingAt(d: Doc, n: Option<NodeId>): Option<NodeId> {
    if n.Some? then NextSiblingOf(d, n.value) else None
  }

  /** `removeChild(parentNode(x), x)`: `x` leaves whatever parent it has. */
  function DetachedAt(d: Doc, x: Option<NodeId>): Doc {
    if x.Some? && x.value in d.parent then Removed(d, d.parent[x.value], x.value) else d
  }

  // ----- every call keeps the document well-formed -----

  lemma DetachWf(nodes: map<NodeId, HostNode>, kids: map<NodeId, seq<NodeId>>,
                 parent: map<NodeId, NodeId>, next: NodeId, p: NodeId, x: NodeId)
    requires WfMaps(nodes, kids, parent, next) && p in kids && x in kids[p]
    ensures WfMaps(nodes, kids[p := Without(kids[p], x)], parent - {x}, next)
  {
    var k1, p1 := kids[p := Without(kids[p], x)], parent - {x};
    WithoutNoDups(kids[p], x);
    WithoutSubset(kids[p], x);
    forall c | c in p1 ensures p1[c] in k1 && c in k1[p1[c]] {
      assert c in kids[parent[c]];
    }
    forall q, c | q in k1 && c in k1[q] ensures c in nodes && c in p1 && p1[c] == q {
      assert c in kids[q];
    }
  }

  lemma AttachWf(nodes: map<NodeId, HostNode>, kids: map<NodeId, seq<NodeId>>,
                 parent: map<NodeId, NodeId>, next: NodeId, p: NodeId, x: NodeId, r: Option<NodeId>)
    requires WfMaps(nodes, kids, parent, next) && p in nodes && x in nodes && x !in parent
    ensures WfMaps(nodes, kids[p := Seqs.InsertBefore(kids[p], x, r)], parent[x := p], next)
  {
    AttachListed(kids, parent, p, x, r);
    AttachLinked(nodes, kids, parent, p, x, r);
    AttachDistinct(kids, p, x, r);
  }

  lemma AttachListed(kids: map<NodeId, seq<NodeId>>, parent: map<NodeId, NodeId>, p: NodeId, x: NodeId, r: Option<NodeId>)
    requires ParentsListed(kids, parent) && p in kids
    ensures ParentsListed(kids[p := Seqs.InsertBefore(kids[p], x, r)], parent[x := p])
  {
    var k1, p1 := kids[p := Seqs.InsertBefore(kids[p], x, r)], parent[x := p];
    InsertBeforeMembers(kids[p], x, r);
    forall c | c in p1 ensures p1[c] in k1 && c in k1[p1[c]] {
      if c != x {
        assert c in kids[parent[c]];
      }
    }
  }

  lemma AttachLinked(nodes: map<NodeId, HostNode>, kids: map<NodeId, seq<NodeId>>, parent: map<NodeId, NodeId>,
                     p: NodeId, x: NodeId, r: Option<NodeId>)
    requires KidsLinked(nodes, kids, parent) && p in kids && x in nodes && x !in parent
    ensures KidsLinked(nodes, kids[p := Seqs.InsertBefore(kids[p], x, r)], parent[x := p])
  {
    var k1, p1 := kids[p := Seqs.InsertBefore(kids[p], x, r)], parent[x := p];
    InsertBeforeMembers(kids[p], x, r);
    forall q, c | q in k1 && c in k1[q] ensures c in nodes && c in p1 && p1[c] == q {
      if q == p {
        if c != x {
          assert c in kids[p];
        }
      } else {
        assert k1[q] == kids[q];
      }
    }
  }

  lemma AttachDistinct(kids: map<NodeId, seq<NodeId>>, p: NodeId, x: NodeId, r: Option<NodeId>)
    requires KidsDistinct(kids) && p in kids && x !in kids[p]
    ensures KidsDistinct(kids[p := Seqs.InsertBefore(kids[p], x, r)])
  {
    InsertBeforeNoDups(kids[p], x, r);
  }

  lemma RemapParent(parent: map<NodeId, NodeId>, x: NodeId, p: NodeId)
    ensures (parent - {x})[x := p] == parent[x := p]
  {
  }

  lemma MoveAttachedWf(nodes: map<NodeId, HostNode>, kids: map<NodeId, seq<NodeId>>,
                       parent: map<NodeId, NodeId>, next: NodeId, p: NodeId, x: NodeId, r: Option<NodeId>)
    requires WfMaps(nodes, kids, parent, next) && p in nodes && x in nodes && x in parent
    ensures WfMaps(nodes, DetachKids(kids, parent, x)[p := Seqs.InsertBefore(DetachKids(kids, parent, x)[p], x, r)],
                   parent[x := p], next)
  {
    var q := parent[x];
    DetachWf(nodes, kids, parent, next, q, x);
    var k1 := DetachKids(kids, parent, x);
    AttachWf(nodes, k1, parent - {x}, next, p, x, r);
    RemapParent(parent, x, p);
  }

  lemma InsertedWf(d: Doc, p: NodeId, x: NodeId, ref: Option<NodeId>)
    requires Wf(d)
    ensures Wf(Inserted(d, p, x, ref))
  {
    if CanInsert(d, p, x, ref) {
      var r := EffectiveRef(d.kids[p], x, ref);
      var k1 := DetachKids(d.kids, d.parent, x);
      var k2 := k1[p := Seqs.InsertBefore(k1[p], x, r)];
      assert Inserted(d, p, x, ref) == Doc(d.nodes, k2, d.parent[x := p], d.next);
      if x in d.parent {
        MoveAttachedWf(d.nodes, d.kids, d.parent, d.next, p, x, r);
      } else {
        AttachWf(d.nodes, d.kids, d.parent, d.next, p, x, r);
      }
    }
  }

  /** Appending a detached node. */
  lemma InsertedDetached(d: Doc, p: NodeId, x: NodeId)
    requires p in d.nodes && p in d.kids && x in d.nodes && x != p && x !in d.parent
    ensures Inserted(d, p, x, None) == Doc(d.nodes, d.kids[p := d.kids[p] + [x]], d.parent[x := p], d.next)
  {
    InsertBeforeNone(d.kids[p], x);
  }

  /** A node no child list names has no parent in a well-formed document. */
  lemma FreshDetached(d: Doc, x: NodeId)
    requires Wf(d) && x !in d.nodes
    ensures x !in d.parent
  {
  }

  lemma AddNodeWf(d: Doc, h: HostNode)
    requires Wf(d)
    ensures Wf(AddNode(d, h))
  {
    var d1 := AddNode(d, h);
    assert d1.kids.Keys == d1.nodes.Keys;
    forall c | c in d1.parent ensures d1.parent[c] in d1.kids && c in d1.kids[d1.parent[c]] {
      assert d.parent[c] in d.nodes && d.parent[c] != d.next;
    }
    forall p, c | p in d1.kids && c in d1.kids[p] ensures c in d1.nodes && c in d1.parent && d1.parent[c] == p {
      if p != d.next {
        assert c in d.kids[p];
      }
    }
    forall p | p in d1.kids ensures NoDups(d1.kids[p]) {
      if p != d.next {
        assert d1.kids[p] == d.kids[p];
      }
    }
  }

  lemma WithAttributeWf(d: Doc, n: NodeId, name: string, value: string)
    requires Wf(d)
    ensures Wf(WithAttribute(d, n, name, value))
  {
  }

  lemma RemovedWf(d: Doc, p: NodeId, x: NodeId)
    requires Wf(d)
    ensures Wf(Removed(d, p, x))
  {
    if p in d.kids && x in d.kids[p] {
      DetachWf(d.nodes, d.kids, d.parent, d.next, p, x);
      assert Removed(d, p, x) == Doc(d.nodes, d.kids[p := Without(d.kids[p], x)], d.parent - {x}, d.next);
    }
  }

  lemma ClearWf(nodes: map<NodeId, HostNode>, kids: map<NodeId, seq<NodeId>>,
                parent: map<NodeId, NodeId>, next: NodeId, n: NodeId)
    requires WfMaps(nodes, kids, parent, next) && n in nodes
    ensures WfMaps(nodes, kids[n := []], Orphan(parent, n), next)
  {
  }

  lemma FillWf(nodes: map<NodeId, HostNode>, kids: map<NodeId, seq<NodeId>>,
               parent: map<NodeId, NodeId>, next: NodeId, n: NodeId, s: string)
    requires WfMaps(nodes, kids, parent, next) && n in nodes
    ensures WfMaps(nodes[next := Text(s)], kids[n := [next]][next := []], Orphan(parent, n)[next := n], next + 1)
  {
    assert n != next && next !in kids && next !in nodes;
    FillListed(kids, parent, next, n);
    FillLinked(nodes, kids, parent, next, n, s);
    assert KidsDistinct(kids[n := [next]][next := []]);
  }

  lemma FillListed(kids: map<NodeId, seq<NodeId>>, parent: map<NodeId, NodeId>, next: NodeId, n: NodeId)
    requires ParentsListed(kids, parent) && n in kids && n != next && next !in kids
    ensures ParentsListed(kids[n := [next]][next := []], Orphan(parent, n)[next := n])
  {
    var k1, p1 := kids[n := [next]][next := []], Orphan(parent, n)[next := n];
    forall c | c in p1 ensures p1[c] in k1 && c in k1[p1[c]] {
      if c != next {
        assert c in kids[parent[c]];
      }
    }
  }

  lemma FillLinked(nodes: map<NodeId, HostNode>, kids: map<NodeId, seq<NodeId>>, parent: map<NodeId, NodeId>,
                   next: NodeId, n: NodeId, s: string)
    requires KidsLinked(nodes, kids, parent) && n in kids && n != next && next !in nodes
    ensures KidsLinked(nodes[next := Text(s)], kids[n := [next]][next := []], Orphan(parent, n)[next := n])
  {
    var n1, k1, p1 := nodes[next := Text(s)], kids[n := [next]][next := []], Orphan(parent, n)[next := n];
    forall q, c | q in k1 && c in k1[q] ensures c in n1 && c in p1 && p1[c] == q {
      if q == n {
        assert c == next;
      } else if q != next {
        assert c in kids[q] && parent[c] == q;
        assert c in Orphan(parent, n);
      }
    }
  }

  lemma WithTextWf(d: Doc, n: NodeId, s: string)
    requires Wf(d)
    ensures Wf(WithText(d, n, s))
  {
    if n in d.nodes && d.nodes[n].Element? {
      if s == "" {
        ClearWf(d.nodes, d.kids, d.parent, d.next, n);
        assert WithText(d, n, s) == Doc(d.nodes, d.kids[n := []], Orphan(d.parent, n), d.next);
      } else {
        FillWf(d.nodes, d.kids, d.parent, d.next, n, s);
      }
    }
  }

  lemma DetachedAtWf(d: Doc, x: Option<NodeId>)
    requires Wf(d)
    ensures Wf(DetachedAt(d, x))
  {
    if x.Some? && x.value in d.parent {
      RemovedWf(d, d.parent[x.value], x.value);
    }
  }

  class Host {
    /** The document as it stands. */
    var doc: Doc

    constructor ()
      ensures doc == EmptyDoc
    {
      doc := EmptyDoc;
    }

    /** `createElement(tag)`, or `createElementNS(ns, tag)` when a namespace is given. */
    method CreateElement(tag: string, ns: Option<string>) returns (n: NodeId)
      modifies this
      ensures n == old(doc).next && doc == AddNode(old(doc), Element(tag, ns, map[]))
    {
      n := doc.next;
      doc := AddNode(doc, Element(tag, ns, map[]));
    }

    method CreateTextNode(text: string) returns (n: NodeId)
      modifies this
      ensures n == old(doc).next && doc == AddNode(old(doc), Text(text))
    {
      n := doc.next;
      doc := AddNode(doc, Text(text));
    }

    method CreateComment(text: string) returns (n: NodeId)
      modifies this
      ensures n == old(doc).next && doc == AddNode(old(doc), Comment(text))
    {
      n := doc.next;
      doc := AddNode(doc, Comment(text));
    }

    method SetAttribute(n: NodeId, name: string, value: string)
      modifies this
      ensures doc == WithAttribute(old(doc), n, name, value)
    {
      doc := WithAttribute(doc, n, name, value);
    }

    function ParentNode(n: NodeId): Option<NodeId>
      reads this
    {
      ParentOf(doc, n)
    }

    function NextSibling(n: NodeId): Option<NodeId>
      reads this
    {
      NextSiblingOf(doc, n)
    }

    method InsertBefore(p: NodeId, x: NodeId, ref: Option<NodeId>)
      modifies this
      ensures doc == Inserted(old(doc), p, x, ref)
    {
      doc := Inserted(doc, p, x, ref);
    }

    method AppendChild(p: NodeId, x: NodeId)
      modifies this
      ensures doc == Inserted(old(doc), p, x, None)
    {
      doc := Inserted(doc, p, x, None);
    }

    method RemoveChild(p: NodeId, x: NodeId)
      modifies this
      ensures doc == Removed(old(doc), p, x)
    {
      doc := Removed(doc, p, x);
    }

    method SetTextContent(n: NodeId, s: string)
      modifies this
      ensures doc == WithText(old(doc), n, s)
    {
      doc := WithText(doc, n, s);
    }
  }
}
