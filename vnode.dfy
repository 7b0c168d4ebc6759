/**
 * The virtual node (vnode) that the reconciliation engine compares and patches,
 * and the identity test `sameVnode` that decides between patching and replacing.
 */
module VNodes {
  import opened Wrappers

  /** A node of the host document, named by the number the host gave it. */
  type NodeId = nat

  /** Which per-node hooks a vnode's `data.hook` carries. `removeCallsBack` says whether the
      node's own `remove` hook invokes its completion callback before it returns (the model's
      stand-in for the hook's arbitrary code). */
  datatype HookSet = HookSet(
    init: bool, create: bool, insert: bool, prepatch: bool, update: bool,
    postpatch: bool, destroy: bool, remove: bool, removeCallsBack: bool)

  const NoHooks := HookSet(false, false, false, false, false, false, false, false, false)

  /** The part of `vnode.data` the engine itself reads: `is` (field `isTag`), the namespace and the hooks. */
  datatype Data = Data(isTag: Option<string>, ns: Option<string>, hook: HookSet)

  /** `vnode.children`: either undefined or an array whose slots may hold null. */
  datatype Children = Missing | Array(items: seq<Option<VNode>>)

  datatype VNode = VNode(
    sel: Option<string>,
    key: Option<string>,
    data: Option<Data>,
    children: Children,
    text: Option<string>,
    elm: Option<NodeId>)

  /** `vnode.data?.is` */
  function IsOf(v: VNode): Option<string> {
    if v.data.Some? then v.data.value.isTag else None
  }

  /** The hooks of `vnode.data?.hook`; a vnode without data has none. */
  function HooksOf(v: VNode): HookSet {
    if v.data.Some? then v.data.value.hook else NoHooks
  }

  /** The identity triple that `sameVnode` compares. */
  function Ident(v: VNode): (Option<string>, Option<string>, Option<string>) {
    (v.sel, v.key, IsOf(v))
  }

  /** sameVnode (src/init.ts:20-26) */
  predicate SameVnode(a: VNode, b: VNode) {
    a.key == b.key && IsOf(a) == IsOf(b) && a.sel == b.sel
  }

  /** sameVnode compares the identity triple and nothing else: the children, the text, the host
      node and every part of `data` other than `is` may differ. */
  lemma SameVnodeIsIdentity(a: VNode, b: VNode, ch: Children, text: Option<string>, elm: Option<NodeId>,
                            ns: Option<string>, hook: HookSet)
    ensures SameVnode(a, b) <==> Ident(a) == Ident(b)
    ensures SameVnode(a.(children := ch, text := text, elm := elm), b) <==> SameVnode(a, b)
    ensures a.data.Some? ==> (SameVnode(a.(data := Some(a.data.value.(ns := ns, hook := hook))), b) <==> SameVnode(a, b))
  {
  }

  /** isVnode (src/init.ts:29-31): anything whose `sel` is undefined is taken for a raw element. */
  predicate IsVnode(v: VNode) {
    v.sel.Some?
  }

  /** The comment selector. */
  const CommentSel := "!"

  /** An element vnode: a selector other than the comment marker. */
  predicate IsElement(v: VNode) {
    v.sel.Some? && v.sel.value != CommentSel
  }

  /** The host nodes of the non-null slots of a children array, in order (unset `elm`s are skipped). */
  function Elms(s: seq<Option<VNode>>): seq<NodeId> {
    if |s| == 0 then []
    else (if s[0].Some? && s[0].value.elm.Some? then [s[0].value.elm.value] else []) + Elms(s[1..])
  }

  /** Every host node a vnode tree is bound to. */
  function ElmSet(v: VNode): set<NodeId> {
    (if v.elm.Some? then {v.elm.value} else {}) +
    (if v.children.Missing? then {} else
       set i, e | 0 <= i < |v.children.items| && v.children.items[i].Some? &&
                  e in ElmSet(v.children.items[i].value) :: e)
  }

  /** The host nodes of every tree in a range of slots. */
  function ElmSetOf(s: seq<Option<VNode>>): set<NodeId> {
    set i, e | 0 <= i < |s| && s[i].Some? && e in ElmSet(s[i].value) :: e
  }

  /** The defined keys of the non-null slots of a children array. */
  function KeysOf(s: seq<Option<VNode>>): set<string> {
    set i | 0 <= i < |s| && s[i].Some? && s[i].value.key.Some? :: s[i].value.key.value
  }

  /** A tree materialised by the engine binds distinct host nodes: no node is bound twice. */
  predicate Distinct(v: VNode) {
    v.children.Array? ==>
      var cs := v.children.items;
      && (v.elm.Some? ==> v.elm.value !in ElmSetOf(cs))
      && (forall i, j :: 0 <= i < j < |cs| && cs[i].Some? && cs[j].Some? ==>
            ElmSet(cs[i].value) !! ElmSet(cs[j].value))
      && (forall i :: 0 <= i < |cs| && cs[i].Some? ==> Distinct(cs[i].value))
  }

  /** What the caller promises of a tree it asks the engine to render: an element vnode carries
      `data` (createElm dereferences `vnode.data!`), a text vnode carries its text, only elements
      have children. createElm does not read keys, so nothing is asked of them here. */
  predicate Renderable(v: VNode) {
    && (IsElement(v) ==> v.data.Some?)
    && (v.sel.None? ==> v.text.Some?)
    && (!IsElement(v) ==> v.children.Missing?)
    && (v.children.Array? ==>
          forall i :: 0 <= i < |v.children.items| && v.children.items[i].Some? ==>
            Renderable(v.children.items[i].value))
  }

  lemma {:induction false} ElmsAppend(a: seq<Option<VNode>>, b: seq<Option<VNode>>)
    ensures Elms(a + b) == Elms(a) + Elms(b)
  {
    if |a| == 0 {
      assert a + b == b;
    } else {
      assert (a + b)[1..] == a[1..] + b;
      ElmsAppend(a[1..], b);
    }
  }
}
