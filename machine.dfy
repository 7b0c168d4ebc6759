/**
 * The state a patch threads through the engine: the host document, the record of every hook
 * call and `insertedVnodeQueue`, and the configuration `init` fixes once (src/init.ts:73-95).
 */
module Machine {
  import opened Wrappers
  import opened VNodes
  import opened HookTable
  import opened Events
  import opened HostTree

  /** The modules given to `init`, in order, and the per-phase table `cbs` built from them. */
  datatype Cfg = Cfg(modules: seq<Module>, cbs: Table)

  /** The table is the one `init` builds from the modules. */
  predicate Configured(c: Cfg) {
    forall ph :: c.cbs.Get(ph) == PhaseList(c.modules, ph)
  }

  /** The host document, the hook calls made so far and the insert queue of the current patch. */
  datatype St = St(doc: Doc, trace: seq<Event>, queue: seq<VNode>)

  /** A state and the vnode an operation returned (bound to its host node). */
  datatype Made = Made(st: St, r: VNode)

  /** A state and a children array whose slots an operation has bound to host nodes. */
  datatype MadeAll = MadeAll(st: St, items: seq<Option<VNode>>)

  /** Hook calls made, in order. */
  function Emit(s: St, es: seq<Event>): St {
    s.(trace := s.trace + es)
  }

  /** One hook call when the hook is present. */
  function HookIf(present: bool, name: HookName, at: Option<NodeId>): seq<Event> {
    if present then [Hook(name, at)] else []
  }

  /** `s2` comes after `s1`: hook calls and queued vnodes are only ever appended, and host node
      ids only ever handed out. */
  predicate Appends(s1: St, s2: St) {
    s1.trace <= s2.trace && s1.queue <= s2.queue && s1.doc.next <= s2.doc.next
  }
}
