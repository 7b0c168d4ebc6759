/**
 * The removal callback built by `createRmCb` (src/init.ts:118-125): a countdown shared by the
 * module `remove` hooks and the node's own `remove` hook. Each call lowers the count; the call
 * that brings it to zero detaches the node from its parent.
 */
module Removal {
  import opened Wrappers
  import opened Seqs
  import opened VNodes
  import opened HostTree

  /** How many of the first `calls` calls of a countdown started at `listeners` detach the node. */
  function Fired(listeners: int, calls: nat): nat {
    if calls == 0 then 0
    else Fired(listeners, calls - 1) + (if listeners - calls == 0 then 1 else 0)
  }

  /** The node is detached exactly once, by the `listeners`-th call, and never again afterwards;
      a countdown that starts below one never detaches. */
  lemma {:induction false} FiredExactlyOnce(listeners: int, calls: nat)
    ensures Fired(listeners, calls) == if 1 <= listeners <= calls then 1 else 0
  {
    if calls > 0 {
      FiredExactlyOnce(listeners, calls - 1);
    }
  }

  class RemoveCountdown {
    /** The document the node lives in. */
    const host: Host
    /** The node to detach (`childElm`, which may be undefined). */
    const elm: Option<NodeId>
    /** The count still to go (`listeners`). */
    var listeners: int
    ghost const initial: int
    ghost var calls: nat
    /** How many times a call has detached the node. */
    ghost var detached: nat

    ghost predicate Valid()
      reads this
    {
      listeners == initial - calls && detached == Fired(initial, calls)
    }

    constructor (host: Host, elm: Option<NodeId>, listeners: int)
      ensures Valid()
      ensures this.host == host && this.elm == elm && this.listeners == listeners
      ensures initial == listeners && calls == 0 && detached == 0
    {
      this.host, this.elm, this.listeners := host, elm, listeners;
      initial, calls, detached := listeners, 0, 0;
    }

    /**
     * One call of `rm`. The call that brings the count to zero removes the node from whatever
     * parent it has at that moment; every other call leaves the document alone.
     */
    method Call()
      requires Valid()
      modifies this, host
      ensures Valid()
      ensures listeners == old(listeners) - 1 && calls == old(calls) + 1
      ensures host.doc == if old(listeners) == 1 then DetachedAt(old(host.doc), elm) else old(host.doc)
    {
      listeners := listeners - 1;
      calls := calls + 1;
      if listeners == 0 && elm.Some? {
        var p := host.ParentNode(elm.value);
        if p.Some? {
          host.RemoveChild(p.value, elm.value);
        }
      }
      if listeners == 0 {
        detached := detached + 1;
      }
    }
  }
}
