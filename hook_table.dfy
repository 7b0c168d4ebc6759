/**
 * Modules and the per-phase hook table that `init` builds once (src/init.ts:57-95).
 */
module HookTable {

  /** The six module phases, in the order of the `hooks` array. */
  datatype Phase = Create | Update | Remove | Destroy | Pre | Post

  const HookOrder: seq<Phase> := [Create, Update, Remove, Destroy, Pre, Post]

  /** A module: which of the six callbacks it defines. A module's code is opaque; the model
      records each call, and `removeCallsBack` says whether its `remove` callback invokes the
      completion callback before returning. */
  datatype Module = Module(
    create: bool, update: bool, remove: bool, destroy: bool, pre: bool, post: bool,
    removeCallsBack: bool)

  predicate Has(m: Module, ph: Phase) {
    match ph
    case Create => m.create
    case Update => m.update
    case Remove => m.remove
    case Destroy => m.destroy
    case Pre => m.pre
    case Post => m.post
  }

  /** `cbs`: for each phase, the modules (by position in the module list) whose callback
      for that phase is defined. */
  datatype Table = Table(
    create: seq<nat>, update: seq<nat>, remove: seq<nat>,
    destroy: seq<nat>, pre: seq<nat>, post: seq<nat>)
  {
    function Get(ph: Phase): seq<nat> {
      match ph
      case Create => create
      case Update => update
      case Remove => remove
      case Destroy => destroy
      case Pre => pre
      case Post => post
    }

    /** `cbs[hook].push(module[hook])` */
    function Push(ph: Phase, i: nat): (t: Table)
      ensures t.Get(ph) == Get(ph) + [i]
      ensures forall q :: q != ph ==> t.Get(q) == Get(q)
    {
      match ph
      case Create => this.(create := create + [i])
      case Update => this.(update := update + [i])
      case Remove => this.(remove := remove + [i])
      case Destroy => this.(destroy := destroy + [i])
      case Pre => this.(pre := pre + [i])
      case Post => this.(post := post + [i])
    }
  }

  const EmptyTable := Table([], [], [], [], [], [])

  /** The positions of the modules that define a phase's callback, in module order. */
  function PhaseList(ms: seq<Module>, ph: Phase): seq<nat> {
    if |ms| == 0 then []
    else PhaseList(ms[..|ms| - 1], ph) + (if Has(ms[|ms| - 1], ph) then [|ms| - 1] else [])
  }

  /** The hook-table build of `init` (src/init.ts:73-95): for each phase, then for each
      module, push the module's callback when it is defined. */
  method BuildTable(modules: seq<Module>) returns (cbs: Table)
    ensures forall ph :: cbs.Get(ph) == PhaseList(modules, ph)
  {
    var lists: seq<seq<nat>> := [[], [], [], [], [], []];
    for h := 0 to |HookOrder|
      invariant |lists| == |HookOrder|
      invariant forall k :: 0 <= k < h ==> lists[k] == PhaseList(modules, HookOrder[k])
      invariant forall k :: h <= k < |lists| ==> lists[k] == []
    {
      var ph := HookOrder[h];
      ghost var before := lists;
      for i := 0 to |modules|
        invariant |lists| == |HookOrder|
        invariant lists[h] == PhaseList(modules[..i], ph)
        invariant forall k :: 0 <= k < |lists| && k != h ==> lists[k] == before[k]
      {
        assert modules[..i + 1][..i] == modules[..i];
        if Has(modules[i], ph) {
          lists := lists[h := lists[h] + [i]];
        }
      }
      assert modules[..|modules|] == modules;
    }
    cbs := Table(lists[0], lists[1], lists[2], lists[3], lists[4], lists[5]);
  }

  /** A phase's list holds exactly the modules defining that phase, each once, in module order. */
  lemma {:induction false} PhaseListExact(ms: seq<Module>, ph: Phase)
    ensures forall i: nat :: i in PhaseList(ms, ph) <==> i < |ms| && Has(ms[i], ph)
    ensures forall a, b :: 0 <= a < b < |PhaseList(ms, ph)| ==> PhaseList(ms, ph)[a] < PhaseList(ms, ph)[b]
    ensures forall a :: 0 <= a < |PhaseList(ms, ph)| ==> PhaseList(ms, ph)[a] < |ms|
  {
    if |ms| > 0 {
      var init := ms[..|ms| - 1];
      PhaseListExact(init, ph);
      assert forall i :: 0 <= i < |init| ==> init[i] == ms[i];
    }
  }
}
