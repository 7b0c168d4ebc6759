/**
 * createKeyToOldIdx (src/init.ts:42-55): the key-to-index map over a slice of old children.
 */
module KeyMap {
  import opened Wrappers
  import opened VNodes

  /** `children[i]?.key`, where a slot outside the array reads as undefined. */
  function KeyAt(children: seq<Option<VNode>>, i: int): (k: Option<string>)
    ensures k.Some? ==> 0 <= i < |children| && children[i].Some? && children[i].value.key == k
  {
    if 0 <= i < |children| && children[i].Some? then children[i].value.key else None
  }

  /** The map after the loop has visited the indices `b .. i-1`: each defined key is mapped to the
      index it was last seen at. */
  function KeyIdx(children: seq<Option<VNode>>, b: int, i: int): map<string, nat>
    decreases i - b
  {
    if i <= b then map[]
    else
      var m := KeyIdx(children, b, i - 1);
      var k := KeyAt(children, i - 1);
      if k.Some? then m[k.value := i - 1] else m
  }

  /** Every entry points into the slice, at a child that carries the key; every defined key of the
      slice is present, mapped to its last occurrence. Keys not carried by the slice are absent. */
  lemma {:induction false} KeyIdxSpec(children: seq<Option<VNode>>, b: int, i: int)
    ensures forall k :: k in KeyIdx(children, b, i) ==>
      b <= KeyIdx(children, b, i)[k] < i && KeyAt(children, KeyIdx(children, b, i)[k]) == Some(k)
    ensures forall j :: b <= j < i && KeyAt(children, j).Some? ==>
      KeyAt(children, j).value in KeyIdx(children, b, i) && j <= KeyIdx(children, b, i)[KeyAt(children, j).value]
    decreases i - b
  {
    if i > b {
      KeyIdxSpec(children, b, i - 1);
    }
  }

  /** The entry for a key is the last index of the slice carrying it. */
  lemma LastOccurrenceWins(children: seq<Option<VNode>>, b: int, i: int, k: string, j: int)
    requires b <= j < i && KeyAt(children, j) == Some(k)
    requires forall j' :: j < j' < i ==> KeyAt(children, j') != Some(k)
    ensures k in KeyIdx(children, b, i) && KeyIdx(children, b, i)[k] == j
  {
    KeyIdxSpec(children, b, i);
  }

  /** Only the slice matters: slots outside `b .. i-1` may hold anything. */
  lemma {:induction false} KeyIdxLocal(c1: seq<Option<VNode>>, c2: seq<Option<VNode>>, b: int, i: int)
    requires forall j :: b <= j < i ==> KeyAt(c1, j) == KeyAt(c2, j)
    ensures KeyIdx(c1, b, i) == KeyIdx(c2, b, i)
    decreases i - b
  {
    if i > b {
      KeyIdxLocal(c1, c2, b, i - 1);
    }
  }

  /** The loop of createKeyToOldIdx over `children[beginIdx..endIdx]`, both ends included. */
  method CreateKeyToOldIdx(children: array<Option<VNode>>, beginIdx: int, endIdx: int)
    returns (m: map<string, nat>)
    ensures m == KeyIdx(children[..], beginIdx, endIdx + 1)
  {
    m := map[];
    var i := beginIdx;
    while i <= endIdx
      invariant beginIdx <= i <= if endIdx < beginIdx then beginIdx else endIdx + 1
      invariant m == KeyIdx(children[..], beginIdx, i)
    {
      var key: Option<string> := None;
      if 0 <= i < children.Length && children[i].Some? {
        key := children[i].value.key;
      }
      if key.Some? {
        m := m[key.value := i];
      }
      i := i + 1;
    }
  }
}
