/** Sequence helpers for the host tree's child lists. */
module Seqs {
  import opened Wrappers

  predicate NoDups<T(==)>(s: seq<T>) {
    forall i, j :: 0 <= i < j < |s| ==> s[i] != s[j]
  }

  /** The position of the first occurrence of `x`. */
  function IndexOf<T(==)>(s: seq<T>, x: T): (i: nat)
    requires x in s
    ensures i < |s| && s[i] == x && x !in s[..i]
  {
    if s[0] == x then 0 else 1 + IndexOf(s[1..], x)
  }

  /** `s` with every occurrence of `x` taken out. */
  function Without<T(==)>(s: seq<T>, x: T): seq<T> {
    if |s| == 0 then []
    else (if s[0] == x then [] else [s[0]]) + Without(s[1..], x)
  }

  /** `x` placed just before `ref`, or at the end when there is no such reference in `s`. */
  function InsertBefore<T(==)>(s: seq<T>, x: T, ref: Option<T>): seq<T> {
    if ref.Some? && ref.value in s then
      var i := IndexOf(s, ref.value); s[..i] + [x] + s[i..]
    else s + [x]
  }

  /** The element after `x`, if any. */
  function After<T(==)>(s: seq<T>, x: T): Option<T>
    requires x in s
  {
    var i := IndexOf(s, x); if i + 1 < |s| then Some(s[i + 1]) else None
  }

  lemma {:induction false} WithoutAppend<T>(a: seq<T>, b: seq<T>, x: T)
    ensures Without(a + b, x) == Without(a, x) + Without(b, x)
  {
    if |a| == 0 {
      assert a + b == b;
    } else {
      assert (a + b)[1..] == a[1..] + b;
      WithoutAppend(a[1..], b, x);
    }
  }

  lemma {:induction false} WithoutAbsent<T>(s: seq<T>, x: T)
    requires x !in s
    ensures Without(s, x) == s
  {
    if |s| > 0 {
      WithoutAbsent(s[1..], x);
    }
  }

  lemma {:induction false} WithoutSubset<T>(s: seq<T>, x: T)
    ensures forall y :: y in Without(s, x) <==> y in s && y != x
  {
    if |s| > 0 {
      WithoutSubset(s[1..], x);
    }
  }

  lemma {:induction false} WithoutNoDups<T>(s: seq<T>, x: T)
    requires NoDups(s)
    ensures NoDups(Without(s, x))
  {
    if |s| > 0 {
      assert NoDups(s[1..]) by {
        assert forall i, j :: 0 <= i < j < |s| - 1 ==> s[1..][i] == s[i + 1] && s[1..][j] == s[j + 1];
      }
      WithoutNoDups(s[1..], x);
      WithoutSubset(s[1..], x);
      var h := if s[0] == x then [] else [s[0]];
      assert s[0] !in s[1..];
      NoDupsAppend(h, Without(s[1..], x));
    }
  }

  /** Taking out the one occurrence of `x`. */
  lemma WithoutMiddle<T>(a: seq<T>, x: T, b: seq<T>)
    requires x !in a && x !in b
    ensures Without(a + [x] + b, x) == a + b
  {
    assert [x][1..] == [];
    calc {
      Without(a + [x] + b, x);
      { WithoutAppend(a + [x], b, x); }
      Without(a + [x], x) + Without(b, x);
      { WithoutAppend(a, [x], x); }
      Without(a, x) + Without([x], x) + Without(b, x);
      { WithoutAbsent(a, x); WithoutAbsent(b, x); }
      a + [] + b;
    }
  }

  lemma IndexOfAt<T>(s: seq<T>, i: nat)
    requires i < |s| && s[i] !in s[..i]
    ensures IndexOf(s, s[i]) == i
  {
  }

  /** Inserting before an element that follows a prefix free of it. */
  lemma InsertBeforeAt<T>(a: seq<T>, r: T, c: seq<T>, x: T)
    requires r !in a
    ensures InsertBefore(a + [r] + c, x, Some(r)) == a + [x] + [r] + c
  {
    var s := a + [r] + c;
    assert s[|a|] == r && s[..|a|] == a;
    IndexOfAt(s, |a|);
    assert s[|a|..] == [r] + c;
  }

  lemma InsertBeforeNone<T>(s: seq<T>, x: T)
    ensures InsertBefore(s, x, None) == s + [x]
  {
  }

  lemma NoDupsAppend<T>(a: seq<T>, b: seq<T>)
    ensures NoDups(a + b) <==> NoDups(a) && NoDups(b) && (forall y :: y in a ==> y !in b)
  {
    if NoDups(a + b) {
      forall i, j | 0 <= i < |a| && 0 <= j < |b| ensures a[i] != b[j] {
        assert (a + b)[i] == a[i] && (a + b)[|a| + j] == b[j];
      }
      assert forall i, j :: 0 <= i < j < |a| ==> a[i] == (a + b)[i] && a[j] == (a + b)[j];
      assert forall i, j :: 0 <= i < j < |b| ==> b[i] == (a + b)[|a| + i] && b[j] == (a + b)[|a| + j];
    }
    if NoDups(a) && NoDups(b) && (forall y :: y in a ==> y !in b) {
      forall i, j | 0 <= i < j < |a + b| ensures (a + b)[i] != (a + b)[j] {
        if j < |a| {
        } else if i >= |a| {
          assert (a + b)[i] == b[i - |a|] && (a + b)[j] == b[j - |a|];
        } else {
          assert (a + b)[i] in a && (a + b)[j] == b[j - |a|];
        }
      }
    }
  }

  /** Insertion adds exactly the inserted element. */
  lemma InsertBeforeMembers<T>(s: seq<T>, x: T, ref: Option<T>)
    ensures forall y :: y in InsertBefore(s, x, ref) <==> y in s || y == x
    ensures |InsertBefore(s, x, ref)| == |s| + 1
  {
    if ref.Some? && ref.value in s {
      var i := IndexOf(s, ref.value);
      assert s == s[..i] + s[i..];
    }
  }

  /** Placing an absent element at position `i` keeps a list free of duplicates. */
  lemma NoDupsInsertAt<T>(s: seq<T>, i: nat, x: T)
    requires NoDups(s) && x !in s && i <= |s|
    ensures NoDups(s[..i] + [x] + s[i..])
  {
    var t := s[..i] + [x] + s[i..];
    assert forall j :: 0 <= j < |t| ==> t[j] == if j < i then s[j] else if j == i then x else s[j - 1];
    forall a, b | 0 <= a < b < |t| ensures t[a] != t[b] {
      if a == i {
        assert t[b] == s[b - 1];
      } else if b == i {
        assert t[a] == s[a];
      }
    }
  }

  /** Inserting an absent element keeps a list free of duplicates. */
  lemma InsertBeforeNoDups<T>(s: seq<T>, x: T, ref: Option<T>)
    requires NoDups(s) && x !in s
    ensures NoDups(InsertBefore(s, x, ref))
  {
    if ref.Some? && ref.value in s {
      NoDupsInsertAt(s, IndexOf(s, ref.value), x);
    } else {
      NoDupsInsertAt(s, |s|, x);
      assert s[..|s|] + [x] + s[|s|..] == s + [x];
    }
  }

  /** Regrouping a concatenation; stated once so that callers need not reprove it elementwise. */
  lemma AppendAssoc<T>(a: seq<T>, b: seq<T>, c: seq<T>)
    ensures a + (b + c) == (a + b) + c
  {
  }

  lemma AppendNil<T>(a: seq<T>)
    ensures a + [] == a
  {
  }

  /** Dropping the last element of a slice. */
  lemma SliceLast<T>(s: seq<T>, lo: nat, k: nat)
    requires lo < k <= |s|
    ensures s[lo..k][..k - 1 - lo] == s[lo..k - 1] && s[lo..k][k - 1 - lo] == s[k - 1]
  {
  }
}
