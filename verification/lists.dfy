/** The list operations the scene graph relies on: `List<T>.Add` guarded by
    `Contains`, `List<T>.Remove` (first occurrence only) and `List<T>.Reverse`. */
module Lists {
  datatype Option<T> = None | Some(value: T)

  predicate NoDuplicates<T(==)>(s: seq<T>) {
    forall i, j :: 0 <= i < j < |s| ==> s[i] != s[j]
  }

  /** `if (!list.Contains(x)) list.Add(x)`. */
  function Adjoin<T(==)>(s: seq<T>, x: T): seq<T> {
    if x in s then s else s + [x]
  }

  /** Adding keeps what was there, in order, adds `x` exactly when it was absent, and
      keeps a duplicate-free list duplicate-free. */
  lemma AdjoinProperties<T>(s: seq<T>, x: T)
    ensures x in Adjoin(s, x)
    ensures x in s ==> Adjoin(s, x) == s
    ensures x !in s ==> Adjoin(s, x) == s + [x]
    ensures Adjoin(s, x)[..|s|] == s
    ensures forall y :: y in Adjoin(s, x) <==> y in s || y == x
    ensures NoDuplicates(s) ==> NoDuplicates(Adjoin(s, x))
  {
    assert (s + [x])[..|s|] == s;
  }

  /** Adding twice is adding once. */
  lemma AdjoinIdempotent<T>(s: seq<T>, x: T)
    ensures Adjoin(Adjoin(s, x), x) == Adjoin(s, x)
  {
    AdjoinProperties(s, x);
  }

  /** The index of the first occurrence of `x`. */
  function IndexOf<T(==)>(s: seq<T>, x: T): (i: nat)
    requires x in s
    ensures i < |s| && s[i] == x && x !in s[..i]
  {
    if s[0] == x then 0 else
      var k := IndexOf(s[1..], x);
      assert s[..k + 1] == [s[0]] + s[1..][..k];
      k + 1
  }

  /** `List<T>.Remove`: drops the first occurrence, if any. */
  function RemoveFirst<T(==)>(s: seq<T>, x: T): seq<T> {
    if x in s then s[..IndexOf(s, x)] + s[IndexOf(s, x) + 1..] else s
  }

  /** Removing an absent element changes nothing; removing a present one shortens the
      list by one, and from a duplicate-free list it removes every trace of `x` and
      nothing else. */
  lemma RemoveFirstProperties<T>(s: seq<T>, x: T)
    ensures x !in s ==> RemoveFirst(s, x) == s
    ensures x in s ==> |RemoveFirst(s, x)| == |s| - 1
    ensures NoDuplicates(s) ==> NoDuplicates(RemoveFirst(s, x))
    ensures NoDuplicates(s) ==> forall y :: y in RemoveFirst(s, x) <==> y in s && y != x
  {
    if x in s {
      var i := IndexOf(s, x);
      var r := RemoveFirst(s, x);
      assert forall k :: 0 <= k < |r| ==> r[k] == if k < i then s[k] else s[k + 1];
      if NoDuplicates(s) {
        forall y
          ensures y in r <==> y in s && y != x
        {
          if y in r {
            var k :| 0 <= k < |r| && r[k] == y;
          }
          if y in s && y != x {
            var k :| 0 <= k < |s| && s[k] == y;
            assert k != i;
            if k < i { assert r[k] == y; } else { assert r[k - 1] == y; }
          }
        }
      }
    }
  }

  /** Removing what was just added to a list that lacked it gives the list back. */
  lemma RemoveUndoesAdjoin<T>(s: seq<T>, x: T)
    requires x !in s
    ensures RemoveFirst(Adjoin(s, x), x) == s
  {
    var t := s + [x];
    assert t[|s|] == x;
    assert t[..|s|] == s;
    assert IndexOf(t, x) == |s|;
  }

  /** `List<T>.Reverse`: the last element first, then the rest reversed. */
  function Reverse<T>(s: seq<T>): (r: seq<T>)
    ensures |r| == |s|
    ensures s != [] ==> r[0] == s[|s| - 1] && r[|r| - 1] == s[0]
  {
    if |s| == 0 then [] else [s[|s| - 1]] + Reverse(s[..|s| - 1])
  }

  /** Position `i` of the reversed list holds the element `i` places from the end. */
  lemma {:induction false} ReverseAt<T>(s: seq<T>, i: nat)
    requires i < |s|
    ensures Reverse(s)[i] == s[|s| - 1 - i]
  {
    if 0 < i {
      ReverseAt(s[..|s| - 1], i - 1);
    }
  }

  /** Reversing twice gives the list back. */
  lemma ReverseReverse<T>(s: seq<T>)
    ensures Reverse(Reverse(s)) == s
  {
    forall i | 0 <= i < |s|
      ensures Reverse(Reverse(s))[i] == s[i]
    {
      ReverseAt(Reverse(s), i);
      ReverseAt(s, |s| - 1 - i);
    }
  }
}
