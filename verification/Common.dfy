/** What several of the modules share. */
module Common {

  datatype Option<+T> = None | Some(value: T)

  function Max(a: int, b: int): int { if a < b then b else a }
  function Min(a: int, b: int): int { if a < b then a else b }

  predicate NoDuplicates<T(==)>(s: seq<T>) {
    forall i, j :: 0 <= i < j < |s| ==> s[i] != s[j]
  }

  lemma HasMember(a: seq<int>)
    ensures a != [] ==> a[0] in a
  {
  }

  /** Two ascending lists of the same members are the same list. */
  lemma {:induction false} SameMembersSameList(a: seq<int>, b: seq<int>)
    requires forall p :: p in a <==> p in b
    requires forall i, j :: 0 <= i < j < |a| ==> a[i] < a[j]
    requires forall i, j :: 0 <= i < j < |b| ==> b[i] < b[j]
    ensures a == b
    decreases |a|
  {
    if a == [] {
      HasMember(b);
    } else {
      var x, a' := a[|a| - 1], a[..|a| - 1];
      assert x in a;
      assert x in b;
      var y, b' := b[|b| - 1], b[..|b| - 1];
      assert y in b;
      assert x == y && a == a' + [x] && b == b' + [x];
      forall p ensures p in a' <==> p in b' {
        assert p in a <==> p in a' || p == x;
        assert p in b <==> p in b' || p == x;
      }
      SameMembersSameList(a', b');
    }
  }
}
