/** Small shared vocabulary. */
module Common {

  /** An optional value; `None` stands for the source's NULL pointer or NULL handle. */
  datatype Option<+T> = None | Some(value: T)

  /** All elements of `s` are pairwise different. */
  predicate NoDuplicates<T(==)>(s: seq<T>)
  {
    forall i, j :: 0 <= i < j < |s| ==> s[i] != s[j]
  }

  /** Two duplicate-free sequences with no element in common concatenate to a duplicate-free one. */
  lemma NoDuplicatesAppend<T>(a: seq<T>, b: seq<T>)
    requires NoDuplicates(a) && NoDuplicates(b)
    requires forall e :: e in b ==> e !in a
    ensures NoDuplicates(a + b)
  {
    forall i, j | 0 <= i < j < |a + b|
      ensures (a + b)[i] != (a + b)[j]
    {
      if i < |a| && j >= |a| {
        assert (a + b)[j] == b[j - |a|] && (a + b)[i] == a[i];
        assert (a + b)[j] in b && (a + b)[i] in a;
      } else if i >= |a| {
        assert (a + b)[j] == b[j - |a|] && (a + b)[i] == b[i - |a|];
      } else if j < |a| {
        assert (a + b)[j] == a[j] && (a + b)[i] == a[i];
      }
    }
  }
}
