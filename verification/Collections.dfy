/** An optional value, the elements of a worklist, and sizes of finite sets. */
module Collections {
  datatype Option<T> = None | Some(value: T)

  function Elements<T>(s: seq<T>): set<T> { set x | x in s }

  lemma ElementsAppend<T>(work: seq<T>, k: T)
    ensures Elements(work + [k]) == Elements(work) + {k}
  {
    assert (work + [k])[|work|] == k;
    forall x | x in Elements(work) ensures x in Elements(work + [k]) {
      var i :| 0 <= i < |work| && work[i] == x;
      assert (work + [k])[i] == x;
    }
  }

  lemma ElementsFirst<T>(work: seq<T>)
    requires work != []
    ensures work[0] in Elements(work) && Elements(work) == {work[0]} + Elements(work[1..])
  {
    assert work == [work[0]] + work[1..];
  }

  lemma SizeMonotone<T>(a: set<T>, b: set<T>)
    requires a <= b
    ensures |a| <= |b|
  {
    assert b == a + (b - a);
  }

  lemma SubsetSize<T>(a: set<T>, b: set<T>, x: T)
    requires a <= b && x in b && x !in a
    ensures |a| < |b|
  {
    SizeMonotone(a, b - {x});
  }

  /** What is left of `all` as a set grows. */
  lemma FewerLeft<T>(all: set<T>, a: set<T>, b: set<T>)
    requires a <= b <= all
    ensures |all - b| <= |all - a| && (a != b ==> |all - b| < |all - a|)
  {
    SizeMonotone(all - b, all - a);
    if a != b {
      var x :| x in b && x !in a;
      SubsetSize(all - b, all - a, x);
    }
  }
}
