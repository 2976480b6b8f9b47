/** Filtering a sequence by a predicate, proved once for every element type and predicate. */
module Sequences {

  /** The elements of `s` that satisfy `keep`, in their original order. */
  function Filter<T>(keep: T -> bool, s: seq<T>): (r: seq<T>)
    ensures |r| <= |s|
    ensures forall i | 0 <= i < |r| :: keep(r[i])
  {
    if s == [] then []
    else (if keep(s[0]) then [s[0]] else []) + Filter(keep, s[1..])
  }

  /** Filtering distributes over concatenation. */
  lemma {:induction false} FilterAppend<T>(keep: T -> bool, a: seq<T>, b: seq<T>)
    ensures Filter(keep, a + b) == Filter(keep, a) + Filter(keep, b)
  {
    if a == [] {
      assert a + b == b;
    } else {
      assert (a + b)[1..] == a[1..] + b;
      FilterAppend(keep, a[1..], b);
      assert Filter(keep, a + b) == (if keep(a[0]) then [a[0]] else []) + Filter(keep, a[1..] + b);
    }
  }

  /** A one-element sequence keeps its element exactly when the element satisfies the predicate. */
  lemma FilterSingle<T>(keep: T -> bool, x: T)
    ensures Filter(keep, [x]) == if keep(x) then [x] else []
  {
    assert [x][1..] == [];
  }

  /** Filtering leaves `s` unchanged exactly when every element satisfies the predicate. */
  lemma {:induction false} FilterFixpoint<T>(keep: T -> bool, s: seq<T>)
    ensures Filter(keep, s) == s <==> forall i | 0 <= i < |s| :: keep(s[i])
  {
    if s != [] {
      FilterFixpoint(keep, s[1..]);
      if !keep(s[0]) {
        assert |Filter(keep, s)| < |s| by {
          assert Filter(keep, s) == Filter(keep, s[1..]);
        }
      } else {
        assert forall i | 1 <= i < |s| :: s[i] == s[1..][i - 1];
        assert (forall i | 0 <= i < |s| :: keep(s[i])) <==> (forall i | 0 <= i < |s[1..]| :: keep(s[1..][i]));
        assert Filter(keep, s) == [s[0]] + Filter(keep, s[1..]);
        assert s == [s[0]] + s[1..];
      }
    }
  }

  /** Every kept value occurs as often as in `s`; no other value occurs. */
  lemma {:induction false} FilterCount<T>(keep: T -> bool, s: seq<T>)
    ensures forall x | keep(x) :: multiset(Filter(keep, s))[x] == multiset(s)[x]
    ensures forall x | !keep(x) :: x !in Filter(keep, s)
  {
    if s != [] {
      FilterCount(keep, s[1..]);
      assert s == [s[0]] + s[1..];
    }
  }
}
