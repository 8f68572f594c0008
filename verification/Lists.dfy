/** Sequences without repetitions, standing for linked lists. */
module Lists {

  ghost predicate NoRepeats<T>(xs: seq<T>) {
    forall i, j :: 0 <= i < j < |xs| ==> xs[i] != xs[j]
  }

  /** xs without the first occurrence of a. */
  function Remove<T(==)>(xs: seq<T>, a: T): (r: seq<T>)
    ensures forall x :: x in r ==> x in xs
  {
    if xs == [] then [] else if xs[0] == a then xs[1..] else [xs[0]] + Remove(xs[1..], a)
  }

  lemma NoRepeatsCons<T>(x: T, xs: seq<T>)
    requires NoRepeats(xs) && x !in xs
    ensures NoRepeats([x] + xs)
  {
  }

  lemma {:induction false} RemoveMembers<T>(xs: seq<T>, a: T)
    requires NoRepeats(xs)
    ensures NoRepeats(Remove(xs, a)) && a !in Remove(xs, a)
    ensures forall x :: x in Remove(xs, a) <==> x in xs && x != a
  {
    if xs != [] {
      assert forall x :: x in xs <==> x == xs[0] || x in xs[1..];
      assert xs[0] !in xs[1..];
      if xs[0] != a {
        RemoveMembers(xs[1..], a);
        NoRepeatsCons(xs[0], Remove(xs[1..], a));
      }
    }
  }

  lemma {:induction false} RemoveAbsent<T>(xs: seq<T>, a: T)
    requires a !in xs
    ensures Remove(xs, a) == xs
  {
    if xs != [] {
      RemoveAbsent(xs[1..], a);
    }
  }

  lemma {:induction false} RemoveLength<T>(xs: seq<T>, a: T)
    ensures |Remove(xs, a)| == if a in xs then |xs| - 1 else |xs|
  {
    if xs != [] && xs[0] != a {
      RemoveLength(xs[1..], a);
    }
  }

  lemma {:induction false} RemoveAt<T>(xs: seq<T>, k: nat)
    requires NoRepeats(xs) && k < |xs|
    ensures Remove(xs, xs[k]) == xs[..k] + xs[k + 1..]
  {
    if k > 0 {
      RemoveAt(xs[1..], k - 1);
      assert xs[1..][k - 1] == xs[k];
      assert xs[1..][..k - 1] == xs[1..k] && xs[1..][k..] == xs[k + 1..];
    }
  }
}
