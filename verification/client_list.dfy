/** ArrayList.remove(Object) on the server's list of sessions: the first element equal to the
    argument is taken out and the others close ranks in their old order. */
module ClientList {

  /** No element occurs twice. */
  ghost predicate Distinct<T>(s: seq<T>)
  {
    forall i, j :: 0 <= i < j < |s| ==> s[i] != s[j]
  }

  function RemoveFirst<T(==)>(s: seq<T>, x: T): (r: seq<T>)
    ensures x !in s ==> r == s
    ensures x in s ==> |r| == |s| - 1
    ensures multiset(r) == multiset(s) - multiset{x}
  {
    if s == [] then []
    else
      assert s == [s[0]] + s[1..];
      if s[0] == x then s[1..] else [s[0]] + RemoveFirst(s[1..], x)
  }

  /** Removal brings in nothing new. */
  lemma RemoveFirstKeeps<T>(s: seq<T>, x: T)
    ensures forall y :: y in RemoveFirst(s, x) ==> y in s
  {
  }

  /** Removing the first occurrence at index i splices the list around i. */
  lemma {:induction false} RemoveFirstAt<T>(s: seq<T>, x: T, i: nat)
    requires i < |s| && s[i] == x && x !in s[..i]
    ensures RemoveFirst(s, x) == s[..i] + s[i + 1..]
  {
    if i == 0 {
      assert RemoveFirst(s, x) == s[1..];
    } else {
      assert s[0] == s[..i][0] != x;
      assert RemoveFirst(s, x) == [s[0]] + RemoveFirst(s[1..], x);
      assert s[1..][..i - 1] == s[..i][1..];
      RemoveFirstAt(s[1..], x, i - 1);
      assert s[1..][i..] == s[i + 1..];
      assert [s[0]] + s[1..][..i - 1] == s[..i];
    }
  }

  /** Taking index i out of a list without repetitions leaves a list without repetitions that no
      longer holds s[i]. */
  lemma DistinctSplice<T>(s: seq<T>, i: nat)
    requires Distinct(s) && i < |s|
    ensures Distinct(s[..i] + s[i + 1..]) && s[i] !in s[..i] + s[i + 1..]
  {
  }

  /** In a list without repetitions the removed element is gone and no other is lost or reordered. */
  lemma RemoveFromDistinct<T>(s: seq<T>, i: nat)
    requires Distinct(s) && i < |s|
    ensures RemoveFirst(s, s[i]) == s[..i] + s[i + 1..]
    ensures Distinct(RemoveFirst(s, s[i])) && s[i] !in RemoveFirst(s, s[i])
  {
    forall j | 0 <= j < i ensures s[..i][j] != s[i] {
      assert s[..i][j] == s[j];
    }
    RemoveFirstAt(s, s[i], i);
    DistinctSplice(s, i);
  }
}
