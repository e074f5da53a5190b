/** Facts about sequences that several components share. */
module Seqs {

  ghost predicate Distinct<T>(s: seq<T>) {
    forall i, j :: 0 <= i < j < |s| ==> s[i] != s[j]
  }

  /** A sequence without repetitions is no longer than any set that holds its elements. */
  lemma {:induction false} DistinctFits<T>(s: seq<T>, container: set<T>)
    requires Distinct(s)
    requires forall x :: x in s ==> x in container
    ensures |s| <= |container|
  {
    if s == [] {
    } else {
      DistinctFits(s[1..], container - {s[0]});
    }
  }

  lemma {:induction false} DistinctMultiplicity<T>(s: seq<T>, x: T)
    requires Distinct(s)
    ensures multiset(s)[x] == if x in s then 1 else 0
  {
    if s == [] {
    } else {
      assert s == [s[0]] + s[1..];
      DistinctMultiplicity(s[1..], x);
    }
  }

  lemma DistinctSameElements<T(!new)>(a: seq<T>, b: seq<T>)
    requires Distinct(a) && Distinct(b) && forall x :: x in a <==> x in b
    ensures multiset(a) == multiset(b)
  {
    forall x
      ensures multiset(a)[x] == multiset(b)[x]
    {
      DistinctMultiplicity(a, x);
      DistinctMultiplicity(b, x);
    }
  }

  /** The elements of a finite set can be listed. */
  lemma {:induction false} ListSet<T>(elements: set<T>) returns (list: seq<T>)
    ensures Distinct(list) && forall x :: x in list <==> x in elements
  {
    if elements == {} {
      list := [];
    } else {
      var x :| x in elements;
      var rest := ListSet(elements - {x});
      list := rest + [x];
    }
  }

  lemma MultiplicityDistinct<T(!new)>(s: seq<T>)
    requires forall x :: multiset(s)[x] <= 1
    ensures Distinct(s)
  {
    forall i, j | 0 <= i < j < |s|
      ensures s[i] != s[j]
    {
      assert s == s[..j] + s[j..];
      assert s[i] in s[..j];
      assert s[j] == s[j..][0];
      assert multiset(s)[s[i]] == multiset(s[..j])[s[i]] + multiset(s[j..])[s[i]];
    }
  }

  lemma DistinctConcat<T>(a: seq<T>, b: seq<T>)
    requires Distinct(a) && Distinct(b) && forall x :: x in a ==> x !in b
    ensures Distinct(a + b)
  {
    forall i, j | 0 <= i < j < |a + b|
      ensures (a + b)[i] != (a + b)[j]
    {
      if i < |a| <= j {
        assert a[i] in a && b[j - |a|] in b;
      }
    }
  }

  lemma TakeOneMore<T>(s: seq<T>, i: nat)
    requires i < |s|
    ensures s[..i + 1] == s[..i] + [s[i]]
    ensures multiset(s[..i + 1]) == multiset(s[..i]) + multiset{s[i]}
  {
    assert s[..i + 1] == s[..i] + [s[i]];
  }

  lemma TakeAll<T>(s: seq<T>)
    ensures s[..|s|] == s
    ensures multiset(s[..|s|]) == multiset(s)
  {
    assert s[..|s|] == s;
  }

  lemma CountLast<T>(s: seq<T>, x: T)
    requires s != []
    ensures multiset(s)[x] == multiset(s[..|s| - 1])[x] + if s[|s| - 1] == x then 1 else 0
  {
    assert s == s[..|s| - 1] + [s[|s| - 1]];
  }

  lemma RemoveOne<T>(s: seq<T>, i: nat)
    requires i < |s|
    ensures multiset(s[..i] + s[i + 1..]) == multiset(s) - multiset{s[i]}
  {
    assert s == s[..i] + ([s[i]] + s[i + 1..]);
  }

  lemma HeadFirst<T>(s: seq<T>)
    requires s != []
    ensures s == [s[0]] + s[1..]
    ensures multiset(s) == multiset{s[0]} + multiset(s[1..])
  {
    assert s == [s[0]] + s[1..];
  }

  lemma ConcatAssociative<T>(a: seq<T>, b: seq<T>, c: seq<T>)
    ensures a + b + c == a + (b + c)
  {
  }

  lemma TakeDropAppend<T>(a: seq<T>, b: seq<T>, k: nat)
    requires k <= |b|
    ensures (a + b)[..|a| + k] == a + b[..k]
    ensures (a + b)[|a| + k..] == b[k..]
  {
  }

  lemma DropAppend<T>(a: seq<T>, b: seq<T>)
    ensures (a + b)[..|a|] == a
    ensures (a + b)[|a|..] == b
  {
  }

  lemma TakeSplit<T>(s: seq<T>, i: nat, n: nat)
    requires i + n <= |s|
    ensures s[..i + n] == s[..i] + s[i..][..n]
  {
  }

  lemma TakeDrop<T>(s: seq<T>, i: nat)
    requires i <= |s|
    ensures s == s[..i] + s[i..]
  {
  }
}
