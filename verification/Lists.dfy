/** Lists without repeats, and when two lists are permutations of each other. */
module Lists {
  function Elements<T>(s: seq<T>): set<T> { set x | x in s }

  ghost predicate NoRepeats<T>(s: seq<T>) { forall i, j :: 0 <= i < j < |s| ==> s[i] != s[j] }

  ghost predicate Permutation<T>(s: seq<T>, t: seq<T>) { multiset(s) == multiset(t) }

  lemma {:induction false} ElementsSnoc<T>(s: seq<T>, x: T)
    ensures Elements(s + [x]) == Elements(s) + {x}
  {
  }

  /** A list has as many elements as entries exactly when none is repeated. */
  lemma {:induction false} ElementsCount<T>(s: seq<T>)
    ensures |Elements(s)| <= |s|
    ensures |Elements(s)| == |s| <==> NoRepeats(s)
  {
    if s != [] {
      var n := |s| - 1;
      ElementsCount(s[..n]);
      ElementsSnoc(s[..n], s[n]);
      assert s == s[..n] + [s[n]];
      if s[n] in s[..n] {
        var i :| 0 <= i < n && s[i] == s[n];
        assert Elements(s) == Elements(s[..n]);
        assert !NoRepeats(s);
      } else {
        assert |Elements(s)| == |Elements(s[..n])| + 1;
        if NoRepeats(s[..n]) { AppendFresh(s[..n], s[n]); }
      }
    }
  }

  lemma {:induction false} AppendFresh<T>(s: seq<T>, x: T)
    requires NoRepeats(s) && x !in s
    ensures NoRepeats(s + [x])
  {
  }

  /** The pigeonhole step: a set inside another of the same size is that set. */
  lemma {:induction false} EqualBySize<T>(a: set<T>, b: set<T>)
    requires a <= b && |a| == |b|
    ensures a == b
  {
    assert |b - a| == |b| - |a|;
  }

  lemma {:induction false} CountInList<T>(s: seq<T>, x: T)
    requires NoRepeats(s)
    ensures multiset(s)[x] == if x in s then 1 else 0
  {
    if s != [] {
      var n := |s| - 1;
      assert s == s[..n] + [s[n]];
      CountInList(s[..n], x);
      assert multiset(s) == multiset(s[..n]) + multiset{s[n]};
      if x == s[n] { assert x !in s[..n]; }
    }
  }

  lemma {:induction false} PermutationOfDistinct<T>(s: seq<T>, t: seq<T>)
    requires NoRepeats(s) && NoRepeats(t) && Elements(s) == Elements(t)
    ensures Permutation(s, t)
  {
    forall x ensures multiset(s)[x] == multiset(t)[x] {
      CountInList(s, x);
      CountInList(t, x);
      assert x in s <==> x in Elements(s);
      assert x in t <==> x in Elements(t);
    }
  }

  lemma {:induction false} PermutationElements<T>(s: seq<T>, t: seq<T>)
    requires Permutation(s, t)
    ensures |s| == |t| && Elements(s) == Elements(t)
  {
    assert |multiset(s)| == |multiset(t)|;
    forall x ensures x in Elements(s) <==> x in Elements(t) {
      assert x in s <==> x in multiset(s);
      assert x in t <==> x in multiset(t);
    }
  }

  lemma {:induction false} OnceEach<T>(names: seq<T>, required: seq<T>)
    requires NoRepeats(required) && Permutation(names, required)
    ensures |names| == |required| && NoRepeats(names)
    ensures forall name :: name in required <==> name in names
  {
    PermutationElements(names, required);
    ElementsCount(names);
    ElementsCount(required);
    assert forall name :: name in required <==> name in Elements(required);
    assert forall name :: name in names <==> name in Elements(names);
  }

  /** Names without repeats, all of them required and as many as required, are the required names. */
  lemma {:induction false} DistinctAndRequired(names: seq<string>, required: seq<string>)
    requires NoRepeats(required) && |names| == |required|
    requires NoRepeats(names) && forall name :: name in names ==> name in required
    ensures Permutation(names, required)
  {
    ElementsCount(names);
    ElementsCount(required);
    assert Elements(names) <= Elements(required);
    EqualBySize(Elements(names), Elements(required));
    PermutationOfDistinct(names, required);
  }
}
