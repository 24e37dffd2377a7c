/** Sequence helpers shared by the package-id set and the grouping. */
module Collections {

  /** No element occurs twice. */
  predicate NoDuplicates<T(==)>(s: seq<T>) {
    forall i, j :: 0 <= i < j < |s| ==> s[i] != s[j]
  }

  /**
   * The elements of `s`, each kept at its first occurrence: the enumeration
   * order of a hash set that is only ever added to, and the order in which
   * `GroupBy` yields its keys.
   */
  function Distinct<T(==)>(s: seq<T>): (d: seq<T>)
    ensures NoDuplicates(d)
    ensures forall i :: 0 <= i < |d| ==> d[i] in s
    ensures forall i :: 0 <= i < |s| ==> s[i] in d
    ensures |d| <= |s|
  {
    if |s| == 0 then []
    else
      assert s == s[..|s| - 1] + [s[|s| - 1]];
      var d := Distinct(s[..|s| - 1]);
      if s[|s| - 1] in d then d else d + [s[|s| - 1]]
  }

  /** `Distinct` keeps exactly the elements of its input. */
  lemma DistinctMembers<T>(s: seq<T>, x: T)
    ensures x in Distinct(s) <==> x in s
  {
    if x in s {
      var i :| 0 <= i < |s| && s[i] == x;
    }
    if x in Distinct(s) {
      var i :| 0 <= i < |Distinct(s)| && Distinct(s)[i] == x;
    }
  }

  /** Adding one more element to the input is what `HashSet.Add` does to the enumeration. */
  lemma DistinctSnoc<T>(s: seq<T>, x: T)
    ensures Distinct(s + [x]) == if x in Distinct(s) then Distinct(s) else Distinct(s) + [x]
  {
    assert (s + [x])[..|s|] == s;
  }

  /** A non-empty run of one new value adds exactly that value once. */
  lemma {:induction false} DistinctAppendRun<T>(s: seq<T>, t: seq<T>, k: T)
    requires |t| > 0 && k !in s
    requires forall i :: 0 <= i < |t| ==> t[i] == k
    ensures Distinct(s + t) == Distinct(s) + [k]
    decreases |t|
  {
    var t' := t[..|t| - 1];
    assert s + t == (s + t') + [k];
    DistinctSnoc(s + t', k);
    if |t'| == 0 {
      assert s + t' == s;
    } else {
      DistinctAppendRun(s, t', k);
      assert k in s + t' by { assert (s + t')[|s|] == k; }
    }
  }

  /** The index of the first occurrence of `x` in `s`. */
  function IndexOf<T(==)>(s: seq<T>, x: T): (i: nat)
    requires x in s
    ensures i < |s| && s[i] == x
    ensures forall k :: 0 <= k < i ==> s[k] != x
  {
    if s[0] == x then 0
    else
      assert x in s[1..] by {
        var j :| 0 <= j < |s| && s[j] == x;
        assert s[1..][j - 1] == x;
      }
      1 + IndexOf(s[1..], x)
  }

  /** An occurrence with none before it is the first one. */
  lemma IndexOfUnique<T>(s: seq<T>, x: T, i: nat)
    requires i < |s| && s[i] == x
    requires forall k :: 0 <= k < i ==> s[k] != x
    ensures IndexOf(s, x) == i
  {
  }

  /** Appending leaves the first occurrence of an element already present where it was. */
  lemma IndexOfPrefix<T>(a: seq<T>, b: seq<T>, x: T)
    requires x in a
    ensures IndexOf(a + b, x) == IndexOf(a, x)
  {
    IndexOfUnique(a + b, x, IndexOf(a, x));
  }

  /** A new element appended at the end first occurs there. */
  lemma IndexOfLast<T>(a: seq<T>, x: T)
    requires x !in a
    ensures IndexOf(a + [x], x) == |a|
  {
    IndexOfUnique(a + [x], x, |a|);
  }

  /**
   * `Distinct` lists the elements in the order of their first occurrences:
   * `x` comes before `y` in it exactly when `x` first occurs before `y` does.
   */
  lemma {:induction false} DistinctOrder<T>(s: seq<T>, x: T, y: T)
    requires x in s && y in s
    ensures x in Distinct(s) && y in Distinct(s)
    ensures IndexOf(Distinct(s), x) < IndexOf(Distinct(s), y) <==> IndexOf(s, x) < IndexOf(s, y)
    decreases |s|
  {
    DistinctMembers(s, x);
    DistinctMembers(s, y);
    var init := s[..|s| - 1];
    var z := s[|s| - 1];
    assert s == init + [z];
    DistinctSnoc(init, z);
    DistinctMembers(init, z);
    var d := Distinct(init);
    if x in init && y in init {
      DistinctOrder(init, x, y);
      IndexOfPrefix(init, [z], x);
      IndexOfPrefix(init, [z], y);
      if z !in init {
        IndexOfPrefix(d, [z], x);
        IndexOfPrefix(d, [z], y);
      }
    } else if x in init {
      // y is the new last element
      IndexOfPrefix(init, [z], x);
      IndexOfLast(init, z);
      IndexOfPrefix(d, [z], x);
      IndexOfLast(d, z);
    } else if y in init {
      IndexOfPrefix(init, [z], y);
      IndexOfLast(init, z);
      IndexOfPrefix(d, [z], y);
      IndexOfLast(d, z);
    }
  }
}
