/** A `TreeSet` (or `ConcurrentSkipListSet`) ordered by a comparator that
    compares key fields one after the other: the set is held as the
    sequence of its elements in ascending order, and two elements whose keys
    compare equal are the same element as far as the set is concerned. */
module SortedSets {
  import opened Strings

  /** Strictly ascending by key, hence no two elements share a key. */
  ghost predicate Sorted<T>(s: seq<T>, key: T -> seq<string>)
  {
    forall i, j :: 0 <= i < j < |s| ==> CompareFields(key(s[i]), key(s[j])) < 0
  }

  function Keys<T>(s: seq<T>, key: T -> seq<string>): set<seq<string>>
  {
    set i | 0 <= i < |s| :: key(s[i])
  }

  /** `add`: an element whose key is already present is not added. */
  function Add<T>(s: seq<T>, x: T, key: T -> seq<string>): seq<T>
  {
    if s == [] then [x]
    else if CompareFields(key(x), key(s[0])) < 0 then [x] + s
    else if CompareFields(key(x), key(s[0])) == 0 then s
    else [s[0]] + Add(s[1..], x, key)
  }

  /** `addAll`: each element in turn. */
  function AddAll<T>(s: seq<T>, xs: seq<T>, key: T -> seq<string>): seq<T>
    decreases |xs|
  {
    if xs == [] then s else AddAll(Add(s, xs[0], key), xs[1..], key)
  }

  lemma KeysCons<T>(y: T, s: seq<T>, key: T -> seq<string>)
    ensures Keys([y] + s, key) == {key(y)} + Keys(s, key)
  {
    var t := [y] + s;
    assert t[0] == y;
    forall k | k in Keys(t, key) ensures k in {key(y)} + Keys(s, key) {
      var i :| 0 <= i < |t| && key(t[i]) == k;
      if i > 0 { assert t[i] == s[i - 1]; }
    }
    forall k | k in Keys(s, key) ensures k in Keys(t, key) {
      var i :| 0 <= i < |s| && key(s[i]) == k;
      assert t[i + 1] == s[i];
    }
  }

  lemma SortedTail<T>(s: seq<T>, key: T -> seq<string>)
    requires s != [] && Sorted(s, key)
    ensures Sorted(s[1..], key)
    ensures forall k :: k in Keys(s[1..], key) ==> CompareFields(key(s[0]), k) < 0
  {
    forall k | k in Keys(s[1..], key) ensures CompareFields(key(s[0]), k) < 0 {
      var i :| 0 <= i < |s[1..]| && key(s[1..][i]) == k;
      assert s[1..][i] == s[i + 1];
    }
  }

  /** Prepending an element below every key keeps the sequence sorted. */
  lemma SortedCons<T>(y: T, s: seq<T>, key: T -> seq<string>)
    requires Sorted(s, key)
    requires forall k :: k in Keys(s, key) ==> CompareFields(key(y), k) < 0
    ensures Sorted([y] + s, key)
  {
    var t := [y] + s;
    forall i, j | 0 <= i < j < |t| ensures CompareFields(key(t[i]), key(t[j])) < 0 {
      assert t[j] == s[j - 1];
      assert key(s[j - 1]) in Keys(s, key);
      if i > 0 { assert t[i] == s[i - 1]; }
    }
  }

  /** An element below the first key goes in front and brings a new key. */
  lemma AddBelow<T>(s: seq<T>, x: T, key: T -> seq<string>)
    requires s != [] && Sorted(s, key)
    requires CompareFields(key(x), key(s[0])) < 0
    ensures Sorted([x] + s, key)
    ensures key(x) !in Keys(s, key)
  {
    SortedTail(s, key);
    assert s == [s[0]] + s[1..];
    KeysCons(s[0], s[1..], key);
    forall k | k in Keys(s, key) ensures CompareFields(key(x), k) < 0 {
      if k != key(s[0]) { CompareFieldsTransitive(key(x), key(s[0]), k); }
    }
    SortedCons(x, s, key);
    CompareFieldsZero(key(x), key(x));
  }

  /** The key facts for a head `y` kept in front of a tail `t` into which
      `x` went, giving `r`. */
  lemma AboveHead<T>(y: T, t: seq<T>, x: T, r: seq<T>, key: T -> seq<string>)
    requires Sorted([y] + t, key)
    requires CompareFields(key(x), key(y)) > 0
    requires Sorted(r, key) && Keys(r, key) == Keys(t, key) + {key(x)}
    ensures Sorted([y] + r, key)
    ensures Keys([y] + r, key) == Keys([y] + t, key) + {key(x)}
    ensures key(x) in Keys([y] + t, key) <==> key(x) in Keys(t, key)
  {
    KeysCons(y, t, key);
    KeysCons(y, r, key);
    assert key(x) != key(y) by {
      CompareFieldsZero(key(x), key(y));
    }
    assert Sorted([y] + r, key) by {
      SortedTail([y] + t, key);
      assert ([y] + t)[1..] == t;
      CompareFieldsAntisymmetric(key(x), key(y));
      SortedCons(y, r, key);
    }
  }

  /** What `add` promises, as one predicate so that each case below can
      establish it on its own. */
  ghost predicate AddPromise<T>(s: seq<T>, x: T, key: T -> seq<string>, r: seq<T>)
  {
    && Sorted(r, key)
    && Keys(r, key) == Keys(s, key) + {key(x)}
    && (key(x) in Keys(s, key) ==> r == s)
    && (key(x) !in Keys(s, key) ==> multiset(r) == multiset(s) + multiset{x})
  }

  lemma AddInFront<T>(s: seq<T>, x: T, key: T -> seq<string>)
    requires s != [] && Sorted(s, key)
    requires CompareFields(key(x), key(s[0])) < 0
    ensures AddPromise(s, x, key, [x] + s)
  {
    AddBelow(s, x, key);
    KeysCons(x, s, key);
  }

  lemma AddPresent<T>(s: seq<T>, x: T, key: T -> seq<string>)
    requires s != [] && Sorted(s, key)
    requires CompareFields(key(x), key(s[0])) == 0
    ensures AddPromise(s, x, key, s)
  {
    CompareFieldsZero(key(x), key(s[0]));
    assert s == [s[0]] + s[1..];
    KeysCons(s[0], s[1..], key);
  }

  lemma AddInTail<T>(s: seq<T>, x: T, key: T -> seq<string>)
    requires s != [] && Sorted(s, key)
    requires CompareFields(key(x), key(s[0])) > 0
    requires AddPromise(s[1..], x, key, Add(s[1..], x, key))
    ensures AddPromise(s, x, key, Add(s, x, key))
  {
    AddPastHead(s, x, key);
    PromiseAboveHead(s, x, Add(s[1..], x, key), key);
  }

  lemma AddPastHead<T>(s: seq<T>, x: T, key: T -> seq<string>)
    requires s != [] && CompareFields(key(x), key(s[0])) > 0
    ensures Add(s, x, key) == [s[0]] + Add(s[1..], x, key)
  {
  }

  /** What adding to the tail promises carries over to the whole set. */
  lemma PromiseAboveHead<T>(s: seq<T>, x: T, r: seq<T>, key: T -> seq<string>)
    requires s != [] && Sorted(s, key)
    requires CompareFields(key(x), key(s[0])) > 0
    requires AddPromise(s[1..], x, key, r)
    ensures AddPromise(s, x, key, [s[0]] + r)
  {
    assert s == [s[0]] + s[1..];
    AboveHead(s[0], s[1..], x, r, key);
  }

  /** `add` keeps the set sorted, adds exactly the new key, and leaves the set
      unchanged when an element with that key is already there. */
  lemma {:induction false} AddSpec<T>(s: seq<T>, x: T, key: T -> seq<string>)
    requires Sorted(s, key)
    ensures Sorted(Add(s, x, key), key)
    ensures Keys(Add(s, x, key), key) == Keys(s, key) + {key(x)}
    ensures key(x) in Keys(s, key) ==> Add(s, x, key) == s
    ensures key(x) !in Keys(s, key) ==> multiset(Add(s, x, key)) == multiset(s) + multiset{x}
  {
    if s == [] {
      KeysCons(x, [], key);
      assert [x] + [] == [x];
    } else {
      var c := CompareFields(key(x), key(s[0]));
      if c < 0 {
        AddInFront(s, x, key);
      } else if c == 0 {
        AddPresent(s, x, key);
      } else {
        SortedTail(s, key);
        AddSpec(s[1..], x, key);
        AddInTail(s, x, key);
      }
    }
  }

  /** `addAll` keeps the set sorted and its keys are the old keys and those
      of every added element. */
  lemma {:induction false} AddAllSpec<T>(s: seq<T>, xs: seq<T>, key: T -> seq<string>)
    requires Sorted(s, key)
    ensures Sorted(AddAll(s, xs, key), key)
    ensures Keys(AddAll(s, xs, key), key) == Keys(s, key) + Keys(xs, key)
    decreases |xs|
  {
    if xs != [] {
      var s1 := Add(s, xs[0], key);
      var rest := AddAll(s1, xs[1..], key);
      assert AddAll(s, xs, key) == rest;
      assert Sorted(s1, key) && Keys(s1, key) == Keys(s, key) + {key(xs[0])} by {
        AddSpec(s, xs[0], key);
      }
      assert Sorted(rest, key) && Keys(rest, key) == Keys(s1, key) + Keys(xs[1..], key) by {
        AddAllSpec(s1, xs[1..], key);
      }
      assert Keys(xs, key) == {key(xs[0])} + Keys(xs[1..], key) by {
        KeysCons(xs[0], xs[1..], key);
        assert [xs[0]] + xs[1..] == xs;
      }
    } else {
      assert Keys(xs, key) == {};
    }
  }

  /** Adding the elements one at a time: the last one is added to the set
      the others made. */
  lemma {:induction false} AddAllSnoc<T>(s: seq<T>, xs: seq<T>, x: T, key: T -> seq<string>)
    ensures AddAll(s, xs + [x], key) == Add(AddAll(s, xs, key), x, key)
    decreases |xs|
  {
    if xs == [] {
      assert xs + [x] == [x];
      assert [x][1..] == [];
    } else {
      assert (xs + [x])[0] == xs[0];
      assert (xs + [x])[1..] == xs[1..] + [x];
      AddAllSnoc(Add(s, xs[0], key), xs[1..], x, key);
    }
  }

  /** Adding one more element of `xs` adds it to what the prefix gave. */
  lemma AddAllStep<T>(s: seq<T>, xs: seq<T>, i: nat, key: T -> seq<string>)
    requires i < |xs|
    ensures AddAll(s, xs[..i + 1], key) == Add(AddAll(s, xs[..i], key), xs[i], key)
  {
    assert xs[..i + 1] == xs[..i] + [xs[i]];
    AddAllSnoc(s, xs[..i], xs[i], key);
  }

  /** An element above every element of the set goes to the end. */
  lemma {:induction false} AddAtEnd<T>(s: seq<T>, x: T, key: T -> seq<string>)
    requires Sorted(s + [x], key)
    ensures Add(s, x, key) == s + [x]
    decreases |s|
  {
    if s != [] {
      var t := s + [x];
      assert t[0] == s[0] && t[|s|] == x;
      CompareFieldsAntisymmetric(key(s[0]), key(x));
      assert t[1..] == s[1..] + [x];
      AddAtEnd(s[1..], x, key);
      assert s == [s[0]] + s[1..];
    }
  }

  /** Adding elements that are already in ascending order, and above the
      set, appends them: a sorted list is loaded back unchanged. */
  lemma {:induction false} AddAllAscending<T>(s: seq<T>, xs: seq<T>, key: T -> seq<string>)
    requires Sorted(s + xs, key)
    ensures AddAll(s, xs, key) == s + xs
    decreases |xs|
  {
    if xs == [] {
      assert s + xs == s;
    } else {
      var t := s + xs;
      assert s + [xs[0]] == t[..|s| + 1];
      AddAtEnd(s, xs[0], key);
      assert (s + [xs[0]]) + xs[1..] == t;
      AddAllAscending(s + [xs[0]], xs[1..], key);
    }
  }

  /** Keys in a set come from its elements. */
  lemma KeyInKeys<T>(s: seq<T>, i: nat, key: T -> seq<string>)
    requires i < |s|
    ensures key(s[i]) in Keys(s, key)
  {
  }

  /** Two sets with the same keys list them in the same order. */
  lemma {:induction false} SortedSameKeys<T>(s: seq<T>, t: seq<T>, key: T -> seq<string>)
    requires Sorted(s, key) && Sorted(t, key) && Keys(s, key) == Keys(t, key)
    ensures |s| == |t|
    ensures forall i :: 0 <= i < |s| ==> key(s[i]) == key(t[i])
    decreases |s|
  {
    if s == [] {
      if t != [] {
        KeyInKeys(t, 0, key);
      }
    } else {
      KeyInKeys(s, 0, key);
      assert t != [];
      KeyInKeys(t, 0, key);
      assert s == [s[0]] + s[1..] && t == [t[0]] + t[1..];
      KeysCons(s[0], s[1..], key);
      KeysCons(t[0], t[1..], key);
      SortedTail(s, key);
      SortedTail(t, key);
      if key(s[0]) != key(t[0]) {
        assert CompareFields(key(t[0]), key(s[0])) < 0;
        assert CompareFields(key(s[0]), key(t[0])) < 0;
        CompareFieldsAntisymmetric(key(s[0]), key(t[0]));
        assert false;
      }
      CompareFieldsZero(key(s[0]), key(s[0]));
      assert key(s[0]) !in Keys(s[1..], key);
      assert key(t[0]) !in Keys(t[1..], key);
      assert Keys(s[1..], key) == Keys(t[1..], key);
      SortedSameKeys(s[1..], t[1..], key);
      forall i | 0 <= i < |s| ensures key(s[i]) == key(t[i]) {
        if i > 0 {
          assert s[i] == s[1..][i - 1] && t[i] == t[1..][i - 1];
        }
      }
    }
  }

  /** Two sets holding the same elements are the same sequence. */
  lemma SortedSameElements<T>(s: seq<T>, t: seq<T>, key: T -> seq<string>)
    requires Sorted(s, key) && Sorted(t, key)
    requires forall x :: x in s <==> x in t
    ensures s == t
  {
    assert Keys(s, key) == Keys(t, key) by {
      forall k | k in Keys(s, key) ensures k in Keys(t, key) {
        var i :| 0 <= i < |s| && key(s[i]) == k;
        assert s[i] in s;
        var j :| 0 <= j < |t| && t[j] == s[i];
      }
      forall k | k in Keys(t, key) ensures k in Keys(s, key) {
        var j :| 0 <= j < |t| && key(t[j]) == k;
        assert t[j] in t;
        var i :| 0 <= i < |s| && s[i] == t[j];
      }
    }
    SortedSameKeys(s, t, key);
    forall i | 0 <= i < |s| ensures s[i] == t[i] {
      assert s[i] in s;
      var j :| 0 <= j < |t| && t[j] == s[i];
      CompareFieldsZero(key(t[i]), key(t[j]));
    }
  }
}
