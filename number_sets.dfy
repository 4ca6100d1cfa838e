/**
  * The ordered set of file numbers (`std::set<int> fileNums`): its least
  * and greatest elements, the running maximum the scan keeps in
  * `lastFileNum`, and the retention pass of `checkMaxFiles`, which erases
  * the smallest number until at most `maxFilesToKeep` remain.
  */
module NumberSets {

  predicate IsLeast(m: int, s: set<int>) {
    m in s && forall y | y in s :: m <= y
  }

  predicate IsGreatest(m: int, s: set<int>) {
    m in s && forall y | y in s :: y <= m
  }

  lemma Pick(s: set<int>) returns (x: int)
    requires s != {}
    ensures x in s
  {
    if forall y :: y !in s {
      assert false;
    }
    x :| x in s;
  }

  lemma {:induction false} LeastExists(s: set<int>)
    requires s != {}
    ensures exists m :: IsLeast(m, s)
    decreases |s|
  {
    var x := Pick(s);
    if s != {x} {
      assert s == (s - {x}) + {x};
      LeastExists(s - {x});
      var m :| IsLeast(m, s - {x});
      if x < m {
        assert IsLeast(x, s);
      } else {
        assert IsLeast(m, s);
      }
    } else {
      assert IsLeast(x, s);
    }
  }

  lemma {:induction false} GreatestExists(s: set<int>)
    requires s != {}
    ensures exists m :: IsGreatest(m, s)
    decreases |s|
  {
    var x := Pick(s);
    if s != {x} {
      assert s == (s - {x}) + {x};
      GreatestExists(s - {x});
      var m :| IsGreatest(m, s - {x});
      if m < x {
        assert IsGreatest(x, s);
      } else {
        assert IsGreatest(m, s);
      }
    } else {
      assert IsGreatest(x, s);
    }
  }

  /** The element `*fileNums.begin()` of a non-empty ordered set. */
  ghost function Least(s: set<int>): (m: int)
    requires s != {}
    ensures IsLeast(m, s)
  {
    LeastExists(s);
    var m :| IsLeast(m, s);
    m
  }

  ghost function Greatest(s: set<int>): int
    requires s != {}
  {
    GreatestExists(s);
    var m :| IsGreatest(m, s);
    m
  }

  /**
    * What `lastFileNum` becomes when the scan starts from `init` and raises
    * it to every number in `found`: the largest of `init` and `found`.
    */
  ghost function Highest(init: int, found: set<int>): int {
    Greatest(found + {init})
  }

  lemma HighestProps(init: int, found: set<int>)
    ensures init <= Highest(init, found)
    ensures Highest(init, found) == init || Highest(init, found) in found
    ensures forall x | x in found :: x <= Highest(init, found)
  {
    assert IsGreatest(Highest(init, found), found + {init});
  }

  /** Raising the running maximum by one more number. */
  lemma HighestAdd(init: int, found: set<int>, x: int)
    ensures Highest(init, found + {x}) == if x > Highest(init, found) then x else Highest(init, found)
  {
    var h, h' := Highest(init, found), Highest(init, found + {x});
    HighestProps(init, found);
    HighestProps(init, found + {x});
    assert h' >= h by {
      if h != init {
        assert h in found + {x};
      }
    }
  }

  /**
    * The numbers `checkMaxFiles` leaves in the set: while more than `k`
    * remain it erases the one at `begin()`, the smallest.
    */
  ghost function Retained(s: set<int>, k: nat): set<int>
    decreases |s|
  {
    if |s| <= k then s else Retained(s - {Least(s)}, k)
  }

  /** The numbers `checkMaxFiles` erases (and issues a `remove` for), in the order it does so. */
  ghost function Dropped(s: set<int>, k: nat): seq<int>
    decreases |s|
  {
    if |s| <= k then [] else [Least(s)] + Dropped(s - {Least(s)}, k)
  }

  /** Retention keeps `min(|s|, k)` numbers, each greater than every number it erases. */
  lemma {:induction false} RetainedProps(s: set<int>, k: nat)
    ensures Retained(s, k) <= s
    ensures |Retained(s, k)| == if |s| <= k then |s| else k
    ensures forall x, y | x in s - Retained(s, k) && y in Retained(s, k) :: x < y
    decreases |s|
  {
    if |s| > k {
      var m := Least(s);
      var r := Retained(s - {m}, k);
      RetainedProps(s - {m}, k);
      assert forall x | x in s - r :: x == m || x in (s - {m}) - r;
    }
  }

  /** The erased numbers come in increasing order and are exactly those not retained. */
  lemma {:induction false} DroppedProps(s: set<int>, k: nat)
    ensures var d := Dropped(s, k);
            && (forall i, j | 0 <= i < j < |d| :: d[i] < d[j])
            && (forall x :: x in d <==> x in s && x !in Retained(s, k))
            && |d| == |s| - |Retained(s, k)|
    decreases |s|
  {
    RetainedProps(s, k);
    if |s| > k {
      var m := Least(s);
      var rest := Dropped(s - {m}, k);
      DroppedProps(s - {m}, k);
      RetainedProps(s - {m}, k);
      assert Dropped(s, k) == [m] + rest;
      forall j | 0 <= j < |rest| ensures m < rest[j] {
        assert rest[j] in rest;
      }
    }
  }

  /** Two sets of kept numbers that each exceed everything they leave out are nested. */
  lemma UpperSetsNested(s: set<int>, a: set<int>, b: set<int>)
    requires a <= s && b <= s
    requires forall x, y | x in s - a && y in a :: x < y
    requires forall x, y | x in s - b && y in b :: x < y
    ensures a <= b || b <= a
  {
    if a - b == {} {
      forall x | x in a ensures x in b {
        assert x !in a - b;
      }
    } else {
      var x := Pick(a - b);
      assert x in s - b && x in a;
      forall y | y in b ensures y in a {
        assert x < y;
        assert y !in a ==> y in s - a && y < x;
      }
    }
  }

  lemma SubsetSize(a: set<int>, b: set<int>)
    requires a <= b
    ensures |a| <= |b|
  {
    assert b == a + (b - a);
  }

  lemma SubsetOfSameSize(a: set<int>, b: set<int>)
    requires a <= b && |a| == |b|
    ensures a == b
  {
    assert b == a + (b - a);
    assert |b - a| == 0;
  }

  /**
    * The retained set is exactly the `k` largest numbers: any subset of `s`
    * of that size, all of whose members exceed every number left out,
    * is the retained set.
    */
  lemma RetainedIsLargest(s: set<int>, k: nat, r: set<int>)
    requires r <= s
    requires |r| == if |s| <= k then |s| else k
    requires forall x, y | x in s - r && y in r :: x < y
    ensures r == Retained(s, k)
  {
    var q := Retained(s, k);
    RetainedProps(s, k);
    UpperSetsNested(s, r, q);
    if r <= q {
      SubsetOfSameSize(r, q);
    } else {
      SubsetOfSameSize(q, r);
    }
  }

  /** With room for at least one file, retention never drops the greatest number. */
  lemma RetainedKeepsGreatest(s: set<int>, k: nat, m: int)
    requires k >= 1 && IsGreatest(m, s)
    ensures m in Retained(s, k)
  {
    var r := Retained(s, k);
    RetainedProps(s, k);
    var y := Pick(r);
    assert y <= m;
  }

  /** Adding the new greatest number and then retaining keeps it and drops the same smaller ones. */
  lemma RetainedOfLarger(s: set<int>, k: nat, m: int)
    requires k >= 1 && forall y | y in s :: y <= m
    ensures m in Retained(s + {m}, k)
  {
    RetainedKeepsGreatest(s + {m}, k, m);
  }
}
