/** Sizes of finite sets. */
module Sets {

  predicate Covers(got: set<nat>, n: nat) {
    forall i :: 0 <= i < n ==> i in got
  }

  lemma {:induction false} SubsetSize<T>(a: set<T>, b: set<T>)
    requires a <= b
    ensures |a| <= |b| && (|a| == |b| ==> a == b)
    decreases |a|
  {
    if a != {} {
      var x :| x in a;
      SubsetSize(a - {x}, b - {x});
      assert a == a - {x} + {x} && b == b - {x} + {x};
    }
  }

  function Below(n: nat): (s: set<nat>)
    ensures |s| == n && forall i :: i in s <==> 0 <= i < n
  {
    if n == 0 then {} else Below(n - 1) + {n - 1}
  }

  /** A set of chunk numbers is complete exactly when it has as many members as there are chunks. */
  lemma CoversBySize(got: set<nat>, n: nat)
    requires forall i :: i in got ==> i < n
    ensures |got| <= n && (|got| == n <==> Covers(got, n))
  {
    assert got <= Below(n);
    SubsetSize(got, Below(n));
    if Covers(got, n) {
      assert got == Below(n);
    }
  }

  /** A number outside a finite set. */
  lemma {:induction false} NewMember(a: set<nat>) returns (x: nat)
    ensures x !in a && forall y :: y in a ==> y < x
    decreases |a|
  {
    if a == {} {
      x := 0;
    } else {
      var y :| y in a;
      var z := NewMember(a - {y});
      assert a == a - {y} + {y};
      x := if y < z then z else y + 1;
    }
  }
}
