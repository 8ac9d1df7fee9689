/** Counting the elements of finite sets. */
module Counting {

  lemma {:induction false} SubsetSize<T>(a: set<T>, b: set<T>)
    requires a <= b
    ensures |a| <= |b| && (a != b ==> |a| < |b|)
  {
    if a == {} {
      assert a != b ==> |b| > 0;
    } else {
      var x :| x in a;
      SubsetSize(a - {x}, b - {x});
      assert a == (a - {x}) + {x} && b == (b - {x}) + {x};
      assert |a| == |a - {x}| + 1 && |b| == |b - {x}| + 1;
    }
  }

  /** An injection of {0, ..., n-1} into itself reaches every element. */
  lemma InjectionIsOnto(f: nat -> nat, n: nat, v: nat) returns (i: nat)
    requires forall i: nat :: i < n ==> f(i) < n
    requires forall i: nat, j: nat :: i < j < n ==> f(i) != f(j)
    requires v < n
    ensures i < n && f(i) == v
  {
    var image := Image(f, n);
    ImageSize(f, n);
    var all := Below(n);
    if v !in image {
      assert image <= all - {v};
      SubsetSize(image, all - {v});
      assert false;
    }
    i :| i < n && f(i) == v;
  }

  ghost function Image(f: nat -> nat, n: nat): set<nat> {
    set i: nat | i < n :: f(i)
  }

  function Below(n: nat): (s: set<nat>)
    ensures |s| == n
    ensures forall i: nat :: i in s <==> i < n
  {
    if n == 0 then {} else Below(n - 1) + {n - 1}
  }

  lemma {:induction false} ImageSize(f: nat -> nat, n: nat)
    requires forall i: nat, j: nat :: i < j < n ==> f(i) != f(j)
    ensures |Image(f, n)| == n
  {
    if n > 0 {
      ImageSize(f, n - 1);
      assert Image(f, n) == Image(f, n - 1) + {f(n - 1)};
      assert f(n - 1) !in Image(f, n - 1);
    }
  }
}
