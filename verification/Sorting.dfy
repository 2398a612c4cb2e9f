/** `sorted` by name, as the sample generator and the validation of command-line options use it. */
module Sorting {
  // At most as large in the order of strings, character by character.
  predicate NotAfter(a: string, b: string) {
    a == "" || (b != "" && (a[0] < b[0] || (a[0] == b[0] && NotAfter(a[1..], b[1..]))))
  }

  // x behind everything whose name is not after its own.
  function Inserted<T>(x: T, xs: seq<T>, name: T -> string): seq<T> {
    if xs == [] || NotAfter(name(xs[|xs| - 1]), name(x)) then xs + [x]
    else Inserted(x, xs[..|xs| - 1], name) + [xs[|xs| - 1]]
  }

  // `sorted` by name, which keeps the order among equals.
  function Sorted<T>(xs: seq<T>, name: T -> string): seq<T> {
    if xs == [] then [] else Inserted(xs[|xs| - 1], Sorted(xs[..|xs| - 1], name), name)
  }

  function Named<T>(xs: seq<T>, name: T -> string, n: string): seq<T> {
    if xs == [] then []
    else Named(xs[..|xs| - 1], name, n) + (if name(xs[|xs| - 1]) == n then [xs[|xs| - 1]] else [])
  }

  predicate InOrder<T>(xs: seq<T>, name: T -> string) {
    forall i, j :: 0 <= i < j < |xs| ==> NotAfter(name(xs[i]), name(xs[j]))
  }

  /** One text is not after another exactly when it begins it, or has the smaller character where they first differ. */
  lemma {:induction false} NotAfterIff(a: string, b: string)
    ensures NotAfter(a, b) <==> exists n ::
      && 0 <= n <= |a| && n <= |b| && a[..n] == b[..n]
      && (n == |a| || (n < |b| && a[n] < b[n]))
  {
    if a == "" {
      assert a[..0] == b[..0];
    } else if b != "" && a[0] == b[0] {
      NotAfterIff(a[1..], b[1..]);
      if n :| && 0 <= n <= |a[1..]| && n <= |b[1..]| && a[1..][..n] == b[1..][..n]
              && (n == |a[1..]| || (n < |b[1..]| && a[1..][n] < b[1..][n])) {
        assert a[..n + 1] == [a[0]] + a[1..][..n] && b[..n + 1] == [b[0]] + b[1..][..n];
      }
      if n :| 0 <= n <= |a| && n <= |b| && a[..n] == b[..n] && (n == |a| || (n < |b| && a[n] < b[n])) {
        assert n > 0;
        assert a[1..][..n - 1] == a[..n][1..] && b[1..][..n - 1] == b[..n][1..];
      }
    } else if b != "" {
      if a[0] < b[0] {
        assert a[..0] == b[..0];
      }
      forall n: nat | 0 < n <= |a| && n <= |b| ensures a[..n] != b[..n] {
        assert a[..n][0] == a[0] && b[..n][0] == b[0];
      }
    }
  }

  lemma {:induction false} NotAfterTotal(a: string, b: string)
    ensures NotAfter(a, b) || NotAfter(b, a)
    ensures NotAfter(a, b) && NotAfter(b, a) ==> a == b
  {
    if a != "" && b != "" && a[0] == b[0] {
      NotAfterTotal(a[1..], b[1..]);
      assert a == [a[0]] + a[1..] && b == [b[0]] + b[1..];
    }
  }

  lemma {:induction false} NotAfterTransitive(a: string, b: string, c: string)
    requires NotAfter(a, b) && NotAfter(b, c)
    ensures NotAfter(a, c)
  {
    if a != "" && b != "" && c != "" && a[0] == b[0] == c[0] {
      NotAfterTransitive(a[1..], b[1..], c[1..]);
    }
  }

  lemma {:induction false} InsertedElements<T>(x: T, xs: seq<T>, name: T -> string)
    ensures multiset(Inserted(x, xs, name)) == multiset(xs) + multiset{x}
  {
    hide NotAfter;
    if xs != [] {
      var init, last := xs[..|xs| - 1], xs[|xs| - 1];
      InsertedElements(x, init, name);
      assert xs == init + [last];
    }
  }

  lemma {:induction false} InsertedNamed<T>(x: T, xs: seq<T>, name: T -> string, n: string)
    ensures Named(Inserted(x, xs, name), name, n) == Named(xs, name, n) + (if name(x) == n then [x] else [])
  {
    if xs == [] || NotAfter(name(xs[|xs| - 1]), name(x)) {
      assert (xs + [x])[..|xs|] == xs;
    } else {
      var init, last := xs[..|xs| - 1], xs[|xs| - 1];
      InsertedNamed(x, init, name, n);
      var r := Inserted(x, init, name);
      assert (r + [last])[..|r|] == r;
      NotAfterTotal(name(last), name(x));
      assert name(last) != name(x);
    }
  }

  lemma {:induction false} InsertedInOrder<T>(x: T, xs: seq<T>, name: T -> string)
    requires InOrder(xs, name)
    ensures InOrder(Inserted(x, xs, name), name)
  {
    if xs == [] {
    } else if NotAfter(name(xs[|xs| - 1]), name(x)) {
      forall i | 0 <= i < |xs| ensures NotAfter(name(xs[i]), name(x)) {
        if i < |xs| - 1 {
          NotAfterTransitive(name(xs[i]), name(xs[|xs| - 1]), name(x));
        }
      }
    } else {
      var init, last := xs[..|xs| - 1], xs[|xs| - 1];
      InsertedInOrder(x, init, name);
      InsertedElements(x, init, name);
      NotAfterTotal(name(last), name(x));
      var r := Inserted(x, init, name);
      forall i | 0 <= i < |r| ensures NotAfter(name(r[i]), name(last)) {
        assert r[i] in multiset(r);
        assert r[i] in init || r[i] == x;
        if y :| 0 <= y < |init| && init[y] == r[i] {
          assert NotAfter(name(xs[y]), name(xs[|xs| - 1]));
        }
      }
    }
  }

  // The result is in order, has the same elements, and those of one name in the order they had.
  lemma {:induction false} SortedByName<T>(xs: seq<T>, name: T -> string, n: string)
    ensures InOrder(Sorted(xs, name), name) && multiset(Sorted(xs, name)) == multiset(xs)
    ensures Named(Sorted(xs, name), name, n) == Named(xs, name, n)
  {
    hide Inserted, NotAfter;
    if xs != [] {
      var init, last := xs[..|xs| - 1], xs[|xs| - 1];
      SortedByName(init, name, n);
      InsertedElements(last, Sorted(init, name), name);
      InsertedNamed(last, Sorted(init, name), name, n);
      InsertedInOrder(last, Sorted(init, name), name);
      hide InOrder;
      assert xs == init + [last];
    }
  }

  lemma SortedMembers<T>(xs: seq<T>, name: T -> string)
    ensures forall x :: x in Sorted(xs, name) <==> x in xs
    ensures |Sorted(xs, name)| == |xs|
  {
    SortedByName(xs, name, "");
    forall x ensures x in Sorted(xs, name) <==> x in xs {
      assert x in multiset(Sorted(xs, name)) <==> x in multiset(xs);
    }
    assert |multiset(Sorted(xs, name))| == |multiset(xs)|;
  }
}
