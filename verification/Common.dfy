/** Small vocabulary shared by the models: an option type and finite sums. */
module Common {
  datatype Option<+T> = None | Some(value: T)

  /** The sum of `f` over a sequence. */
  function Sum<T>(s: seq<T>, f: T -> int): int {
    if s == [] then 0 else Sum(s[..|s| - 1], f) + f(s[|s| - 1])
  }

  lemma SumAppend<T>(s: seq<T>, x: T, f: T -> int)
    ensures Sum(s + [x], f) == Sum(s, f) + f(x)
  {
    assert (s + [x])[..|s|] == s;
  }

  /** Replacing one element moves the sum by the difference of the two terms. */
  lemma {:induction false} SumUpdate<T>(s: seq<T>, i: nat, x: T, f: T -> int)
    requires i < |s|
    ensures Sum(s[i := x], f) == Sum(s, f) - f(s[i]) + f(x)
  {
    var n := |s| - 1;
    if i == n {
      assert s[i := x][..n] == s[..n];
    } else {
      assert s[i := x][..n] == s[..n][i := x];
      SumUpdate(s[..n], i, x, f);
    }
  }

  lemma {:induction false} SumNonNegative<T>(s: seq<T>, f: T -> int)
    requires forall x <- s :: 0 <= f(x)
    ensures 0 <= Sum(s, f)
  {
    if s != [] {
      SumNonNegative(s[..|s| - 1], f);
    }
  }

  /** A sum of non-negative terms is zero exactly when every term is zero. */
  lemma {:induction false} SumZero<T>(s: seq<T>, f: T -> int)
    requires forall x <- s :: 0 <= f(x)
    ensures Sum(s, f) == 0 <==> forall x <- s :: f(x) == 0
  {
    if s != [] {
      var n := |s| - 1;
      SumZero(s[..n], f);
      SumNonNegative(s[..n], f);
      assert s == s[..n] + [s[n]];
    }
  }

  lemma {:induction false} SumOfSums<T>(s: seq<T>, f: T -> int, g: T -> int, h: T -> int)
    requires forall x <- s :: h(x) == f(x) + g(x)
    ensures Sum(s, h) == Sum(s, f) + Sum(s, g)
  {
    if s != [] {
      SumOfSums(s[..|s| - 1], f, g, h);
    }
  }

  function Without<T>(s: seq<T>, i: nat): seq<T>
    requires i < |s|
  {
    s[..i] + s[i + 1..]
  }

  lemma {:induction false} SumWithout<T>(s: seq<T>, i: nat, f: T -> int)
    requires i < |s|
    ensures Sum(Without(s, i), f) == Sum(s, f) - f(s[i])
  {
    var n := |s| - 1;
    if i == n {
      assert Without(s, i) == s[..n];
    } else {
      assert Without(s, i) == Without(s[..n], i) + [s[n]];
      SumWithout(s[..n], i, f);
      SumAppend(Without(s[..n], i), s[n], f);
    }
  }

  lemma {:induction false} SumMonotone<T>(s: seq<T>, f: T -> int, g: T -> int)
    requires forall x <- s :: f(x) <= g(x)
    ensures Sum(s, f) <= Sum(s, g)
  {
    if s != [] {
      SumMonotone(s[..|s| - 1], f, g);
    }
  }

  lemma LeastExists<T(!new)>(s: set<T>, f: T -> int)
    requires s != {}
    ensures exists x :: x in s && forall y <- s :: f(x) <= f(y)
  {
    var x :| x in s;
    var rest := s - {x};
    if rest == {} {
      assert s == {x};
      assert forall y <- s :: f(x) <= f(y);
    } else {
      LeastExists(rest, f);
      var m :| m in rest && forall y <- rest :: f(m) <= f(y);
      var best := if f(x) < f(m) then x else m;
      assert forall y <- s :: y == x || y in rest;
      assert best in s && forall y <- s :: f(best) <= f(y);
    }
  }

  /** There is always an id that a finite table does not use. */
  lemma UnusedIdExists<V>(table: map<nat, V>)
    ensures exists id: nat :: id !in table
  {
    var id := AboveAll(table.Keys);
    assert id !in table;
  }

  lemma AboveAll(ids: set<nat>) returns (bound: nat)
    ensures forall i <- ids :: i < bound
  {
    if ids == {} {
      bound := 0;
    } else {
      var i :| i in ids;
      var rest := AboveAll(ids - {i});
      bound := if i < rest then rest else i + 1;
      assert forall j <- ids :: j == i || j in ids - {i};
    }
  }

  lemma FrontOfSum<T>(a: seq<T>, b: seq<T>)
    requires b != []
    ensures (a + b)[..|a + b| - 1] == a + b[..|b| - 1]
  {
  }
}
