// Sums over a list, whatever its order.
module SeqSums {
  function SumBy<T>(s: seq<T>, f: T -> int): int {
    if s == [] then 0 else SumBy(s[..|s| - 1], f) + f(s[|s| - 1])
  }

  lemma SumByAppends<T>(s: seq<T>, x: T, f: T -> int)
    ensures SumBy(s + [x], f) == SumBy(s, f) + f(x)
  {
    assert (s + [x])[..|s|] == s;
  }

  // One element apart from the others.
  lemma {:induction false} SumByPick<T>(a: seq<T>, x: T, b: seq<T>, f: T -> int)
    ensures SumBy(a + [x] + b, f) == SumBy(a + b, f) + f(x)
  {
    if b == [] {
      assert a + [x] + b == a + [x] && a + b == a;
      SumByAppends(a, x, f);
    } else {
      var front, last := b[..|b| - 1], b[|b| - 1];
      SumByPick(a, x, front, f);
      assert a + [x] + b == (a + [x] + front) + [last] && a + b == (a + front) + [last];
      SumByAppends(a + [x] + front, last, f);
      SumByAppends(a + front, last, f);
    }
  }

  lemma SplitAround<T>(b: seq<T>, x: T) returns (front: seq<T>, back: seq<T>)
    requires x in b
    ensures b == front + [x] + back && multiset(front + back) == multiset(b) - multiset{x}
  {
    var k :| 0 <= k < |b| && b[k] == x;
    front, back := b[..k], b[k + 1..];
    assert b == front + [x] + back;
  }

  lemma {:induction false} SumByPermutes<T>(a: seq<T>, b: seq<T>, f: T -> int)
    requires multiset(a) == multiset(b)
    ensures SumBy(a, f) == SumBy(b, f)
    decreases |a|
  {
    if a == [] {
      assert b == [] by {
        assert |multiset(b)| == 0;
      }
    } else {
      var before, last := a[..|a| - 1], a[|a| - 1];
      assert a == before + [last];
      assert multiset(a) == multiset(before) + multiset{last};
      assert last in multiset(b);
      var front, back := SplitAround(b, last);
      SumByPermutes(before, front + back, f);
      SumByPick(front, last, back, f);
    }
  }
}
