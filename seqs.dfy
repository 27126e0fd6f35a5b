/** Generic sequence helpers of the calendar module: `take`, `rotate`, and the
    reversal and flattening used for right-to-left rows and week grouping. */
module Seqs {

  function Min(a: int, b: int): int { if a <= b then a else b }

  /** Euclidean remainder is determined by any decomposition x == q * n + r. */
  lemma ModOfDecomposition(x: int, n: int, q: int, r: int)
    requires n > 0 && 0 <= r < n && x == q * n + r
    ensures x / n == q && x % n == r
  {
    var q0, r0 := x / n, x % n;
    assert x == q0 * n + r0;
    assert (q - q0) * n == r0 - r;
    assert q == q0 by {
      if q - q0 >= 1 {
        MulAtLeast(q - q0, n);
      } else if q - q0 <= -1 {
        MulAtLeast(q0 - q, n);
      }
    }
  }

  /** Euclidean division of p + 1 steps up exactly when p + 1 is a multiple. */
  lemma DivStep(p: int, n: int)
    requires n > 0
    ensures (p + 1) / n == p / n + (if (p + 1) % n == 0 then 1 else 0)
  {
    var q, r := p / n, p % n;
    if r == n - 1 {
      ModOfDecomposition(p + 1, n, q + 1, 0);
    } else {
      ModOfDecomposition(p + 1, n, q, r + 1);
    }
  }

  lemma MulAtLeast(a: int, n: int)
    requires a >= 1 && n > 0
    ensures a * n >= n
  {
  }

  /** The elements of `s` in the opposite order. */
  function Reverse<T>(s: seq<T>): (r: seq<T>)
    ensures |r| == |s|
    ensures forall i :: 0 <= i < |s| ==> r[i] == s[|s| - 1 - i]
  {
    seq(|s|, i requires 0 <= i < |s| => s[|s| - 1 - i])
  }

  /** `rotate(s, n)`: for negative n the elements move |n| places to the left,
      for positive n they move n places to the right, the distance taken
      modulo the length; the element at position i of the result is the one
      at (i - n) mod |s| of the input. */
  function Rotate<T>(s: seq<T>, n: int): (r: seq<T>)
    ensures |r| == |s|
    ensures forall i :: 0 <= i < |s| ==> r[i] == s[(i - n) % |s|]
  {
    if |s| == 0 then s
    else
      var k := n % |s|;
      RotatedAt(s, n);
      s[|s| - k..] + s[..|s| - k]
  }

  lemma RotatedAt<T>(s: seq<T>, n: int)
    requires |s| > 0
    ensures var k := n % |s|; var r := s[|s| - k..] + s[..|s| - k];
      forall i :: 0 <= i < |s| ==> r[i] == s[(i - n) % |s|]
  {
    var len := |s|;
    var k := n % len;
    var r := s[len - k..] + s[..len - k];
    forall i | 0 <= i < len ensures r[i] == s[(i - n) % len] {
      var q := n / len;
      assert n == q * len + k;
      if i < k {
        ModOfDecomposition(i - n, len, -q - 1, len - k + i);
      } else {
        ModOfDecomposition(i - n, len, -q, i - k);
      }
    }
  }

  /** Rotating by n and then by -n gives back the input. */
  lemma {:induction false} RotateInverse<T>(s: seq<T>, n: int)
    ensures Rotate(Rotate(s, n), -n) == s
  {
    var r := Rotate(s, n);
    var back := Rotate(r, -n);
    if |s| > 0 {
      var len := |s|;
      forall i | 0 <= i < len ensures back[i] == s[i] {
        var j := (i + n) % len;
        assert back[i] == r[j];
        assert r[j] == s[(j - n) % len];
        var q := (i + n) / len;
        assert i + n == q * len + j;
        ModOfDecomposition(j - n, len, -q, i);
      }
    }
  }

  /** `take(n, items)`: the first n values a generator yields, or all of them
      when it yields fewer; `items` lists what the generator yields. */
  function Take<T>(n: nat, items: seq<T>): (r: seq<T>)
    ensures |r| == Min(n, |items|)
    ensures r == items[..|r|]
  {
    if n == 0 || |items| == 0 then []
    else [items[0]] + Take(n - 1, items[1..])
  }

  /** `take` of 0 and of 3 values from a generator of four. */
  lemma TakeExamples()
    ensures Take(0, [1, 2, 3, 4]) == []
    ensures Take(3, [1, 2, 3, 4]) == [1, 2, 3]
  {
  }

  /** All rows joined end to end. */
  function Flatten<T>(rows: seq<seq<T>>): (r: seq<T>)
  {
    if |rows| == 0 then [] else rows[0] + Flatten(rows[1..])
  }

  /** The position of the first occurrence of x in s. */
  function IndexOf<T(==)>(s: seq<T>, x: T): (k: nat)
    requires x in s
    ensures k < |s| && s[k] == x
    ensures forall j :: 0 <= j < k ==> s[j] != x
  {
    if s[0] == x then 0 else 1 + IndexOf(s[1..], x)
  }
}
