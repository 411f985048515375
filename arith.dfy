/** Facts of integer multiplication and division, each proved on its own. */
module Arith {

  lemma MulMono(a: int, b: int, len: int)
    requires a <= b && len > 0
    ensures a * len <= b * len
  {
    assert b * len - a * len == (b - a) * len;
  }

  lemma DivUnique(x: int, len: int, q: int, r: int)
    requires len > 0 && 0 <= r < len && x == q * len + r
    ensures x / len == q
  {
    var q' := x / len;
    var r' := x % len;
    assert (q - q') * len == r' - r by {
      assert x == q' * len + r';
      assert (q - q') * len == q * len - q' * len;
    }
    if q - q' >= 1 {
      MulMono(1, q - q', len);
      assert false;
    }
    if q - q' <= -1 {
      MulMono(q - q', -1, len);
      assert false;
    }
  }

  lemma CeilDiv(d: int, len: int, n: int)
    requires len > 0 && n >= 1
    requires (n - 1) * len < d <= n * len
    ensures (d + len - 1) / len == n
  {
    assert n * len == (n - 1) * len + len;
    DivUnique(d + len - 1, len, n, d - 1 - (n - 1) * len);
  }

  lemma ModUnique(x: int, len: int, q: int, r: int)
    requires len > 0 && 0 <= r < len && x == q * len + r
    ensures x % len == r
  {
    DivUnique(x, len, q, r);
    assert x == (x / len) * len + x % len;
  }

  lemma ShiftMod(x: int, n: int)
    requires n > 0
    ensures (x + n) % n == x % n
  {
    var q := x / n;
    var r := x % n;
    assert x == q * n + r;
    assert x + n == (q + 1) * n + r;
    ModUnique(x + n, n, q + 1, r);
  }
}
