/** Unsigned words as big-endian bytes. */
module Words {
  import opened Prelude

  /** The low `width` bytes of `n`, most significant first: `(n as u32)` or
      `(n as u16)` followed by `to_be_bytes`. */
  function BigEndian(n: nat, width: nat): (b: Bytes)
    ensures |b| == width
    decreases width
  {
    if width == 0 then [] else BigEndian(n / 256, width - 1) + [n % 256]
  }

  function FromBigEndian(b: Bytes): nat {
    if b == [] then 0 else FromBigEndian(Front(b)) * 256 + Last(b)
  }

  function Pow256(width: nat): nat {
    if width == 0 then 1 else 256 * Pow256(width - 1)
  }

  /** The cast keeps the value modulo the word size. */
  lemma {:induction false} BigEndianRoundTrip(n: nat, width: nat)
    ensures Pow256(width) > 0
    ensures FromBigEndian(BigEndian(n, width)) == n % Pow256(width)
    decreases width
  {
    if width > 0 {
      BigEndianRoundTrip(n / 256, width - 1);
      assert Front(BigEndian(n, width)) == BigEndian(n / 256, width - 1);
      SplitRemainder(n, Pow256(width - 1));
    }
  }

  lemma SplitRemainder(n: nat, p: nat)
    requires p > 0
    ensures n % (256 * p) == (n / 256 % p) * 256 + n % 256
  {
    var q, r := n / 256 / p, n / 256 % p;
    assert n / 256 == q * p + r;
    assert n == n / 256 * 256 + n % 256;
    assert n == q * (256 * p) + (r * 256 + n % 256);
    assert r * 256 + n % 256 < 256 * p;
    UniqueRemainder(n, 256 * p, q, r * 256 + n % 256);
  }

  lemma UniqueRemainder(n: nat, m: nat, q: nat, r: nat)
    requires m > 0 && r < m && n == q * m + r
    ensures n % m == r
  {
    var d := n / m - q;
    assert n == n / m * m + n % m;
    assert d * m == r - n % m;
    MultipleIsFar(d, m);
  }

  lemma MultipleIsFar(d: int, m: nat)
    requires m > 0
    ensures d >= 1 ==> d * m >= m
    ensures d <= -1 ==> d * m + m <= 0
  {
    if d >= 1 {
      assert (d - 1) * m >= 0;
    }
    if d <= -1 {
      assert (-d - 1) * m >= 0;
    }
  }

  lemma WordSizes()
    ensures Pow256(4) == U32_SIZE && Pow256(2) == 0x1_0000
  {
    assert Pow256(2) == 256 * Pow256(1) && Pow256(1) == 256;
    assert Pow256(4) == 256 * Pow256(3) && Pow256(3) == 256 * Pow256(2);
  }

  /** Most significant byte first. */
  lemma FourBytes(a: Byte, b: Byte, c: Byte, d: Byte)
    ensures FromBigEndian([a, b, c, d]) == a * 0x100_0000 + b * 0x1_0000 + c * 0x100 + d
  {
    assert Front([a, b, c, d]) == [a, b, c] && Front([a, b, c]) == [a, b] && Front([a, b]) == [a];
    assert Front([a]) == [];
    assert FromBigEndian([a]) == a;
    assert FromBigEndian([a, b]) == a * 256 + b;
    assert FromBigEndian([a, b, c]) == (a * 256 + b) * 256 + c;
  }

  lemma {:induction false} WordRoundTrip(b: Bytes)
    ensures BigEndian(FromBigEndian(b), |b|) == b
  {
    if b != [] {
      WordRoundTrip(Front(b));
      var n, last: int := FromBigEndian(Front(b)), Last(b);
      assert (n * 256 + last) / 256 == n && (n * 256 + last) % 256 == last;
      assert b == Front(b) + [Last(b)];
    }
  }
}
