/** The little-endian byte codec of the XVC server. */
module LittleEndian {
  import opened Bytes

  /** The number whose bytes are `b`, least significant first. */
  function GetLe(b: seq<byte>): nat {
    if b == [] then 0 else b[0] + 0x100 * GetLe(b[1..])
  }

  /** The `len` low bytes of `v`, least significant first. */
  function PutLe(v: nat, len: nat): (r: seq<byte>)
    ensures |r| == len
  {
    if len == 0 then [] else [v % 0x100] + PutLe(v / 0x100, len - 1)
  }

  function Pow256(n: nat): nat {
    if n == 0 then 1 else 0x100 * Pow256(n - 1)
  }

  lemma {:induction false} Pow256Positive(n: nat)
    ensures Pow256(n) > 0
  {
    if n > 0 {
      Pow256Positive(n - 1);
    }
  }

  lemma ModStep(v: nat, m: nat)
    requires m > 0
    ensures v % (0x100 * m) == v % 0x100 + 0x100 * (v / 0x100 % m)
  {
    var q, k := v / 0x100, v / 0x100 / m;
    assert q == k * m + q % m;
    assert v == 0x100 * q + v % 0x100;
    var r := v % 0x100 + 0x100 * (q % m);
    assert r < 0x100 * m;
    assert v == k * (0x100 * m) + r by {
      assert 0x100 * (k * m) == k * (0x100 * m);
    }
    DivModUnique(v, 0x100 * m, k, r);
  }

  lemma MulAtLeast(a: int, m: int)
    requires a >= 1 && m > 0
    ensures a * m >= m
  {
  }

  lemma DivModUnique(v: int, m: int, k: int, r: int)
    requires m > 0 && 0 <= r < m && v == k * m + r
    ensures v % m == r
  {
    var k', r' := v / m, v % m;
    assert v == k' * m + r';
    assert (k - k') * m == k * m - k' * m;
    assert (k' - k) * m == k' * m - k * m;
    if k > k' {
      MulAtLeast(k - k', m);
    } else if k < k' {
      MulAtLeast(k' - k, m);
    }
  }

  /** Reading back what was written gives the value modulo 256^len. */
  lemma {:induction false} PutGet(v: nat, len: nat)
    ensures Pow256(len) > 0 && GetLe(PutLe(v, len)) == v % Pow256(len)
  {
    Pow256Positive(len);
    if len > 0 {
      PutGet(v / 0x100, len - 1);
      ModStep(v, Pow256(len - 1));
      assert PutLe(v, len)[1..] == PutLe(v / 0x100, len - 1);
    }
  }

  /** Writing back what was read restores the bytes. */
  lemma {:induction false} GetPut(b: seq<byte>)
    ensures PutLe(GetLe(b), |b|) == b
  {
    if b != [] {
      GetPut(b[1..]);
      var b0: int, hi := b[0], GetLe(b[1..]);
      assert (b0 + 0x100 * hi) % 0x100 == b0 && (b0 + 0x100 * hi) / 0x100 == hi;
    }
  }

  /** Byte `k` of a number in memory has weight 256^k. */
  lemma {:induction false} GetLeAt(b: seq<byte>, k: nat)
    requires k < |b|
    ensures Pow256(k) > 0 && GetLe(b) / Pow256(k) % 0x100 == b[k]
  {
    Pow256Positive(k);
    if k > 0 {
      GetLeAt(b[1..], k - 1);
      var b0: int, high := b[0], GetLe(b[1..]);
      DivStep(b0 + 0x100 * high, high, Pow256(k - 1));
    }
  }

  lemma DivStep(v: nat, high: nat, m: nat)
    requires m > 0 && high == v / 0x100
    ensures v / (0x100 * m) == high / m
  {
    var q, r := high / m, high % m;
    assert v == q * (0x100 * m) + (0x100 * r + v % 0x100) by {
      assert high == q * m + r;
      assert q * (0x100 * m) == 0x100 * (q * m);
    }
    QuotientIs(v, 0x100 * m, q, 0x100 * r + v % 0x100);
  }

  lemma QuotientIs(a: int, m: int, q: int, r: int)
    requires m > 0 && 0 <= r < m && a == q * m + r
    ensures a / m == q
  {
    DivModUnique(a, m, q, r);
    var d := a / m;
    assert d * m == q * m;
    assert (d - q) * m == d * m - q * m && (q - d) * m == q * m - d * m;
    if d > q {
      MulAtLeast(d - q, m);
    } else if d < q {
      MulAtLeast(q - d, m);
    }
  }

  lemma {:induction false} GetBound(b: seq<byte>)
    ensures GetLe(b) < Pow256(|b|)
  {
    if b != [] {
      GetBound(b[1..]);
    }
  }

  lemma Pow256Four()
    ensures Pow256(4) == 0x1_0000_0000
  {
    assert Pow256(2) == 0x1_0000;
  }

  /** The weights of a four-byte field. */
  lemma FourDigits(b: seq<byte>)
    requires |b| == 4
    ensures var d: seq<int> := b; GetLe(b) == d[0] + 0x100 * d[1] + 0x1_0000 * d[2] + 0x100_0000 * d[3]
  {
    var d: seq<int> := b;
    assert GetLe(b[3..]) == d[3];
    assert GetLe(b[2..]) == d[2] + 0x100 * d[3] by {
      assert b[2..][1..] == b[3..];
    }
    assert GetLe(b[1..]) == d[1] + 0x100 * d[2] + 0x1_0000 * d[3] by {
      assert b[1..][1..] == b[2..];
    }
  }

  /** A four-byte field holds exactly the 32-bit numbers. */
  lemma FourBytes(b: seq<byte>, v: u32)
    requires |b| == 4
    ensures GetLe(b) < 0x1_0000_0000
    ensures GetLe(PutLe(v, 4)) == v
  {
    Pow256Four();
    GetBound(b);
    PutGet(v, 4);
  }

  lemma ShiftIn(high: nat, low: byte)
    ensures (high % 0x1_0000_0000 * 0x100) % 0x1_0000_0000 + low == (low + 0x100 * high) % 0x1_0000_0000
  {
    var a, h := high / 0x1_0000_0000, high % 0x1_0000_0000;
    var top, bottom := h / 0x100_0000, h % 0x100_0000;
    DivModUnique(h * 0x100, 0x1_0000_0000, top, bottom * 0x100);
    DivModUnique(low + 0x100 * high, 0x1_0000_0000, 0x100 * a + top, bottom * 0x100 + low);
  }

  /** `get_uint_le`: the bytes are shifted in from the most significant one down. */
  method GetUintLe(p: array<byte>, at: nat, len: nat) returns (value: u32)
    requires at + len <= p.Length
    ensures value == GetLe(p[at..at + len]) % 0x1_0000_0000
  {
    value := 0;
    var n: nat := len;
    while n > 0
      invariant n <= len
      invariant value == GetLe(p[at + n..at + len]) % 0x1_0000_0000
    {
      n := n - 1;
      ShiftIn(GetLe(p[at + n + 1..at + len]), p[at + n]);
      assert p[at + n..at + len][1..] == p[at + n + 1..at + len];
      value := (value * 0x100) % 0x1_0000_0000 + p[at + n];
    }
  }

  /** `set_uint_le`: the low byte goes out first and the value is shifted down. */
  method SetUintLe(p: array<byte>, at: nat, len: nat, value: u32)
    requires at + len <= p.Length
    modifies p
    ensures p[..] == old(p[..at]) + PutLe(value, len) + old(p[at + len..])
  {
    var v: nat, n: nat := value, 0;
    while n < len
      invariant n <= len
      invariant p[..at] == old(p[..at]) && p[at + len..] == old(p[at + len..])
      invariant p[at..at + n] + PutLe(v, len - n) == PutLe(value, len)
    {
      ghost var rest := PutLe(v, len - n);
      assert rest == [v % 0x100] + PutLe(v / 0x100, len - n - 1);
      ghost var before := p[at..at + n];
      p[at + n] := v % 0x100;
      assert p[at..at + n + 1] == before + [v % 0x100];
      v := v / 0x100;
      n := n + 1;
    }
    assert p[..] == p[..at] + p[at..at + len] + p[at + len..];
  }
}
