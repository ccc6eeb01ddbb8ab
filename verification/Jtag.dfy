/**
 * JTAG shifting, one bit at a time and one 32-bit word at a time.  Bit vectors are stored
 * in bytes, least significant bit first; words are read from memory little-endian.
 */
module Jtag {
  import opened Bytes
  import opened LittleEndian

  /** The first `n` bits of a word, bit 0 first. */
  function WordBits(w: nat, n: nat): (r: seq<bool>)
    ensures |r| == n
  {
    if n == 0 then [] else [w % 2 == 1] + WordBits(w / 2, n - 1)
  }

  /** The first `n` bits of a bit vector. */
  function VectorBits(b: seq<byte>, n: nat): (r: seq<bool>)
    requires n <= 8 * |b|
    ensures |r| == n
    decreases n
  {
    if n <= 8 then (if n == 0 then [] else WordBits(b[0], n))
    else WordBits(b[0], 8) + VectorBits(b[1..], n - 8)
  }

  lemma HalvesOf(w: nat, p: nat)
    requires p > 0
    ensures w / (2 * p) == w / 2 / p
  {
    var q, r := w / 2 / p, w / 2 % p;
    assert w / 2 == q * p + r;
    assert w == q * (2 * p) + (2 * r + w % 2) by {
      assert q * (2 * p) == 2 * (q * p);
    }
    QuotientIs(w, 2 * p, q, 2 * r + w % 2);
  }

  lemma {:induction false} Pow2Positive(n: nat)
    ensures Pow2(n) > 0
  {
    if n > 0 {
      Pow2Positive(n - 1);
    }
  }

  /** Bit `i` is the word's bit of weight 2^i: set bits are true, and bit 0 comes first. */
  lemma {:induction false} WordBitAt(w: nat, n: nat, i: nat)
    requires i < n
    ensures Pow2(i) > 0 && (WordBits(w, n)[i] <==> w / Pow2(i) % 2 == 1)
  {
    Pow2Positive(i);
    if i > 0 {
      WordBitAt(w / 2, n - 1, i - 1);
      var p := Pow2(i - 1);
      HalvesOf(w, p);
      assert Pow2(i) == 2 * p && WordBits(w, n)[i] == WordBits(w / 2, n - 1)[i - 1];
    }
  }

  lemma VectorBitHere(b: seq<byte>, n: nat, i: nat)
    requires i < 8 && i < n <= 8 * |b|
    ensures VectorBits(b, n)[i] == WordBits(b[0], 8)[i]
  {
    if n < 8 {
      WordBitsTake(b[0], 8, n);
      assert WordBits(b[0], n)[i] == WordBits(b[0], 8)[..n][i];
    }
  }

  lemma VectorBitLater(b: seq<byte>, n: nat, i: nat, left: nat, j: nat)
    requires 8 <= i < n <= 8 * |b| && left == n - 8 && j == i - 8
    ensures VectorBits(b, n)[i] == VectorBits(b[1..], left)[j]
  {
  }

  lemma {:induction false} VectorBitIn(b: seq<byte>, n: nat, q: nat, r: nat, i: nat, w: byte)
    requires i == 8 * q + r && r < 8 && i < n <= 8 * |b| && w == b[q]
    ensures r < |WordBits(w, 8)| && VectorBits(b, n)[i] == WordBits(w, 8)[r]
    decreases q
  {
    if q == 0 {
      VectorBitHere(b, n, r);
    } else {
      VectorBitLater(b, n, i, n - 8, i - 8);
      VectorBitIn(b[1..], n - 8, q - 1, r, i - 8, w);
    }
  }

  /** Bit `i` of a vector is bit `i % 8` of its byte `i / 8`. */
  lemma VectorBitAt(b: seq<byte>, n: nat, i: nat)
    requires i < n <= 8 * |b|
    ensures Pow2(i % 8) > 0 && (VectorBits(b, n)[i] <==> b[i / 8] / Pow2(i % 8) % 2 == 1)
  {
    VectorBitIn(b, n, i / 8, i % 8, i, b[i / 8]);
    WordBitAt(b[i / 8], 8, i % 8);
  }

  lemma WordBitsTake(w: nat, n: nat, m: nat)
    requires m <= n
    ensures WordBits(w, n)[..m] == WordBits(w, m)
  {
    if m > 0 {
      WordBitsTake(w / 2, n - 1, m - 1);
    }
  }

  /** The bits of a number made of `k` low bits and the rest. */
  lemma {:induction false} WordBitsSplit(low: nat, high: nat, k: nat, n: nat)
    requires low < Pow2(k) && k <= n
    ensures WordBits(low + Pow2(k) * high, n) == WordBits(low, k) + WordBits(high, n - k)
    decreases k
  {
    if k == 0 {
      assert [] + WordBits(high, n) == WordBits(high, n);
    } else {
      var p := Pow2(k - 1) * high;
      Associate(2, Pow2(k - 1), high);
      Halves(low, p);
      WordBitsSplit(low / 2, high, k - 1, n - 1);
    }
  }

  lemma Associate(a: nat, b: nat, c: nat)
    ensures (a * b) * c == a * (b * c)
  {
  }

  lemma Halves(low: nat, p: nat)
    ensures (low + 2 * p) % 2 == low % 2 && (low + 2 * p) / 2 == low / 2 + p
  {
  }

  lemma Pow2Eight()
    ensures Pow2(8) == 0x100
  {
    assert Pow2(4) == 16;
  }

  /** The bits of a byte and what is above it. */
  lemma ByteThenRest(low: nat, high: nat, w: nat, n: nat)
    requires low < 0x100 && w == low + 0x100 * high
    ensures WordBits(w, n) == if n <= 8 then WordBits(low, n) else WordBits(low, 8) + WordBits(high, n - 8)
  {
    Pow2Eight();
    if n <= 8 {
      WordBitsSplit(low, high, 8, 8);
      WordBitsTake(w, 8, n);
      WordBitsTake(low, 8, n);
      assert WordBits(low, 8) + WordBits(high, 0) == WordBits(low, 8);
    } else {
      WordBitsSplit(low, high, 8, n);
    }
  }

  /** Reading a word from memory keeps the bits of the vector stored there. */
  lemma {:induction false} LoadBits(b: seq<byte>, n: nat)
    requires n <= 8 * |b|
    ensures WordBits(GetLe(b), n) == VectorBits(b, n)
    decreases |b|
  {
    if b != [] {
      var b0: int, high := b[0], GetLe(b[1..]);
      ByteThenRest(b0, high, b0 + 0x100 * high, n);
      if n > 8 {
        LoadBits(b[1..], n - 8);
      }
    }
  }

  /** Storing the low bytes of a word keeps its low bits. */
  lemma StoreBits(w: nat, k: nat, n: nat)
    requires n <= 8 * k
    ensures VectorBits(PutLe(w, k), n) == WordBits(w, n)
  {
    if k > 0 {
      assert PutLe(w, k)[0] == w % 0x100 && PutLe(w, k)[1..] == PutLe(w / 0x100, k - 1);
      var low, high := w % 0x100, w / 0x100;
      ByteThenRest(low, high, w, n);
      if n > 8 {
        StoreBits(high, k - 1, n - 8);
      }
    }
  }

  /** Whole bytes of a vector can be split off. */
  lemma {:induction false} VectorBitsAppend(a: seq<byte>, b: seq<byte>, n: nat)
    requires 8 * |a| <= n <= 8 * (|a| + |b|)
    ensures VectorBits(a + b, n) == VectorBits(a, 8 * |a|) + VectorBits(b, n - 8 * |a|)
    decreases |a|
  {
    if a == [] {
      assert a + b == b;
      assert [] + VectorBits(b, n) == VectorBits(b, n);
    } else {
      assert (a + b)[0] == a[0] && (a + b)[1..] == a[1..] + b;
      VectorBitsAppend(a[1..], b, n - 8);
      FirstByte(a + b, n);
      FirstByte(a, 8 * |a|);
      Regroup(WordBits(a[0], 8), VectorBits(a[1..], 8 * |a| - 8), VectorBits(b, n - 8 * |a|));
    }
  }

  lemma FirstByte(b: seq<byte>, n: nat)
    requires 8 <= n <= 8 * |b|
    ensures VectorBits(b, n) == WordBits(b[0], 8) + VectorBits(b[1..], n - 8)
  {
    if n == 8 {
      assert WordBits(b[0], 8) + [] == WordBits(b[0], 8);
    }
  }

  // ---- The device behind the bridge ---------------------------------------

  /**
   * A debug bridge: `step` clocks the JTAG chain once, and `latch` is what the TDO register
   * holds after a shift; only as many of its bits as were shifted are the chain's outputs.
   */
  datatype Bridge<!S> = Bridge(step: (S, bool, bool) -> (S, bool), latch: (S, seq<bool>) -> u32)

  ghost predicate Honest<S(!new)>(br: Bridge<S>) {
    forall s: S, out: seq<bool> :: |out| <= 32 ==> WordBits(br.latch(s, out), |out|) == out
  }

  /** The number whose bits are `out`. */
  function Packed(out: seq<bool>): (r: nat)
    ensures r < Pow2(|out|) && WordBits(r, |out|) == out
  {
    if out == [] then 0
    else
      var rest := Packed(out[1..]);
      Halves(if out[0] then 1 else 0, rest);
      (if out[0] then 1 else 0) + 2 * rest
  }

  lemma {:induction false} Pow2Within(n: nat)
    requires n <= 32
    ensures Pow2(n) <= 0x1_0000_0000
    decreases 32 - n
  {
    if n < 32 {
      Pow2Within(n + 1);
    } else {
      Pow2Eight();
      assert Pow2(12) == 0x1000 && Pow2(16) == 0x1_0000 && Pow2(20) == 0x10_0000;
      assert Pow2(24) == 0x100_0000 && Pow2(28) == 0x1000_0000 && Pow2(32) == 0x1_0000_0000;
    }
  }

  /** What TDO reads after shifting a word, the bits above the shifted ones clear. */
  function Latched(out: seq<bool>): u32 {
    if |out| > 32 then 0
    else
      Pow2Within(|out|);
      Packed(out)
  }

  /** Every chain has a bridge that reports it honestly. */
  lemma HonestBridge<S(!new)>(step: (S, bool, bool) -> (S, bool)) returns (br: Bridge<S>)
    ensures br.step == step && Honest(br)
  {
    br := Bridge(step, (s, out) => Latched(out));
  }

  /** A chain state and what came out so far. */
  datatype Clocked<S> = Clocked(state: S, tdo: seq<bool>)

  /** The reference: clocking bit after bit. */
  function Clock<S>(br: Bridge<S>, s: S, tms: seq<bool>, tdi: seq<bool>): (r: Clocked<S>)
    requires |tms| == |tdi|
    ensures |r.tdo| == |tms|
  {
    if tms == [] then Clocked(s, [])
    else
      var one := br.step(s, tms[0], tdi[0]);
      var rest := Clock(br, one.0, tms[1..], tdi[1..]);
      Clocked(rest.state, [one.1] + rest.tdo)
  }

  /**
   * Clocking is one step of the chain for each pair of bits, in order: step `i` gets bit `i`
   * of TMS and of TDI, and gives bit `i` of TDO.
   */
  lemma {:induction false} ClockTrace<S>(br: Bridge<S>, s: S, tms: seq<bool>, tdi: seq<bool>) returns (states: seq<S>)
    requires |tms| == |tdi|
    ensures |states| == |tms| + 1 && states[0] == s && states[|tms|] == Clock(br, s, tms, tdi).state
    ensures forall i :: 0 <= i < |tms| ==>
              br.step(states[i], tms[i], tdi[i]) == (states[i + 1], Clock(br, s, tms, tdi).tdo[i])
    decreases |tms|
  {
    if tms == [] {
      states := [s];
    } else {
      var rest := ClockTrace(br, br.step(s, tms[0], tdi[0]).0, tms[1..], tdi[1..]);
      states := [s] + rest;
    }
  }

  lemma {:induction false} ClockAppend<S>(br: Bridge<S>, s: S, tms1: seq<bool>, tdi1: seq<bool>,
                                          tms2: seq<bool>, tdi2: seq<bool>)
    requires |tms1| == |tdi1| && |tms2| == |tdi2|
    ensures var first := Clock(br, s, tms1, tdi1);
            var rest := Clock(br, first.state, tms2, tdi2);
            Clock(br, s, tms1 + tms2, tdi1 + tdi2) == Clocked(rest.state, first.tdo + rest.tdo)
    decreases |tms1|
  {
    if tms1 == [] {
      assert tms1 + tms2 == tms2 && tdi1 + tdi2 == tdi2;
    } else {
      var one := br.step(s, tms1[0], tdi1[0]);
      ClockAppend(br, one.0, tms1[1..], tdi1[1..], tms2, tdi2);
      assert (tms1 + tms2)[1..] == tms1[1..] + tms2 && (tdi1 + tdi2)[1..] == tdi1[1..] + tdi2;
    }
  }

  // ---- Shifting words -----------------------------------------------------

  /** What one shift of `n` bits leaves in the chain and in the TDO register. */
  datatype Shot<S> = Shot(state: S, word: u32)

  function ShiftWord<S>(br: Bridge<S>, s: S, n: nat, tms: nat, tdi: nat): Shot<S> {
    var c := Clock(br, s, WordBits(tms, n), WordBits(tdi, n));
    Shot(c.state, br.latch(c.state, c.tdo))
  }

  datatype Shifted<S> = Shifted(state: S, tdo: seq<byte>)

  /** The bytes that hold so many bits. */
  function ByteCount(bits: nat): (r: nat)
    ensures 8 * r - 7 <= bits <= 8 * r
  {
    (bits + 7) / 8
  }

  /** A bit vector shifted through the bridge 32 bits at a time. */
  function ShiftWords<S>(br: Bridge<S>, s: S, bits: nat, tms: seq<byte>, tdi: seq<byte>): (r: Shifted<S>)
    requires |tms| >= ByteCount(bits) && |tdi| >= ByteCount(bits)
    ensures |r.tdo| == ByteCount(bits)
    decreases bits
  {
    if bits == 0 then Shifted(s, [])
    else
      var n := Min(32, bits);
      var k := ByteCount(n);
      var one := ShiftWord(br, s, n, GetLe(tms[..k]), GetLe(tdi[..k]));
      var rest := ShiftWords(br, one.state, bits - n, tms[k..], tdi[k..]);
      Shifted(rest.state, PutLe(one.word, k) + rest.tdo)
  }

  /** One word does what clocking its bits does. */
  lemma WordRefinesSerial<S(!new)>(br: Bridge<S>, s: S, n: nat, tms: seq<byte>, tdi: seq<byte>)
    requires Honest(br) && n <= 32 && |tms| == |tdi| == ByteCount(n)
    ensures var one := ShiftWord(br, s, n, GetLe(tms), GetLe(tdi));
            var c := Clock(br, s, VectorBits(tms, n), VectorBits(tdi, n));
            && one.state == c.state
            && VectorBits(PutLe(one.word, ByteCount(n)), n) == c.tdo
  {
    LoadBits(tms, n);
    LoadBits(tdi, n);
    StoreBits(ShiftWord(br, s, n, GetLe(tms), GetLe(tdi)).word, ByteCount(n), n);
  }

  /**
   * Word-at-a-time shifting refines bit-at-a-time shifting: the chain ends in the state it
   * would reach by clocking all bits one by one, and the first `bits` bits of the result
   * are what came out, for every number of bits.
   */
  lemma {:induction false} WordsRefineSerial<S(!new)>(br: Bridge<S>, s: S, bits: nat, tms: seq<byte>, tdi: seq<byte>)
    requires Honest(br) && |tms| >= ByteCount(bits) && |tdi| >= ByteCount(bits)
    ensures var r := ShiftWords(br, s, bits, tms, tdi);
            var c := Clock(br, s, VectorBits(tms, bits), VectorBits(tdi, bits));
            r.state == c.state && VectorBits(r.tdo, bits) == c.tdo
    decreases bits
  {
    if bits > 0 {
      var n := Min(32, bits);
      var k, left := ByteCount(n), bits - n;
      WordRefinesSerial(br, s, n, tms[..k], tdi[..k]);
      var one := ShiftWord(br, s, n, GetLe(tms[..k]), GetLe(tdi[..k]));
      WordsRefineSerial(br, one.state, left, tms[k..], tdi[k..]);
      var rest := ShiftWords(br, one.state, left, tms[k..], tdi[k..]);
      ShiftWordsStep(br, s, bits, n, left, k, tms, tdi, one, rest);
      JoinSerial(br, s, bits, n, left, k, tms, tdi, one.state, PutLe(one.word, k), rest);
    }
  }

  lemma ShiftWordsStep<S>(br: Bridge<S>, s: S, bits: nat, n: nat, left: nat, k: nat, tms: seq<byte>, tdi: seq<byte>,
                          one: Shot<S>, rest: Shifted<S>)
    requires |tms| >= ByteCount(bits) && |tdi| >= ByteCount(bits)
    requires bits > 0 && n == Min(32, bits) && k == ByteCount(n) && left == bits - n
    requires one == ShiftWord(br, s, n, GetLe(tms[..k]), GetLe(tdi[..k]))
    requires rest == ShiftWords(br, one.state, left, tms[k..], tdi[k..])
    ensures ShiftWords(br, s, bits, tms, tdi) == Shifted(rest.state, PutLe(one.word, k) + rest.tdo)
  {
  }

  /** The first word's bits, clocked, and then the rest, are all bits clocked. */
  lemma JoinSerial<S>(br: Bridge<S>, s: S, bits: nat, n: nat, left: nat, k: nat, tms: seq<byte>, tdi: seq<byte>,
                      mid: S, out: seq<byte>, rest: Shifted<S>)
    requires n == Min(32, bits) && left == bits - n && k == ByteCount(n)
    requires |tms| >= ByteCount(bits) && |tdi| >= ByteCount(bits) && |out| == k && |rest.tdo| == ByteCount(left)
    requires k <= |tms| && k <= |tdi| && left <= 8 * (|tms| - k) && left <= 8 * (|tdi| - k)
    requires Clock(br, s, VectorBits(tms[..k], n), VectorBits(tdi[..k], n)) == Clocked(mid, VectorBits(out, n))
    requires Clock(br, mid, VectorBits(tms[k..], left), VectorBits(tdi[k..], left)) ==
             Clocked(rest.state, VectorBits(rest.tdo, left))
    ensures bits <= 8 * |out + rest.tdo|
    ensures Clock(br, s, VectorBits(tms, bits), VectorBits(tdi, bits)) ==
            Clocked(rest.state, VectorBits(out + rest.tdo, bits))
  {
    SplitVector(tms, k, n, bits, left);
    SplitVector(tdi, k, n, bits, left);
    ClockAppend(br, s, VectorBits(tms[..k], n), VectorBits(tdi[..k], n),
                VectorBits(tms[k..], left), VectorBits(tdi[k..], left));
    SplitVector(out + rest.tdo, k, n, bits, left);
    assert (out + rest.tdo)[..k] == out && (out + rest.tdo)[k..] == rest.tdo;
  }

  /** A vector is its first word's bytes and the rest; a partial word is the last. */
  lemma SplitVector(b: seq<byte>, k: nat, n: nat, bits: nat, left: nat)
    requires n == Min(32, bits) && k == ByteCount(n) && |b| >= ByteCount(bits) && left == bits - n
    ensures |b| >= k && left <= 8 * (|b| - k)
    ensures VectorBits(b, bits) == VectorBits(b[..k], n) + VectorBits(b[k..], left)
  {
    assert b == b[..k] + b[k..];
    if n == 32 {
      VectorBitsAppend(b[..k], b[k..], bits);
    } else {
      VectorBitsPrefix(b[..k], b[k..], n);
      assert VectorBits(b[..k], n) + VectorBits(b[k..], 0) == VectorBits(b[..k], n);
    }
  }

  /** Bytes behind a vector do not matter. */
  lemma {:induction false} VectorBitsPrefix(a: seq<byte>, b: seq<byte>, n: nat)
    requires n <= 8 * |a|
    ensures VectorBits(a + b, n) == VectorBits(a, n)
    decreases |a|
  {
    if n > 0 {
      assert (a + b)[0] == a[0];
      if n > 8 {
        assert (a + b)[1..] == a[1..] + b;
        VectorBitsPrefix(a[1..], b, n - 8);
      }
    }
  }
}
