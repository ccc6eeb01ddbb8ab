/** `xvc_axi2pl.cpp`: the bridge's registers, the bounded poll, and the bit-vector splitter. */
module XvcAxi {
  import opened Bytes
  import opened LittleEndian
  import opened Jtag

  const POLLS: nat := 100

  /** The registers of a debug bridge, with the chain behind it. */
  class Registers<S> {
    const bridge: Bridge<S>
    /** For how many polls each shift stays busy, from the first one on. */
    const delays: nat -> nat
    var state: S
    var length: u32
    var tms: u32
    var tdi: u32
    var tdo: u32
    var busy: nat
    /** LENGTH at the start of each shift so far. */
    var starts: seq<u32>
    /** Reads of CONTROL so far. */
    var polls: nat

    /** A new bridge: LENGTH is not to be relied on. */
    constructor (bridge: Bridge<S>, delays: nat -> nat, state: S, length: u32)
      ensures this.bridge == bridge && this.delays == delays && this.state == state && this.length == length
      ensures busy == 0 && starts == [] && polls == 0
    {
      this.bridge, this.delays, this.state, this.length := bridge, delays, state, length;
      tms, tdi, tdo, busy, starts, polls := 0, 0, 0, 0, [], 0;
    }

    method WriteLength(value: u32)
      modifies this`length
      ensures length == value
    {
      length := value;
    }

    method WriteTms(value: u32)
      modifies this`tms
      ensures tms == value
    {
      tms := value;
    }

    method WriteTdi(value: u32)
      modifies this`tdi
      ensures tdi == value
    {
      tdi := value;
    }

    /** Writing 1 to CONTROL shifts LENGTH bits; the bridge must be idle. */
    method WriteControl()
      requires busy == 0 && 1 <= length <= 32
      modifies this`state, this`tdo, this`busy, this`starts
      ensures var one := ShiftWord(bridge, old(state), length, tms, tdi);
              state == one.state && tdo == one.word
      ensures starts == old(starts) + [length] && busy == delays(|old(starts)|)
    {
      var one := ShiftWord(bridge, state, length, tms, tdi);
      state, tdo, busy := one.state, one.word, delays(|starts|);
      starts := starts + [length];
    }

    /** CONTROL reads 1 while a shift is under way. */
    method ReadControl() returns (value: u32)
      modifies this`busy, this`polls
      ensures polls == old(polls) + 1
      ensures if old(busy) == 0 then value == 0 && busy == 0 else value == 1 && busy == old(busy) - 1
    {
      polls := polls + 1;
      if busy == 0 {
        value := 0;
      } else {
        busy := busy - 1;
        value := 1;
      }
    }
  }

  /** `xil_xvc_shift_bits`: one word through the bridge, with at most 100 polls. */
  method ShiftBits<S>(dev: Registers<S>, tmsBits: u32, tdiBits: u32) returns (ret: nat, tdoBits: u32)
    requires dev.busy == 0 && 1 <= dev.length <= 32
    modifies dev`state, dev`tms, dev`tdi, dev`tdo, dev`busy, dev`starts, dev`polls
    ensures var delay := dev.delays(|old(dev.starts)|);
            && ret == (if delay < 100 then 0 else 1)
            && dev.polls == old(dev.polls) + Min(delay + 1, 100)
            && (ret == 0 ==> dev.busy == 0)
    ensures var one := ShiftWord(dev.bridge, old(dev.state), dev.length, tmsBits, tdiBits);
            dev.state == one.state && (ret == 0 ==> tdoBits == one.word)
    ensures dev.starts == old(dev.starts) + [dev.length]
  {
    dev.WriteTms(tmsBits);
    dev.WriteTdi(tdiBits);
    dev.WriteControl();
    ghost var delay := dev.busy;
    var count := POLLS;
    tdoBits := 0;
    while count > 0
      invariant 0 <= count <= POLLS
      invariant POLLS - count <= delay && dev.busy == delay - (POLLS - count)
      invariant dev.polls == old(dev.polls) + (POLLS - count)
      modifies dev`busy, dev`polls
    {
      var control := dev.ReadControl();
      if control % 2 == 0 {
        break;
      }
      count := count - 1;
    }
    if count == 0 {
      return 1, 0;
    }
    return 0, dev.tdo;
  }

  /** The bits in each word of a vector of `bits` bits. */
  function WordSizes(bits: nat): seq<u32> {
    if bits == 0 then [] else [Min(32, bits)] + WordSizes(bits - Min(32, bits))
  }

  /** Every word has 32 bits but the last, which has what is left. */
  lemma {:induction false} WordSizesAt(bits: nat, words: nat, i: nat)
    requires words == (bits + 31) / 32
    ensures |WordSizes(bits)| == words
    ensures i < words ==> 32 * i < bits && WordSizes(bits)[i] == if bits - 32 * i < 32 then bits - 32 * i else 32
    decreases bits
  {
    if bits > 32 {
      WordSizesAt(bits - 32, words - 1, if i == 0 then 0 else i - 1);
    } else if bits > 0 {
      assert WordSizes(bits) == [bits] + WordSizes(0);
    }
  }

  /** The words whose shift completes before the first one that times out. */
  function Completed(delays: nat -> nat, first: nat, words: nat): (r: nat)
    ensures r <= words
    ensures forall i :: first <= i < first + r ==> delays(i) < POLLS
    ensures r < words ==> delays(first + r) >= POLLS
    decreases words
  {
    if words == 0 || delays(first) >= POLLS then 0 else 1 + Completed(delays, first + 1, words - 1)
  }

  /** The request that `xvc_axiioc` is given; the three vectors stay where they are. */
  class Request {
    const opcode: u32
    const length: u32
    const tmsBuf: array<byte>
    const tdiBuf: array<byte>
    const tdoBuf: array<byte>

    constructor (opcode: u32, length: u32, tms: array<byte>, tdi: array<byte>, tdo: array<byte>)
      ensures this.opcode == opcode && this.length == length
      ensures tmsBuf == tms && tdiBuf == tdi && tdoBuf == tdo
    {
      this.opcode, this.length, tmsBuf, tdiBuf, tdoBuf := opcode, length, tms, tdi, tdo;
    }

    /** Room for the vectors; the original counts bits in a signed 32-bit integer. */
    predicate Valid() {
      && length < 0x8000_0000
      && ByteCount(length) <= Min(tmsBuf.Length, Min(tdiBuf.Length, tdoBuf.Length))
      && tdoBuf !in {tmsBuf, tdiBuf}
    }
  }

  lemma {:induction false} CompletedNext(delays: nat -> nat, first: nat, done: nat, words: nat, here: nat)
    requires done < words && Completed(delays, first, words) >= done && here == first + done
    ensures if delays(here) < POLLS then Completed(delays, first, words) >= done + 1
            else Completed(delays, first, words) == done
    decreases words
  {
    if done > 0 {
      CompletedNext(delays, first + 1, done - 1, words - 1, here);
    }
  }

  /** `memcpy` of the low bytes of a word from a buffer. */
  method LoadWord(buf: array<byte>, at: nat, k: nat) returns (word: u32)
    requires at + k <= buf.Length && k <= 4
    ensures word == GetLe(buf[..][at..at + k])
  {
    word := GetUintLe(buf, at, k);
    assert buf[..][at..at + k] == buf[at..at + k];
    GetBound(buf[at..at + k]);
    Pow256UpToFour(k);
  }

  /** `memcpy` of the low bytes of a word to a buffer. */
  method StoreWord(buf: array<byte>, at: nat, k: nat, word: u32)
    requires at + k <= buf.Length
    modifies buf
    ensures buf[..] == Splice(old(buf[..]), at, PutLe(word, k))
  {
    ghost var was := buf[..];
    assert was[..at] == buf[..at] && was[at + k..] == buf[at + k..];
    SetUintLe(buf, at, k, word);
  }

  lemma Pow256UpToFour(k: nat)
    requires k <= 4
    ensures Pow256(k) <= 0x1_0000_0000
  {
    Pow256Four();
    assert Pow256(1) == 0x100 && Pow256(2) == 0x1_0000 && Pow256(3) == 0x100 * Pow256(2);
  }

  /** What a request can change: the chain, the record of shifts, the TDO buffer. */
  datatype View<S> = View(state: S, starts: seq<u32>, buf: seq<byte>)

  ghost function ViewOf<S>(dev: Registers<S>, req: Request): View<S>
    reads dev, req.tdoBuf
  {
    View(dev.state, dev.starts, req.tdoBuf[..])
  }

  /** `b` with `mid` written over its bytes from `at` on. */
  function Splice(b: seq<byte>, at: nat, mid: seq<byte>): (r: seq<byte>)
    requires at + |mid| <= |b|
    ensures |r| == |b| && r[..at + |mid|] == b[..at] + mid && r[at + |mid|..] == b[at + |mid|..]
  {
    b[..at] + mid + b[at + |mid|..]
  }

  /** The view after the `n` bits at byte `at` were shifted and stored. */
  function Turned<S>(br: Bridge<S>, tms: seq<byte>, tdi: seq<byte>, v: View<S>, at: nat, n: u32): View<S>
    requires at + ByteCount(n) <= |tms| && at + ByteCount(n) <= |tdi| && at + ByteCount(n) <= |v.buf|
  {
    var k := ByteCount(n);
    var one := ShiftWord(br, v.state, n, GetLe(tms[at..at + k]), GetLe(tdi[at..at + k]));
    View(one.state, v.starts + [n], Splice(v.buf, at, PutLe(one.word, k)))
  }

  lemma TurnedIs<S>(br: Bridge<S>, tms: seq<byte>, tdi: seq<byte>, v: View<S>, at: nat, n: u32, k: nat, one: Shot<S>)
    requires k == ByteCount(n) && at + k <= |tms| && at + k <= |tdi| && at + k <= |v.buf|
    requires one == ShiftWord(br, v.state, n, GetLe(tms[at..at + k]), GetLe(tdi[at..at + k]))
    ensures Turned(br, tms, tdi, v, at, n) == View(one.state, v.starts + [n], Splice(v.buf, at, PutLe(one.word, k)))
  {
  }

  /** One turn of the splitter's loop: the word at bit `at * 8`. */
  method ShiftOne<S>(dev: Registers<S>, req: Request, at: nat, n: u32) returns (ret: nat)
    requires req.Valid() && dev.busy == 0
    requires 8 * at < req.length && n == Min(32, req.length - 8 * at) && (n == 32 ==> dev.length == 32)
    modifies dev`state, dev`length, dev`tms, dev`tdi, dev`tdo, dev`busy, dev`starts, dev`polls, req.tdoBuf
    ensures ret == if dev.delays(|old(dev.starts)|) < POLLS then 0 else 1
    ensures dev.length == n && dev.polls <= old(dev.polls) + POLLS && |dev.starts| == |old(dev.starts)| + 1
    ensures ret == 0 ==> dev.busy == 0
    ensures ViewOf(dev, req) ==
            if ret == 0 then Turned(dev.bridge, req.tmsBuf[..], req.tdiBuf[..], old(ViewOf(dev, req)), at, n)
            else View(dev.state, old(dev.starts) + [n], old(req.tdoBuf[..]))
  {
    if req.length - 8 * at < 32 {
      dev.WriteLength(req.length - 8 * at);
    }
    ret := ShiftLoaded(dev, req, at, n);
  }

  /** The same once LENGTH is right. */
  method ShiftLoaded<S>(dev: Registers<S>, req: Request, at: nat, n: u32) returns (ret: nat)
    requires req.Valid() && dev.busy == 0
    requires 8 * at < req.length && n == Min(32, req.length - 8 * at) && dev.length == n
    modifies dev`state, dev`tms, dev`tdi, dev`tdo, dev`busy, dev`starts, dev`polls, req.tdoBuf
    ensures ret == if dev.delays(|old(dev.starts)|) < POLLS then 0 else 1
    ensures dev.polls <= old(dev.polls) + POLLS && |dev.starts| == |old(dev.starts)| + 1
    ensures ret == 0 ==> dev.busy == 0
    ensures ViewOf(dev, req) ==
            if ret == 0 then Turned(dev.bridge, req.tmsBuf[..], req.tdiBuf[..], old(ViewOf(dev, req)), at, n)
            else View(dev.state, old(dev.starts) + [n], old(req.tdoBuf[..]))
  {
    var k := ByteCount(n);
    var tms := LoadWord(req.tmsBuf, at, k);
    var tdi := LoadWord(req.tdiBuf, at, k);
    ghost var v := ViewOf(dev, req);
    ghost var one := ShiftWord(dev.bridge, v.state, n, tms, tdi);
    TurnedIs(dev.bridge, req.tmsBuf[..], req.tdiBuf[..], v, at, n, k, one);
    var word;
    ret, word := ShiftBits(dev, tms, tdi);
    if ret == 0 {
      StoreWord(req.tdoBuf, at, k, word);
      assert ViewOf(dev, req) == View(one.state, v.starts + [n], Splice(v.buf, at, PutLe(one.word, k)));
    }
  }

  // ---- What the splitter has done at each turn ----------------------------

  /** A request as a value, with the view before it. */
  datatype Job<!S> = Job(bridge: Bridge<S>, delays: nat -> nat, opcode: u32, length: nat,
                         tms: seq<byte>, tdi: seq<byte>, before: View<S>)
  {
    predicate Valid() {
      |tms| >= ByteCount(length) && |tdi| >= ByteCount(length) && |before.buf| >= ByteCount(length)
    }

    /** What the vectors are shifted to, word by word. */
    function Target(): Shifted<S>
      requires Valid()
    {
      ShiftWords(bridge, before.state, length, tms, tdi)
    }

    function Sizes(): seq<u32> { WordSizes(length) }

    /** The words before the first timeout. */
    function Completes(): (r: nat)
      ensures r <= |Sizes()|
    {
      Completed(delays, |before.starts|, |Sizes()|)
    }
  }

  /** What the request must have done when it returns `ret`. */
  ghost predicate Served<S>(job: Job<S>, ret: nat, v: View<S>)
    requires job.Valid()
  {
    exists target :: target == job.Target() && ServedTo(job, target, ret, v)
  }

  ghost predicate ServedTo<S>(job: Job<S>, target: Shifted<S>, ret: nat, v: View<S>)
    requires job.Valid() && |target.tdo| == ByteCount(job.length)
  {
    var bytes, sizes, done := ByteCount(job.length), job.Sizes(), job.Completes();
    if done == |sizes| then
      && ret == 0 && v.state == target.state && v.starts == job.before.starts + sizes
      && v.buf == (if job.opcode == 1 then target.tdo else job.tdi[..bytes]) + job.before.buf[bytes..]
    else
      && ret == 1 && 4 * done <= bytes && v.starts == job.before.starts + sizes[..done + 1]
      && v.buf == target.tdo[..4 * done] + job.before.buf[4 * done..]
  }

  /**
   * What a request that was served has done, from its vectors and the bridge's delays alone.
   * It succeeds if and only if no word is busy for 100 polls; otherwise it stops in the first
   * word `w` that is, with the bytes of the words before that one.
   */
  lemma ServedMeans<S>(job: Job<S>, ret: nat, v: View<S>, bytes: nat, words: nat) returns (w: nat)
    requires job.Valid() && Served(job, ret, v)
    requires bytes == (job.length + 7) / 8 && words == (job.length + 31) / 32
    ensures var first := |job.before.starts|;
            var out := ShiftWords(job.bridge, job.before.state, job.length, job.tms, job.tdi);
            && w <= words && (forall i :: first <= i < first + w ==> job.delays(i) < 100)
            && |v.starts| == first + (if w == words then words else w + 1)
            && (if w == words then
                  && ret == 0 && v.state == out.state
                  && v.buf == (if job.opcode == 1 then out.tdo else job.tdi[..bytes]) + job.before.buf[bytes..]
                else
                  && ret == 1 && job.delays(first + w) >= 100 && 4 * w <= bytes
                  && v.buf == out.tdo[..4 * w] + job.before.buf[4 * w..])
  {
    WordSizesAt(job.length, words, 0);
    w := job.Completes();
    var target :| target == job.Target() && ServedTo(job, target, ret, v);
    assert bytes == ByteCount(job.length);
  }

  /** `total` is `out`, then what shifting the remaining words gives. */
  ghost predicate Follows<S>(total: Shifted<S>, out: seq<byte>, br: Bridge<S>, s: S, bits: nat,
                             tms: seq<byte>, tdi: seq<byte>)
  {
    && |tms| >= ByteCount(bits) && |tdi| >= ByteCount(bits)
    && exists r :: r == ShiftWords(br, s, bits, tms, tdi) && total == Shifted(r.state, out + r.tdo)
  }

  lemma FollowsNext<S>(total: Shifted<S>, out: seq<byte>, br: Bridge<S>, s: S, bits: nat,
                       tms: seq<byte>, tdi: seq<byte>, n: nat, k: nat, left: nat, one: Shot<S>)
    requires Follows(total, out, br, s, bits, tms, tdi) && bits > 0 && n == Min(32, bits)
    requires k == ByteCount(n) && left == bits - n && k <= |tms| && k <= |tdi|
    requires one == ShiftWord(br, s, n, GetLe(tms[..k]), GetLe(tdi[..k]))
    ensures Follows(total, out + PutLe(one.word, k), br, one.state, left, tms[k..], tdi[k..])
  {
    var rest := ShiftWords(br, one.state, left, tms[k..], tdi[k..]);
    Regroup(out, PutLe(one.word, k), rest.tdo);
  }

  /** The shifts so far: each had its own length, and none timed out. */
  ghost predicate Counted<S>(job: Job<S>, starts: seq<u32>, bit: nat) {
    bit <= job.length && exists sizes: seq<u32> :: CountedBy(job, starts, bit, sizes)
  }

  predicate CountedBy<S>(job: Job<S>, starts: seq<u32>, bit: nat, sizes: seq<u32>)
    requires bit <= job.length
  {
    && (bit == job.length || bit == 32 * |sizes|)
    && starts == job.before.starts + sizes && job.Sizes() == sizes + WordSizes(job.length - bit)
    && job.Completes() >= |sizes|
  }

  /** The bytes so far, and the chain: the rest of the target is still ahead. */
  ghost predicate Written<S>(job: Job<S>, state: S, buf: seq<byte>, left: nat, at: nat)
    requires job.Valid()
  {
    && at <= |buf| == |job.before.buf| && at <= |job.tms| && at <= |job.tdi| && buf[at..] == job.before.buf[at..]
    && Follows(job.Target(), buf[..at], job.bridge, state, left, job.tms[at..], job.tdi[at..])
  }

  /** The splitter stands in view `v` after `bit` bits. */
  ghost predicate Stands<S>(job: Job<S>, v: View<S>, bit: nat) {
    exists left: nat, at: nat ::
      && job.Valid() && Counted(job, v.starts, bit) && left == job.length - bit && at == ByteCount(bit)
      && Written(job, v.state, v.buf, left, at)
  }

  lemma StartsCounted<S>(job: Job<S>)
    ensures Counted(job, job.before.starts, 0)
  {
    var sizes: seq<u32> := [];
    assert job.before.starts + sizes == job.before.starts && sizes + job.Sizes() == job.Sizes();
    assert CountedBy(job, job.before.starts, 0, sizes);
  }

  lemma StartsStanding<S>(job: Job<S>)
    requires job.Valid()
    ensures Stands(job, job.before, 0)
  {
    StartsCounted(job);
    assert job.tms[0..] == job.tms && job.tdi[0..] == job.tdi;
    assert [] + job.Target().tdo == job.Target().tdo;
    assert Written(job, job.before.state, job.before.buf, job.length, 0);
  }

  lemma Aligned(bit: nat, n: nat)
    requires bit % 32 == 0
    ensures ByteCount(bit) == bit / 8 && ByteCount(bit + n) == bit / 8 + ByteCount(n)
  {
    var q := bit / 32;
    assert bit == 8 * (4 * q);
    EightTimes(4 * q, n + 7);
    EightTimes(4 * q, 7);
  }

  lemma EightTimes(a: nat, b: nat)
    ensures (8 * a + b) / 8 == a + b / 8
  {
  }

  lemma FitsHere(bit: nat, n: nat, length: nat)
    requires bit % 32 == 0 && bit < length && n == Min(32, length - bit)
    ensures 8 * (bit / 8) == bit && ByteCount(bit) == bit / 8
    ensures bit / 8 + ByteCount(n) <= ByteCount(length)
  {
    Aligned(bit, n);
  }

  lemma AlignedTo(bit: nat, n: nat, to: nat, at: nat, here: nat)
    requires bit % 32 == 0 && to == bit + n && at == ByteCount(bit) && here == at + ByteCount(n)
    ensures here == ByteCount(to)
  {
    Aligned(bit, n);
  }

  lemma SizesNext(sizes: seq<u32>, bits: nat, n: u32, rest: nat)
    requires bits > 0 && n == Min(32, bits) && rest == bits - n
    ensures sizes + WordSizes(bits) == (sizes + [n]) + WordSizes(rest)
  {
    assert sizes + ([n] + WordSizes(rest)) == (sizes + [n]) + WordSizes(rest);
  }

  /** The `words`-th shift is about to start. */
  lemma CountedHere<S>(job: Job<S>, starts: seq<u32>, bit: nat, sizes: seq<u32>, n: u32, left: nat)
    requires bit < job.length && CountedBy(job, starts, bit, sizes)
    requires n == Min(32, job.length - bit) && left == job.length - bit - n
    ensures |starts| == |job.before.starts| + |sizes| && bit == 32 * |sizes| && |sizes| < |job.Sizes()|
    ensures starts + [n] == job.before.starts + (sizes + [n])
    ensures job.Sizes() == (sizes + [n]) + WordSizes(left)
    ensures if job.delays(|starts|) < POLLS then job.Completes() >= |sizes| + 1 else job.Completes() == |sizes|
  {
    SizesNext(sizes, job.length - bit, n, left);
    Regroup(job.before.starts, sizes, [n]);
    CompletedNext(job.delays, |job.before.starts|, |sizes|, |job.Sizes()|, |starts|);
  }

  lemma WordsNext(bit: nat, n: nat, to: nat, words: nat, length: nat)
    requires bit == 32 * words && bit < length && n == Min(32, length - bit) && to == bit + n
    ensures to == length || to == 32 * (words + 1)
  {
  }

  lemma CountedNext<S>(job: Job<S>, starts: seq<u32>, bit: nat, n: u32, to: nat)
    requires Counted(job, starts, bit) && bit < job.length && n == Min(32, job.length - bit) && to == bit + n
    requires job.delays(|starts|) < POLLS
    ensures Counted(job, starts + [n], to)
  {
    var sizes: seq<u32> :| CountedBy(job, starts, bit, sizes);
    CountedHere(job, starts, bit, sizes, n, job.length - to);
    WordsNext(bit, n, to, |sizes|, job.length);
    assert CountedBy(job, starts + [n], to, sizes + [n]);
  }

  lemma Slices(b: seq<byte>, at: nat, k: nat)
    requires at + k <= |b|
    ensures b[at..][..k] == b[at..at + k] && b[at..][k..] == b[at + k..]
  {
  }

  lemma TailKeeps(buf: seq<byte>, before: seq<byte>, at: nat, k: nat, here: nat)
    requires |buf| == |before| && here == at + k <= |buf| && buf[at..] == before[at..]
    ensures buf[here..] == before[here..]
  {
    Slices(buf, at, k);
    Slices(before, at, k);
  }

  lemma SpliceAt(b: seq<byte>, at: nat, mid: seq<byte>, here: nat)
    requires here == at + |mid| <= |b|
    ensures Splice(b, at, mid)[..here] == b[..at] + mid && Splice(b, at, mid)[here..] == b[here..]
  {
  }

  lemma FollowsTurn<S>(total: Shifted<S>, br: Bridge<S>, tms: seq<byte>, tdi: seq<byte>, v: View<S>,
                       bits: nat, at: nat, n: u32, next: View<S>, k: nat, left: nat, here: nat)
    requires bits > 0 && n == Min(32, bits) && k == ByteCount(n) && left == bits - n && here == at + k
    requires here <= Min(|v.buf|, Min(|tms|, |tdi|))
    requires Follows(total, v.buf[..at], br, v.state, bits, tms[at..], tdi[at..])
    requires next == Turned(br, tms, tdi, v, at, n)
    ensures |next.buf| == |v.buf| && next.buf[here..] == v.buf[here..]
    ensures Follows(total, next.buf[..here], br, next.state, left, tms[here..], tdi[here..])
  {
    Slices(tms, at, k);
    Slices(tdi, at, k);
    var one := ShiftWord(br, v.state, n, GetLe(tms[at..at + k]), GetLe(tdi[at..at + k]));
    FollowsNext(total, v.buf[..at], br, v.state, bits, tms[at..], tdi[at..], n, k, left, one);
    TurnedIs(br, tms, tdi, v, at, n, k, one);
    SpliceAt(v.buf, at, PutLe(one.word, k), here);
  }

  lemma WrittenNext<S>(job: Job<S>, v: View<S>, bits: nat, at: nat, n: u32, next: View<S>, left: nat, here: nat)
    requires job.Valid() && 0 < bits && n == Min(32, bits) && left == bits - n && here == at + ByteCount(n)
    requires here <= |v.buf| && here <= |job.tms| && here <= |job.tdi|
    requires Written(job, v.state, v.buf, bits, at) && next == Turned(job.bridge, job.tms, job.tdi, v, at, n)
    ensures Written(job, next.state, next.buf, left, here)
  {
    FollowsTurn(job.Target(), job.bridge, job.tms, job.tdi, v, bits, at, n, next, ByteCount(n), left, here);
    TailKeeps(v.buf, job.before.buf, at, ByteCount(n), here);
  }

  lemma CountedAligned<S>(job: Job<S>, starts: seq<u32>, bit: nat)
    requires Counted(job, starts, bit) && bit < job.length
    ensures bit % 32 == 0
  {
    var sizes: seq<u32> :| CountedBy(job, starts, bit, sizes);
    WholeWords(bit, |sizes|);
  }

  lemma WholeWords(bit: nat, words: nat)
    requires bit == 32 * words
    ensures bit % 32 == 0
  {
  }

  lemma SplitAt(b: seq<byte>, at: nat)
    requires at <= |b|
    ensures b == b[..at] + b[at..]
  {
  }

  lemma StandingAligned<S>(job: Job<S>, v: View<S>, bit: nat)
    requires Stands(job, v, bit) && bit < job.length
    ensures bit % 32 == 0 && 8 * (bit / 8) == bit && ByteCount(bit) == bit / 8
    ensures bit / 8 + ByteCount(Min(32, job.length - bit)) <= Min(|v.buf|, Min(|job.tms|, |job.tdi|))
  {
    var left: nat, at: nat :|
      && job.Valid() && Counted(job, v.starts, bit) && left == job.length - bit && at == ByteCount(bit)
      && Written(job, v.state, v.buf, left, at);
    CountedAligned(job, v.starts, bit);
    FitsHere(bit, Min(32, job.length - bit), job.length);
  }

  /** A turn that completes takes the splitter on. */
  lemma StandsNext<S>(job: Job<S>, v: View<S>, bit: nat, n: u32, next: View<S>, to: nat)
    requires Stands(job, v, bit) && bit < job.length && n == Min(32, job.length - bit) && to == bit + n
    requires job.delays(|v.starts|) < POLLS
    requires bit / 8 + ByteCount(n) <= Min(|v.buf|, Min(|job.tms|, |job.tdi|))
    requires next == Turned(job.bridge, job.tms, job.tdi, v, bit / 8, n)
    ensures Stands(job, next, to)
  {
    var left: nat, at: nat :|
      && job.Valid() && Counted(job, v.starts, bit) && left == job.length - bit && at == ByteCount(bit)
      && Written(job, v.state, v.buf, left, at);
    StandingAligned(job, v, bit);
    CountedNext(job, v.starts, bit, n, to);
    var here := at + ByteCount(n);
    AlignedTo(bit, n, to, at, here);
    WrittenNext(job, v, left, at, n, next, left - n, here);
  }

  /** The target's first bytes are what was written. */
  lemma WrittenPrefix<S>(job: Job<S>, state: S, buf: seq<byte>, left: nat, at: nat)
    requires job.Valid() && Written(job, state, buf, left, at)
    ensures at <= |job.Target().tdo| && job.Target().tdo[..at] == buf[..at]
    ensures left == 0 ==> state == job.Target().state && job.Target().tdo == buf[..at]
  {
  }

  lemma AllCounted<S>(job: Job<S>, starts: seq<u32>)
    requires Counted(job, starts, job.length)
    ensures starts == job.before.starts + job.Sizes() && job.Completes() == |job.Sizes()|
  {
    var sizes: seq<u32> :| CountedBy(job, starts, job.length, sizes);
    assert sizes + [] == sizes;
  }

  /** All words were shifted. */
  lemma EndServed<S>(job: Job<S>, v: View<S>, final: seq<byte>)
    requires Stands(job, v, job.length)
    requires ByteCount(job.length) <= |job.tdi| && ByteCount(job.length) <= |v.buf|
    requires final == if job.opcode == 1 then v.buf
                      else job.tdi[..ByteCount(job.length)] + v.buf[ByteCount(job.length)..]
    ensures job.Valid() && Served(job, 0, v.(buf := final))
  {
    var left: nat, at: nat :|
      && job.Valid() && Counted(job, v.starts, job.length) && left == 0 && at == ByteCount(job.length)
      && Written(job, v.state, v.buf, left, at);
    WrittenPrefix(job, v.state, v.buf, left, at);
    SplitAt(v.buf, at);
    AllCounted(job, v.starts);
    assert ServedTo(job, job.Target(), 0, v.(buf := final));
  }

  lemma CountedTimeout<S>(job: Job<S>, starts: seq<u32>, bit: nat, n: u32, left: nat)
    requires Counted(job, starts, bit) && bit < job.length
    requires n == Min(32, job.length - bit) && left == job.length - bit - n
    requires job.delays(|starts|) >= POLLS
    ensures job.Completes() < |job.Sizes()| && bit == 32 * job.Completes()
    ensures starts + [n] == job.before.starts + job.Sizes()[..job.Completes() + 1]
  {
    var sizes: seq<u32> :| CountedBy(job, starts, bit, sizes);
    CountedHere(job, starts, bit, sizes, n, left);
    PrefixOf(sizes + [n], WordSizes(left), job.Sizes(), |sizes| + 1);
  }

  lemma PrefixOf<T>(a: seq<T>, b: seq<T>, s: seq<T>, n: nat)
    requires s == a + b && n == |a|
    ensures n <= |s| && s[..n] == a
  {
  }

  /** The next word timed out. */
  lemma TimeoutServed<S>(job: Job<S>, v: View<S>, bit: nat, n: u32, state: S)
    requires Stands(job, v, bit) && bit < job.length && n == Min(32, job.length - bit)
    requires job.delays(|v.starts|) >= POLLS
    ensures job.Valid() && Served(job, 1, View(state, v.starts + [n], v.buf))
  {
    var left: nat, at: nat :|
      && job.Valid() && Counted(job, v.starts, bit) && left == job.length - bit && at == ByteCount(bit)
      && Written(job, v.state, v.buf, left, at);
    WrittenPrefix(job, v.state, v.buf, left, at);
    CountedTimeout(job, v.starts, bit, n, job.length - bit - n);
    SplitAt(v.buf, at);
    assert ServedTo(job, job.Target(), 1, View(state, v.starts + [n], v.buf));
  }

  ghost function JobOf<S>(dev: Registers<S>, req: Request): Job<S>
    reads dev, req.tmsBuf, req.tdiBuf, req.tdoBuf
  {
    Job(dev.bridge, dev.delays, req.opcode, req.length, req.tmsBuf[..], req.tdiBuf[..], ViewOf(dev, req))
  }

  ghost predicate IsJob<S>(job: Job<S>, dev: Registers<S>, req: Request)
    reads req.tmsBuf, req.tdiBuf
  {
    && job.bridge == dev.bridge && job.delays == dev.delays && job.length == req.length
    && job.tms == req.tmsBuf[..] && job.tdi == req.tdiBuf[..]
  }

  /** After a turn that returned `ret`: the splitter stands further on, or the request is over. */
  ghost predicate TurnOk<S>(job: Job<S>, ret: nat, v: View<S>, bit: nat) {
    if ret == 0 then Stands(job, v, bit) else ret == 1 && job.Valid() && Served(job, 1, v)
  }

  lemma Turn<S>(job: Job<S>, v: View<S>, bit: nat, n: u32, ret: nat, w: View<S>, next: nat)
    requires next == bit + n
    requires Stands(job, v, bit) && bit < job.length && n == Min(32, job.length - bit)
    requires bit / 8 + ByteCount(n) <= Min(|v.buf|, Min(|job.tms|, |job.tdi|))
    requires ret == if job.delays(|v.starts|) < POLLS then 0 else 1
    requires w == if ret == 0 then Turned(job.bridge, job.tms, job.tdi, v, bit / 8, n)
                  else View(w.state, v.starts + [n], v.buf)
    ensures TurnOk(job, ret, w, next)
  {
    if ret == 0 {
      StandsNext(job, v, bit, n, w, next);
    } else {
      TimeoutServed(job, v, bit, n, w.state);
    }
  }

  /** One turn, with what it means for the request. */
  method ShiftNext<S>(dev: Registers<S>, req: Request, currentBit: nat, ghost job: Job<S>)
    returns (ret: nat, next: nat)
    requires req.Valid() && dev.busy == 0 && IsJob(job, dev, req) && currentBit < req.length
    requires req.length - currentBit >= 32 ==> dev.length == 32
    requires Stands(job, ViewOf(dev, req), currentBit)
    modifies dev`state, dev`length, dev`tms, dev`tdi, dev`tdo, dev`busy, dev`starts, dev`polls, req.tdoBuf
    ensures dev.polls <= old(dev.polls) + POLLS && |dev.starts| == |old(dev.starts)| + 1
    ensures next == currentBit + dev.length && dev.length == Min(32, req.length - currentBit)
    ensures ret == 0 ==> dev.busy == 0
    ensures TurnOk(job, ret, ViewOf(dev, req), next)
  {
    ghost var v := ViewOf(dev, req);
    var n := if req.length - currentBit < 32 then req.length - currentBit else 32;
    var at := currentBit / 8;
    StandingAligned(job, v, currentBit);
    ret := ShiftOne(dev, req, at, n);
    next := currentBit + n;
    Turn(job, v, currentBit, n, ret, ViewOf(dev, req), next);
  }

  /**
   * `xvc_axiioc`.  A wrong opcode changes nothing.  When every shift completes, the chain
   * is where shifting word by word leaves it, and the TDO bytes, or with opcode 2 the TDI
   * bytes, are in the first bytes of `tdoBuf`.  A timeout leaves exactly the bytes of the
   * words before it.  Every shift starts with its own length in the LENGTH register.
   */
  method XvcAxiioc<S>(dev: Registers<S>, req: Request) returns (ret: nat)
    requires req.Valid() && dev.busy == 0
    modifies dev`state, dev`length, dev`tms, dev`tdi, dev`tdo, dev`busy, dev`starts, dev`polls, req.tdoBuf
    ensures req.opcode != 1 && req.opcode != 2 ==>
              ret == 1 && ViewOf(dev, req) == old(ViewOf(dev, req)) && dev.length == old(dev.length)
    ensures req.opcode == 1 || req.opcode == 2 ==> Served(old(JobOf(dev, req)), ret, ViewOf(dev, req))
    ensures (req.opcode == 1 || req.opcode == 2) && ret == 0 ==>
              var out := ShiftWords(dev.bridge, old(dev.state), req.length, old(req.tmsBuf[..]), old(req.tdiBuf[..]));
              && dev.state == out.state
              && req.tdoBuf[..] == (if req.opcode == 1 then out.tdo else old(req.tdiBuf[..(req.length + 7) / 8]))
                                   + old(req.tdoBuf[(req.length + 7) / 8..])
    ensures req.opcode == 1 || req.opcode == 2 ==>
              (ret == 0 <==> forall i :: |old(dev.starts)| <= i < |old(dev.starts)| + (req.length + 31) / 32 ==>
                                           dev.delays(i) < 100)
    ensures ret == 0 ==> dev.busy == 0
    ensures dev.polls <= old(dev.polls) + 100 * (|dev.starts| - |old(dev.starts)|)
  {
    if req.opcode != 1 && req.opcode != 2 {
      return 1;
    }
    ghost var job := JobOf(dev, req);
    ret := ShiftVectors(dev, req, job);
    ghost var w := ServedMeans(job, ret, ViewOf(dev, req), (req.length + 7) / 8, (req.length + 31) / 32);
  }

  /** What follows the check of the opcode. */
  method ShiftVectors<S>(dev: Registers<S>, req: Request, ghost job: Job<S>) returns (ret: nat)
    requires req.Valid() && req.opcode in {1, 2} && dev.busy == 0 && job == JobOf(dev, req) && job.Valid()
    modifies dev`state, dev`length, dev`tms, dev`tdi, dev`tdo, dev`busy, dev`starts, dev`polls, req.tdoBuf
    ensures Served(job, ret, ViewOf(dev, req))
    ensures ret == 0 ==> dev.busy == 0
    ensures dev.polls <= old(dev.polls) + 100 * (|dev.starts| - |old(dev.starts)|)
  {
    var numBits, numBytes, bypass := req.length, (req.length + 7) / 8, req.opcode == 2;
    if numBits >= 32 {
      dev.WriteLength(32);
    }
    var currentBit: nat := 0;
    ret := 0;
    StartsStanding(job);
    while currentBit < numBits
      invariant currentBit <= numBits && dev.busy == 0 && ret == 0
      invariant numBits - currentBit >= 32 ==> dev.length == 32
      invariant Stands(job, ViewOf(dev, req), currentBit)
      invariant dev.polls - POLLS * |dev.starts| <= old(dev.polls) - POLLS * |old(dev.starts)|
    {
      ret, currentBit := ShiftNext(dev, req, currentBit, job);
      if ret != 0 {
        return;
      }
    }
    ghost var v := ViewOf(dev, req);
    if bypass {
      CopyBytes(req.tdoBuf, req.tdiBuf, numBytes);
    }
    EndServed(job, v, req.tdoBuf[..]);
  }

  /** `memcpy` of the first bytes of one buffer over those of another. */
  method CopyBytes(to: array<byte>, from: array<byte>, n: nat)
    requires to != from && n <= to.Length && n <= from.Length
    modifies to
    ensures to[..] == from[..n] + old(to[n..])
  {
    forall i | 0 <= i < n {
      to[i] := from[i];
    }
  }
}
