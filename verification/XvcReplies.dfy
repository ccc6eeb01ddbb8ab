/**
 * The reply buffer as it is: of fixed size, never cleared, written by the handlers
 * themselves. Which batches stay inside it, and when its contents are the replies of
 * `XvcSession`.
 */
module XvcReplies {
  import opened Bytes
  import opened LittleEndian
  import opened XvcProtocol
  import opened XvcSession
  import opened XvcCuts

  const REPLY_MAX: nat := 16384

  // ---- Writing to the buffer ----------------------------------------------

  /** `b` after `w` was written at `at`; bytes behind its end are not part of the model. */
  function Store(b: seq<byte>, at: nat, w: seq<byte>): (r: seq<byte>)
    ensures |r| == |b|
    ensures at + |w| <= |b| ==> r == b[..at] + w + b[at + |w|..]
  {
    seq(|b|, i requires 0 <= i < |b| => if at <= i < at + |w| then w[i - at] else b[i])
  }

  /** The device, the buffer, `reply_len`, and one past the last byte that was written, inside or not. */
  datatype Replies<D> = Replies(dev: D, buf: seq<byte>, len: nat, high: nat)

  /** What a command writes at `reply_len`; getinfo writes a terminating NUL as well. */
  function WrittenFor<D>(h: Handlers<D>, dev: D, c: Command): Done<D> {
    match c
    case GetInfo => Done(dev, InfoReply() + [0])
    case SetTck(period) => Done(dev, PutLe(h.setTck(period), 4))
    case Shift(bits, tms, tdi) =>
      var r := h.shift(dev, bits, tms, tdi);
      Done(r.0, r.1)
  }

  function ReplyLen(c: Command): nat {
    match c
    case GetInfo => 21
    case SetTck(_) => 4
    case Shift(bits, _, _) => ShiftBytes(bits)
  }

  function Larger(a: nat, b: nat): nat { if a < b then b else a }

  /** One command: its bytes are written, and `reply_len` goes on by what the server set aside. */
  function Respond<D>(h: Handlers<D>, r: Replies<D>, c: Command): Replies<D> {
    var w := WrittenFor(h, r.dev, c);
    Replies(w.dev, Store(r.buf, r.len, w.sent), r.len + ReplyLen(c), Larger(r.high, r.len + |w.sent|))
  }

  function RespondAll<D>(h: Handlers<D>, r: Replies<D>, cmds: seq<Command>): Replies<D>
    decreases |cmds|
  {
    if cmds == [] then r else RespondAll(h, Respond(h, r, cmds[0]), cmds[1..])
  }

  lemma {:induction false} RespondNext<D>(h: Handlers<D>, r: Replies<D>, done: seq<Command>, c: Command)
    ensures RespondAll(h, r, done + [c]) == Respond(h, RespondAll(h, r, done), c)
    decreases |done|
  {
    if done == [] {
      assert done + [c] == [c] && [c][1..] == [];
    } else {
      assert (done + [c])[1..] == done[1..] + [c];
      RespondNext(h, Respond(h, r, done[0]), done[1..], c);
    }
  }

  function ReplyLens(cmds: seq<Command>): nat {
    if cmds == [] then 0 else ReplyLen(cmds[0]) + ReplyLens(cmds[1..])
  }

  lemma {:induction false} RespondKeeps<D>(h: Handlers<D>, r: Replies<D>, cmds: seq<Command>)
    ensures var x := RespondAll(h, r, cmds);
            && x.dev == ExecuteAll(h, r.dev, cmds).dev && |x.buf| == |r.buf|
            && x.len == r.len + ReplyLens(cmds) && x.high >= r.high
    decreases |cmds|
  {
    if cmds != [] {
      RespondKeeps(h, Respond(h, r, cmds[0]), cmds[1..]);
    }
  }

  /** The replies to a list of commands are as long as the sum over them, whatever the handlers write. */
  lemma {:induction false} ReplyLength<D>(h: Handlers<D>, dev: D, cmds: seq<Command>)
    ensures |ExecuteAll(h, dev, cmds).sent| == ReplyLens(cmds)
  {
    if cmds != [] {
      InfoReplyLength();
      ReplyLength(h, Execute(h, dev, cmds[0]).dev, cmds[1..]);
    }
  }

  // ---- When the buffer holds the replies ----------------------------------

  /** A shift that writes all the bytes of its reply. */
  predicate Completes<D>(h: Handlers<D>, dev: D, c: Command) {
    |WrittenFor(h, dev, c).sent| >= ReplyLen(c)
  }

  predicate AllComplete<D>(h: Handlers<D>, dev: D, cmds: seq<Command>) {
    cmds == [] || (Completes(h, dev, cmds[0]) && AllComplete(h, Execute(h, dev, cmds[0]).dev, cmds[1..]))
  }

  lemma CompleteReply<D>(h: Handlers<D>, dev: D, c: Command)
    requires Completes(h, dev, c)
    ensures WrittenFor(h, dev, c).sent[..ReplyLen(c)] == Execute(h, dev, c).sent
    ensures WrittenFor(h, dev, c).dev == Execute(h, dev, c).dev
  {
    InfoReplyLength();
  }

  lemma StoreFront(b: seq<byte>, at: nat, w: seq<byte>, n: nat)
    requires n <= |w| && at + |w| <= |b|
    ensures Store(b, at, w)[..at + n] == b[..at] + w[..n]
  {
  }

  lemma OneAlike<D>(h: Handlers<D>, r: Replies<D>, c: Command)
    requires Completes(h, r.dev, c) && Respond(h, r, c).high <= |r.buf|
    ensures var x := Respond(h, r, c);
            && r.len <= x.len <= |x.buf| && x.dev == Execute(h, r.dev, c).dev
            && x.buf[..x.len] == r.buf[..r.len] + Execute(h, r.dev, c).sent
  {
    CompleteReply(h, r.dev, c);
    StoreFront(r.buf, r.len, WrittenFor(h, r.dev, c).sent, ReplyLen(c));
  }

  /** Commands that complete inside the buffer leave their replies there, behind the earlier ones. */
  lemma {:induction false} RespondsAlike<D>(h: Handlers<D>, r: Replies<D>, cmds: seq<Command>)
    requires AllComplete(h, r.dev, cmds) && r.len <= |r.buf| && RespondAll(h, r, cmds).high <= |r.buf|
    ensures var x := RespondAll(h, r, cmds);
            x.len <= |x.buf| && x.buf[..x.len] == r.buf[..r.len] + ExecuteAll(h, r.dev, cmds).sent
    decreases |cmds|
  {
    if cmds == [] {
      assert r.buf[..r.len] + [] == r.buf[..r.len];
    } else {
      var c, next := cmds[0], Respond(h, r, cmds[0]);
      RespondKeeps(h, next, cmds[1..]);
      OneAlike(h, r, c);
      RespondsAlike(h, next, cmds[1..]);
      Regroup(r.buf[..r.len], Execute(h, r.dev, c).sent, ExecuteAll(h, next.dev, cmds[1..]).sent);
    }
  }

  // ---- Which batches stay inside the buffer -------------------------------

  function Infos(cmds: seq<Command>): nat {
    if cmds == [] then 0 else (if cmds[0].GetInfo? then 1 else 0) + Infos(cmds[1..])
  }

  /** The bytes that a command writes when no poll times out; for a shift, one for every eight bits begun. */
  function WriteLen(c: Command): nat {
    match c
    case GetInfo => 22
    case SetTck(_) => 4
    case Shift(bits, _, _) => (bits + 7) / 8
  }

  /** Handlers that write so much, and handlers that write at most so much. */
  ghost predicate WritesAll<D(!new)>(h: Handlers<D>) {
    forall dev: D, c: Command :: c.Shift? ==> |WrittenFor(h, dev, c).sent| == WriteLen(c)
  }

  ghost predicate WritesAtMost<D(!new)>(h: Handlers<D>) {
    forall dev: D, c: Command :: c.Shift? ==> |WrittenFor(h, dev, c).sent| <= WriteLen(c)
  }

  /** One past the last byte that commands write from `at` on, the mark so far being `high`. */
  function HighWater(cmds: seq<Command>, at: nat, high: nat): nat
    decreases |cmds|
  {
    if cmds == [] then high
    else HighWater(cmds[1..], at + ReplyLen(cmds[0]), Larger(high, at + WriteLen(cmds[0])))
  }

  lemma {:induction false} HighIs<D(!new)>(h: Handlers<D>, r: Replies<D>, cmds: seq<Command>)
    requires WritesAll(h)
    ensures RespondAll(h, r, cmds).high == HighWater(cmds, r.len, r.high)
    decreases |cmds|
  {
    if cmds != [] {
      InfoReplyLength();
      HighIs(h, Respond(h, r, cmds[0]), cmds[1..]);
    }
  }

  lemma {:induction false} HighIsAtMost<D(!new)>(h: Handlers<D>, r: Replies<D>, cmds: seq<Command>, high: nat)
    requires WritesAtMost(h) && r.high <= high
    ensures RespondAll(h, r, cmds).high <= HighWater(cmds, r.len, high)
    decreases |cmds|
  {
    if cmds != [] {
      InfoReplyLength();
      HighIsAtMost(h, Respond(h, r, cmds[0]), cmds[1..], Larger(high, r.len + WriteLen(cmds[0])));
    }
  }

  predicate AllExact(cmds: seq<Command>) { forall c :: c in cmds ==> Exact(c) }

  /** Shifts whose byte count does not wrap write their replies and no more. */
  lemma {:induction false} HighWaterBound(cmds: seq<Command>, at: nat, high: nat)
    requires AllExact(cmds)
    ensures HighWater(cmds, at, high) <= Larger(high, at + ReplyLens(cmds) + 1)
    ensures cmds != [] ==> at + ReplyLens(cmds) <= HighWater(cmds, at, high)
    decreases |cmds|
  {
    if cmds != [] {
      assert Exact(cmds[0]);
      HighWaterBound(cmds[1..], at + ReplyLen(cmds[0]), Larger(high, at + WriteLen(cmds[0])));
      HighWaterAtLeast(cmds[1..], at + ReplyLen(cmds[0]), Larger(high, at + WriteLen(cmds[0])));
    }
  }

  lemma {:induction false} HighWaterAtLeast(cmds: seq<Command>, at: nat, high: nat)
    ensures high <= HighWater(cmds, at, high)
    decreases |cmds|
  {
    if cmds != [] {
      HighWaterAtLeast(cmds[1..], at + ReplyLen(cmds[0]), Larger(high, at + WriteLen(cmds[0])));
    }
  }

  /** A single shift whose byte count wraps writes far behind any buffer of this size. */
  lemma {:induction false} HighWaterWrapped(cmds: seq<Command>, at: nat, high: nat, c: Command)
    requires c in cmds && !Exact(c)
    ensures HighWater(cmds, at, high) > REPLY_MAX
    decreases |cmds|
  {
    var to, mark := at + ReplyLen(cmds[0]), Larger(high, at + WriteLen(cmds[0]));
    if cmds[0] == c {
      HighWaterAtLeast(cmds[1..], to, mark);
    } else {
      HighWaterWrapped(cmds[1..], to, mark, c);
    }
  }

  /** A batch's replies against its bytes and the getinfo commands in it. */
  lemma {:induction false} ReplyBound(cmds: seq<Command>)
    requires forall c :: c in cmds ==> Encodable(c)
    ensures ReplyLens(cmds) <= |EncodeAll(cmds)| + 13 * Infos(cmds)
    ensures 2 * ReplyLens(cmds) <= |EncodeAll(cmds)| + 34 * Infos(cmds)
  {
    if cmds != [] {
      assert Encodable(cmds[0]);
      ReplyBound(cmds[1..]);
    }
  }

  /** Commands that can be in the receive buffer at once. */
  predicate OneBuffer(cmds: seq<Command>) {
    (forall c :: c in cmds ==> Encodable(c)) && |EncodeAll(cmds)| <= MAX_PACKET_LEN
  }

  /** The largest number of getinfo commands with which every batch of exact shifts fits. */
  const SAFE_INFOS: nat := 669

  /** With up to 669 getinfo commands, a batch stays inside the reply buffer if and only if no byte count wraps. */
  lemma FitsExactly(cmds: seq<Command>)
    requires OneBuffer(cmds) && Infos(cmds) <= SAFE_INFOS
    ensures HighWater(cmds, 0, 0) <= REPLY_MAX <==> AllExact(cmds)
  {
    if AllExact(cmds) {
      ReplyBound(cmds);
      HighWaterBound(cmds, 0, 0);
    } else {
      var c :| c in cmds && !Exact(c);
      HighWaterWrapped(cmds, 0, 0, c);
    }
  }

  function InfosThenShift(g: nat, c: Command): seq<Command> {
    if g == 0 then [c] else [GetInfo] + InfosThenShift(g - 1, c)
  }

  lemma {:induction false} InfosThenShiftSize(g: nat, c: Command)
    requires c.Shift? && Encodable(c) && Exact(c)
    ensures var cmds := InfosThenShift(g, c);
            && Infos(cmds) == g && |EncodeAll(cmds)| == 8 * g + |Encode(c)|
            && ReplyLens(cmds) == 21 * g + ReplyLen(c)
            && (forall x :: x in cmds ==> Encodable(x)) && AllExact(cmds)
  {
    if g > 0 {
      InfosThenShiftSize(g - 1, c);
    }
  }

  /** All batches of exact shifts with at most `g` getinfo commands fit if and only if g <= 669. */
  lemma RepliesFit(g: nat)
    ensures (forall cmds ::
               OneBuffer(cmds) && AllExact(cmds) && Infos(cmds) <= g ==> HighWater(cmds, 0, 0) <= REPLY_MAX)
            <==> g <= SAFE_INFOS
  {
    forall cmds | OneBuffer(cmds) && AllExact(cmds) && Infos(cmds) <= SAFE_INFOS
      ensures HighWater(cmds, 0, 0) <= REPLY_MAX
    {
      FitsExactly(cmds);
    }
    var zeros := seq(2315, _ => 0);
    var c := Shift(8 * 2315, zeros, zeros);
    var cmds := InfosThenShift(SAFE_INFOS + 1, c);
    InfosThenShiftSize(SAFE_INFOS + 1, c);
    HighWaterBound(cmds, 0, 0);
    assert OneBuffer(cmds) && Infos(cmds) == SAFE_INFOS + 1 && HighWater(cmds, 0, 0) > REPLY_MAX;
  }

  lemma ParseEncoded1(c: Command)
    requires Encodable(c)
    ensures ParseAll(Encode(c)) == Outcome([c], [], More)
  {
    assert EncodeAll([c]) == Encode(c) + [] == Encode(c);
    RoundTrip([c], []);
    assert Encode(c) + [] == Encode(c);
  }

  /** Ten bytes are enough: a shift of 0xFFFFFFF9 bits, for which the server sets no byte aside. */
  lemma WrappedShift()
    ensures var c := Shift(0xFFFF_FFF9, [], []);
            && |Encode(c)| == 10 && ParseAll(Encode(c)) == Outcome([c], [], More)
            && OneBuffer([c]) && ReplyLens([c]) == 0 && HighWater([c], 0, 0) > REPLY_MAX
  {
    var c := Shift(0xFFFF_FFF9, [], []);
    assert [c][1..] == [];
    assert EncodeAll([c]) == Encode(c) + [] == Encode(c);
    ParseEncoded1(c);
    HighWaterWrapped([c], 0, 0, c);
  }

  /** The same for what a batch really writes. */
  lemma BatchFitsExactly<D(!new)>(h: Handlers<D>, r: Replies<D>, s: seq<byte>)
    requires WritesAll(h) && r.len == 0 && r.high == 0
    requires |s| <= MAX_PACKET_LEN && Infos(ParseAll(s).cmds) <= SAFE_INFOS
    ensures RespondAll(h, r, ParseAll(s).cmds).high <= REPLY_MAX <==> AllExact(ParseAll(s).cmds)
  {
    ParseAllEncode(s);
    ParsedEncodable(s);
    HighIs(h, r, ParseAll(s).cmds);
    FitsExactly(ParseAll(s).cmds);
  }

  /** Handlers that may stop early stay inside it as well. */
  lemma BatchFits<D(!new)>(h: Handlers<D>, r: Replies<D>, s: seq<byte>)
    requires WritesAtMost(h) && r.len == 0 && r.high == 0
    requires |s| <= MAX_PACKET_LEN && Infos(ParseAll(s).cmds) <= SAFE_INFOS && AllExact(ParseAll(s).cmds)
    ensures RespondAll(h, r, ParseAll(s).cmds).high <= REPLY_MAX
  {
    ParseAllEncode(s);
    ParsedEncodable(s);
    HighIsAtMost(h, r, ParseAll(s).cmds, 0);
    FitsExactly(ParseAll(s).cmds);
  }

  // ---- Sessions with that buffer ------------------------------------------

  /** A session and what the reply buffer holds, which stays from batch to batch. */
  datatype Buffered<D> = Buffered(session: Session<D>, buf: seq<byte>)

  /** The bytes that are sent after a batch. */
  function SentFrom<D>(r: Replies<D>): seq<byte> { r.buf[..Min(r.len, |r.buf|)] }

  /** What a batch does to the buffer. */
  function BatchReplies<D>(h: Handlers<D>, b: Buffered<D>): Replies<D> {
    RespondAll(h, Replies(b.session.dev, b.buf, 0, 0), ParseAll(b.session.rest).cmds)
  }

  function BatchInto<D>(h: Handlers<D>, b: Buffered<D>): Buffered<D> {
    var s, o, r := b.session, ParseAll(b.session.rest), BatchReplies(h, b);
    var sent := if o.end.More? then s.sent + SentFrom(r) else s.sent;
    Buffered(Session(r.dev, o.rest, s.calls + o.cmds, sent, o.end), r.buf)
  }

  function Arriving<D>(b: Buffered<D>, piece: seq<byte>): Buffered<D> {
    b.(session := b.session.(rest := b.session.rest + piece))
  }

  function ReceiveInto<D>(h: Handlers<D>, b: Buffered<D>, piece: seq<byte>): Buffered<D> {
    if b.session.end.More? then BatchInto(h, Arriving(b, piece)) else b
  }

  /** A connection served with a buffer that holds `buf` at first. */
  function ServeInto<D>(h: Handlers<D>, dev: D, buf: seq<byte>, pieces: Pieces): Buffered<D>
    decreases |pieces|
  {
    if pieces == [] then Buffered(Session(dev, [], [], [], More), buf)
    else
      var last := |pieces| - 1;
      ReceiveInto(h, ServeInto(h, dev, buf, pieces[..last]), pieces[last])
  }

  /** Every shift of a batch completes and every byte it writes is inside the buffer. */
  predicate CleanBatch<D>(h: Handlers<D>, b: Buffered<D>) {
    && AllComplete(h, b.session.dev, ParseAll(b.session.rest).cmds)
    && BatchReplies(h, b).high <= |b.buf|
  }

  predicate CleanStep<D>(h: Handlers<D>, b: Buffered<D>, piece: seq<byte>) {
    b.session.end.More? ==> CleanBatch(h, Arriving(b, piece))
  }

  predicate Clean<D>(h: Handlers<D>, dev: D, buf: seq<byte>, pieces: Pieces)
    decreases |pieces|
  {
    pieces == [] ||
    var last := |pieces| - 1;
    Clean(h, dev, buf, pieces[..last]) && CleanStep(h, ServeInto(h, dev, buf, pieces[..last]), pieces[last])
  }

  /** Sessions that differ at most in what was sent. */
  predicate Alike<D(==)>(s: Session<D>, t: Session<D>) {
    s.dev == t.dev && s.rest == t.rest && s.calls == t.calls && s.end == t.end
  }

  lemma BatchAlike<D>(h: Handlers<D>, b: Buffered<D>, s: Session<D>)
    requires Alike(b.session, s)
    ensures Alike(BatchInto(h, b).session, Batch(h, s))
    ensures b.session.sent == s.sent && CleanBatch(h, b) ==> BatchInto(h, b).session == Batch(h, s)
  {
    var r, cmds := Replies(b.session.dev, b.buf, 0, 0), ParseAll(b.session.rest).cmds;
    RespondKeeps(h, r, cmds);
    if CleanBatch(h, b) {
      RespondsAlike(h, r, cmds);
      assert b.buf[..0] + ExecuteAll(h, r.dev, cmds).sent == ExecuteAll(h, r.dev, cmds).sent;
    }
  }

  /**
   * The real buffer never changes handler calls, device, leftover or verdict; and a clean
   * session sends exactly the replies.
   */
  lemma {:induction false} ServedAlike<D>(h: Handlers<D>, dev: D, buf: seq<byte>, pieces: Pieces)
    ensures Alike(ServeInto(h, dev, buf, pieces).session, Serve(h, dev, pieces))
    ensures Clean(h, dev, buf, pieces) ==> ServeInto(h, dev, buf, pieces).session == Serve(h, dev, pieces)
    decreases |pieces|
  {
    if pieces != [] {
      var last := |pieces| - 1;
      ServedAlike(h, dev, buf, pieces[..last]);
      var b, s := ServeInto(h, dev, buf, pieces[..last]), Serve(h, dev, pieces[..last]);
      if s.end.More? {
        BatchAlike(h, Arriving(b, pieces[last]), s.(rest := s.rest + pieces[last]));
      }
    }
  }

  /**
   * Two ways of cutting one stream, with whatever is in the buffer: the same handler calls,
   * device and verdict always; the same bytes sent, up to replies withheld by an error, when
   * both sessions are clean.
   */
  lemma BufferIndependent<D>(h: Handlers<D>, dev: D, buf: seq<byte>, other: seq<byte>, a: Pieces, b: Pieces)
    requires Flatten(a) == Flatten(b)
    ensures var s, t := ServeInto(h, dev, buf, a).session, ServeInto(h, dev, other, b).session;
            && s.dev == t.dev && s.calls == t.calls && s.end == t.end
            && (Clean(h, dev, buf, a) && Clean(h, dev, other, b) ==>
                  && (s.sent <= t.sent || t.sent <= s.sent)
                  && (s.end.More? ==> s == t))
  {
    ServedAlike(h, dev, buf, a);
    ServedAlike(h, dev, other, b);
    SegmentationIndependent(h, dev, a, b);
  }

  // ---- Which sessions are clean -------------------------------------------

  /** Handlers that fill the replies of exact shifts. */
  lemma {:induction false} WritersComplete<D(!new)>(h: Handlers<D>, dev: D, cmds: seq<Command>)
    requires WritesAll(h)
    ensures AllComplete(h, dev, cmds)
  {
    if cmds != [] {
      InfoReplyLength();
      WritersComplete(h, Execute(h, dev, cmds[0]).dev, cmds[1..]);
    }
  }

  lemma {:induction false} InfosAppend(a: seq<Command>, b: seq<Command>)
    ensures Infos(a + b) == Infos(a) + Infos(b)
  {
    if a == [] {
      assert a + b == b;
    } else {
      assert (a + b)[1..] == a[1..] + b;
      InfosAppend(a[1..], b);
    }
  }

  /** A batch of handlers that write what they should. */
  lemma BatchClean<D(!new)>(h: Handlers<D>, b: Buffered<D>)
    requires WritesAll(h) && |b.buf| >= REPLY_MAX && |b.session.rest| <= MAX_PACKET_LEN
    requires AllExact(ParseAll(b.session.rest).cmds) && Infos(ParseAll(b.session.rest).cmds) <= SAFE_INFOS
    ensures CleanBatch(h, b)
  {
    WritersComplete(h, b.session.dev, ParseAll(b.session.rest).cmds);
    BatchFitsExactly(h, Replies(b.session.dev, b.buf, 0, 0), b.session.rest);
  }

  lemma BufferStays<D>(h: Handlers<D>, b: Buffered<D>)
    ensures |BatchInto(h, b).buf| == |b.buf|
  {
    RespondKeeps(h, Replies(b.session.dev, b.buf, 0, 0), ParseAll(b.session.rest).cmds);
  }

  lemma {:induction false} BufferSize<D>(h: Handlers<D>, dev: D, buf: seq<byte>, pieces: Pieces)
    ensures |ServeInto(h, dev, buf, pieces).buf| == |buf|
    decreases |pieces|
  {
    if pieces != [] {
      var last := |pieces| - 1;
      BufferSize(h, dev, buf, pieces[..last]);
      var b := ServeInto(h, dev, buf, pieces[..last]);
      if b.session.end.More? {
        BufferStays(h, Arriving(b, pieces[last]));
      }
    }
  }

  /**
   * Served by handlers that write what they should, a session whose shifts are exact and
   * that has at most 669 getinfo commands is clean, in whatever pieces the buffer let it
   * arrive.
   */
  lemma {:induction false} SessionClean<D(!new)>(h: Handlers<D>, dev: D, buf: seq<byte>, pieces: Pieces)
    requires WritesAll(h) && |buf| >= REPLY_MAX && Receivable(h, dev, pieces)
    requires AllExact(Serve(h, dev, pieces).calls) && Infos(Serve(h, dev, pieces).calls) <= SAFE_INFOS
    ensures Clean(h, dev, buf, pieces)
    decreases |pieces|
  {
    if pieces != [] {
      var last := |pieces| - 1;
      var s := Serve(h, dev, pieces[..last]);
      ServedAlike(h, dev, buf, pieces[..last]);
      BufferSize(h, dev, buf, pieces[..last]);
      LastPiece(h, dev, pieces);
      if s.end.More? {
        var cmds := ParseAll(s.rest + pieces[last]).cmds;
        InfosAppend(s.calls, cmds);
        assert AllExact(cmds) && AllExact(s.calls);
        BatchClean(h, Arriving(ServeInto(h, dev, buf, pieces[..last]), pieces[last]));
      }
      SessionClean(h, dev, buf, pieces[..last]);
    }
  }

  // ---- A shift that does not complete -------------------------------------

  /** Handlers of a device on which every shift times out at once. */
  function TimesOut(): Handlers<int> { Handlers((d, bits, tms, tdi) => (d, []), period => period) }

  lemma OneInto<D>(h: Handlers<D>, dev: D, buf: seq<byte>, piece: seq<byte>)
    ensures ServeInto(h, dev, buf, [piece]) == BatchInto(h, Buffered(Session(dev, piece, [], [], More), buf))
  {
    assert [piece][..0] == [] && [] + piece == piece;
  }

  lemma TwoInto<D>(h: Handlers<D>, dev: D, buf: seq<byte>, a: seq<byte>, b: seq<byte>)
    ensures ServeInto(h, dev, buf, [a, b]) == ReceiveInto(h, ServeInto(h, dev, buf, [a]), b)
  {
    assert [a, b][..1] == [a];
  }

  lemma ParseEncoded2(c: Command, d: Command)
    requires Encodable(c) && Encodable(d)
    ensures ParseAll(Encode(c) + Encode(d)) == Outcome([c, d], [], More)
  {
    assert EncodeAll([c, d]) == Encode(c) + EncodeAll([d]) && EncodeAll([d]) == Encode(d) + [] == Encode(d);
    RoundTrip([c, d], []);
    assert EncodeAll([c, d]) + [] == EncodeAll([c, d]);
  }

  lemma RespondOne<D>(h: Handlers<D>, r: Replies<D>, c: Command)
    ensures RespondAll(h, r, [c]) == Respond(h, r, c)
  {
    assert [c][1..] == [];
  }

  lemma RespondTwo<D>(h: Handlers<D>, r: Replies<D>, c: Command, d: Command)
    ensures RespondAll(h, r, [c, d]) == Respond(h, Respond(h, r, c), d)
  {
    assert [c, d][1..] == [d];
    RespondOne(h, Respond(h, r, c), d);
  }

  const PERIOD: Command := SetTck(65)
  const ONE_BYTE: Command := Shift(8, [0], [0])

  /** The whole stream in one batch: the shift's reply byte is what was behind the settck reply. */
  lemma TimedOutTogether(buf: seq<byte>)
    requires |buf| == REPLY_MAX
    ensures var s := ServeInto(TimesOut(), 0, buf, [Encode(PERIOD) + Encode(ONE_BYTE)]).session;
            |s.sent| == 5 && s.sent[4] == buf[4]
  {
    ParseEncoded2(PERIOD, ONE_BYTE);
    OneInto(TimesOut(), 0, buf, Encode(PERIOD) + Encode(ONE_BYTE));
    RespondTwo(TimesOut(), Replies(0, buf, 0, 0), PERIOD, ONE_BYTE);
  }

  lemma FirstByte()
    ensures PutLe(65, 4)[0] == 65
  {
  }

  /** After the settck alone its reply is at the front of the buffer. */
  lemma AfterPeriod(buf: seq<byte>)
    requires |buf| == REPLY_MAX
    ensures var b := ServeInto(TimesOut(), 0, buf, [Encode(PERIOD)]);
            && b.session.end.More? && b.session.rest == [] && b.session.dev == 0
            && |b.session.sent| == 4 && |b.buf| == REPLY_MAX && b.buf[0] == 65
  {
    ParseEncoded1(PERIOD);
    OneInto(TimesOut(), 0, buf, Encode(PERIOD));
    RespondOne(TimesOut(), Replies(0, buf, 0, 0), PERIOD);
    FirstByte();
  }

  /** A batch of that shift alone sends the byte at the front. */
  lemma ShiftAlone(b: Buffered<int>)
    requires b.session.end.More? && b.session.rest == [] && |b.buf| == REPLY_MAX
    ensures ReceiveInto(TimesOut(), b, Encode(ONE_BYTE)).session.sent == b.session.sent + [b.buf[0]]
  {
    ParseEncoded1(ONE_BYTE);
    assert [] + Encode(ONE_BYTE) == Encode(ONE_BYTE);
    var r := Replies(b.session.dev, b.buf, 0, 0);
    RespondOne(TimesOut(), r, ONE_BYTE);
    assert SentFrom(Respond(TimesOut(), r, ONE_BYTE)) == [b.buf[0]];
  }

  /** In two batches: it is the first byte of the settck reply. */
  lemma TimedOutApart(buf: seq<byte>)
    requires |buf| == REPLY_MAX
    ensures var s := ServeInto(TimesOut(), 0, buf, [Encode(PERIOD), Encode(ONE_BYTE)]).session;
            |s.sent| == 5 && s.sent[4] == 65
  {
    AfterPeriod(buf);
    TwoInto(TimesOut(), 0, buf, Encode(PERIOD), Encode(ONE_BYTE));
    ShiftAlone(ServeInto(TimesOut(), 0, buf, [Encode(PERIOD)]));
  }

  /**
   * Why the shifts have to complete: when one times out, even a well-formed stream is
   * answered differently in one piece and in two.
   */
  lemma TimeoutDependsOnCut(buf: seq<byte>)
    requires |buf| == REPLY_MAX && buf[4] != 65
    ensures ParseAll(Encode(PERIOD) + Encode(ONE_BYTE)) == Outcome([PERIOD, ONE_BYTE], [], More)
    ensures ServeInto(TimesOut(), 0, buf, [Encode(PERIOD) + Encode(ONE_BYTE)]).session.sent !=
            ServeInto(TimesOut(), 0, buf, [Encode(PERIOD), Encode(ONE_BYTE)]).session.sent
  {
    ParseEncoded2(PERIOD, ONE_BYTE);
    TimedOutTogether(buf);
    TimedOutApart(buf);
  }
}
