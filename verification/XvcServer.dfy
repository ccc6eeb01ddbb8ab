/** `read_packet`: the receive buffer, the batch loop and the reply buffer, updated in place. */
module XvcServer {
  import opened Bytes
  import opened LittleEndian
  import opened XvcProtocol
  import opened XvcSession
  import opened XvcCuts
  import opened XvcReplies

  /** The peer's side of a connection: what it will still send, and what it was sent. */
  class Socket {
    var incoming: seq<byte>
    var outgoing: seq<byte>
    /** The pieces `Recv` has returned. */
    ghost var pieces: seq<seq<byte>>

    /** `recv`: any non-empty part of what the peer sends that fits; 0 when there is none. */
    method Recv(buf: array<byte>, at: nat, space: nat) returns (n: nat)
      requires at + space <= buf.Length
      modifies this`incoming, this`pieces, buf
      ensures n <= space && (n == 0 <==> old(incoming) == [] || space == 0)
      ensures n <= |old(incoming)| && incoming == old(incoming)[n..]
      ensures buf[..at] == old(buf[..at]) && buf[at..at + n] == old(incoming)[..n]
      ensures pieces == if n == 0 then old(pieces) else old(pieces) + [old(incoming)[..n]]
    {
      if incoming == [] || space == 0 {
        return 0;
      }
      assert 1 <= space && 1 <= |incoming|;
      n :| 1 <= n <= space && n <= |incoming|;
      forall i | 0 <= i < n {
        buf[at + i] := incoming[i];
      }
      pieces := pieces + [incoming[..n]];
      incoming := incoming[n..];
    }

    /** `send`: all of it is written. */
    method Send(bytes: seq<byte>)
      modifies this`outgoing
      ensures outgoing == old(outgoing) + bytes
    {
      outgoing := outgoing + bytes;
    }
  }

  lemma SubSlice(s: seq<byte>, from: nat, to: nat, i: nat, j: nat)
    requires from <= to <= |s| && i <= j <= to - from
    ensures s[from..to][i..j] == s[from + i..from + j]
  {
    var a, b := s[from..to][i..j], s[from + i..from + j];
    assert |a| == |b| && forall k :: 0 <= k < |a| ==> a[k] == s[from + i + k] == b[k];
  }

  lemma CompleteShift(s: seq<byte>, bits: u32, tms: seq<byte>, tdi: seq<byte>)
    requires 10 + 2 * ShiftBytes(bits) <= |s| <= MAX_PACKET_LEN && bits == GetLe(s[6..10]) % 0x1_0000_0000
    requires tms == s[10..10 + ShiftBytes(bits)]
    requires tdi == s[10 + ShiftBytes(bits)..10 + 2 * ShiftBytes(bits)]
    ensures ParseShift(s) == Got(Shift(bits, tms, tdi), 10 + 2 * ShiftBytes(bits))
  {
  }

  class XvcClient<D(!new)> {
    const handlers: Handlers<D>
    const buf: array<byte>
    var bufLen: nat
    /** The reply buffer, its size, and how much of it the current batch has filled. */
    var replyBuf: array<byte>
    var replyMax: nat
    var replyLen: nat
    var dev: D
    /** What newly allocated memory happens to hold. */
    const stale: nat -> byte
    /** One past the last byte of the reply buffer that the current batch has written, inside or not. */
    ghost var high: nat
    /** The commands executed so far. */
    ghost var calls: seq<Command>

    ghost predicate Valid()
      reads this
    {
      && buf.Length == MAX_PACKET_LEN && bufLen <= MAX_PACKET_LEN
      && replyBuf != buf && replyBuf.Length == replyMax
    }

    ghost function RepliesNow(): Replies<D>
      reads this, replyBuf
    {
      Replies(dev, replyBuf[..], replyLen, high)
    }

    constructor (handlers: Handlers<D>, dev: D, stale: nat -> byte)
      ensures Valid() && fresh(buf) && fresh(replyBuf) && bufLen == 0 && replyMax == 0 && calls == []
      ensures this.handlers == handlers && this.dev == dev && this.stale == stale
    {
      this.handlers, this.dev, this.stale := handlers, dev, stale;
      buf := new byte[MAX_PACKET_LEN](_ => 0);
      replyBuf := new byte[0];
      bufLen, replyMax, replyLen, high, calls := 0, 0, 0, 0, [];
    }

    /** `reply_buf_size`: the size is doubled, from 1, until it suffices, and the buffer is reallocated. */
    method ReplyBufSize(bytes: nat)
      requires Valid() && bytes <= 0x8000_0000
      modifies this`replyMax, this`replyBuf
      ensures Valid() && (replyBuf == old(replyBuf) || fresh(replyBuf))
      ensures replyMax >= bytes && replyMax >= old(replyMax)
      ensures replyBuf[..old(replyMax)] == old(replyBuf[..])
      ensures old(replyMax) >= bytes ==> replyMax == old(replyMax)
      ensures 0 < old(replyMax) < bytes ==> replyMax < 2 * bytes
      ensures old(replyMax) == 0 < bytes ==> replyMax < 2 * bytes && exists k: nat :: replyMax == Pow2(k)
      ensures old(replyMax) == 0 && bytes == MAX_PACKET_LEN ==> replyMax == REPLY_MAX
    {
      if replyMax < bytes {
        DoubleUpTo(bytes);
        var was := replyBuf;
        var next := stale;
        replyBuf := new byte[replyMax](i requires 0 <= i reads was => if i < was.Length then was[i] else next(i));
      }
    }

    method DoubleUpTo(bytes: nat)
      requires replyMax < bytes <= 0x8000_0000
      modifies this`replyMax
      ensures replyMax >= bytes
      ensures 0 < old(replyMax) ==> replyMax < 2 * bytes
      ensures old(replyMax) == 0 ==> replyMax < 2 * bytes && exists k: nat :: replyMax == Pow2(k)
      ensures old(replyMax) == 0 && bytes == MAX_PACKET_LEN ==> replyMax == REPLY_MAX
    {
      if replyMax == 0 {
        replyMax := 1;
      }
      ghost var start: nat, k: nat := replyMax, 0;
      while replyMax < bytes
        invariant replyMax > 0 && (k == 0 ==> replyMax == start) && (k > 0 ==> replyMax < 2 * bytes)
        invariant start == 1 ==> replyMax == Pow2(k)
        decreases bytes - replyMax
      {
        replyMax := replyMax * 2;
        k := k + 1;
      }
      if start == 1 && bytes == MAX_PACKET_LEN {
        PowerFor10000(k);
      }
    }

    /** The scan for a command name and its fields, from `cbuf` on. */
    method NextCommand(cbuf: nat, cend: nat) returns (r: Parsed)
      requires Valid() && cbuf <= cend <= bufLen
      ensures r == ParseOne(buf[cbuf..cend])
    {
      ghost var s := buf[cbuf..cend];
      var p := cbuf;
      var e := if cbuf + SCAN < cend then cbuf + SCAN else cend;
      while p < e && buf[p] != COLON
        invariant cbuf <= p <= e
        invariant FindColon(s, 0) == FindColon(s, p - cbuf)
      {
        p := p + 1;
      }
      if p >= e {
        if p - cbuf >= SCAN {
          return ProtocolError;
        }
        return NeedMore;
      }
      p := p + 1;
      var name := buf[cbuf..p];
      assert name == s[..p - cbuf];
      if name == GETINFO {
        return Got(GetInfo, p - cbuf);
      }
      if name == SHIFT {
        r := ShiftCommand(cbuf, p, cend);
        return;
      }
      if name == SETTCK {
        r := SetTckCommand(cbuf, p, cend);
        return;
      }
      return ProtocolError;
    }

    method SetTckCommand(cbuf: nat, p: nat, cend: nat) returns (r: Parsed)
      requires Valid() && cbuf + 7 == p <= cend <= bufLen
      ensures r == ParseSetTck(buf[cbuf..cend])
    {
      if cend < p + 4 {
        return NeedMore;
      }
      SubSlice(buf[..], cbuf, cend, 7, 11);
      var period := GetUintLe(buf, p, 4);
      r := Got(SetTck(period), p + 4 - cbuf);
    }

    method ShiftCommand(cbuf: nat, p: nat, cend: nat) returns (r: Parsed)
      requires Valid() && cbuf + 6 == p <= cend <= bufLen
      ensures r == ParseShift(buf[cbuf..cend])
    {
      if cend < p + 4 {
        return NeedMore;
      }
      SubSlice(buf[..], cbuf, cend, 6, 10);
      var bits := GetUintLe(buf, p, 4);
      var bytes := ShiftBytes(bits);
      if cend < p + 4 + bytes * 2 {
        if p + 4 + bytes * 2 - cbuf > MAX_PACKET_LEN {
          return Oversize;
        }
        return NeedMore;
      }
      r := ShiftVectors(cbuf, p + 4, cend, bits, bytes);
    }

    /** The two vectors of a shift that is all there. */
    method ShiftVectors(cbuf: nat, data: nat, cend: nat, bits: u32, bytes: nat) returns (r: Parsed)
      requires Valid() && cbuf + 10 == data && data + 2 * bytes <= cend <= bufLen && bytes == ShiftBytes(bits)
      requires bits == GetLe(buf[cbuf..cend][6..10]) % 0x1_0000_0000
      ensures r == ParseShift(buf[cbuf..cend])
    {
      var tms, tdi := buf[data..data + bytes], buf[data + bytes..data + 2 * bytes];
      SubSlice(buf[..], cbuf, cend, 10, 10 + bytes);
      SubSlice(buf[..], cbuf, cend, 10 + bytes, 10 + 2 * bytes);
      CompleteShift(buf[cbuf..cend], bits, tms, tdi);
      r := Got(Shift(bits, tms, tdi), 10 + 2 * bytes);
    }

    /** Bytes written to the reply buffer behind the replies so far; those behind its end are not modelled. */
    method StoreReply(w: seq<byte>)
      modifies replyBuf, this`high
      ensures replyBuf[..] == Store(old(replyBuf[..]), replyLen, w)
      ensures high == Larger(old(high), replyLen + |w|)
    {
      forall i | replyLen <= i < replyLen + |w| && i < replyBuf.Length {
        replyBuf[i] := w[i - replyLen];
      }
      high := Larger(high, replyLen + |w|);
    }

    /** Calls the handler, which writes its reply, and goes on by what was set aside for it. */
    method Perform(c: Command)
      modifies replyBuf, this`replyLen, this`dev, this`high, this`calls
      ensures RepliesNow() == Respond(handlers, old(RepliesNow()), c) && calls == old(calls) + [c]
    {
      match c {
        case GetInfo =>
          StoreReply(InfoReply() + [0]);
          replyLen := replyLen + 21;
        case SetTck(period) =>
          var result := handlers.setTck(period);
          StoreReply(PutLe(result, 4));
          replyLen := replyLen + 4;
        case Shift(bits, tms, tdi) =>
          var r := handlers.shift(dev, bits, tms, tdi);
          dev := r.0;
          StoreReply(r.1);
          replyLen := replyLen + ShiftBytes(bits);
      }
      calls := calls + [c];
    }

    /** The inner loop: commands are executed until the buffer holds no complete one. */
    method RunBatch() returns (cbuf: nat, end: End)
      requires Valid()
      modifies replyBuf, this`replyLen, this`dev, this`high, this`calls
      ensures var o := ParseAll(buf[..bufLen]);
              && cbuf <= bufLen && buf[cbuf..bufLen] == o.rest && end == o.end
              && RepliesNow() == RespondAll(handlers, Replies(old(dev), old(replyBuf[..]), 0, 0), o.cmds)
              && calls == old(calls) + o.cmds
      ensures WritesAll(handlers) && Infos(ParseAll(buf[..bufLen]).cmds) <= SAFE_INFOS ==>
                (high <= REPLY_MAX <==> AllExact(ParseAll(buf[..bufLen]).cmds))
    {
      ghost var all, was := buf[..bufLen], Replies(dev, replyBuf[..], 0, 0);
      cbuf, end := RunCommands();
      WithinExactly(handlers, was, all, high);
    }

    /** The loop. */
    method RunCommands() returns (cbuf: nat, end: End)
      requires Valid()
      modifies replyBuf, this`replyLen, this`dev, this`high, this`calls
      ensures var o := ParseAll(buf[..bufLen]);
              && cbuf <= bufLen && buf[cbuf..bufLen] == o.rest && end == o.end
              && RepliesNow() == RespondAll(handlers, Replies(old(dev), old(replyBuf[..]), 0, 0), o.cmds)
              && calls == old(calls) + o.cmds
    {
      cbuf := 0;
      replyLen, high := 0, 0;
      ghost var done: seq<Command> := [];
      ghost var all, first := buf[..bufLen], RepliesNow();
      NothingYet(all);
      while true
        modifies replyBuf, this`replyLen, this`dev, this`high, this`calls
        invariant cbuf <= bufLen && Progress(all, cbuf, done)
        invariant RepliesNow() == RespondAll(handlers, first, done)
        invariant calls == old(calls) + done
        decreases bufLen - cbuf
      {
        var r := NextCommand(cbuf, bufLen);
        assert buf[cbuf..bufLen] == all[cbuf..];
        if !r.Got? {
          end := if r.NeedMore? then More else if r.ProtocolError? then Error else Abort;
          break;
        }
        var next := cbuf + r.len;
        OneFurther(all, cbuf, done, r.cmd, r.len, next);
        RespondNext(handlers, first, done, r.cmd);
        Regroup(old(calls), done, [r.cmd]);
        Perform(r.cmd);
        done := done + [r.cmd];
        cbuf := next;
      }
      AllParsed(all, cbuf, done);
    }

    /** `consume_packet`: what is left moves to the front. */
    method ConsumePacket(len: nat)
      requires Valid() && len <= bufLen
      modifies this`bufLen, buf
      ensures Valid() && buf[..bufLen] == old(buf[len..bufLen])
    {
      bufLen := bufLen - len;
      forall i | 0 <= i < bufLen {
        buf[i] := buf[len + i];
      }
    }

    ghost function Now(sock: Socket): Buffered<D>
      requires Valid()
      reads this, buf, replyBuf, sock
    {
      Buffered(Session(dev, buf[..bufLen], calls, sock.outgoing, More), replyBuf[..])
    }

    /** One batch: its replies are sent and its bytes consumed, unless it ends in an error. */
    method Turn(sock: Socket) returns (end: End)
      requires Valid()
      modifies this`bufLen, this`replyLen, this`dev, this`high, this`calls, buf, replyBuf, sock`outgoing
      ensures Valid()
      ensures var b := BatchInto(handlers, old(Now(sock)));
              && b.session == Session(dev, b.session.rest, calls, sock.outgoing, end) && b.buf == replyBuf[..]
              && (end.More? ==> buf[..bufLen] == b.session.rest && bufLen < MAX_PACKET_LEN)
    {
      ghost var all := buf[..bufLen];
      var cbuf;
      cbuf, end := RunBatch();
      if end != More {
        return;
      }
      RoomToReceive(all);
      if 0 < cbuf {
        var n := if replyLen < replyBuf.Length then replyLen else replyBuf.Length;
        sock.Send(replyBuf[..n]);
        ConsumePacket(cbuf);
      } else {
        NothingConsumed(all);
        assert sock.outgoing + [] == sock.outgoing;
      }
    }

    /** `recv` appends to the buffer. */
    method ReceiveMore(sock: Socket) returns (n: nat)
      requires Valid() && bufLen < MAX_PACKET_LEN
      modifies this`bufLen, buf, sock`incoming, sock`pieces
      ensures Valid()
      ensures n == 0 <==> old(sock.incoming) == []
      ensures n <= |old(sock.incoming)| && sock.incoming == old(sock.incoming)[n..]
      ensures buf[..bufLen] == old(buf[..bufLen]) + old(sock.incoming)[..n]
      ensures sock.pieces == if n == 0 then old(sock.pieces) else old(sock.pieces) + [old(sock.incoming)[..n]]
    {
      n := sock.Recv(buf, bufLen, MAX_PACKET_LEN - bufLen);
      assert buf[..bufLen + n] == buf[..bufLen] + buf[bufLen..bufLen + n];
      bufLen := bufLen + n;
    }

    /**
     * Serves one connection until the peer closes it or an error ends it. The outcome is that
     * of the pieces received and of what was in the reply buffer (`was`). The latter never
     * touches calls, device or verdict, nor what is sent as long as the session is clean. On
     * a well-formed stream the server never closes the connection before it has read
     * everything.
     */
    method ReadPacket(sock: Socket) returns (end: End, ghost was: seq<byte>)
      requires Valid() && bufLen == 0 && calls == [] && sock.pieces == [] && sock.outgoing == []
      modifies this, buf, replyBuf, sock
      ensures Valid() && |was| == replyMax >= MAX_PACKET_LEN && (old(replyMax) == 0 ==> replyMax == REPLY_MAX)
      ensures var b := ServeInto(handlers, old(dev), was, sock.pieces);
              b.session == Session(dev, b.session.rest, calls, sock.outgoing, end)
      ensures var s := Serve(handlers, old(dev), sock.pieces);
              && s == Session(dev, s.rest, calls, s.sent, end)
              && (Clean(handlers, old(dev), was, sock.pieces) ==> s.sent == sock.outgoing)
      ensures Flatten(sock.pieces) + sock.incoming == old(sock.incoming)
      ensures Receivable(handlers, old(dev), sock.pieces)
      ensures end.More? ==> sock.incoming == []
    {
      ReplyBufSize(MAX_PACKET_LEN);
      ghost var stream := sock.incoming;
      was := replyBuf[..];
      end := ServeAll(sock, was, stream);
      ServedAlike(handlers, old(dev), was, sock.pieces);
    }

    /** The loop behind `read_more`. */
    method ServeAll(sock: Socket, ghost was: seq<byte>, ghost stream: seq<byte>) returns (end: End)
      requires Valid() && bufLen == 0 && calls == [] && sock.pieces == [] && sock.outgoing == []
      requires was == replyBuf[..] && stream == sock.incoming
      modifies this`bufLen, this`replyLen, this`dev, this`high, this`calls, buf, replyBuf, sock
      ensures Valid()
      ensures var b := ServeInto(handlers, old(dev), was, sock.pieces);
              b.session == Session(dev, b.session.rest, calls, sock.outgoing, end)
      ensures Flatten(sock.pieces) + sock.incoming == stream
      ensures Receivable(handlers, old(dev), sock.pieces)
      ensures end.More? ==> sock.incoming == []
    {
      NothingServed(handlers, dev, was, stream);
      while true
        modifies this`bufLen, this`replyLen, this`dev, this`high, this`calls, buf, replyBuf, sock
        invariant Valid() && Serving(handlers, old(dev), was, Now(sock), sock.pieces, sock.incoming, stream)
        decreases |sock.incoming|
      {
        ghost var pieces, incoming := sock.pieces, sock.incoming;
        end := Turn(sock);
        if end != More {
          break;
        }
        ghost var after := Now(sock);
        var n := ReceiveMore(sock);
        if n == 0 {
          break;
        }
        Arrived(handlers, old(dev), was, after, pieces, incoming, stream, n, Now(sock));
      }
    }
  }

  /** `total` is `done`, then whatever comes of parsing `rest`. */
  ghost predicate Follows(total: Outcome, done: seq<Command>, rest: seq<byte>) {
    exists o :: o == ParseAll(rest) && total == Outcome(done + o.cmds, o.rest, o.end)
  }

  /** The batch stands at `cbuf`: `done` was executed, and the rest of `all` is still to parse. */
  ghost predicate Progress(all: seq<byte>, cbuf: nat, done: seq<Command>) {
    cbuf <= |all| && Follows(ParseAll(all), done, all[cbuf..])
  }

  lemma NothingYet(all: seq<byte>)
    ensures Progress(all, 0, [])
  {
    var none: seq<Command> := [];
    assert all[0..] == all && none + ParseAll(all).cmds == ParseAll(all).cmds;
  }

  lemma OneParsed(total: Outcome, done: seq<Command>, rest: seq<byte>, c: Command, n: nat)
    requires ParseOne(rest) == Got(c, n) && Follows(total, done, rest)
    ensures 8 <= n <= |rest| && Follows(total, done + [c], rest[n..])
  {
    GotAdvances(rest);
    var o := ParseAll(rest[n..]);
    Regroup(done, [c], o.cmds);
  }

  lemma OneFurther(all: seq<byte>, cbuf: nat, done: seq<Command>, c: Command, n: nat, to: nat)
    requires Progress(all, cbuf, done) && ParseOne(all[cbuf..]) == Got(c, n) && to == cbuf + n
    ensures cbuf < to <= |all| && Progress(all, to, done + [c])
  {
    OneParsed(ParseAll(all), done, all[cbuf..], c, n);
    assert all[cbuf..][n..] == all[to..];
  }

  lemma AllParsed(all: seq<byte>, cbuf: nat, done: seq<Command>)
    requires Progress(all, cbuf, done) && !ParseOne(all[cbuf..]).Got?
    ensures ParseAll(all) == Outcome(done, all[cbuf..], ParseAll(all[cbuf..]).end)
  {
    assert done + [] == done;
  }

  /** What the batch has written is inside the buffer if and only if no byte count wrapped. */
  lemma WithinExactly<D(!new)>(h: Handlers<D>, first: Replies<D>, all: seq<byte>, high: nat)
    requires first.len == 0 && first.high == 0 && |all| <= MAX_PACKET_LEN
    requires high == RespondAll(h, first, ParseAll(all).cmds).high
    ensures WritesAll(h) && Infos(ParseAll(all).cmds) <= SAFE_INFOS ==>
              (high <= REPLY_MAX <==> AllExact(ParseAll(all).cmds))
  {
    if WritesAll(h) && Infos(ParseAll(all).cmds) <= SAFE_INFOS {
      BatchFitsExactly(h, first, all);
    }
  }

  lemma NothingConsumed(s: seq<byte>)
    requires |ParseAll(s).rest| == |s|
    ensures ParseAll(s).cmds == []
  {
    if ParseOne(s).Got? {
      GotAdvances(s);
      ParseAllRest(s[ParseOne(s).len..]);
    }
  }

  /** The batch in `now` will bring the session to what was received so far of `stream`. */
  ghost predicate Serving<D>(h: Handlers<D>, dev: D, was: seq<byte>, now: Buffered<D>, pieces: Pieces,
                             incoming: seq<byte>, stream: seq<byte>) {
    && BatchInto(h, now) == ServeInto(h, dev, was, pieces) && Receivable(h, dev, pieces)
    && Flatten(pieces) + incoming == stream
  }

  lemma NothingServed<D>(h: Handlers<D>, dev: D, was: seq<byte>, stream: seq<byte>)
    ensures Serving(h, dev, was, Buffered(Session(dev, [], [], [], More), was), [], stream, stream)
  {
    assert Flatten<byte>([]) + stream == stream;
    assert ParseAll([]) == Outcome([], [], More);
    assert was[..0] == [];
  }

  lemma ArrivedFlat(pieces: Pieces, incoming: seq<byte>, n: nat)
    requires n <= |incoming|
    ensures Flatten(pieces + [incoming[..n]]) + incoming[n..] == Flatten(pieces) + incoming
  {
    LastPieceFlat(pieces, incoming[..n]);
    Regroup(Flatten(pieces), incoming[..n], incoming[n..]);
    assert incoming[..n] + incoming[n..] == incoming;
  }

  /** `recv` returned one more piece. */
  lemma Arrived<D>(h: Handlers<D>, dev: D, was: seq<byte>, after: Buffered<D>, pieces: Pieces, incoming: seq<byte>,
                   stream: seq<byte>, n: nat, now: Buffered<D>)
    requires after == ServeInto(h, dev, was, pieces) && after.session.end.More? && Receivable(h, dev, pieces)
    requires Flatten(pieces) + incoming == stream
    requires 0 < n <= |incoming| && |after.session.rest| + n <= MAX_PACKET_LEN
    requires now == Arriving(after, incoming[..n])
    ensures Serving(h, dev, was, now, pieces + [incoming[..n]], incoming[n..], stream)
  {
    var piece := incoming[..n];
    ServedAlike(h, dev, was, pieces);
    OnePiece(h, dev, pieces, piece);
    assert (pieces + [piece])[..|pieces|] == pieces;
    ArrivedFlat(pieces, incoming, n);
  }

  lemma {:induction false} Pow2Monotone(a: nat, b: nat)
    requires a <= b
    ensures Pow2(a) <= Pow2(b)
    decreases b
  {
    if a < b {
      Pow2Monotone(a, b - 1);
    }
  }

  lemma PowerFor10000(k: nat)
    requires 10000 <= Pow2(k) < 20000
    ensures Pow2(k) == 16384
  {
    assert Pow2(7) == 128 && Pow2(14) == 128 * Pow2(7);
    if k < 14 {
      Pow2Monotone(k, 13);
    } else if k > 14 {
      Pow2Monotone(15, k);
    }
  }
}
