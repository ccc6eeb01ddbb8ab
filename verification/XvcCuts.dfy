/**
 * Which malformed streams are answered alike however they are cut: exactly, over all cuts
 * and over those cuts that fit the receive buffer.
 */
module XvcCuts {
  import opened Bytes
  import opened XvcProtocol
  import opened XvcSession

  type Pieces = seq<seq<byte>>

  function SentBy<D>(h: Handlers<D>, dev: D, pieces: Pieces): seq<byte> { Serve(h, dev, pieces).sent }

  /** All ways of cutting a stream send the same bytes. */
  ghost predicate CutIndependent<D(!new)>(h: Handlers<D>, dev: D, stream: seq<byte>) {
    forall a: Pieces, b: Pieces :: Flatten(a) == stream == Flatten(b) ==> SentBy(h, dev, a) == SentBy(h, dev, b)
  }

  /** The replies to the commands of a stream. */
  function Replies<D>(h: Handlers<D>, dev: D, stream: seq<byte>): seq<byte> {
    ExecuteAll(h, dev, ParseAll(stream).cmds).sent
  }

  lemma FlattenTwo(a: seq<byte>, b: seq<byte>)
    ensures Flatten([a, b]) == a + b && Flatten([a]) == a
  {
    assert [a, b][1..] == [b] && [b][1..] == [] && [a][1..] == [];
    assert b + Flatten([]) == b && a + Flatten([]) == a;
  }

  /** What stops the parser holds no command. */
  lemma StopParsesNothing(stream: seq<byte>)
    ensures ParseAll(ParseAll(stream).rest).cmds == []
  {
    ParseAllRest(stream);
  }

  /** The commands of a stream, encoded, are parsed to just those commands. */
  lemma FrontParses(stream: seq<byte>)
    ensures var o := ParseAll(stream);
            EncodeAll(o.cmds) + o.rest == stream && ParseAll(EncodeAll(o.cmds)) == Outcome(o.cmds, [], More)
  {
    var o := ParseAll(stream);
    ParseAllEncode(stream);
    ParsedEncodable(stream);
    RoundTrip(o.cmds, []);
    assert EncodeAll(o.cmds) + [] == EncodeAll(o.cmds);
  }

  /** Cut in front of what stops the parser, the stream has all its replies sent. */
  lemma CutBeforeStop<D>(h: Handlers<D>, dev: D, stream: seq<byte>)
    ensures var cut := [EncodeAll(ParseAll(stream).cmds), ParseAll(stream).rest];
            Flatten(cut) == stream && SentBy(h, dev, cut) == Replies(h, dev, stream)
  {
    var front, rest := EncodeAll(ParseAll(stream).cmds), ParseAll(stream).rest;
    FrontParses(stream);
    FlattenTwo(front, rest);
    ServeOne(h, dev, front);
    ServeTwo(h, dev, front, rest);
    StopParsesNothing(stream);
    BatchNothing(h, Serve(h, dev, [front]), rest);
    assert [] + Replies(h, dev, stream) == Replies(h, dev, stream);
  }

  lemma BatchNothing<D>(h: Handlers<D>, s: Session<D>, piece: seq<byte>)
    requires s.rest == [] && ParseAll(piece).cmds == []
    ensures Receive(h, s, piece).sent == s.sent
  {
    assert [] + piece == piece;
    assert s.sent + [] == s.sent;
  }

  lemma AnyTwoCuts<D>(h: Handlers<D>, dev: D, stream: seq<byte>, a: Pieces, b: Pieces)
    requires Flatten(a) == stream == Flatten(b)
    requires ParseAll(stream).end.More? || Replies(h, dev, stream) == []
    ensures SentBy(h, dev, a) == SentBy(h, dev, b)
  {
    ServeAgrees(h, dev, a);
    ServeAgrees(h, dev, b);
  }

  /** In one piece, a malformed stream is not answered at all. */
  lemma WholeUnanswered<D>(h: Handlers<D>, dev: D, stream: seq<byte>)
    requires !ParseAll(stream).end.More?
    ensures Flatten([stream]) == stream && SentBy(h, dev, [stream]) == []
  {
    FlattenTwo(stream, []);
    ServeOne(h, dev, stream);
  }

  /**
   * The bytes sent do not depend on the cut if and only if the stream is well formed, or
   * no command in front of its error has a reply.
   */
  lemma CutIndependentExactly<D(!new)>(h: Handlers<D>, dev: D, stream: seq<byte>)
    ensures CutIndependent(h, dev, stream) <==> ParseAll(stream).end.More? || Replies(h, dev, stream) == []
  {
    if ParseAll(stream).end.More? || Replies(h, dev, stream) == [] {
      forall a: Pieces, b: Pieces | Flatten(a) == stream == Flatten(b)
        ensures SentBy(h, dev, a) == SentBy(h, dev, b)
      {
        AnyTwoCuts(h, dev, stream, a, b);
      }
    } else {
      WholeUnanswered(h, dev, stream);
      CutBeforeStop(h, dev, stream);
    }
  }

  // ---- Cuts that fit the receive buffer -----------------------------------

  /** `recv` can return these pieces one after the other: none is empty, each fits behind what is left. */
  predicate Receivable<D>(h: Handlers<D>, dev: D, pieces: Pieces)
    decreases |pieces|
  {
    pieces == [] ||
    var last := |pieces| - 1;
    && Receivable(h, dev, pieces[..last])
    && pieces[last] != []
    && var s := Serve(h, dev, pieces[..last]);
       s.end.More? ==> |s.rest| + |pieces[last]| <= MAX_PACKET_LEN
  }

  /** The first bytes of `s` that are enough to decide about it. */
  function DecidedBy(s: seq<byte>, n: nat): (r: nat)
    requires n <= |s| && !ParseOne(s).NeedMore?
    ensures n <= r <= |s| && !ParseOne(s[..r]).NeedMore?
    ensures forall m :: n <= m < r ==> ParseOne(s[..m]).NeedMore?
    decreases |s| - n
  {
    assert s[..|s|] == s;
    if !ParseOne(s[..n]).NeedMore? then n else DecidedBy(s, n + 1)
  }

  /** The bytes that what stops the parser needs to be recognised. */
  function StopSize(stream: seq<byte>): nat
    requires !ParseAll(stream).end.More?
  {
    ParseAllRest(stream);
    DecidedBy(ParseAll(stream).rest, 0)
  }

  /** All commands from `j` on, one of them with a reply, fit the buffer together with what stops the parser. */
  predicate WithheldFrom<D(==)>(h: Handlers<D>, dev: D, stream: seq<byte>, j: nat)
    requires !ParseAll(stream).end.More?
  {
    var cmds := ParseAll(stream).cmds;
    && j < |cmds|
    && ExecuteAll(h, dev, cmds[..j]).sent != ExecuteAll(h, dev, cmds).sent
    && |EncodeAll(cmds[j..])| + StopSize(stream) <= MAX_PACKET_LEN
  }

  ghost predicate BufferedIndependent<D(!new)>(h: Handlers<D>, dev: D, stream: seq<byte>) {
    forall a: Pieces, b: Pieces ::
      Flatten(a) == stream == Flatten(b) && Receivable(h, dev, a) && Receivable(h, dev, b) ==>
        SentBy(h, dev, a) == SentBy(h, dev, b)
  }

  lemma LastPiece<D>(h: Handlers<D>, dev: D, pieces: Pieces)
    requires pieces != []
    ensures var last := |pieces| - 1;
            && Serve(h, dev, pieces) == Receive(h, Serve(h, dev, pieces[..last]), pieces[last])
            && Flatten(pieces) == Flatten(pieces[..last]) + pieces[last]
  {
    var last := |pieces| - 1;
    assert pieces == pieces[..last] + [pieces[last]];
    FlattenAppend(pieces[..last], [pieces[last]]);
    FlattenTwo(pieces[last], []);
  }

  /** A live session has the leftover of its stream, which is short, and has sent all replies. */
  lemma LiveSession<D>(h: Handlers<D>, dev: D, pieces: Pieces)
    requires Serve(h, dev, pieces).end.More?
    ensures var s, o := Serve(h, dev, pieces), ParseAll(Flatten(pieces));
            && o == Outcome(s.calls, s.rest, More)
            && |s.rest| < MAX_PACKET_LEN && s.sent == ExecuteAll(h, dev, s.calls).sent
  {
    ServeAgrees(h, dev, pieces);
    RoomToReceive(Flatten(pieces));
  }

  /** The commands executed in the batch that ended the session, and what ended it, were in the buffer together. */
  predicate EndedIn<D(==)>(h: Handlers<D>, dev: D, s: Session<D>, i: nat) {
    && i <= |s.calls|
    && s.sent == ExecuteAll(h, dev, s.calls[..i]).sent
    && |EncodeAll(s.calls[i..])| + |s.rest| <= MAX_PACKET_LEN
    && !ParseOne(s.rest).NeedMore?
  }

  lemma LastBatch<D>(h: Handlers<D>, dev: D, s: Session<D>, piece: seq<byte>)
    requires s.end.More? && |s.rest| + |piece| <= MAX_PACKET_LEN && s.sent == ExecuteAll(h, dev, s.calls).sent
    requires !Receive(h, s, piece).end.More?
    ensures EndedIn(h, dev, Receive(h, s, piece), |s.calls|)
  {
    var o := ParseAll(s.rest + piece);
    assert (s.calls + o.cmds)[..|s.calls|] == s.calls && (s.calls + o.cmds)[|s.calls|..] == o.cmds;
    ParseAllEncode(s.rest + piece);
    ParseAllRest(s.rest + piece);
  }

  lemma {:induction false} HowItEnded<D>(h: Handlers<D>, dev: D, pieces: Pieces) returns (i: nat)
    requires Receivable(h, dev, pieces) && !Serve(h, dev, pieces).end.More?
    ensures EndedIn(h, dev, Serve(h, dev, pieces), i)
    decreases |pieces|
  {
    var before := pieces[..|pieces| - 1];
    LastPiece(h, dev, pieces);
    if Serve(h, dev, before).end.More? {
      LiveSession(h, dev, before);
      LastBatch(h, dev, Serve(h, dev, before), pieces[|pieces| - 1]);
      i := |Serve(h, dev, before).calls|;
    } else {
      i := HowItEnded(h, dev, before);
    }
  }

  /** What ended the session begins what stops the parser. */
  lemma {:induction false} RestBegins<D>(h: Handlers<D>, dev: D, pieces: Pieces)
    requires !Serve(h, dev, pieces).end.More?
    ensures Serve(h, dev, pieces).rest <= ParseAll(Flatten(pieces)).rest
    decreases |pieces|
  {
    var before, piece := pieces[..|pieces| - 1], pieces[|pieces| - 1];
    LastPiece(h, dev, pieces);
    ParseAllAppend(Flatten(before), piece);
    if Serve(h, dev, before).end.More? {
      LiveSession(h, dev, before);
    } else {
      ServeAgrees(h, dev, before);
      RestBegins(h, dev, before);
    }
  }

  lemma DecidedEarly(s: seq<byte>, r: seq<byte>)
    requires r <= s && !ParseOne(s).NeedMore? && !ParseOne(r).NeedMore?
    ensures DecidedBy(s, 0) <= |r|
  {
    assert s[..|r|] == r;
  }

  /** If nothing can be withheld, every cut that fits the buffer sends all replies. */
  lemma AllSent<D>(h: Handlers<D>, dev: D, stream: seq<byte>, pieces: Pieces)
    requires Flatten(pieces) == stream && Receivable(h, dev, pieces)
    requires !ParseAll(stream).end.More? && forall j :: !WithheldFrom(h, dev, stream, j)
    ensures SentBy(h, dev, pieces) == Replies(h, dev, stream)
  {
    var s, cmds := Serve(h, dev, pieces), ParseAll(stream).cmds;
    ServeAgrees(h, dev, pieces);
    var i := HowItEnded(h, dev, pieces);
    RestBegins(h, dev, pieces);
    ParseAllRest(stream);
    DecidedEarly(ParseAll(stream).rest, s.rest);
    assert !WithheldFrom(h, dev, stream, i);
    assert i == |cmds| ==> cmds[..i] == cmds;
  }

  // ---- Two cuts that differ -------------------------------------------------

  function Singles(s: seq<byte>): Pieces {
    if s == [] then [] else Singles(s[..|s| - 1]) + [[s[|s| - 1]]]
  }

  lemma {:induction false} FlattenSingles(s: seq<byte>)
    ensures Flatten(Singles(s)) == s
  {
    if s != [] {
      FlattenSingles(s[..|s| - 1]);
      LastPieceFlat(Singles(s[..|s| - 1]), [s[|s| - 1]]);
    }
  }

  lemma LastPieceFlat(pieces: Pieces, piece: seq<byte>)
    ensures Flatten(pieces + [piece]) == Flatten(pieces) + piece
  {
    FlattenAppend(pieces, [piece]);
    FlattenTwo(piece, []);
  }

  /** One more piece. */
  lemma OnePiece<D>(h: Handlers<D>, dev: D, pieces: Pieces, piece: seq<byte>)
    ensures Serve(h, dev, pieces + [piece]) == Receive(h, Serve(h, dev, pieces), piece)
    ensures Receivable(h, dev, pieces + [piece]) <==>
            && Receivable(h, dev, pieces) && piece != []
            && var s := Serve(h, dev, pieces);
               s.end.More? ==> |s.rest| + |piece| <= MAX_PACKET_LEN
  {
    assert (pieces + [piece])[..|pieces|] == pieces;
  }

  /** Single bytes can always be received; what was sent stays sent, and nothing is sent after the end. */
  lemma {:induction false} SinglesBehind<D>(h: Handlers<D>, dev: D, pieces: Pieces, s: seq<byte>)
    requires Receivable(h, dev, pieces)
    ensures Receivable(h, dev, pieces + Singles(s))
    ensures SentBy(h, dev, pieces) <= SentBy(h, dev, pieces + Singles(s))
    ensures !Serve(h, dev, pieces).end.More? ==> Serve(h, dev, pieces + Singles(s)) == Serve(h, dev, pieces)
    decreases |s|
  {
    if s == [] {
      assert pieces + Singles(s) == pieces;
    } else {
      var most, one := pieces + Singles(s[..|s| - 1]), [s[|s| - 1]];
      SinglesBehind(h, dev, pieces, s[..|s| - 1]);
      assert pieces + Singles(s) == most + [one];
      OnePiece(h, dev, most, one);
      if Serve(h, dev, most).end.More? {
        LiveSession(h, dev, most);
      }
    }
  }

  lemma SinglesReceivable<D>(h: Handlers<D>, dev: D, s: seq<byte>)
    ensures Receivable(h, dev, Singles(s))
  {
    SinglesBehind(h, dev, [], s);
    assert [] + Singles(s) == Singles(s);
  }

  /** Byte by byte, all replies are sent. */
  lemma ByteByByte<D>(h: Handlers<D>, dev: D, stream: seq<byte>) returns (pieces: Pieces)
    ensures Flatten(pieces) == stream && Receivable(h, dev, pieces)
    ensures SentBy(h, dev, pieces) == Replies(h, dev, stream)
  {
    var front, rest := EncodeAll(ParseAll(stream).cmds), ParseAll(stream).rest;
    FrontParses(stream);
    pieces := Singles(front) + Singles(rest);
    FlattenSingles(front);
    FlattenSingles(rest);
    FlattenAppend(Singles(front), Singles(rest));
    SinglesReceivable(h, dev, front);
    SinglesBehind(h, dev, Singles(front), rest);
    ServeAgrees(h, dev, Singles(front));
    ServeAgrees(h, dev, pieces);
  }

  lemma {:induction false} EncodeAppend(a: seq<Command>, b: seq<Command>)
    ensures EncodeAll(a + b) == EncodeAll(a) + EncodeAll(b)
  {
    if a == [] {
      assert a + b == b;
    } else {
      assert (a + b)[1..] == a[1..] + b;
      EncodeAppend(a[1..], b);
      Regroup(Encode(a[0]), EncodeAll(a[1..]), EncodeAll(b));
    }
  }

  lemma EncodeSplit(cmds: seq<Command>, j: nat)
    requires j <= |cmds|
    ensures EncodeAll(cmds) == EncodeAll(cmds[..j]) + EncodeAll(cmds[j..])
  {
    SplitAt(cmds, j);
    EncodeParts(cmds, cmds[..j], cmds[j..]);
  }

  lemma SplitAt<T>(s: seq<T>, j: nat)
    requires j <= |s|
    ensures s == s[..j] + s[j..]
  {
  }

  lemma EncodeParts(cmds: seq<Command>, a: seq<Command>, b: seq<Command>)
    requires cmds == a + b
    ensures EncodeAll(cmds) == EncodeAll(a) + EncodeAll(b)
  {
    EncodeAppend(a, b);
  }

  /** Commands and what stops the parser, in one batch. */
  lemma StopInBatch(cmds: seq<Command>, bad: seq<byte>)
    requires (forall c :: c in cmds ==> Encodable(c)) && !ParseOne(bad).NeedMore? && !ParseOne(bad).Got?
    ensures ParseAll(EncodeAll(cmds) + bad).cmds == cmds && !ParseAll(EncodeAll(cmds) + bad).end.More?
  {
    RoundTrip(cmds, []);
    assert EncodeAll(cmds) + [] == EncodeAll(cmds);
    ParseAllAppend(EncodeAll(cmds), bad);
    assert [] + bad == bad;
  }

  lemma BatchWithholds<D>(h: Handlers<D>, s: Session<D>, cmds: seq<Command>, bad: seq<byte>, piece: seq<byte>)
    requires s.end.More? && s.rest == [] && piece == EncodeAll(cmds) + bad
    requires (forall c :: c in cmds ==> Encodable(c)) && !ParseOne(bad).NeedMore? && !ParseOne(bad).Got?
    ensures !Receive(h, s, piece).end.More? && Receive(h, s, piece).sent == s.sent
  {
    StopInBatch(cmds, bad);
    assert [] + piece == piece;
  }

  /** The first commands, byte by byte: answered, and nothing is left. */
  lemma FirstAnswered<D>(h: Handlers<D>, dev: D, cmds: seq<Command>)
    requires forall c :: c in cmds ==> Encodable(c)
    ensures var pieces, x := Singles(EncodeAll(cmds)), ExecuteAll(h, dev, cmds);
            && Flatten(pieces) == EncodeAll(cmds) && Receivable(h, dev, pieces)
            && Serve(h, dev, pieces) == Session(x.dev, [], cmds, x.sent, More)
  {
    FlattenSingles(EncodeAll(cmds));
    SinglesReceivable(h, dev, EncodeAll(cmds));
    assert EncodeAll(cmds) + [] == EncodeAll(cmds);
    ClientServed(h, dev, cmds, [], Singles(EncodeAll(cmds)));
  }

  /** The commands before `j` are answered; those from `j` on arrive with what stops the parser. */
  lemma StopsFrom<D>(h: Handlers<D>, dev: D, cmds: seq<Command>, j: nat, bad: seq<byte>) returns (pieces: Pieces)
    requires forall c :: c in cmds ==> Encodable(c)
    requires j < |cmds| && !ParseOne(bad).NeedMore? && !ParseOne(bad).Got?
    requires |EncodeAll(cmds[j..])| + |bad| <= MAX_PACKET_LEN
    ensures Flatten(pieces) == EncodeAll(cmds) + bad && Receivable(h, dev, pieces)
    ensures !Serve(h, dev, pieces).end.More?
    ensures SentBy(h, dev, pieces) == ExecuteAll(h, dev, cmds[..j]).sent
  {
    var before, mid := Singles(EncodeAll(cmds[..j])), EncodeAll(cmds[j..]) + bad;
    FirstAnswered(h, dev, cmds[..j]);
    pieces := before + [mid];
    OnePiece(h, dev, before, mid);
    BatchWithholds(h, Serve(h, dev, before), cmds[j..], bad, mid);
    LastPieceFlat(before, mid);
    EncodeSplit(cmds, j);
    Regroup(EncodeAll(cmds[..j]), EncodeAll(cmds[j..]), bad);
    NotDecidedByNothing(bad);
  }

  lemma NotDecidedByNothing(bad: seq<byte>)
    requires !ParseOne(bad).NeedMore?
    ensures bad != []
  {
  }

  /** The bytes that stop the parser. */
  function StopBytes(stream: seq<byte>): (r: seq<byte>)
    requires !ParseAll(stream).end.More?
    ensures |r| == StopSize(stream)
  {
    ParseAllRest(stream);
    ParseAll(stream).rest[..StopSize(stream)]
  }

  lemma StopSplits(stream: seq<byte>)
    requires !ParseAll(stream).end.More?
    ensures var o, bad := ParseAll(stream), StopBytes(stream);
            && !ParseOne(bad).NeedMore? && !ParseOne(bad).Got?
            && |bad| <= |o.rest| && (EncodeAll(o.cmds) + bad) + o.rest[|bad|..] == stream
  {
    var o, bad := ParseAll(stream), StopBytes(stream);
    ParseAllRest(stream);
    FrontParses(stream);
    assert o.rest == bad + o.rest[|bad|..];
    ParseOneStable(bad, o.rest[|bad|..]);
    Regroup(EncodeAll(o.cmds), bad, o.rest[|bad|..]);
  }

  /** A cut that withholds the replies from `j` on. */
  lemma Withholds<D>(h: Handlers<D>, dev: D, stream: seq<byte>, j: nat) returns (pieces: Pieces)
    requires !ParseAll(stream).end.More? && WithheldFrom(h, dev, stream, j)
    ensures Flatten(pieces) == stream && Receivable(h, dev, pieces)
    ensures SentBy(h, dev, pieces) != Replies(h, dev, stream)
  {
    var cmds, bad := ParseAll(stream).cmds, StopBytes(stream);
    var rest := ParseAll(stream).rest[|bad|..];
    ParsedEncodable(stream);
    StopSplits(stream);
    var stopped := StopsFrom(h, dev, cmds, j, bad);
    pieces := stopped + Singles(rest);
    SinglesBehind(h, dev, stopped, rest);
    FlattenSingles(rest);
    FlattenAppend(stopped, Singles(rest));
  }

  /**
   * With the receive buffer as it is: the bytes sent do not depend on the cut if and only if
   * the stream is well formed, or the last command with a reply, all behind it and enough of
   * the error to recognise it are too long to be in the buffer together.
   */
  lemma BufferedIndependentExactly<D(!new)>(h: Handlers<D>, dev: D, stream: seq<byte>)
    ensures BufferedIndependent(h, dev, stream) <==>
            ParseAll(stream).end.More? || forall j :: !WithheldFrom(h, dev, stream, j)
  {
    if ParseAll(stream).end.More? {
      forall a: Pieces, b: Pieces | Flatten(a) == stream == Flatten(b)
        ensures SentBy(h, dev, a) == SentBy(h, dev, b)
      {
        AnyTwoCuts(h, dev, stream, a, b);
      }
    } else if j :| WithheldFrom(h, dev, stream, j) {
      var a := ByteByByte(h, dev, stream);
      var b := Withholds(h, dev, stream, j);
      assert SentBy(h, dev, a) != SentBy(h, dev, b);
    } else {
      forall a: Pieces | Flatten(a) == stream && Receivable(h, dev, a)
        ensures SentBy(h, dev, a) == Replies(h, dev, stream)
      {
        AllSent(h, dev, stream, a);
      }
    }
  }
}
