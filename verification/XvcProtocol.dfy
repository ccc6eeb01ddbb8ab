/** The Xilinx Virtual Cable wire format: what the server parses and what a client sends. */
module XvcProtocol {
  import opened Bytes
  import opened LittleEndian

  const MAX_PACKET_LEN: nat := 10000
  const SCAN: nat := 30
  const COLON: byte := 58

  // ASCII of the three command names, colon included
  const GETINFO: seq<byte> := [103, 101, 116, 105, 110, 102, 111, 58]
  const SETTCK: seq<byte> := [115, 101, 116, 116, 99, 107, 58]
  const SHIFT: seq<byte> := [115, 104, 105, 102, 116, 58]

  datatype Command =
    | GetInfo
    | SetTck(period: u32)
    | Shift(bits: u32, tms: seq<byte>, tdi: seq<byte>)

  /** What the server makes of the bytes in front of it. */
  datatype Parsed =
    | NeedMore
    | ProtocolError
    | Oversize
    | Got(cmd: Command, len: nat)

  /** Bytes in one bit vector, computed in 32-bit arithmetic: it wraps for bits > 0xFFFFFFF8. */
  function ShiftBytes(bits: u32): nat { (bits + 7) % 0x1_0000_0000 / 8 }

  /** A shift whose byte count does not wrap. */
  predicate Exact(c: Command) { c.Shift? ==> c.bits <= 0xFFFF_FFF8 }

  lemma ShiftBytesExact(bits: u32)
    ensures ShiftBytes(bits) == (bits + 7) / 8 <==> bits <= 0xFFFF_FFF8
  {
  }

  /** The first colon among the first 30 bytes from `i` on, or where the scan gives up. */
  function FindColon(s: seq<byte>, i: nat): (r: nat)
    requires i <= Min(SCAN, |s|)
    ensures i <= r <= Min(SCAN, |s|)
    ensures r < Min(SCAN, |s|) ==> s[r] == COLON
    ensures forall k :: i <= k < r ==> s[k] != COLON
    decreases |s| - i
  {
    if i == Min(SCAN, |s|) || s[i] == COLON then i else FindColon(s, i + 1)
  }

  function ParseShift(s: seq<byte>): Parsed {
    if |s| < 10 then NeedMore
    else
      var bits := GetLe(s[6..10]) % 0x1_0000_0000;
      var bytes := ShiftBytes(bits);
      if 10 + 2 * bytes > MAX_PACKET_LEN then Oversize
      else if |s| < 10 + 2 * bytes then NeedMore
      else Got(Shift(bits, s[10..10 + bytes], s[10 + bytes..10 + 2 * bytes]), 10 + 2 * bytes)
  }

  function ParseSetTck(s: seq<byte>): Parsed {
    if |s| < 11 then NeedMore else Got(SetTck(GetLe(s[7..11]) % 0x1_0000_0000), 11)
  }

  /** The command at the front of `s`.  `Oversize` is the failing assertion on the command size. */
  function ParseOne(s: seq<byte>): Parsed {
    var e := FindColon(s, 0);
    if e == Min(SCAN, |s|) then (if e >= SCAN then ProtocolError else NeedMore)
    else if s[..e + 1] == GETINFO then Got(GetInfo, 8)
    else if s[..e + 1] == SHIFT then ParseShift(s)
    else if s[..e + 1] == SETTCK then ParseSetTck(s)
    else ProtocolError
  }

  lemma GotAdvances(s: seq<byte>)
    requires ParseOne(s).Got?
    ensures 8 <= ParseOne(s).len <= |s|
  {
  }

  // ---- The verdict, from the bytes alone -----------------------------------

  predicate Spells(s: seq<byte>, text: string) {
    |s| >= |text| && forall i :: 0 <= i < |text| ==> s[i] == text[i] as int
  }

  /** There is a colon early enough to end a command's name. */
  predicate Named(s: seq<byte>) { exists e :: 0 <= e < 30 && e < |s| && s[e] == ':' as int }

  /** The number in a command's four length or period bytes. */
  function Field(s: seq<byte>, at: nat): nat
    requires at + 4 <= |s|
  {
    var d: seq<int> := s;
    d[at] + 0x100 * d[at + 1] + 0x1_0000 * d[at + 2] + 0x100_0000 * d[at + 3]
  }

  /** The size of a shift command, from the ten bytes in front of its vectors. */
  function ShiftSize(s: seq<byte>): nat
    requires |s| >= 10
  {
    10 + (Field(s, 6) + 7) % 0x1_0000_0000 / 8 * 2
  }

  lemma FieldIs(s: seq<byte>, at: nat)
    requires at + 4 <= |s|
    ensures GetLe(s[at..at + 4]) % 0x1_0000_0000 == Field(s, at)
  {
    FourDigits(s[at..at + 4]);
  }

  /** The bytes up to and with the first colon are `name`. */
  predicate NamedBy(s: seq<byte>, name: seq<byte>) {
    var e := FindColon(s, 0);
    e < Min(SCAN, |s|) && s[..e + 1] == name
  }

  lemma NameSpelled(s: seq<byte>, name: seq<byte>, text: string)
    requires 0 < |name| <= 30 && name[|name| - 1] == 58 && forall i :: 0 <= i < |name| - 1 ==> name[i] != 58
    requires |name| == |text| && forall i :: 0 <= i < |text| ==> name[i] == text[i] as int
    ensures NamedBy(s, name) <==> Spells(s, text)
  {
    if Spells(s, text) {
      assert s[..|name|] == name;
      assert forall i :: 0 <= i < |name| ==> s[i] == name[i];
      ColonAt(s, |name| - 1, 0);
    }
    if NamedBy(s, name) {
      assert FindColon(s, 0) + 1 == |name|;
      assert forall i :: 0 <= i < |name| ==> s[i] == s[..|name|][i];
    }
  }

  lemma NamedGetInfo(s: seq<byte>)
    ensures NamedBy(s, GETINFO) <==> Spells(s, "getinfo:")
  {
    NameSpelled(s, GETINFO, "getinfo:");
  }

  lemma NamedSetTck(s: seq<byte>)
    ensures NamedBy(s, SETTCK) <==> Spells(s, "settck:")
  {
    NameSpelled(s, SETTCK, "settck:");
  }

  lemma NamedShift(s: seq<byte>)
    ensures NamedBy(s, SHIFT) <==> Spells(s, "shift:")
  {
    NameSpelled(s, SHIFT, "shift:");
  }

  lemma Scanned(s: seq<byte>)
    ensures Named(s) <==> FindColon(s, 0) < Min(SCAN, |s|)
  {
    var e := FindColon(s, 0);
    if e < Min(SCAN, |s|) {
      assert s[e] == ':' as int;
    }
  }

  lemma NamesAre(s: seq<byte>)
    ensures NamedBy(s, GETINFO) <==> Spells(s, "getinfo:")
    ensures NamedBy(s, SETTCK) <==> Spells(s, "settck:")
    ensures NamedBy(s, SHIFT) <==> Spells(s, "shift:")
    ensures Named(s) <==> FindColon(s, 0) < Min(SCAN, |s|)
  {
    NamedGetInfo(s);
    NamedSetTck(s);
    NamedShift(s);
    Scanned(s);
  }

  /**
   * Every verdict from the text of the stream. An unknown name, or thirty bytes without a
   * colon, is an error; a shift command of more than 10000 bytes runs into the assertion;
   * a command waits for more bytes until its name and then all of it is there.
   */
  lemma Verdict(s: seq<byte>)
    ensures ParseOne(s).ProtocolError? <==>
            (Named(s) || |s| >= 30) && !Spells(s, "getinfo:") && !Spells(s, "settck:") && !Spells(s, "shift:")
    ensures ParseOne(s).Oversize? <==> Spells(s, "shift:") && |s| >= 10 && ShiftSize(s) > 10000
    ensures ParseOne(s).NeedMore? <==>
            || (!Named(s) && |s| < 30)
            || (Spells(s, "settck:") && |s| < 11)
            || (Spells(s, "shift:") && (|s| < 10 || |s| < ShiftSize(s) <= 10000))
  {
    NamesAre(s);
    if |s| >= 10 {
      FieldIs(s, 6);
    }
  }

  /** The fields of a shift, TMS bytes in front of TDI bytes. */
  predicate ShiftAt(s: seq<byte>, bits: nat, tms: seq<byte>, tdi: seq<byte>, len: nat) {
    && |s| >= len >= 10 && bits == Field(s, 6) && len == ShiftSize(s)
    && 2 * |tms| == 2 * |tdi| == len - 10
    && (forall i :: 0 <= i < |tms| ==> tms[i] == s[10 + i])
    && (forall i :: 0 <= i < |tdi| ==> tdi[i] == s[10 + |tms| + i])
  }

  lemma ShiftMeaning(s: seq<byte>)
    requires ParseShift(s).Got?
    ensures var r := ParseShift(s); r.cmd.Shift? && ShiftAt(s, r.cmd.bits, r.cmd.tms, r.cmd.tdi, r.len)
  {
    FieldIs(s, 6);
  }

  /** What a command that is all there says, field by field. */
  lemma Meaning(s: seq<byte>)
    requires ParseOne(s).Got?
    ensures var r := ParseOne(s);
            match r.cmd
            case GetInfo => Spells(s, "getinfo:") && r.len == 8
            case SetTck(period) => Spells(s, "settck:") && r.len == 11 && |s| >= 11 && period == Field(s, 7)
            case Shift(bits, tms, tdi) => Spells(s, "shift:") && ShiftAt(s, bits, tms, tdi, r.len)
  {
    NamesAre(s);
    if NamedBy(s, SHIFT) {
      ShiftMeaning(s);
    } else if NamedBy(s, SETTCK) {
      FieldIs(s, 7);
    }
  }

  /** Why parsing stopped. */
  datatype End = More | Error | Abort

  datatype Outcome = Outcome(cmds: seq<Command>, rest: seq<byte>, end: End)

  /** Every command in `s`, what is left over, and why. */
  function ParseAll(s: seq<byte>): Outcome
    decreases |s|
  {
    match ParseOne(s)
    case NeedMore => Outcome([], s, More)
    case ProtocolError => Outcome([], s, Error)
    case Oversize => Outcome([], s, Abort)
    case Got(c, n) =>
      GotAdvances(s);
      After(c, ParseAll(s[n..]))
  }

  function After(c: Command, o: Outcome): Outcome { Outcome([c] + o.cmds, o.rest, o.end) }

  // ---- More bytes never change what was decided --------------------------

  lemma {:induction false} FindColonStable(s: seq<byte>, t: seq<byte>, i: nat)
    requires i <= Min(SCAN, |s|)
    requires FindColon(s, i) < Min(SCAN, |s|) || |s| >= SCAN
    ensures FindColon(s + t, i) == FindColon(s, i)
    decreases |s| - i
  {
    if i < Min(SCAN, |s|) && s[i] != COLON {
      FindColonStable(s, t, i + 1);
    }
  }

  lemma ParseShiftStable(s: seq<byte>, t: seq<byte>)
    requires ParseShift(s) != NeedMore
    ensures ParseShift(s + t) == ParseShift(s)
  {
    assert (s + t)[6..10] == s[6..10];
    var bytes := ShiftBytes(GetLe(s[6..10]) % 0x1_0000_0000);
    if 10 + 2 * bytes <= MAX_PACKET_LEN {
      assert (s + t)[10..10 + bytes] == s[10..10 + bytes];
      assert (s + t)[10 + bytes..10 + 2 * bytes] == s[10 + bytes..10 + 2 * bytes];
    }
  }

  lemma ParseOneStable(s: seq<byte>, t: seq<byte>)
    requires ParseOne(s) != NeedMore
    ensures ParseOne(s + t) == ParseOne(s)
  {
    var e := FindColon(s, 0);
    FindColonStable(s, t, 0);
    if e < Min(SCAN, |s|) {
      var name := s[..e + 1];
      assert (s + t)[..e + 1] == name;
      if name == SHIFT {
        ParseShiftStable(s, t);
      } else if name == SETTCK {
        assert (s + t)[7..11] == s[7..11];
      }
    }
  }

  /** `a`, then what came of parsing on. */
  function Then(a: Outcome, b: Outcome): Outcome { Outcome(a.cmds + b.cmds, b.rest, b.end) }

  lemma AfterThen(c: Command, a: Outcome, b: Outcome)
    ensures After(c, Then(a, b)) == Then(After(c, a), b)
  {
    assert [c] + (a.cmds + b.cmds) == ([c] + a.cmds) + b.cmds;
  }

  lemma ThenNothing(o: Outcome, s: seq<byte>)
    ensures Then(Outcome([], s, More), o) == o
  {
    assert [] + o.cmds == o.cmds;
  }

  /** Parsing `s + t`, given what came of parsing `s`. */
  function Resumed(a: Outcome, t: seq<byte>): Outcome {
    if a.end.More? then Then(a, ParseAll(a.rest + t)) else a.(rest := a.rest + t)
  }

  lemma ResumedAfter(c: Command, a: Outcome, t: seq<byte>)
    ensures Resumed(After(c, a), t) == After(c, Resumed(a, t))
  {
    AfterThen(c, a, ParseAll(a.rest + t));
  }

  lemma ParseAllGot(s: seq<byte>, c: Command, n: nat)
    requires ParseOne(s) == Got(c, n)
    ensures 8 <= n <= |s| && ParseAll(s) == After(c, ParseAll(s[n..]))
  {
    GotAdvances(s);
  }

  lemma ParseAllBoth(s: seq<byte>, t: seq<byte>, c: Command, n: nat)
    requires ParseOne(s) == Got(c, n)
    ensures 8 <= n <= |s|
    ensures ParseAll(s) == After(c, ParseAll(s[n..])) && ParseAll(s + t) == After(c, ParseAll(s[n..] + t))
  {
    ParseOneStable(s, t);
    ParseAllGot(s, c, n);
    ParseAllGot(s + t, c, n);
    SuffixOfSum(s, t, n);
  }

  lemma SuffixOfSum(s: seq<byte>, t: seq<byte>, n: nat)
    requires n <= |s|
    ensures (s + t)[n..] == s[n..] + t
  {
  }

  /** Parsing can be interrupted anywhere and resumed with the leftover and more bytes. */
  lemma {:induction false} ParseAllAppend(s: seq<byte>, t: seq<byte>)
    ensures ParseAll(s + t) == Resumed(ParseAll(s), t)
    decreases |s|
  {
    match ParseOne(s) {
      case NeedMore =>
        ThenNothing(ParseAll(s + t), s);
      case Got(c, n) =>
        ParseAllBoth(s, t, c, n);
        ParseAllAppend(s[n..], t);
        ResumedAfter(c, ParseAll(s[n..]), t);
      case _ =>
        ParseOneStable(s, t);
    }
  }

  /** What waits for more bytes is shorter than the buffer: there is always room to receive. */
  lemma NeedMoreIsShort(s: seq<byte>)
    requires ParseOne(s).NeedMore?
    ensures |s| < MAX_PACKET_LEN
  {
  }

  /** What stops the parser is what the verdict says. */
  lemma {:induction false} ParseAllStops(s: seq<byte>)
    ensures var o := ParseAll(s);
            match o.end
            case More => ParseOne(o.rest).NeedMore?
            case Error => ParseOne(o.rest).ProtocolError?
            case Abort => ParseOne(o.rest).Oversize?
    decreases |s|
  {
    if ParseOne(s).Got? {
      GotAdvances(s);
      ParseAllStops(s[ParseOne(s).len..]);
    }
  }

  lemma SuffixOf(a: seq<byte>, b: seq<byte>, s: seq<byte>)
    requires s == a + b
    ensures |b| <= |s| && b == s[|s| - |b|..]
  {
  }

  lemma ParseAllRest(s: seq<byte>)
    ensures var o := ParseAll(s);
            && |o.rest| <= |s| && o.rest == s[|s| - |o.rest|..]
            && match o.end
               case More => ParseOne(o.rest).NeedMore?
               case Error => ParseOne(o.rest).ProtocolError?
               case Abort => ParseOne(o.rest).Oversize?
  {
    ParseAllStops(s);
    ParseAllEncode(s);
    SuffixOf(EncodeAll(ParseAll(s).cmds), ParseAll(s).rest, s);
  }

  /** The leftover of a batch never fills the receive buffer. */
  lemma RoomToReceive(s: seq<byte>)
    requires ParseAll(s).end.More?
    ensures |ParseAll(s).rest| < MAX_PACKET_LEN
  {
    ParseAllRest(s);
    NeedMoreIsShort(ParseAll(s).rest);
  }

  // ---- The client's encoder -----------------------------------------------

  function Encode(c: Command): seq<byte> {
    match c
    case GetInfo => GETINFO
    case SetTck(period) => SETTCK + PutLe(period, 4)
    case Shift(bits, tms, tdi) => SHIFT + PutLe(bits, 4) + tms + tdi
  }

  /** A shift carries vectors of its length and fits the receive buffer. */
  predicate Encodable(c: Command) {
    c.Shift? ==> |c.tms| == |c.tdi| == ShiftBytes(c.bits) && 10 + 2 * ShiftBytes(c.bits) <= MAX_PACKET_LEN
  }

  function EncodeAll(cmds: seq<Command>): seq<byte> {
    if cmds == [] then [] else Encode(cmds[0]) + EncodeAll(cmds[1..])
  }

  lemma ColonAt(s: seq<byte>, e: nat, i: nat)
    requires i <= e < Min(SCAN, |s|) && s[e] == COLON
    requires forall k :: i <= k < e ==> s[k] != COLON
    ensures FindColon(s, i) == e
    decreases e - i
  {
    if i < e {
      ColonAt(s, e, i + 1);
    }
  }

  lemma EncodeParseSetTck(period: u32, t: seq<byte>)
    ensures ParseOne(SETTCK + PutLe(period, 4) + t) == Got(SetTck(period), 11)
  {
    var s := SETTCK + PutLe(period, 4) + t;
    ColonAt(s, 6, 0);
    assert s[..7] == SETTCK;
    assert s[7..11] == PutLe(period, 4);
    FourBytes(s[7..11], period);
  }

  lemma ShiftFields(s: seq<byte>, bits: u32, tms: seq<byte>, tdi: seq<byte>)
    requires Encodable(Shift(bits, tms, tdi)) && |s| >= 10 + 2 * |tms|
    requires s[6..10] == PutLe(bits, 4)
    requires s[10..10 + |tms|] == tms && s[10 + |tms|..10 + 2 * |tms|] == tdi
    ensures ParseShift(s) == Got(Shift(bits, tms, tdi), 10 + 2 * |tms|)
  {
    FourBytes(s[6..10], bits);
    assert ShiftBytes(bits) == |tms| && GetLe(s[6..10]) % 0x1_0000_0000 == bits;
  }

  lemma FieldSlices(name: seq<byte>, field: seq<byte>, tms: seq<byte>, tdi: seq<byte>, t: seq<byte>)
    requires |name| == 6 && |field| == 4 && |tms| == |tdi|
    ensures var s := name + field + tms + tdi + t;
            && s[..6] == name && s[6..10] == field
            && s[10..10 + |tms|] == tms && s[10 + |tms|..10 + 2 * |tms|] == tdi
  {
  }

  /** A command is read back whatever bytes follow it. */
  lemma EncodeParse(c: Command, t: seq<byte>)
    requires Encodable(c)
    ensures ParseOne(Encode(c) + t) == Got(c, |Encode(c)|)
  {
    var s := Encode(c) + t;
    match c
    case GetInfo =>
      ColonAt(s, 7, 0);
      assert s[..8] == GETINFO;
    case SetTck(period) =>
      EncodeParseSetTck(period, t);
    case Shift(bits, tms, tdi) =>
      ColonAt(s, 5, 0);
      FieldSlices(SHIFT, PutLe(bits, 4), tms, tdi, t);
      ShiftFields(s, bits, tms, tdi);
  }

  /** A field that was read, written again. */
  lemma FieldBack(b: seq<byte>)
    requires |b| == 4
    ensures GetLe(b) % 0x1_0000_0000 == GetLe(b) && PutLe(GetLe(b), 4) == b
  {
    FourBytes(b, 0);
    GetPut(b);
  }

  lemma Slices(s: seq<byte>, i: nat, j: nat, k: nat, n: nat)
    requires i <= j <= k <= n <= |s|
    ensures s[..i] + s[i..j] + s[j..k] + s[k..n] == s[..n]
  {
  }

  lemma ParseEncodeShift(s: seq<byte>)
    requires ParseShift(s).Got? && s[..6] == SHIFT
    ensures Encodable(ParseShift(s).cmd)
    ensures ParseShift(s).len <= |s| && Encode(ParseShift(s).cmd) == s[..ParseShift(s).len]
  {
    FieldBack(s[6..10]);
    var bytes := ShiftBytes(GetLe(s[6..10]));
    Slices(s, 6, 10, 10 + bytes, 10 + 2 * bytes);
  }

  lemma ParseEncodeSetTck(s: seq<byte>)
    requires ParseSetTck(s).Got? && s[..7] == SETTCK
    ensures |s| >= 11 && Encode(ParseSetTck(s).cmd) == s[..11]
  {
    FieldBack(s[7..11]);
    assert s[..7] + s[7..11] == s[..11];
  }

  /** Whatever is parsed is exactly what a client would have sent for it. */
  lemma ParseEncode(s: seq<byte>)
    requires ParseOne(s).Got?
    ensures Encodable(ParseOne(s).cmd)
    ensures ParseOne(s).len <= |s| && Encode(ParseOne(s).cmd) == s[..ParseOne(s).len]
  {
    var e := FindColon(s, 0);
    if s[..e + 1] == SHIFT {
      assert e == 5;
      ParseEncodeShift(s);
    } else if s[..e + 1] == SETTCK {
      assert e == 6;
      ParseEncodeSetTck(s);
    }
  }

  lemma ParseEncoded(c: Command, rest: seq<byte>)
    requires Encodable(c)
    ensures ParseAll(Encode(c) + rest) == After(c, ParseAll(rest))
  {
    EncodeParse(c, rest);
    ParseAllGot(Encode(c) + rest, c, |Encode(c)|);
    assert (Encode(c) + rest)[|Encode(c)|..] == rest;
  }

  /** Any list of commands, followed by any incomplete tail, is read back as that list and that tail. */
  lemma {:induction false} RoundTrip(cmds: seq<Command>, tail: seq<byte>)
    requires (forall c :: c in cmds ==> Encodable(c)) && ParseOne(tail).NeedMore?
    ensures ParseAll(EncodeAll(cmds) + tail) == Outcome(cmds, tail, More)
  {
    if cmds == [] {
      assert EncodeAll(cmds) + tail == tail;
    } else {
      var rest := EncodeAll(cmds[1..]) + tail;
      assert EncodeAll(cmds) + tail == Encode(cmds[0]) + rest;
      ParseEncoded(cmds[0], rest);
      RoundTrip(cmds[1..], tail);
      assert [cmds[0]] + cmds[1..] == cmds;
    }
  }

  lemma EncodeAfter(c: Command, o: Outcome)
    ensures EncodeAll(After(c, o).cmds) + o.rest == Encode(c) + (EncodeAll(o.cmds) + o.rest)
  {
    assert ([c] + o.cmds)[1..] == o.cmds;
  }

  lemma GotIsEncoded(s: seq<byte>, c: Command, n: nat)
    requires ParseOne(s) == Got(c, n)
    ensures n <= |s| && Encode(c) + s[n..] == s
  {
    ParseEncode(s);
    assert s == s[..n] + s[n..];
  }

  /** Nothing is dropped: the parsed commands, encoded, and the leftover are the input. */
  lemma {:induction false} ParseAllEncode(s: seq<byte>)
    ensures EncodeAll(ParseAll(s).cmds) + ParseAll(s).rest == s
    decreases |s|
  {
    match ParseOne(s) {
      case Got(c, n) =>
        ParseAllGot(s, c, n);
        GotIsEncoded(s, c, n);
        ParseAllEncode(s[n..]);
        EncodeAfter(c, ParseAll(s[n..]));
      case _ =>
        assert [] + s == s;
    }
  }

  lemma {:induction false} ParsedEncodable(s: seq<byte>)
    ensures forall c :: c in ParseAll(s).cmds ==> Encodable(c)
    decreases |s|
  {
    var r := ParseOne(s);
    if r.Got? {
      GotAdvances(s);
      ParseEncode(s);
      ParsedEncodable(s[r.len..]);
    }
  }

  /** No two command lists have the same encoding. */
  lemma UniquelyDecodable(a: seq<Command>, b: seq<Command>)
    requires (forall c :: c in a ==> Encodable(c)) && (forall c :: c in b ==> Encodable(c))
    requires EncodeAll(a) == EncodeAll(b)
    ensures a == b
  {
    RoundTrip(a, []);
    RoundTrip(b, []);
  }
}
