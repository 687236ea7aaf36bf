/** The frame-id codec of the RTSP stream: H.265 Annex B framing, emulation
prevention, SEI messages, and the registered user-data record the server inserts.

The encoder side is written from the standard (ITU-T H.265 sections 7.3.1.1,
7.3.2.4, 7.3.5 and Annex B.2) and from the server's payload layout; the decoder
side is the validation client's parser.  The main results are round trips.
*/
module SeiCodec {
  import opened Wrappers

  const MAX_UINT := 0xffff_ffff

  // ----- emulation prevention

  /** Zeros seen in a row after one more byte. */
  function Run(zeros: nat, b: byte): nat { if b == 0 then zeros + 1 else 0 }

  /** Section 7.3.1.1: a 3 goes before any byte up to 3 that follows two zeros. */
  function Escape(s: seq<byte>, zeros: nat): seq<byte> {
    if s == [] then []
    else if zeros >= 2 && s[0] <= 3 then [3, s[0]] + Escape(s[1..], Run(0, s[0]))
    else [s[0]] + Escape(s[1..], Run(zeros, s[0]))
  }

  /** What unescape_rbsp appends, or None where it gives up. */
  function Unescape(s: seq<byte>, zeros: nat): Option<seq<byte>> {
    if s == [] then Some([])
    else if zeros >= 2 && s[0] == 3 then
      if |s| == 1 || s[1] > 3 then None else Unescape(s[1..], 0)
    else Prepend(s[0], Unescape(s[1..], Run(zeros, s[0])))
  }

  function Prepend(b: byte, rest: Option<seq<byte>>): Option<seq<byte>> {
    match rest
    case None => None
    case Some(s) => Some([b] + s)
  }

  /** No byte up to 2 follows two zeros: no start code can be read inside. */
  predicate Clean(s: seq<byte>, zeros: nat) {
    s == [] || (!(zeros >= 2 && s[0] <= 2) && Clean(s[1..], Run(zeros, s[0])))
  }

  lemma {:induction false} UnescapeUndoesEscape(s: seq<byte>, zeros: nat)
    ensures Unescape(Escape(s, zeros), zeros) == Some(s)
  {
    if s != [] {
      var e := Escape(s, zeros);
      assert [s[0]] + s[1..] == s;
      if zeros >= 2 && s[0] <= 3 {
        UnescapeUndoesEscape(s[1..], Run(0, s[0]));
        assert e[1..] == [s[0]] + Escape(s[1..], Run(0, s[0]));
        assert e[1..][1..] == Escape(s[1..], Run(0, s[0]));
        assert Unescape(e[1..], 0) == Prepend(s[0], Some(s[1..]));
      } else {
        UnescapeUndoesEscape(s[1..], Run(zeros, s[0]));
        assert e[1..] == Escape(s[1..], Run(zeros, s[0]));
      }
    }
  }

  lemma {:induction false} EscapedIsClean(s: seq<byte>, zeros: nat)
    ensures Clean(Escape(s, zeros), zeros)
  {
    if s != [] {
      var e := Escape(s, zeros);
      if zeros >= 2 && s[0] <= 3 {
        EscapedIsClean(s[1..], Run(0, s[0]));
        assert e[1..] == [s[0]] + Escape(s[1..], Run(0, s[0]));
        assert e[1..][1..] == Escape(s[1..], Run(0, s[0]));
        assert Clean(e[1..], 0);
      } else {
        EscapedIsClean(s[1..], Run(zeros, s[0]));
        assert e[1..] == Escape(s[1..], Run(zeros, s[0]));
      }
    }
  }

  /** Escaping undoes unescaping exactly on the strings free of start-code prefixes. */
  lemma {:induction false} EscapeUndoesUnescape(s: seq<byte>, zeros: nat)
    requires Unescape(s, zeros).Some?
    ensures Escape(Unescape(s, zeros).value, zeros) == s <==> Clean(s, zeros)
  {
    if s != [] {
      var p := Unescape(s, zeros).value;
      EscapedIsClean(p, zeros);
      if zeros >= 2 && s[0] == 3 {
        EscapeUndoesUnescape(s[1..], 0);
        assert s == [3] + s[1..];
        assert p == Unescape(s[1..], 0).value;
        assert s[1] <= 3;
        AfterPrevention(s[1..], p, zeros);
      } else {
        EscapeUndoesUnescape(s[1..], Run(zeros, s[0]));
        assert p[1..] == Unescape(s[1..], Run(zeros, s[0])).value && p[0] == s[0];
        assert s == [s[0]] + s[1..];
      }
    }
  }

  /** After an emulation prevention byte the payload goes on as if from a fresh start. */
  lemma AfterPrevention(rest: seq<byte>, p: seq<byte>, zeros: nat)
    requires rest != [] && rest[0] <= 3 && zeros >= 2 && Unescape(rest, 0) == Some(p)
    ensures p != [] && p[0] == rest[0] && Escape(p, zeros) == [3] + Escape(p, 0)
  {
    var q := Unescape(rest[1..], Run(0, rest[0]));
    assert Unescape(rest, 0) == Prepend(rest[0], q);
    assert p == [rest[0]] + q.value;
    assert [3, p[0]] + Escape(p[1..], Run(0, p[0])) == [3] + ([p[0]] + Escape(p[1..], Run(0, p[0])));
  }

  function Joined(front: seq<byte>, rest: Option<seq<byte>>): Option<seq<byte>> {
    match rest
    case None => None
    case Some(s) => Some(front + s)
  }

  lemma JoinedNothing(rest: Option<seq<byte>>)
    ensures Joined([], rest) == rest
  {
    if rest.Some? { assert [] + rest.value == rest.value; }
  }

  lemma JoinedStep(front: seq<byte>, b: byte, rest: Option<seq<byte>>)
    ensures Joined(front, Prepend(b, rest)) == Joined(front + [b], rest)
  {
    if rest.Some? { assert front + ([b] + rest.value) == front + [b] + rest.value; }
  }

  /** The bytes in front of place i end in two zeros, after this many zeros before s. */
  predicate TwoZeros(s: seq<byte>, i: nat, zeros: nat)
    requires i <= |s|
  {
    (if i >= 1 then s[i - 1] == 0 else zeros >= 1) && (if i >= 2 then s[i - 2] == 0 else zeros + i >= 2)
  }

  ghost predicate NoPrevention(s: seq<byte>, zeros: nat) {
    forall i | 0 <= i < |s| :: s[i] == 3 ==> !TwoZeros(s, i, zeros)
  }

  function RunOver(s: seq<byte>, zeros: nat): nat {
    if s == [] then zeros else RunOver(s[1..], Run(zeros, s[0]))
  }

  lemma TwoZerosBehind(s: seq<byte>, i: nat, zeros: nat)
    requires i < |s|
    ensures TwoZeros(s[1..], i, Run(zeros, s[0])) == TwoZeros(s, i + 1, zeros)
  {
    if i >= 1 { assert s[1..][i - 1] == s[i]; }
    if i >= 2 { assert s[1..][i - 2] == s[i - 1]; }
  }

  lemma {:induction false} RunIsTwoZeros(s: seq<byte>, zeros: nat)
    ensures RunOver(s, zeros) >= 2 <==> TwoZeros(s, |s|, zeros)
  {
    if s != [] {
      hide TwoZeros;
      TwoZerosBehind(s, |s| - 1, zeros);
      RunIsTwoZeros(s[1..], Run(zeros, s[0]));
    }
  }

  lemma NoPreventionBehind(s: seq<byte>, zeros: nat)
    requires NoPrevention(s, zeros) && s != []
    ensures NoPrevention(s[1..], Run(zeros, s[0])) && !(zeros >= 2 && s[0] == 3)
  {
    assert s[0] == 3 ==> !TwoZeros(s, 0, zeros);
    hide TwoZeros, Run;
    forall i | 0 <= i < |s[1..]| && s[1..][i] == 3
      ensures !TwoZeros(s[1..], i, Run(zeros, s[0]))
    {
      TwoZerosBehind(s, i, zeros);
      assert s[i + 1] == 3;
    }
  }

  lemma JoinedTwice(b: byte, tail: seq<byte>, rest: Option<seq<byte>>)
    ensures Prepend(b, Joined(tail, rest)) == Joined([b] + tail, rest)
  {
    if rest.Some? { assert [b] + (tail + rest.value) == [b] + tail + rest.value; }
  }

  lemma {:induction false} FrontIsKept(front: seq<byte>, rest: seq<byte>, zeros: nat)
    requires NoPrevention(front, zeros)
    ensures Unescape(front + rest, zeros) == Joined(front, Unescape(rest, RunOver(front, zeros)))
    decreases |front|
  {
    hide NoPrevention, TwoZeros, Joined, Run;
    if front == [] {
      assert front + rest == rest;
      JoinedNothing(Unescape(rest, zeros));
    } else {
      var b, tail := front[0], front[1..];
      NoPreventionBehind(front, zeros);
      FrontIsKept(tail, rest, Run(zeros, b));
      assert (front + rest)[0] == b && (front + rest)[1..] == tail + rest;
      assert RunOver(front, zeros) == RunOver(tail, Run(zeros, b));
      JoinedTwice(b, tail, Unescape(rest, RunOver(front, zeros)));
      assert [b] + tail == front;
    }
  }

  /** Unescaping by the bytes: a text without 0, 0, 3 stays as it is, and the first such 3
      is left out, with a fresh start behind it, unless nothing or a byte above 3 follows. */
  lemma UnescapedBytes(front: seq<byte>, rest: seq<byte>)
    requires forall i | 2 <= i < |front| :: !(front[i - 2] == 0 && front[i - 1] == 0 && front[i] == 3)
    ensures Unescape(front, 0) == Some(front)
    ensures |front| >= 2 && front[|front| - 2] == 0 && front[|front| - 1] == 0 ==>
              Unescape(front + [3] + rest, 0)
              == if rest == [] || rest[0] > 3 then None else Joined(front, Unescape(rest, 0))
  {
    PlainFront(front);
    RunIsTwoZeros(front, 0);
    assert |front| >= 2 && front[|front| - 2] == 0 && front[|front| - 1] == 0 ==> RunOver(front, 0) >= 2;
    hide NoPrevention, TwoZeros, RunOver, Unescape, Joined;
    KeptAlone(front);
    KeptBeforeThree(front, rest);
  }

  lemma PlainFront(front: seq<byte>)
    requires forall i | 2 <= i < |front| :: !(front[i - 2] == 0 && front[i - 1] == 0 && front[i] == 3)
    ensures NoPrevention(front, 0)
  {
  }

  lemma KeptAlone(front: seq<byte>)
    requires NoPrevention(front, 0)
    ensures Unescape(front, 0) == Some(front)
  {
    hide NoPrevention, RunOver;
    FrontIsKept(front, [], 0);
    assert front + [] == front;
  }

  lemma KeptBeforeThree(front: seq<byte>, rest: seq<byte>)
    requires NoPrevention(front, 0)
    ensures RunOver(front, 0) >= 2 ==>
              Unescape(front + [3] + rest, 0)
              == if rest == [] || rest[0] > 3 then None else Joined(front, Unescape(rest, 0))
  {
    hide NoPrevention, RunOver;
    FrontIsKept(front, [3] + rest, 0);
    assert front + [3] + rest == front + ([3] + rest) && ([3] + rest)[1..] == rest;
  }

  /** unescape_rbsp. */
  method UnescapeRbsp(data: seq<byte>) returns (ok: bool, rbsp: seq<byte>)
    ensures ok <==> Unescape(data, 0).Some?
    ensures ok ==> rbsp == Unescape(data, 0).value
  {
    rbsp := [];
    var zeros := 0;
    var i := 0;
    JoinedNothing(Unescape(data, 0));
    assert data[0..] == data;
    while i < |data|
      invariant i <= |data|
      invariant Unescape(data, 0) == Joined(rbsp, Unescape(data[i..], zeros))
    {
      var value := data[i];
      assert data[i..][1..] == data[i + 1..];
      if zeros >= 2 && value == 3 {
        if i + 1 >= |data| || data[i + 1] > 3 {
          return false, rbsp;
        }
        zeros := 0;
        i := i + 1;
        continue;
      }
      JoinedStep(rbsp, value, Unescape(data[i + 1..], Run(zeros, value)));
      rbsp := rbsp + [value];
      zeros := Run(zeros, value);
      i := i + 1;
    }
    assert data[i..] == [];
    return true, rbsp;
  }

  // ----- FF-coded values (section 7.3.5)

  function EncodeFf(n: nat): seq<byte> { if n < 255 then [n] else [255] + EncodeFf(n - 255) }

  datatype FfResult = FfFail | FfOk(value: nat, next: nat)

  /** parse_ff_value from an offset, with the sum so far. */
  function FfAt(data: seq<byte>, offset: nat, sum: nat): (r: FfResult)
    requires offset <= |data|
    ensures r.FfOk? ==> offset < r.next <= |data|
    decreases |data| - offset
  {
    if offset == |data| then FfFail
    else if sum + data[offset] > MAX_UINT then FfFail
    else if data[offset] == 255 then FfAt(data, offset + 1, sum + 255)
    else FfOk(sum + data[offset], offset + 1)
  }

  method ParseFfValue(data: seq<byte>, from: nat) returns (ok: bool, value: nat, offset: nat)
    requires from <= |data|
    ensures ok == FfAt(data, from, 0).FfOk?
    ensures ok ==> FfAt(data, from, 0) == FfOk(value, offset) && from < offset <= |data|
  {
    value, offset := 0, from;
    while offset < |data| && data[offset] == 255
      invariant from <= offset <= |data| && value <= MAX_UINT
      invariant FfAt(data, from, 0) == FfAt(data, offset, value)
    {
      if value > MAX_UINT - 255 {
        return false, value, offset;
      }
      value := value + 255;
      offset := offset + 1;
    }
    if offset >= |data| || value > MAX_UINT - data[offset] {
      return false, value, offset;
    }
    return true, value + data[offset], offset + 1;
  }

  /** Reading an FF-coded value anywhere gives it back. */
  lemma {:induction false} FfRoundTrip(data: seq<byte>, offset: nat, n: nat, sum: nat)
    requires offset + |EncodeFf(n)| <= |data| && data[offset..offset + |EncodeFf(n)|] == EncodeFf(n)
    requires sum + n <= MAX_UINT
    ensures FfAt(data, offset, sum) == FfOk(sum + n, offset + |EncodeFf(n)|)
    decreases n
  {
    var e := EncodeFf(n);
    assert data[offset] == data[offset..offset + |e|][0] == e[0];
    if n >= 255 {
      assert e[1..] == EncodeFf(n - 255);
      assert data[offset + 1..offset + |e|] == data[offset..offset + |e|][1..];
      FfRoundTrip(data, offset + 1, n - 255, sum + 255);
    }
  }

  // ----- the record (payload layout of the server)

  datatype Record = Record(version: nat, channel: nat, frameId: nat, originPts: nat)

  datatype Status = OK | NotFrame | NotFound | Malformed | WrongIdentity | WrongVersion | WrongChannel

  const COUNTRY := 0xff
  const EXTENSION := 0xc1
  const MAGIC: seq<byte> := [0x47, 0x53, 0x54, 0x53, 0x59, 0x4e, 0x43, 0x31]
  const VERSION := 1
  const PAYLOAD_SIZE := 30
  const REGISTERED_USER_DATA := 4

  /** Big-endian, k bytes. */
  function BigEndian(n: nat, k: nat): (s: seq<byte>)
    ensures |s| == k
  {
    if k == 0 then [] else BigEndian(n / 256, k - 1) + [n % 256]
  }

  function ReadBigEndian(s: seq<byte>): nat {
    if s == [] then 0 else 256 * ReadBigEndian(s[..|s| - 1]) + s[|s| - 1]
  }

  function Power256(k: nat): nat { if k == 0 then 1 else 256 * Power256(k - 1) }

  lemma {:induction false} BigEndianRoundTrip(n: nat, k: nat)
    requires n < Power256(k)
    ensures ReadBigEndian(BigEndian(n, k)) == n
  {
    if k > 0 {
      BigEndianRoundTrip(n / 256, k - 1);
      assert BigEndian(n, k)[..k - 1] == BigEndian(n / 256, k - 1);
    }
  }

  /** The registered payload: country, extension, and the server's 28 bytes. */
  function Payload(channel: byte, frameId: nat, originPts: nat): (s: seq<byte>)
    ensures |s| == PAYLOAD_SIZE
  {
    [COUNTRY, EXTENSION] + MAGIC + [VERSION, channel, 0, 0] + BigEndian(frameId, 8) + BigEndian(originPts, 8)
  }

  lemma PayloadFields(channel: byte, frameId: nat, originPts: nat)
    ensures var p := Payload(channel, frameId, originPts);
            && p[0] == COUNTRY && p[1] == EXTENSION && p[2..10] == MAGIC && p[10] == VERSION && p[11] == channel
            && p[12] == 0 && p[13] == 0 && p[14..22] == BigEndian(frameId, 8) && p[22..30] == BigEndian(originPts, 8)
  {
  }

  // ----- SEI messages

  datatype Message = Message(kind: nat, payload: seq<byte>)

  /** What one message means for the parser: skipped, an error, or a record. */
  datatype Meaning = Skip | Bad(status: Status) | Good(record: Record)

  function MeaningOf(kind: nat, payload: seq<byte>, channel: byte): Meaning {
    if kind != REGISTERED_USER_DATA then Skip
    else if |payload| < 2 then Bad(Malformed)
    else if payload[0] != COUNTRY || payload[1] != EXTENSION then
      if |payload| >= 10 && payload[2..10] == MAGIC then Bad(WrongIdentity) else Skip
    else if |payload| != PAYLOAD_SIZE then Bad(Malformed)
    else if payload[2..10] != MAGIC || payload[12] != 0 || payload[13] != 0 then Bad(WrongIdentity)
    else if payload[10] != VERSION then Bad(WrongVersion)
    else if payload[11] != channel then Bad(WrongChannel)
    else Good(Record(payload[10], payload[11], ReadBigEndian(payload[14..22]), ReadBigEndian(payload[22..30])))
  }

  lemma PayloadMeaning(channel: byte, frameId: nat, originPts: nat)
    requires frameId < Power256(8) && originPts < Power256(8)
    ensures MeaningOf(REGISTERED_USER_DATA, Payload(channel, frameId, originPts), channel)
            == Good(Record(VERSION, channel, frameId, originPts))
  {
    hide Payload, BigEndian, ReadBigEndian, Power256;
    PayloadFields(channel, frameId, originPts);
    BigEndianRoundTrip(frameId, 8);
    BigEndianRoundTrip(originPts, 8);
  }

  datatype Found = Found(status: Status, record: Option<Record>)

  /** The parser's verdict on a list of messages, given a record found before.  A
      message of kind 128 starts with the byte of the trailing bits and is taken
      for them. */
  function Verdict(ms: seq<Message>, channel: byte, found: Option<Record>): Found {
    if ms == [] then Found(if found.Some? then OK else NotFound, found)
    else if ms[0].kind == 0x80 then Found(Malformed, None)
    else
      match MeaningOf(ms[0].kind, ms[0].payload, channel)
      case Skip => Verdict(ms[1..], channel, found)
      case Bad(status) => Found(status, None)
      case Good(r) => if found.Some? then Found(Malformed, None) else Verdict(ms[1..], channel, Some(r))
  }

  function EncodeMessage(m: Message): seq<byte> { EncodeFf(m.kind) + EncodeFf(|m.payload|) + m.payload }

  /** An SEI RBSP: the messages, the trailing bit, and cabac-free zero padding. */
  function EncodeSei(ms: seq<Message>, padding: nat): seq<byte> {
    if ms == [] then [0x80] + Zeros(padding) else EncodeMessage(ms[0]) + EncodeSei(ms[1..], padding)
  }

  function Zeros(n: nat): (s: seq<byte>)
    ensures |s| == n && forall k | 0 <= k < n :: s[k] == 0
  {
    seq(n, _ => 0)
  }

  predicate TrailingBits(data: seq<byte>) {
    data != [] && data[0] == 0x80 && forall k | 1 <= k < |data| :: data[k] == 0
  }

  /** A message in the bytes: its kind and where its payload lies. */
  datatype Slot = NoSlot | Slot(kind: nat, start: nat, end: nat)

  function SlotAt(data: seq<byte>, offset: nat): (s: Slot)
    requires offset <= |data|
    ensures s.Slot? ==> offset < s.start <= s.end <= |data|
  {
    var kind := FfAt(data, offset, 0);
    if kind.FfFail? then NoSlot
    else
      var size := FfAt(data, kind.next, 0);
      if size.FfFail? || size.value > |data| - size.next then NoSlot
      else Slot(kind.value, size.next, size.next + size.value)
  }

  /** parse_sei_rbsp as a function of the bytes still to read. */
  function SeiAt(data: seq<byte>, offset: nat, channel: byte, found: Option<Record>): Found
    requires offset <= |data|
    decreases |data| - offset
  {
    if offset == |data| then Found(Malformed, None)
    else if data[offset] == 0x80 then
      if TrailingBits(data[offset..]) then Found(if found.Some? then OK else NotFound, found)
      else Found(Malformed, None)
    else
      match SlotAt(data, offset)
      case NoSlot => Found(Malformed, None)
      case Slot(kind, start, end) =>
        match MeaningOf(kind, data[start..end], channel)
        case Skip => SeiAt(data, end, channel, found)
        case Bad(status) => Found(status, None)
        case Good(r) => if found.Some? then Found(Malformed, None) else SeiAt(data, end, channel, Some(r))
  }

  /** trailing_bits_valid. */
  method TrailingBitsValid(data: seq<byte>, offset: nat) returns (valid: bool)
    requires offset < |data|
    ensures valid == TrailingBits(data[offset..])
  {
    if data[offset] != 0x80 {
      return false;
    }
    var i := offset + 1;
    while i < |data|
      invariant offset < i <= |data| && forall k | offset < k < i :: data[k] == 0
    {
      if data[i] != 0 {
        assert data[offset..][i - offset] != 0;
        return false;
      }
      i := i + 1;
    }
    return true;
  }

  /** parse_sei_rbsp: the record is handed out only with OK. */
  method ParseSeiRbsp(data: seq<byte>, channel: byte) returns (status: Status, record: Option<Record>)
    ensures status == SeiAt(data, 0, channel, None).status
    ensures status == OK ==> record == SeiAt(data, 0, channel, None).record && record.Some?
    ensures status != OK ==> record == None
  {
    hide MeaningOf, FfAt;
    var offset := 0;
    var found: Option<Record> := None;
    while offset < |data|
      invariant offset <= |data|
      invariant SeiAt(data, 0, channel, None) == SeiAt(data, offset, channel, found)
      decreases |data| - offset
    {
      if data[offset] == 0x80 {
        var valid := TrailingBitsValid(data, offset);
        if !valid {
          return Malformed, None;
        }
        return if found.Some? then OK else NotFound, found;
      }
      var ok, kind, afterKind := ParseFfValue(data, offset);
      if !ok {
        return Malformed, None;
      }
      var okSize, size, start := ParseFfValue(data, afterKind);
      if !okSize || size > |data| - start {
        return Malformed, None;
      }
      var payload := data[start..start + size];
      offset := start + size;
      var meaning := MeaningOf(kind, payload, channel);
      BadIsNotOk(kind, payload, channel);
      match meaning {
        case Skip =>
        case Bad(error) => return error, None;
        case Good(r) =>
          if found.Some? {
            return Malformed, None;
          }
          found := Some(r);
      }
    }
    return Malformed, None;
  }

  lemma BadIsNotOk(kind: nat, payload: seq<byte>, channel: byte)
    ensures MeaningOf(kind, payload, channel).Bad? ==>
            MeaningOf(kind, payload, channel).status !in {OK, NotFound, NotFrame}
  {
  }

  // ----- round trip of SEI messages

  predicate Sendable(ms: seq<Message>) { forall m | m in ms :: m.kind <= MAX_UINT && |m.payload| <= MAX_UINT }

  lemma {:induction false} StopBit(ms: seq<Message>, padding: nat) returns (k: nat)
    ensures k < |EncodeSei(ms, padding)| && EncodeSei(ms, padding)[k] == 0x80
  {
    if ms == [] {
      k := 0;
    } else {
      k := StopBit(ms[1..], padding);
      k := k + |EncodeMessage(ms[0])|;
    }
  }

  lemma FirstByte(kind: nat)
    ensures EncodeFf(kind) != [] && (EncodeFf(kind)[0] == 0x80 <==> kind == 0x80)
  {
  }

  /** One encoded message is read back whole. */
  lemma MessageAt(front: seq<byte>, m: Message, rest: seq<byte>)
    requires m.kind <= MAX_UINT && |m.payload| <= MAX_UINT
    ensures var data := front + (EncodeMessage(m) + rest);
            var b := |front| + |EncodeFf(m.kind)| + |EncodeFf(|m.payload|)|;
            && SlotAt(data, |front|) == Slot(m.kind, b, b + |m.payload|)
            && b + |m.payload| == |front| + |EncodeMessage(m)| <= |data|
            && data[b..b + |m.payload|] == m.payload
            && data[|front|] == EncodeFf(m.kind)[0]
  {
    hide EncodeFf, FfAt;
    var data := front + (EncodeMessage(m) + rest);
    var k, s := EncodeFf(m.kind), EncodeFf(|m.payload|);
    FirstByte(m.kind);
    assert data == front + k + s + m.payload + rest;
    assert data[|front|..|front| + |k|] == k;
    FfRoundTrip(data, |front|, m.kind, 0);
    assert data[|front| + |k|..|front| + |k| + |s|] == s;
    FfRoundTrip(data, |front| + |k|, |m.payload|, 0);
  }

  lemma SeiUnfolds(data: seq<byte>, offset: nat, channel: byte, found: Option<Record>, slot: Slot)
    requires offset < |data| && data[offset] != 0x80 && SlotAt(data, offset) == slot && slot.Slot?
    ensures SeiAt(data, offset, channel, found) ==
            match MeaningOf(slot.kind, data[slot.start..slot.end], channel)
            case Skip => SeiAt(data, slot.end, channel, found)
            case Bad(status) => Found(status, None)
            case Good(r) => if found.Some? then Found(Malformed, None) else SeiAt(data, slot.end, channel, Some(r))
  {
    hide MeaningOf, SlotAt, TrailingBits;
  }

  /** One step of the parser over an encoded message. */
  lemma SeiStep(front: seq<byte>, m: Message, rest: seq<byte>, channel: byte, found: Option<Record>)
    requires m.kind <= MAX_UINT && |m.payload| <= MAX_UINT && m.kind != 0x80
    ensures var data := front + (EncodeMessage(m) + rest);
            var end := |front| + |EncodeMessage(m)|;
            SeiAt(data, |front|, channel, found) ==
            match MeaningOf(m.kind, m.payload, channel)
            case Skip => SeiAt(data, end, channel, found)
            case Bad(status) => Found(status, None)
            case Good(r) => if found.Some? then Found(Malformed, None) else SeiAt(data, end, channel, Some(r))
  {
    hide MeaningOf, EncodeFf, SlotAt, EncodeMessage, SeiAt;
    var data, b := front + (EncodeMessage(m) + rest), |front| + |EncodeFf(m.kind)| + |EncodeFf(|m.payload|)|;
    MessageAt(front, m, rest);
    FirstByte(m.kind);
    SeiUnfolds(data, |front|, channel, found, Slot(m.kind, b, b + |m.payload|));
  }

  lemma SeiEnd(front: seq<byte>, padding: nat, channel: byte, found: Option<Record>)
    ensures SeiAt(front + EncodeSei([], padding), |front|, channel, found)
            == Found(if found.Some? then OK else NotFound, found)
  {
    var data := front + EncodeSei([], padding);
    assert data[|front|..] == EncodeSei([], padding);
    assert data[|front|] == data[|front|..][0] == 0x80;
    assert TrailingBits(data[|front|..]);
  }

  lemma Sei128(front: seq<byte>, ms: seq<Message>, padding: nat, channel: byte, found: Option<Record>)
    requires ms != [] && ms[0].kind == 0x80
    ensures SeiAt(front + EncodeSei(ms, padding), |front|, channel, found) == Found(Malformed, None)
  {
    var m, data := ms[0], front + EncodeSei(ms, padding);
    var k := StopBit(ms[1..], padding);
    assert data[|front|..] == EncodeMessage(m) + EncodeSei(ms[1..], padding);
    assert data[|front|] == data[|front|..][0] == 0x80;
    assert data[|front|..][|EncodeMessage(m)| + k] == 0x80;
    assert !TrailingBits(data[|front|..]);
  }

  /** The parser's verdict on an encoded list of messages is the list's verdict,
      wherever the list stands. */
  lemma {:induction false} SeiRoundTrip(front: seq<byte>, ms: seq<Message>, padding: nat, channel: byte,
                                        found: Option<Record>)
    requires Sendable(ms)
    ensures SeiAt(front + EncodeSei(ms, padding), |front|, channel, found) == Verdict(ms, channel, found)
    decreases |ms|
  {
    hide MeaningOf, EncodeMessage, SeiAt;
    if ms == [] {
      SeiEnd(front, padding, channel, found);
    } else if ms[0].kind == 0x80 {
      Sei128(front, ms, padding, channel, found);
    } else {
      var m, rest := ms[0], EncodeSei(ms[1..], padding);
      assert m in ms && forall n | n in ms[1..] :: n in ms;
      assert front + EncodeSei(ms, padding) == (front + EncodeMessage(m)) + rest == front + (EncodeMessage(m) + rest);
      SeiStep(front, m, rest, channel, found);
      var meaning := MeaningOf(m.kind, m.payload, channel);
      SeiRoundTrip(front + EncodeMessage(m), ms[1..], padding, channel,
                   if meaning.Good? then Some(meaning.record) else found);
    }
  }

  // ----- OK exactly when

  /** One record among skipped messages, as the parser reads each of them. */
  ghost predicate OneGood(ms: seq<Message>, channel: byte, i: nat, r: Record) {
    && i < |ms| && ms[i].kind == REGISTERED_USER_DATA && MeaningOf(ms[i].kind, ms[i].payload, channel) == Good(r)
    && forall k | 0 <= k < |ms| && k != i :: ms[k].kind != 0x80 && MeaningOf(ms[k].kind, ms[k].payload, channel) == Skip
  }

  lemma GoodKind(kind: nat, payload: seq<byte>, channel: byte)
    requires MeaningOf(kind, payload, channel).Good?
    ensures kind == REGISTERED_USER_DATA
  {
  }

  /** With a record in hand, OK means that everything left is skipped. */
  lemma {:induction false} OkAfterFound(ms: seq<Message>, channel: byte, r: Record)
    ensures Verdict(ms, channel, Some(r)) == Found(OK, Some(r))
            <==> forall k | 0 <= k < |ms| :: ms[k].kind != 0x80 && MeaningOf(ms[k].kind, ms[k].payload, channel) == Skip
    ensures Verdict(ms, channel, Some(r)).status == OK ==> Verdict(ms, channel, Some(r)).record == Some(r)
  {
    hide MeaningOf;
    if ms != [] {
      BadIsNotOk(ms[0].kind, ms[0].payload, channel);
      OkAfterFound(ms[1..], channel, r);
      assert forall k | 0 <= k < |ms| - 1 :: ms[k + 1] == ms[1..][k];
      if forall k | 0 <= k < |ms| :: ms[k].kind != 0x80 && MeaningOf(ms[k].kind, ms[k].payload, channel) == Skip {
        assert forall k | 0 <= k < |ms| - 1 :: ms[1..][k] == ms[k + 1];
      } else if ms[0].kind != 0x80 && MeaningOf(ms[0].kind, ms[0].payload, channel) == Skip {
        var k :| 0 <= k < |ms| && !(ms[k].kind != 0x80 && MeaningOf(ms[k].kind, ms[k].payload, channel) == Skip);
        assert ms[1..][k - 1] == ms[k];
      }
    }
  }

  lemma {:induction false} OkMeansOneGood(ms: seq<Message>, channel: byte, r: Record)
    ensures Verdict(ms, channel, None) == Found(OK, Some(r)) <==> exists i :: OneGood(ms, channel, i, r)
  {
    hide MeaningOf;
    if ms == [] {
    } else {
      var tail := ms[1..];
      BadIsNotOk(ms[0].kind, ms[0].payload, channel);
      var meaning := MeaningOf(ms[0].kind, ms[0].payload, channel);
      OkMeansOneGood(tail, channel, r);
      assert forall k | 0 <= k < |tail| :: tail[k] == ms[k + 1];
      if ms[0].kind != 0x80 && meaning == Skip {
        if i: nat :| OneGood(tail, channel, i, r) {
          forall k | 0 <= k < |ms| && k != i + 1
            ensures ms[k].kind != 0x80 && MeaningOf(ms[k].kind, ms[k].payload, channel) == Skip
          {
            if k > 0 { assert tail[k - 1] == ms[k]; }
          }
          assert OneGood(ms, channel, i + 1, r);
        }
        if i: nat :| OneGood(ms, channel, i, r) {
          assert i > 0;
          assert OneGood(tail, channel, i - 1, r);
        }
      } else if ms[0].kind != 0x80 && meaning.Good? {
        GoodKind(ms[0].kind, ms[0].payload, channel);
        OkAfterFound(tail, channel, meaning.record);
        assert forall k | 0 < k < |ms| :: ms[k] == tail[k - 1];
        if Verdict(ms, channel, None) == Found(OK, Some(r)) { assert OneGood(ms, channel, 0, r); }
        if i: nat :| OneGood(ms, channel, i, r) {
          assert i == 0;
        }
      } else {
        assert forall i :: !OneGood(ms, channel, i, r);
      }
    }
  }

  /** A message without interest: not registered user data and not of kind 128, or user
      data of another country or provider without the record's mark. */
  predicate Skipped(m: Message) {
    if m.kind != 4 then m.kind != 128
    else && |m.payload| >= 2 && (m.payload[0] != 255 || m.payload[1] != 193)
         && !(|m.payload| >= 10 && m.payload[2..10] == [71, 83, 84, 83, 89, 78, 67, 49])
  }

  /** A frame-id record of the channel, byte by byte. */
  predicate Carried(m: Message, channel: byte, r: Record) {
    && m.kind == 4 && |m.payload| == 30 && m.payload[0] == 255 && m.payload[1] == 193
    && m.payload[2..10] == [71, 83, 84, 83, 89, 78, 67, 49] && m.payload[10] == 1 && m.payload[11] == channel
    && m.payload[12] == 0 && m.payload[13] == 0
    && r == Record(1, channel, ReadBigEndian(m.payload[14..22]), ReadBigEndian(m.payload[22..30]))
  }

  lemma MeaningIs(m: Message, channel: byte)
    ensures Skipped(m) <==> m.kind != 0x80 && MeaningOf(m.kind, m.payload, channel) == Skip
    ensures forall r :: Carried(m, channel, r) <==> MeaningOf(m.kind, m.payload, channel) == Good(r)
  {
    hide ReadBigEndian;
  }

  /** The i-th message is the record, and all others are without interest. */
  ghost predicate ExactlyOneRecord(ms: seq<Message>, channel: byte, i: nat, r: Record) {
    i < |ms| && Carried(ms[i], channel, r) && forall k | 0 <= k < |ms| && k != i :: Skipped(ms[k])
  }

  /** The SEI parser accepts exactly the lists with one frame-id record for the
      channel, everything else skipped, and no message of kind 128. */
  lemma OkMeansOneRecord(ms: seq<Message>, channel: byte, r: Record)
    ensures Verdict(ms, channel, None) == Found(OK, Some(r)) <==> exists i :: ExactlyOneRecord(ms, channel, i, r)
  {
    hide MeaningOf, Skipped, Carried, Verdict;
    OkMeansOneGood(ms, channel, r);
    forall i: nat
      ensures ExactlyOneRecord(ms, channel, i, r) <==> OneGood(ms, channel, i, r)
    {
      OneRecordIsGood(ms, channel, i, r);
    }
    if i: nat :| OneGood(ms, channel, i, r) { assert ExactlyOneRecord(ms, channel, i, r); }
    if i: nat :| ExactlyOneRecord(ms, channel, i, r) { assert OneGood(ms, channel, i, r); }
  }

  lemma OneRecordIsGood(ms: seq<Message>, channel: byte, i: nat, r: Record)
    ensures ExactlyOneRecord(ms, channel, i, r) <==> OneGood(ms, channel, i, r)
  {
    hide MeaningOf, Skipped, Carried;
    forall k | 0 <= k < |ms|
      ensures Skipped(ms[k]) <==> ms[k].kind != 0x80 && MeaningOf(ms[k].kind, ms[k].payload, channel) == Skip
      ensures Carried(ms[k], channel, r) <==> MeaningOf(ms[k].kind, ms[k].payload, channel) == Good(r)
    {
      MeaningIs(ms[k], channel);
    }
    if i < |ms| && MeaningOf(ms[i].kind, ms[i].payload, channel) == Good(r) {
      GoodKind(ms[i].kind, ms[i].payload, channel);
    }
  }

  /** What the FF reader accepts is the coding of its value. */
  lemma {:induction false} FfReadIsEncoded(data: seq<byte>, offset: nat, sum: nat)
    requires offset <= |data| && FfAt(data, offset, sum).FfOk?
    ensures var r := FfAt(data, offset, sum);
            sum <= r.value <= MAX_UINT && data[offset..r.next] == EncodeFf(r.value - sum)
    decreases |data| - offset
  {
    var r := FfAt(data, offset, sum);
    if data[offset] == 255 {
      FfReadIsEncoded(data, offset + 1, sum + 255);
      assert data[offset..r.next] == [255] + data[offset + 1..r.next];
    }
  }

  lemma SlotIsEncoded(data: seq<byte>, offset: nat)
    requires offset <= |data| && SlotAt(data, offset).Slot?
    ensures var slot := SlotAt(data, offset);
            var m := Message(slot.kind, data[slot.start..slot.end]);
            m.kind <= MAX_UINT && |m.payload| <= MAX_UINT && data[offset..slot.end] == EncodeMessage(m)
  {
    hide FfAt, EncodeFf;
    var kind := FfAt(data, offset, 0);
    var size := FfAt(data, kind.next, 0);
    FfReadIsEncoded(data, offset, 0);
    FfReadIsEncoded(data, kind.next, 0);
    var end := size.next + size.value;
    assert data[offset..end] == data[offset..kind.next] + data[kind.next..size.next] + data[size.next..end];
  }

  /** What the SEI parser accepts, with or without a record, is an encoded list. */
  lemma {:induction false} SeiReadIsEncoded(data: seq<byte>, offset: nat, channel: byte, found: Option<Record>)
    returns (ms: seq<Message>, padding: nat)
    requires offset <= |data| && SeiAt(data, offset, channel, found).status in {OK, NotFound}
    ensures Sendable(ms) && data[offset..] == EncodeSei(ms, padding)
    decreases |data| - offset
  {
    hide MeaningOf, SlotAt, EncodeMessage;
    if data[offset] == 0x80 {
      ms, padding := [], |data| - offset - 1;
      assert data[offset..] == [0x80] + Zeros(padding);
    } else {
      var slot := SlotAt(data, offset);
      var m := Message(slot.kind, data[slot.start..slot.end]);
      SlotIsEncoded(data, offset);
      var meaning := MeaningOf(m.kind, m.payload, channel);
      BadIsNotOk(m.kind, m.payload, channel);
      var rest;
      rest, padding := SeiReadIsEncoded(data, slot.end, channel, if meaning.Good? then Some(meaning.record) else found);
      ms := [m] + rest;
      assert ms[1..] == rest && data[offset..] == data[offset..slot.end] + data[slot.end..];
    }
  }

  /** An encoding of these bytes as a list with exactly one record, the i-th message. */
  ghost predicate Carries(data: seq<byte>, ms: seq<Message>, padding: nat, channel: byte, i: nat, r: Record) {
    Sendable(ms) && data == EncodeSei(ms, padding) && ExactlyOneRecord(ms, channel, i, r)
  }

  /** The bytes the SEI parser takes a record from are exactly the encodings of a list
      with that one record, everything else skipped, and no message of kind 128. */
  lemma OkBytesCarryOneRecord(data: seq<byte>, channel: byte, r: Record)
    ensures SeiAt(data, 0, channel, None) == Found(OK, Some(r))
            <==> exists ms, padding, i :: Carries(data, ms, padding, channel, i, r)
  {
    hide SeiAt, EncodeSei, Verdict, ExactlyOneRecord, Sendable;
    assert [] + data == data && data[0..] == data;
    if SeiAt(data, 0, channel, None) == Found(OK, Some(r)) {
      var ms, padding := SeiReadIsEncoded(data, 0, channel, None);
      SeiRoundTrip([], ms, padding, channel, None);
      OkMeansOneRecord(ms, channel, r);
      var i: nat :| ExactlyOneRecord(ms, channel, i, r);
      assert Carries(data, ms, padding, channel, i, r);
    }
    if ms, padding, i :| Carries(data, ms, padding, channel, i, r) {
      SeiRoundTrip([], ms, padding, channel, None);
      OkMeansOneRecord(ms, channel, r);
    }
  }

  /** A message of kind 128, which the standard allows, is fatal: such an SEI never
      parses, although without that message it might. */
  lemma {:induction false} Kind128NeverParses(ms: seq<Message>, channel: byte, found: Option<Record>, i: nat)
    requires i < |ms| && ms[i].kind == 0x80
    ensures Verdict(ms, channel, found).status !in {OK, NotFound}
    decreases |ms|
  {
    hide MeaningOf;
    BadIsNotOk(ms[0].kind, ms[0].payload, channel);
    if i > 0 {
      assert ms[1..][i - 1] == ms[i];
      Kind128NeverParses(ms[1..], channel, found, i - 1);
      var meaning := MeaningOf(ms[0].kind, ms[0].payload, channel);
      if meaning.Good? { Kind128NeverParses(ms[1..], channel, Some(meaning.record), i - 1); }
    }
  }

  // ----- Annex B framing

  /** The length of the start code at a position, 0 where there is none. */
  function CodeAt(data: seq<byte>, i: nat): (n: nat)
    ensures n == 0 || (3 <= n <= 4 && i + n <= |data|)
  {
    if i + 4 <= |data| && data[i] == 0 && data[i + 1] == 0 && data[i + 2] == 0 && data[i + 3] == 1 then 4
    else if i + 3 <= |data| && data[i] == 0 && data[i + 1] == 0 && data[i + 2] == 1 then 3
    else 0
  }

  /** The first start code from a position on, or the end. */
  function NextCode(data: seq<byte>, from: nat): (p: nat)
    requires from <= |data|
    ensures from <= p <= |data| && (p < |data| ==> CodeAt(data, p) > 0)
    decreases |data| - from
  {
    if from == |data| || CodeAt(data, from) > 0 then from else NextCode(data, from + 1)
  }

  lemma {:induction false} NextCodeIs(data: seq<byte>, from: nat, p: nat)
    requires from <= p <= |data| && (p < |data| ==> CodeAt(data, p) > 0)
    requires forall i | from <= i < p :: CodeAt(data, i) == 0
    ensures NextCode(data, from) == p
    decreases p - from
  {
    if from < p { NextCodeIs(data, from + 1, p); }
  }

  method FindStartCode(data: seq<byte>, from: nat) returns (found: bool, position: nat, length: nat)
    requires from <= |data|
    ensures found <==> NextCode(data, from) < |data|
    ensures found ==> position == NextCode(data, from) && length == CodeAt(data, position)
  {
    var i := from;
    while i + 3 <= |data|
      invariant from <= i <= |data| && forall k | from <= k < i :: CodeAt(data, k) == 0
    {
      if i + 4 <= |data| && data[i] == 0 && data[i + 1] == 0 && data[i + 2] == 0 && data[i + 3] == 1 {
        NextCodeIs(data, from, i);
        return true, i, 4;
      }
      if data[i] == 0 && data[i + 1] == 0 && data[i + 2] == 1 {
        NextCodeIs(data, from, i);
        return true, i, 3;
      }
      i := i + 1;
    }
    NextCodeIs(data, from, |data|);
    return false, 0, 0;
  }

  /** The NAL units from a start code on. */
  function NalList(data: seq<byte>, p: nat): seq<seq<byte>>
    requires p < |data| && CodeAt(data, p) > 0
    decreases |data| - p
  {
    var start := p + CodeAt(data, p);
    var next := NextCode(data, start);
    [data[start..next]] + if next < |data| then NalList(data, next) else []
  }

  function StartCode(n: nat): seq<byte> { if n == 4 then [0, 0, 0, 1] else [0, 0, 1] }

  /** NAL units, each behind a start code of 3 or 4 bytes. */
  function Frame(nals: seq<seq<byte>>, codes: seq<nat>): seq<byte>
    requires |nals| == |codes|
  {
    if nals == [] then [] else StartCode(codes[0]) + nals[0] + Frame(nals[1..], codes[1..])
  }

  /** A NAL unit that can be framed: no start code inside, and not ending in a zero. */
  predicate Framable(nal: seq<byte>) { nal != [] && Clean(nal, 0) && nal[|nal| - 1] != 0 }

  lemma {:induction false} CleanAt(s: seq<byte>, zeros: nat, i: nat)
    requires Clean(s, zeros) && i + 2 < |s| && s[i] == 0 && s[i + 1] == 0
    ensures s[i + 2] > 2
  {
    if i == 0 {
      assert s[1..][0] == 0 && s[1..][1..][0] == s[2];
      assert Clean(s[1..][1..], Run(Run(zeros, 0), 0));
    } else {
      CleanAt(s[1..], Run(zeros, s[0]), i - 1);
    }
  }

  /** No start code begins inside a framable NAL unit, whatever follows. */
  lemma NoCodeInside(data: seq<byte>, start: nat, nal: seq<byte>, i: nat)
    requires Framable(nal) && start + |nal| <= |data| && data[start..start + |nal|] == nal && start <= i < start + |nal|
    ensures CodeAt(data, i) == 0
  {
    var k := i - start;
    assert forall j | 0 <= j < |nal| :: data[start + j] == nal[j];
    if k + 2 < |nal| {
      if nal[k] == 0 && nal[k + 1] == 0 { CleanAt(nal, 0, k); }
    } else {
      assert nal[|nal| - 1] == data[start + |nal| - 1] != 0;
    }
  }

  lemma CodeHere(front: seq<byte>, code: nat, rest: seq<byte>)
    ensures CodeAt(front + StartCode(code) + rest, |front|) == |StartCode(code)|
  {
    var data, c := front + StartCode(code) + rest, StartCode(code);
    assert forall k | 0 <= k < |c| :: data[|front| + k] == c[k];
  }

  /** The first NAL unit behind a start code ends where the data or the next code does. */
  lemma FirstNal(front: seq<byte>, code: nat, nal: seq<byte>, rest: seq<byte>)
    requires Framable(nal)
    requires var data := front + StartCode(code) + nal + rest;
             rest == [] || CodeAt(data, |front| + |StartCode(code)| + |nal|) > 0
    ensures var data := front + StartCode(code) + nal + rest;
            var start := |front| + |StartCode(code)|;
            && CodeAt(data, |front|) == |StartCode(code)|
            && NextCode(data, start) == start + |nal| && data[start..start + |nal|] == nal
  {
    hide Framable, CodeAt, NextCode;
    var data := front + StartCode(code) + nal + rest;
    var start := |front| + |StartCode(code)|;
    assert data == front + StartCode(code) + (nal + rest);
    CodeHere(front, code, nal + rest);
    assert data[start..start + |nal|] == nal;
    forall i | start <= i < start + |nal|
      ensures CodeAt(data, i) == 0
    {
      NoCodeInside(data, start, nal, i);
    }
    NextCodeIs(data, start, start + |nal|);
  }

  /** Splitting undoes framing. */
  lemma {:induction false} SplitUndoesFrame(front: seq<byte>, nals: seq<seq<byte>>, codes: seq<nat>)
    requires |nals| == |codes| && nals != [] && forall nal | nal in nals :: Framable(nal)
    ensures var data := front + Frame(nals, codes);
            |front| < |data| && CodeAt(data, |front|) == |StartCode(codes[0])| && NalList(data, |front|) == nals
    decreases |nals|
  {
    hide Framable, Frame, CodeAt, NextCode, StartCode;
    var data, nal, code := front + Frame(nals, codes), nals[0], codes[0];
    var rest := Frame(nals[1..], codes[1..]);
    assert nal in nals;
    FrameUnfolds(nals, codes);
    assert data == front + StartCode(code) + nal + rest;
    if |nals| == 1 {
      assert rest == [] by { FrameOfNothing(nals[1..], codes[1..]); }
      FirstNal(front, code, nal, rest);
      CodeLength(code);
      assert NalList(data, |front|) == [nal];
    } else {
      assert forall n | n in nals[1..] :: n in nals;
      SplitUndoesFrame(front + StartCode(code) + nal, nals[1..], codes[1..]);
      CodeLength(codes[1]);
      FirstNal(front, code, nal, rest);
      CodeLength(code);
      assert NalList(data, |front|) == [nal] + nals[1..];
    }
  }

  lemma CodeLength(code: nat)
    ensures |StartCode(code)| >= 3
  {
  }

  lemma FrameUnfolds(nals: seq<seq<byte>>, codes: seq<nat>)
    requires |nals| == |codes| && nals != []
    ensures Frame(nals, codes) == StartCode(codes[0]) + nals[0] + Frame(nals[1..], codes[1..])
  {
  }

  lemma FrameOfNothing(nals: seq<seq<byte>>, codes: seq<nat>)
    requires |nals| == |codes| == 0
    ensures Frame(nals, codes) == []
  {
  }

  // ----- access units

  function NalType(nal: seq<byte>): nat
    requires nal != []
  {
    nal[0] / 2 % 64
  }

  predicate ValidHeader(nal: seq<byte>) { |nal| >= 2 && nal[0] < 0x80 && nal[1] % 8 != 0 }

  predicate IsSei(nal: seq<byte>)
    requires nal != []
  {
    NalType(nal) == 39 || NalType(nal) == 40
  }

  /** What one NAL unit tells the parser: an error, a record, or nothing. */
  function NalMeaning(nal: seq<byte>, channel: byte): Found {
    if !ValidHeader(nal) then Found(Malformed, None)
    else if !IsSei(nal) then Found(NotFound, None)
    else
      match Unescape(nal[2..], 0)
      case None => Found(Malformed, None)
      case Some(rbsp) => SeiAt(rbsp, 0, channel, None)
  }

  /** The verdict on the NAL units still to read. */
  function NalsVerdict(nals: seq<seq<byte>>, channel: byte, found: Option<Record>, hasVcl: bool): Found {
    if nals == [] then
      if found.Some? then (if hasVcl then Found(OK, found) else Found(Malformed, None))
      else Found(if hasVcl then NotFound else NotFrame, None)
    else
      var meaning := NalMeaning(nals[0], channel);
      var vcl := hasVcl || (ValidHeader(nals[0]) && NalType(nals[0]) <= 31);
      if meaning.status == OK then
        if found.Some? then Found(Malformed, None) else NalsVerdict(nals[1..], channel, meaning.record, vcl)
      else if meaning.status == NotFound then NalsVerdict(nals[1..], channel, found, vcl)
      else Found(meaning.status, None)
  }

  /** rtsp_frame_id_parse_au as a function. */
  function AuVerdict(data: seq<byte>, channel: byte): Found {
    if |data| < 5 then Found(Malformed, None)
    else
      var p := NextCode(data, 0);
      if p == |data| || exists k :: 0 <= k < p && data[k] != 0 then Found(Malformed, None)
      else NalsVerdict(NalList(data, p), channel, None, false)
  }

  /** One NAL unit of the parser's loop. */
  method ParseNal(nal: seq<byte>, channel: byte) returns (status: Status, record: Option<Record>, vcl: bool)
    ensures status == NalMeaning(nal, channel).status
    ensures status == OK ==> record == NalMeaning(nal, channel).record && record.Some?
    ensures vcl == (ValidHeader(nal) && NalType(nal) <= 31)
  {
    if |nal| < 2 {
      return Malformed, None, false;
    }
    if nal[0] >= 0x80 || nal[1] % 8 == 0 {
      return Malformed, None, false;
    }
    vcl := nal[0] / 2 % 64 <= 31;
    if nal[0] / 2 % 64 != 39 && nal[0] / 2 % 64 != 40 {
      return NotFound, None, vcl;
    }
    var ok, rbsp := UnescapeRbsp(nal[2..]);
    if !ok {
      return Malformed, None, vcl;
    }
    status, record := ParseSeiRbsp(rbsp, channel);
  }

  /** rtsp_frame_id_parse_au: the record is changed only with OK. */
  method ParseAu(data: seq<byte>, channel: byte, record0: Record) returns (status: Status, record: Record)
    ensures status == AuVerdict(data, channel).status
    ensures if status == OK then AuVerdict(data, channel).record == Some(record) else record == record0
  {
    hide NalMeaning, CodeAt, ValidHeader;
    record := record0;
    if |data| < 5 {
      return Malformed, record0;
    }
    var has, position, length := FindStartCode(data, 0);
    if !has {
      return Malformed, record0;
    }
    var leading := 0;
    while leading < position
      invariant leading <= position && forall k | 0 <= k < leading :: data[k] == 0
    {
      if data[leading] != 0 {
        return Malformed, record0;
      }
      leading := leading + 1;
    }
    var found: Option<Record> := None;
    var hasVcl := false;
    var hasNext := true;
    while hasNext
      invariant hasNext ==> position < |data| && CodeAt(data, position) == length > 0
      invariant AuVerdict(data, channel) ==
                NalsVerdict(if hasNext then NalList(data, position) else [], channel, found, hasVcl)
      decreases if hasNext then |data| - position + 1 else 0
    {
      var start := position + length;
      var more, next, nextLength := FindStartCode(data, start);
      var end := if more then next else |data|;
      ghost var nals := NalList(data, position);
      assert nals[0] == data[start..end] && nals[1..] == if more then NalList(data, end) else [];
      var result, candidate, vcl := ParseNal(data[start..end], channel);
      hasVcl := hasVcl || vcl;
      if result == OK {
        if found.Some? {
          return Malformed, record0;
        }
        found := candidate;
      } else if result != NotFound {
        return result, record0;
      }
      hasNext, position, length := more, next, nextLength;
    }
    if found.Some? && !hasVcl {
      return Malformed, record0;
    }
    if found.Some? {
      return OK, found.value;
    }
    return if hasVcl then NotFound else NotFrame, record0;
  }

  // ----- the whole round trip

  /** An SEI NAL unit with this header and these messages. */
  function SeiUnit(h0: byte, h1: byte, ms: seq<Message>): seq<byte> { [h0, h1] + Escape(EncodeSei(ms, 0), 0) }

  /** The one the server inserts: prefix SEI, layer 0. */
  function SeiNal(ms: seq<Message>): seq<byte> { SeiUnit(0x4e, 0x01, ms) }

  /** A header of a prefix or suffix SEI. */
  predicate SeiHeader(h0: byte, h1: byte) { (h0 / 2 == 39 || h0 / 2 == 40) && h1 % 8 != 0 }

  /** Messages without interest, of lengths and kinds that can be coded. */
  predicate Quiet(ms: seq<Message>) { Sendable(ms) && forall m | m in ms :: Skipped(m) }

  /** A NAL unit the parser passes over, by its bytes: anything that is not SEI, such as
      a coded slice, or an SEI of messages without interest. */
  ghost predicate Passed(nal: seq<byte>) {
    && |nal| >= 2 && nal[0] < 128 && nal[1] % 8 != 0
    && if nal[0] / 2 == 39 || nal[0] / 2 == 40 then exists ms :: Quiet(ms) && nal == SeiUnit(nal[0], nal[1], ms)
       else Framable(nal)
  }

  lemma PassedHeader(nal: seq<byte>)
    requires Passed(nal)
    ensures ValidHeader(nal) && nal != [] && (NalType(nal) <= 31 <==> nal[0] < 64)
  {
  }

  lemma PassedOver(nal: seq<byte>, channel: byte)
    requires Passed(nal)
    ensures Framable(nal) && NalMeaning(nal, channel).status == NotFound
  {
    hide Framable, Skipped, Sendable, Escape, EncodeSei;
    if nal[0] / 2 == 39 || nal[0] / 2 == 40 {
      var ms :| Quiet(ms) && nal == SeiUnit(nal[0], nal[1], ms);
      SeiUnitMeaning(nal[0], nal[1], ms, channel);
      VerdictSkips(ms, [], channel, None);
      assert ms + [] == ms;
    } else {
      NotSeiMeansNothing(nal, channel);
    }
  }

  lemma NotSeiMeansNothing(nal: seq<byte>, channel: byte)
    requires |nal| >= 2 && nal[0] < 128 && nal[1] % 8 != 0 && nal[0] / 2 != 39 && nal[0] / 2 != 40
    ensures NalMeaning(nal, channel).status == NotFound
  {
  }

  /** Messages without interest do not matter. */
  lemma {:induction false} VerdictSkips(quiet: seq<Message>, rest: seq<Message>, channel: byte, found: Option<Record>)
    requires forall m | m in quiet :: Skipped(m)
    ensures Verdict(quiet + rest, channel, found) == Verdict(rest, channel, found)
    decreases |quiet|
  {
    hide MeaningOf, Skipped;
    if quiet == [] {
      assert quiet + rest == rest;
    } else {
      assert quiet[0] in quiet && forall m | m in quiet[1..] :: m in quiet;
      MeaningIs(quiet[0], channel);
      VerdictSkips(quiet[1..], rest, channel, found);
      assert (quiet + rest)[0] == quiet[0] && (quiet + rest)[1..] == quiet[1..] + rest;
    }
  }

  lemma {:induction false} EscapeKeepsLast(s: seq<byte>, zeros: nat)
    requires s != []
    ensures Escape(s, zeros) != [] && Escape(s, zeros)[|Escape(s, zeros)| - 1] == s[|s| - 1]
  {
    if |s| > 1 {
      EscapeKeepsLast(s[1..], if zeros >= 2 && s[0] <= 3 then Run(0, s[0]) else Run(zeros, s[0]));
    }
  }

  lemma {:induction false} SeiEndsInStopBit(ms: seq<Message>)
    ensures EncodeSei(ms, 0) != [] && EncodeSei(ms, 0)[|EncodeSei(ms, 0)| - 1] == 0x80
  {
    if ms != [] { SeiEndsInStopBit(ms[1..]); }
  }

  lemma CleanBehind(s: seq<byte>)
    requires s != [] && s[0] != 0 && Clean(s[1..], 0)
    ensures Clean(s, 0)
  {
  }

  /** The SEI NAL unit can be framed, and means what its messages mean. */
  lemma SeiUnitMeaning(h0: byte, h1: byte, ms: seq<Message>, channel: byte)
    requires SeiHeader(h0, h1) && Sendable(ms)
    ensures var nal := SeiUnit(h0, h1, ms);
            Framable(nal) && ValidHeader(nal) && IsSei(nal) && NalMeaning(nal, channel) == Verdict(ms, channel, None)
  {
    hide EncodeSei, Verdict, SeiAt, Escape, Unescape, Sendable, Clean;
    var e := EncodeSei(ms, 0);
    var nal := SeiUnit(h0, h1, ms);
    SeiEndsInStopBit(ms);
    EscapeKeepsLast(e, 0);
    EscapedIsClean(e, 0);
    UnescapeUndoesEscape(e, 0);
    assert nal[2..] == Escape(e, 0) == nal[1..][1..];
    CleanBehind(nal[1..]);
    CleanBehind(nal);
    SeiRoundTrip([], ms, 0, channel, None);
    assert [] + e == e;
  }

  /** A coded slice is among the NAL units. */
  ghost predicate HasVcl(nals: seq<seq<byte>>) { exists n :: n in nals && n != [] && n[0] < 64 }

  /** Such NAL units are passed over; only whether one was coded video matters. */
  lemma {:induction false} PassedTo(passed: seq<seq<byte>>, rest: seq<seq<byte>>, channel: byte,
                                    found: Option<Record>, hasVcl: bool)
    requires forall n | n in passed :: Passed(n)
    ensures NalsVerdict(passed + rest, channel, found, hasVcl)
            == NalsVerdict(rest, channel, found, hasVcl || HasVcl(passed))
    decreases |passed|
  {
    hide Framable, ValidHeader, NalType, NalMeaning, Passed;
    if passed == [] {
      assert passed + rest == rest;
    } else {
      var n := passed[0];
      assert n in passed && Passed(n);
      assert (passed + rest)[1..] == passed[1..] + rest;
      assert forall k | k in passed[1..] :: k in passed;
      PassedHeader(n);
      PassedOver(n, channel);
      var vcl := hasVcl || NalType(n) <= 31;
      PassedTo(passed[1..], rest, channel, found, vcl);
      assert HasVcl(passed) <==> n[0] < 64 || HasVcl(passed[1..]) by {
        assert forall k :: k in passed <==> k == n || k in passed[1..];
      }
    }
  }

  lemma NalsRoundTrip(before: seq<seq<byte>>, sei: seq<byte>, after: seq<seq<byte>>, channel: byte)
    requires (forall n | n in before :: Passed(n)) && (forall n | n in after :: Passed(n))
    requires HasVcl(before) || HasVcl(after)
    requires ValidHeader(sei) && IsSei(sei)
    requires var m := NalMeaning(sei, channel);
             (if m.status == OK then m.record.Some? else m.record == None) && m.status != NotFrame
    ensures NalsVerdict(before + [sei] + after, channel, None, false) == NalMeaning(sei, channel)
  {
    hide Passed, ValidHeader, NalType, NalMeaning, HasVcl, NalsVerdict;
    var meaning := NalMeaning(sei, channel);
    var found := if meaning.status == OK then meaning.record else None;
    PassedTo(before, [sei] + after, channel, None, false);
    assert before + [sei] + after == before + ([sei] + after);
    NothingLeft(channel, found);
    SeiPassed(sei, after, channel, HasVcl(before));
    PassedTo(after, [], channel, found, HasVcl(before));
    assert after + [] == after;
  }

  lemma NothingLeft(channel: byte, found: Option<Record>)
    ensures NalsVerdict([], channel, found, true) == Found(if found.Some? then OK else NotFound, found)
  {
  }

  lemma SeiPassed(sei: seq<byte>, after: seq<seq<byte>>, channel: byte, vcl: bool)
    requires ValidHeader(sei) && IsSei(sei)
    ensures var m := NalMeaning(sei, channel);
            NalsVerdict([sei] + after, channel, None, vcl) ==
            if m.status == OK then NalsVerdict(after, channel, m.record, vcl)
            else if m.status == NotFound then NalsVerdict(after, channel, None, vcl)
            else Found(m.status, None)
  {
    hide NalMeaning;
    assert ([sei] + after)[1..] == after;
  }

  lemma AuOfFrame(nals: seq<seq<byte>>, codes: seq<nat>, channel: byte, nal: seq<byte>)
    requires |nals| == |codes| && (forall n | n in nals :: Framable(n)) && nal in nals && |nal| >= 2
    ensures AuVerdict(Frame(nals, codes), channel) == NalsVerdict(nals, channel, None, false)
  {
    hide Framable, Frame, NalList, CodeAt, NextCode, NalsVerdict;
    var data := Frame(nals, codes);
    assert [] + data == data;
    SplitUndoesFrame([], nals, codes);
    CodeLength(codes[0]);
    NextCodeIs(data, 0, 0);
    LongEnough(nals, codes, nal);
  }

  /** The verdict on an access unit with one SEI among coded slices, however
      framed, is the verdict on its messages. */
  lemma AuRoundTrip(before: seq<seq<byte>>, ms: seq<Message>, after: seq<seq<byte>>, codes: seq<nat>, channel: byte)
    requires Sendable(ms) && |codes| == |before| + 1 + |after|
    requires (forall n | n in before :: Passed(n)) && (forall n | n in after :: Passed(n))
    requires HasVcl(before) || HasVcl(after)
    ensures AuVerdict(Frame(before + [SeiNal(ms)] + after, codes), channel) == Verdict(ms, channel, None)
  {
    hide Framable, ValidHeader, Frame, Verdict, NalMeaning, HasVcl, AuVerdict, IsSei, Sendable, NalsVerdict;
    hide Passed, SeiUnit;
    var sei := SeiNal(ms);
    SeiUnitMeaning(0x4e, 0x01, ms, channel);
    VerdictShape(ms, channel, None);
    assert |sei| >= 2 by { SeiNalLength(ms); }
    UnitsOfSei(before, sei, after, codes, channel);
    NalsRoundTrip(before, sei, after, channel);
  }

  lemma SeiNalLength(ms: seq<Message>)
    ensures |SeiNal(ms)| >= 2
  {
  }

  lemma {:induction false} VerdictShape(ms: seq<Message>, channel: byte, found: Option<Record>)
    ensures var v := Verdict(ms, channel, found);
            (if v.status == OK then v.record.Some? else v.record == None) && v.status != NotFrame
    decreases |ms|
  {
    hide MeaningOf;
    if ms != [] {
      BadIsNotOk(ms[0].kind, ms[0].payload, channel);
      var meaning := MeaningOf(ms[0].kind, ms[0].payload, channel);
      VerdictShape(ms[1..], channel, if meaning.Good? then Some(meaning.record) else found);
    }
  }

  lemma {:induction false} LongEnough(nals: seq<seq<byte>>, codes: seq<nat>, nal: seq<byte>)
    requires |nals| == |codes| && nal in nals && |nal| >= 2
    ensures |Frame(nals, codes)| >= 5
    decreases |nals|
  {
    FrameUnfolds(nals, codes);
    if nals[0] != nal { LongEnough(nals[1..], codes[1..], nal); }
  }

  /** The messages of the server's SEI, with others around. */
  lemma VerdictOfOne(first: seq<Message>, m: Message, last: seq<Message>, channel: byte)
    requires (forall n | n in first :: Skipped(n)) && (forall n | n in last :: Skipped(n)) && m.kind != 0x80
    ensures Verdict(first + [m] + last, channel, None) ==
            match MeaningOf(m.kind, m.payload, channel)
            case Skip => Found(NotFound, None)
            case Bad(status) => Found(status, None)
            case Good(r) => Found(OK, Some(r))
  {
    hide MeaningOf, Skipped;
    assert first + [m] + last == first + ([m] + last);
    VerdictSkips(first, [m] + last, channel, None);
    assert ([m] + last)[1..] == last && last + [] == last;
    var meaning := MeaningOf(m.kind, m.payload, channel);
    VerdictSkips(last, [], channel, if meaning.Good? then Some(meaning.record) else None);
  }

  /** What becomes of one message of registered user data, by its bytes, in any access
      unit with a coded slice, between any other messages and NAL units without interest. */
  lemma UserDataStatus(before: seq<seq<byte>>, first: seq<Message>, p: seq<byte>, last: seq<Message>,
                       after: seq<seq<byte>>, codes: seq<nat>, channel: byte)
    requires |codes| == |before| + 1 + |after| && |p| <= MAX_UINT && Quiet(first) && Quiet(last)
    requires (forall n | n in before :: Passed(n)) && (forall n | n in after :: Passed(n))
    requires HasVcl(before) || HasVcl(after)
    ensures var mark := [71, 83, 84, 83, 89, 78, 67, 49];
            AuVerdict(Frame(before + [SeiNal(first + [Message(4, p)] + last)] + after, codes), channel)
            == if |p| < 2 then Found(Malformed, None)
               else if p[0] != 255 || p[1] != 193 then
                 if |p| >= 10 && p[2..10] == mark then Found(WrongIdentity, None) else Found(NotFound, None)
               else if |p| != 30 then Found(Malformed, None)
               else if p[2..10] != mark || p[12] != 0 || p[13] != 0 then Found(WrongIdentity, None)
               else if p[10] != 1 then Found(WrongVersion, None)
               else if p[11] != channel then Found(WrongChannel, None)
               else Found(OK, Some(Record(1, channel, ReadBigEndian(p[14..22]), ReadBigEndian(p[22..30]))))
  {
    hide Passed, Frame, AuVerdict, HasVcl, SeiNal, Skipped, ReadBigEndian, Verdict;
    var ms := first + [Message(4, p)] + last;
    assert forall m | m in ms :: m in first || m == Message(4, p) || m in last;
    AuRoundTrip(before, ms, after, codes, channel);
    VerdictOfOne(first, Message(4, p), last, channel);
  }

  /** The server's record, in any access unit with a coded slice, between any messages and
      NAL units without interest, is what the parser returns: for any channel, frame id
      and timestamp. */
  lemma FrameIdRoundTrip(before: seq<seq<byte>>, first: seq<Message>, last: seq<Message>, after: seq<seq<byte>>,
                         codes: seq<nat>, channel: byte, frameId: nat, originPts: nat)
    requires |codes| == |before| + 1 + |after| && Quiet(first) && Quiet(last)
    requires (forall n | n in before :: Passed(n)) && (forall n | n in after :: Passed(n))
    requires HasVcl(before) || HasVcl(after)
    requires frameId < Power256(8) && originPts < Power256(8)
    ensures var sei := SeiNal(first + [Message(4, Payload(channel, frameId, originPts))] + last);
            AuVerdict(Frame(before + [sei] + after, codes), channel)
            == Found(OK, Some(Record(1, channel, frameId, originPts)))
  {
    hide Passed, Frame, AuVerdict, Payload, HasVcl, SeiNal, Power256, Quiet, BigEndian, ReadBigEndian;
    UserDataStatus(before, first, Payload(channel, frameId, originPts), last, after, codes, channel);
    PayloadFields(channel, frameId, originPts);
    BigEndianRoundTrip(frameId, 8);
    BigEndianRoundTrip(originPts, 8);
  }

  /** The same access unit read for another channel is refused as such. */
  lemma OtherChannelRefused(before: seq<seq<byte>>, first: seq<Message>, last: seq<Message>, after: seq<seq<byte>>,
                            codes: seq<nat>, channel: byte, other: byte, frameId: nat, originPts: nat)
    requires |codes| == |before| + 1 + |after| && other != channel && Quiet(first) && Quiet(last)
    requires (forall n | n in before :: Passed(n)) && (forall n | n in after :: Passed(n))
    requires HasVcl(before) || HasVcl(after)
    ensures var sei := SeiNal(first + [Message(4, Payload(channel, frameId, originPts))] + last);
            AuVerdict(Frame(before + [sei] + after, codes), other) == Found(WrongChannel, None)
  {
    hide Passed, Frame, AuVerdict, Payload, HasVcl, SeiNal, Quiet, BigEndian, ReadBigEndian;
    UserDataStatus(before, first, Payload(channel, frameId, originPts), last, after, codes, other);
    PayloadFields(channel, frameId, originPts);
  }

  /** Without a message of the record's an access unit has no record; whether it is a
      frame at all depends on a coded slice. */
  lemma NothingOfInterest(nals: seq<seq<byte>>, codes: seq<nat>, channel: byte)
    requires |nals| == |codes| && nals != [] && forall n | n in nals :: Passed(n)
    ensures AuVerdict(Frame(nals, codes), channel) == Found(if HasVcl(nals) then NotFound else NotFrame, None)
  {
    hide Passed, Frame, AuVerdict, HasVcl, NalMeaning, Framable;
    forall n | n in nals
      ensures Framable(n) && |n| >= 2
    {
      PassedOver(n, channel);
      assert |n| >= 2 by { PassedLength(n); }
    }
    AuOfFrame(nals, codes, channel, nals[0]);
    PassedTo(nals, [], channel, None, false);
    assert nals + [] == nals;
  }

  lemma PassedLength(nal: seq<byte>)
    requires Passed(nal)
    ensures |nal| >= 2
  {
  }

  lemma UnitsOfSei(before: seq<seq<byte>>, sei: seq<byte>, after: seq<seq<byte>>, codes: seq<nat>, channel: byte)
    requires |codes| == |before| + 1 + |after| && Framable(sei) && |sei| >= 2
    requires (forall n | n in before :: Passed(n)) && (forall n | n in after :: Passed(n))
    ensures AuVerdict(Frame(before + [sei] + after, codes), channel)
            == NalsVerdict(before + [sei] + after, channel, None, false)
  {
    hide Passed, Frame, AuVerdict, NalsVerdict, NalMeaning, Framable;
    var nals := before + [sei] + after;
    forall n | n in nals
      ensures Framable(n)
    {
      assert n in before || n == sei || n in after;
      if n != sei { PassedOver(n, channel); }
    }
    assert nals[|before|] == sei;
    AuOfFrame(nals, codes, channel, sei);
  }

  lemma NalsWithoutVideo(before: seq<seq<byte>>, sei: seq<byte>, after: seq<seq<byte>>, channel: byte)
    requires (forall n | n in before :: Passed(n)) && (forall n | n in after :: Passed(n))
    requires !HasVcl(before) && !HasVcl(after) && ValidHeader(sei) && IsSei(sei)
    requires NalMeaning(sei, channel).status == OK && NalMeaning(sei, channel).record.Some?
    ensures NalsVerdict(before + [sei] + after, channel, None, false) == Found(Malformed, None)
  {
    hide Passed, HasVcl, NalMeaning, ValidHeader, NalType, NalsVerdict;
    var found := NalMeaning(sei, channel).record;
    PassedTo(before, [sei] + after, channel, None, false);
    assert before + [sei] + after == before + ([sei] + after);
    SeiPassed(sei, after, channel, false);
    PassedTo(after, [], channel, found, false);
    assert after + [] == after;
    NoVideo(channel, found);
  }

  lemma NoVideo(channel: byte, found: Option<Record>)
    requires found.Some?
    ensures NalsVerdict([], channel, found, false) == Found(Malformed, None)
  {
  }

  lemma SecondSei(sei: seq<byte>, after: seq<seq<byte>>, channel: byte, found: Option<Record>, vcl: bool)
    requires NalMeaning(sei, channel).status == OK && found.Some?
    ensures NalsVerdict([sei] + after, channel, found, vcl) == Found(Malformed, None)
  {
    hide NalMeaning;
  }

  lemma NalsWithTwo(before: seq<seq<byte>>, a: seq<byte>, between: seq<seq<byte>>, b: seq<byte>, after: seq<seq<byte>>,
                    channel: byte)
    requires (forall n | n in before :: Passed(n)) && (forall n | n in between :: Passed(n))
    requires ValidHeader(a) && IsSei(a) && NalMeaning(a, channel).status == OK && NalMeaning(a, channel).record.Some?
    requires NalMeaning(b, channel).status == OK
    ensures NalsVerdict(before + ([a] + (between + ([b] + after))), channel, None, false) == Found(Malformed, None)
  {
    hide Passed, HasVcl, NalMeaning, ValidHeader, NalType, NalsVerdict;
    var found := NalMeaning(a, channel).record;
    var rest := between + ([b] + after);
    PassedTo(before, [a] + rest, channel, None, false);
    SeiPassed(a, rest, channel, HasVcl(before));
    PassedTo(between, [b] + after, channel, found, HasVcl(before));
    SecondSei(b, after, channel, found, HasVcl(before) || HasVcl(between));
  }

  lemma ServerHeader(ms: seq<Message>)
    ensures SeiHeader(0x4e, 0x01) && SeiNal(ms) == SeiUnit(0x4e, 0x01, ms)
  {
  }

  /** A record without coded video is refused. */
  lemma RecordNeedsVideo(before: seq<seq<byte>>, ms: seq<Message>, after: seq<seq<byte>>, codes: seq<nat>,
                         channel: byte)
    requires Sendable(ms) && |codes| == |before| + 1 + |after| && Verdict(ms, channel, None).status == OK
    requires (forall n | n in before :: Passed(n)) && (forall n | n in after :: Passed(n))
    requires !HasVcl(before) && !HasVcl(after)
    ensures AuVerdict(Frame(before + [SeiNal(ms)] + after, codes), channel) == Found(Malformed, None)
  {
    hide *;
    var sei := SeiNal(ms);
    assert SeiHeader(0x4e, 0x01) && sei == SeiUnit(0x4e, 0x01, ms) by { ServerHeader(ms); }
    SeiUnitMeaning(0x4e, 0x01, ms, channel);
    VerdictShape(ms, channel, None);
    SeiNalLength(ms);
    UnitsOfSei(before, sei, after, codes, channel);
    NalsWithoutVideo(before, sei, after, channel);
  }

  lemma FramableParts(x: seq<seq<byte>>, a: seq<byte>, y: seq<seq<byte>>, b: seq<byte>, z: seq<seq<byte>>, n: seq<byte>)
    requires (forall n | n in x :: Passed(n)) && (forall n | n in y :: Passed(n)) && (forall n | n in z :: Passed(n))
    requires Framable(a) && Framable(b) && n in x + ([a] + (y + ([b] + z)))
    ensures Framable(n)
  {
    hide *;
    assert n in x || n == a || n in y || n == b || n in z;
    if n != a && n != b { PassedOver(n, 0); }
  }

  /** So is a second record in another SEI. */
  lemma SecondRecordRefused(before: seq<seq<byte>>, one: seq<Message>, between: seq<seq<byte>>, two: seq<Message>,
                            after: seq<seq<byte>>, nals: seq<seq<byte>>, codes: seq<nat>, channel: byte)
    requires Sendable(one) && Sendable(two) && |codes| == |nals|
    requires Verdict(one, channel, None).status == OK && Verdict(two, channel, None).status == OK
    requires (forall n | n in before :: Passed(n)) && (forall n | n in between :: Passed(n))
    requires forall n | n in after :: Passed(n)
    requires nals == before + ([SeiNal(one)] + (between + ([SeiNal(two)] + after)))
    ensures AuVerdict(Frame(nals, codes), channel) == Found(Malformed, None)
  {
    hide *;
    var a, b := SeiNal(one), SeiNal(two);
    assert SeiHeader(0x4e, 0x01) && a == SeiUnit(0x4e, 0x01, one) by { ServerHeader(one); }
    assert b == SeiUnit(0x4e, 0x01, two) by { ServerHeader(two); }
    SeiUnitMeaning(0x4e, 0x01, one, channel);
    SeiUnitMeaning(0x4e, 0x01, two, channel);
    VerdictShape(one, channel, None);
    forall n | n in nals
      ensures Framable(n)
    {
      FramableParts(before, a, between, b, after, n);
    }
    assert nals[|before|] == a;
    SeiNalLength(one);
    AuOfFrame(nals, codes, channel, a);
    NalsWithTwo(before, a, between, b, after, channel);
  }
}
