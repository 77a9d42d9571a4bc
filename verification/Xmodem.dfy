/** Packets of the XMODEM / XMODEM-1K sender of the module flasher, a receiver that follows Forsberg's
    XMODEM/YMODEM Protocol Reference, and a link that loses, damages and delays as an arbitrary script tells
    it to. */
module Xmodem {

  import opened Bits
  import opened Crc
  import opened Wrappers

  const SOH: Byte := 0x01
  const STX: Byte := 0x02
  const EOT: Byte := 0x04
  const ACK: Byte := 0x06
  const NAK: Byte := 0x15
  const CAN: Byte := 0x18
  const PAD: Byte := 0x1A

  // ---------------------------------------------------------------------------
  // Packets
  // ---------------------------------------------------------------------------

  function Sum(block: seq<Byte>): nat {
    if block == [] then 0 else Sum(block[..|block| - 1]) + block[|block| - 1]
  }

  /** The trailer of a packet: CRC-16, high byte first, or the byte sum. */
  function Trailer(block: seq<Byte>, useCrc: bool): (t: seq<Byte>)
    ensures |t| == if useCrc then 2 else 1
  {
    if useCrc then [Crc16(block) / 0x100 % 0x100, Crc16(block) % 0x100] else [Sum(block) % 0x100]
  }

  /** `build_xmodem_packet`; a block of the wrong size raises. */
  function BuildPacket(block: seq<Byte>, packetNo: nat, useCrc: bool, blockSize: nat): Option<seq<Byte>> {
    if |block| != blockSize then None
    else
      var number: Byte := packetNo % 0x100;
      Some([if blockSize == 128 then SOH else STX, number, 0xFF - number] + block + Trailer(block, useCrc))
  }

  // ---------------------------------------------------------------------------
  // The receiver of the protocol reference
  // ---------------------------------------------------------------------------

  datatype Input = Bad | Data(number: nat, block: seq<Byte>) | EndOfFile

  predicate TrailerOk(body: seq<Byte>, size: nat, useCrc: bool)
    requires |body| == size + if useCrc then 2 else 1
  {
    if useCrc then Crc16(body) == 0 else Sum(body[..size]) % 0x100 == body[size]
  }

  /** What a receiver makes of the bytes of one transmission. */
  function Parse(bytes: seq<Byte>, useCrc: bool): Input {
    if bytes == [EOT] then EndOfFile
    else if |bytes| < 3 || (bytes[0] != SOH && bytes[0] != STX) || bytes[1] as int + bytes[2] as int != 0xFF then Bad
    else
      var size := if bytes[0] == SOH then 128 else 1024;
      if |bytes| == 3 + size + (if useCrc then 2 else 1) && TrailerOk(bytes[3..], size, useCrc)
      then Data(bytes[1], bytes[3..3 + size])
      else Bad
  }

  type Answer = b: nat | b == 0x06 || b == 0x15 || b == 0x18 witness 0x06

  datatype Receiver = Receiver(expected: nat, stored: seq<Byte>, finished: bool)

  /** The expected block is stored; a repeat of the previous one is acknowledged and dropped;
      any other number is a fatal loss of synchronisation. */
  function Receive(r: Receiver, input: Input): (Receiver, Answer) {
    match input
    case Bad => (r, NAK)
    case EndOfFile => (r.(finished := true), ACK)
    case Data(number, block) =>
      if number == r.expected then
        (r.(expected := (r.expected + 1) % 0x100, stored := r.stored + block), ACK)
      else if (number + 1) % 0x100 == r.expected then (r, ACK)
      else (r, CAN)
  }

  // ---------------------------------------------------------------------------
  // The link
  // ---------------------------------------------------------------------------

  /** What becomes of one write: it arrives, is lost, is lost with the receiver timing out and
      asking again, arrives damaged, or the receiver gives up. */
  datatype Fate = Arrives | Lost | ReceiverTimesOut | Damaged(bytes: seq<Byte>) | ReceiverAborts

  /** One write and the read after it. The answer to the write may be lost; otherwise it joins the answers that
      are under way. `taken` of these arrive in time, in one chunk after some console text. */
  datatype Event = Event(fate: Fate, answerLost: bool, taken: nat,
                         text: seq<seq<Byte>>, before: seq<Byte>, after: seq<Byte>)

  /** An answer under way and the packet that it answers, by its place in the transfer. */
  datatype Reply = Reply(answer: Answer, packet: nat)

  /** `heard` is what was read after each write so far, -1 for nothing. `arrived` are the packets of which a write
      has arrived. `stale` tells whether an answer has been read that
      was not to the packet last written, `early` whether an ACK has been heard for a packet of which no write
      had arrived. */
  datatype Link = Link(script: nat -> Event, heard: seq<int>, receiver: Receiver, pending: seq<Reply>,
                       arrived: set<nat>, stale: bool, early: bool)

  predicate IsProtocolByte(b: Byte) {
    b == ACK || b == NAK || b == CAN
  }

  predicate IsText(bytes: seq<Byte>) {
    forall b | b in bytes :: !IsProtocolByte(b)
  }

  /** Console text holds no protocol byte, and the receiver sees that damaged bytes are damaged. */
  ghost predicate Honest(e: Event, useCrc: bool) {
    && (forall chunk | chunk in e.text :: IsText(chunk))
    && IsText(e.before) && IsText(e.after)
    && (e.fate.Damaged? ==> Parse(e.fate.bytes, useCrc).Bad?)
  }

  function Transmit(r: Receiver, bytes: seq<Byte>, fate: Fate, useCrc: bool): (Receiver, Option<Answer>) {
    match fate
    case Arrives => var (r', a) := Receive(r, Parse(bytes, useCrc)); (r', Some(a))
    case Lost => (r, None)
    case ReceiverTimesOut => (r, Some(NAK))
    case Damaged(other) => var (r', a) := Receive(r, Parse(other, useCrc)); (r', Some(a))
    case ReceiverAborts => (r, Some(CAN))
  }

  /** The answers under way once the receiver has dealt with a write of the packet. */
  function Queue(link: Link, bytes: seq<Byte>, useCrc: bool, packet: nat): seq<Reply> {
    var e := link.script(|link.heard|);
    var a := Transmit(link.receiver, bytes, e.fate, useCrc).1;
    link.pending + if a.Some? && !e.answerLost then [Reply(a.value, packet)] else []
  }

  function Taken(queue: seq<Reply>, e: Event): (n: nat)
    ensures n <= |queue|
  {
    if e.taken < |queue| then e.taken else |queue|
  }

  /** One write and one read: the first of the answers that arrive is heard and those behind it are thrown away
      with their chunk; the others stay under way. */
  function Exchange(link: Link, bytes: seq<Byte>, useCrc: bool, packet: nat): (int, Link) {
    var e := link.script(|link.heard|);
    var queue := Queue(link, bytes, useCrc, packet);
    var n := Taken(queue, e);
    var arrived := link.arrived + if e.fate.Arrives? then {packet} else {};
    var response := if n == 0 then -1 else queue[0].answer;
    (response,
     Link(link.script, link.heard + [response], Transmit(link.receiver, bytes, e.fate, useCrc).0, queue[n..], arrived,
          link.stale || (n > 0 && queue[0].packet != packet),
          link.early || (n > 0 && queue[0].answer == ACK && packet !in arrived)))
  }

  function Answers(queue: seq<Reply>): (bytes: seq<Byte>)
    ensures |bytes| == |queue| && forall i | 0 <= i < |queue| :: bytes[i] == queue[i].answer
  {
    seq(|queue|, i requires 0 <= i < |queue| => queue[i].answer)
  }

  function Heard(e: Event, queue: seq<Reply>): seq<seq<Byte>> {
    if queue == [] then e.text else e.text + [e.before + Answers(queue) + e.after]
  }

  /** The index of the first protocol byte of `bytes`, or its length. */
  function FirstAnswer(bytes: seq<Byte>): (i: nat)
    ensures i <= |bytes|
    ensures i < |bytes| ==> IsProtocolByte(bytes[i])
    ensures IsText(bytes[..i])
  {
    if bytes == [] || IsProtocolByte(bytes[0]) then 0
    else
      var i := FirstAnswer(bytes[1..]);
      assert bytes[..i + 1] == [bytes[0]] + bytes[1..][..i];
      i + 1
  }

  function Flatten(chunks: seq<seq<Byte>>): seq<Byte> {
    if chunks == [] then [] else chunks[0] + Flatten(chunks[1..])
  }

  /** `_read_xmodem_response`: the first protocol byte read before the timeout, or -1. */
  method ReadResponse(chunks: seq<seq<Byte>>) returns (response: int)
    ensures var bytes := Flatten(chunks); var i := FirstAnswer(bytes);
            response == if i < |bytes| then bytes[i] else -1
  {
    var c := 0;
    while c < |chunks|
      invariant c <= |chunks|
      invariant forall k | 0 <= k < c :: IsText(chunks[k])
    {
      var i := 0;
      while i < |chunks[c]|
        invariant i <= |chunks[c]|
        invariant IsText(chunks[c][..i])
      {
        if IsProtocolByte(chunks[c][i]) {
          FirstAnswerAt(chunks, c, i);
          return chunks[c][i];
        }
        i := i + 1;
      }
      assert chunks[c][..|chunks[c]|] == chunks[c];
      c := c + 1;
    }
    AllText(chunks);
    return -1;
  }

  lemma {:induction false} AllText(chunks: seq<seq<Byte>>)
    requires forall k | 0 <= k < |chunks| :: IsText(chunks[k])
    ensures IsText(Flatten(chunks)) && FirstAnswer(Flatten(chunks)) == |Flatten(chunks)|
  {
    if chunks != [] {
      AllText(chunks[1..]);
    }
  }

  lemma {:induction false} FirstAnswerAt(chunks: seq<seq<Byte>>, c: nat, i: nat)
    requires c < |chunks| && i < |chunks[c]| && IsProtocolByte(chunks[c][i])
    requires (forall k | 0 <= k < c :: IsText(chunks[k])) && IsText(chunks[c][..i])
    ensures var bytes := Flatten(chunks); var f := FirstAnswer(bytes); f < |bytes| && bytes[f] == chunks[c][i]
  {
    if c == 0 {
      FirstAnswerIs(chunks[0] + Flatten(chunks[1..]), i);
    } else {
      FirstAnswerAt(chunks[1..], c - 1, i);
      var rest := Flatten(chunks[1..]);
      var f := FirstAnswer(rest);
      var bytes := chunks[0] + rest;
      assert bytes[..|chunks[0]| + f] == chunks[0] + rest[..f];
      FirstAnswerIs(bytes, |chunks[0]| + f);
    }
  }

  lemma {:induction false} FirstAnswerIs(bytes: seq<Byte>, i: nat)
    requires i < |bytes| && IsProtocolByte(bytes[i]) && IsText(bytes[..i])
    ensures FirstAnswer(bytes) == i
  {
    if i > 0 {
      assert bytes[0] in bytes[..i];
      assert bytes[1..][..i - 1] == bytes[..i][1..];
      FirstAnswerIs(bytes[1..], i - 1);
    }
  }

  lemma FirstHeard(e: Event, queue: seq<Reply>, useCrc: bool)
    requires Honest(e, useCrc)
    ensures var bytes := Flatten(Heard(e, queue)); var i := FirstAnswer(bytes);
            if queue == [] then i == |bytes| else i < |bytes| && bytes[i] == queue[0].answer
  {
    if queue == [] {
      AllText(e.text);
    } else {
      var last := e.before + Answers(queue) + e.after;
      assert last[..|e.before|] == e.before && last[|e.before|] == queue[0].answer;
      FirstAnswerAt(e.text + [last], |e.text|, |e.before|);
    }
  }

  method WriteAndRead(bytes: seq<Byte>, useCrc: bool, packet: nat, link0: Link) returns (response: int, link: Link)
    requires Honest(link0.script(|link0.heard|), useCrc)
    ensures (response, link) == Exchange(link0, bytes, useCrc, packet)
  {
    var e := link0.script(|link0.heard|);
    var queue := Queue(link0, bytes, useCrc, packet);
    var n := Taken(queue, e);
    FirstHeard(e, queue[..n], useCrc);
    hide Honest, Transmit, Parse, FirstAnswer, Flatten, Queue;
    response := ReadResponse(Heard(e, queue[..n]));
    link := Exchange(link0, bytes, useCrc, packet).1;
  }

  // ---------------------------------------------------------------------------
  // What the receiver recognises
  // ---------------------------------------------------------------------------

  /** Packets survive the trip: parsing a built packet gives back its number and block. */
  lemma ParseBuilt(block: seq<Byte>, packetNo: nat, useCrc: bool, blockSize: nat)
    requires |block| == blockSize && (blockSize == 128 || blockSize == 1024)
    ensures Parse(BuildPacket(block, packetNo, useCrc, blockSize).value, useCrc) == Data(packetNo % 0x100, block)
  {
    hide Crc16, Sum, TrailerOk, Trailer;
    var packet := BuildPacket(block, packetNo, useCrc, blockSize).value;
    assert packet[3..] == block + Trailer(block, useCrc);
    assert packet[3..3 + blockSize] == block;
    OwnTrailer(block, useCrc);
  }

  lemma OwnTrailer(block: seq<Byte>, useCrc: bool)
    ensures TrailerOk(block + Trailer(block, useCrc), |block|, useCrc)
  {
    if useCrc {
      OwnCrc(block);
    } else {
      hide Crc16, Sum;
      assert (block + Trailer(block, useCrc))[..|block|] == block;
    }
  }

  lemma OwnCrc(block: seq<Byte>)
    ensures Crc16(block + Trailer(block, true)) == 0
  {
    CrcBits(block);
    hide Crc16, Serial, MessageBits, ToBits;
    var r := Crc16(block);
    assert r == 0x100 * (r / 0x100 % 0x100) + r % 0x100;
    CrcResidue(block, r / 0x100 % 0x100, r % 0x100);
  }

  /** Damage to a CRC packet inside any 16 consecutive bits after its header is noticed. */
  lemma BurstIsBad(block: seq<Byte>, packetNo: nat, blockSize: nat, bytes: seq<Byte>, start: int)
    requires |block| == blockSize && (blockSize == 128 || blockSize == 1024)
    requires var packet := BuildPacket(block, packetNo, true, blockSize).value;
             && |bytes| == |packet| && bytes[..3] == packet[..3] && bytes != packet
             && AgreeOutside(bytes[3..], packet[3..], start)
    ensures Parse(bytes, true) == Bad
  {
    hide Crc16, AgreeOutside;
    var packet := BuildPacket(block, packetNo, true, blockSize).value;
    assert packet[3..] == block + Trailer(block, true);
    assert bytes == bytes[..3] + bytes[3..] && packet == packet[..3] + packet[3..];
    CrcBits(block);
    CrcResidue(block, Crc16(block) / 0x100 % 0x100, Crc16(block) % 0x100);
    BurstDetected(bytes[3..], packet[3..], start);
    assert bytes[0] == bytes[..3][0] && bytes[1] == bytes[..3][1] && bytes[2] == bytes[..3][2];
  }

  lemma {:induction false} SumConcat(a: seq<Byte>, b: seq<Byte>)
    ensures Sum(a + b) == Sum(a) + Sum(b)
  {
    if b == [] {
      assert a + b == a;
    } else {
      SumConcat(a, b[..|b| - 1]);
      assert (a + b)[..|a + b| - 1] == a + b[..|b| - 1];
    }
  }

  /** The sum without one of the bytes. */
  lemma SumSplits(block: seq<Byte>, at: nat)
    requires at < |block|
    ensures Sum(block) == Sum(block[..at]) + block[at] + Sum(block[at + 1..])
  {
    assert block == block[..at] + [block[at]] + block[at + 1..];
    assert Sum([block[at]]) == block[at] by { assert [block[at]][..0] == []; }
    SumConcat(block[..at], [block[at]]);
    SumConcat(block[..at] + [block[at]], block[at + 1..]);
  }

  /** Changing one byte of a block changes its checksum. */
  lemma SumNotices(block: seq<Byte>, at: nat, value: Byte)
    requires at < |block| && value != block[at]
    ensures Sum(block[at := value]) % 0x100 != Sum(block) % 0x100
  {
    SumSplits(block, at);
    SumSplits(block[at := value], at);
    assert block[at := value][..at] == block[..at] && block[at := value][at + 1..] == block[at + 1..];
    hide Sum;
    assert Sum(block[at := value]) - Sum(block) == value as int - block[at] as int;
  }

  /** Damage to one of the two number bytes is noticed in either mode. */
  lemma NumberDamageIsBad(block: seq<Byte>, packetNo: nat, useCrc: bool, blockSize: nat, at: nat, value: Byte)
    requires |block| == blockSize && (blockSize == 128 || blockSize == 1024)
    requires at == 1 || at == 2
    requires var packet := BuildPacket(block, packetNo, useCrc, blockSize).value; packet[at] != value
    ensures var packet := BuildPacket(block, packetNo, useCrc, blockSize).value;
            Parse(packet[at := value], useCrc) == Bad
  {
  }

  /** Damage to the first byte changes the size that the receiver waits for. */
  lemma HeaderDamageIsBad(block: seq<Byte>, packetNo: nat, useCrc: bool, blockSize: nat, value: Byte)
    requires |block| == blockSize && (blockSize == 128 || blockSize == 1024)
    requires var packet := BuildPacket(block, packetNo, useCrc, blockSize).value; packet[0] != value
    ensures var packet := BuildPacket(block, packetNo, useCrc, blockSize).value;
            Parse(packet[0 := value], useCrc) == Bad
  {
    hide Trailer, TrailerOk;
  }

  lemma ChecksumDamageIsBad(block: seq<Byte>, packetNo: nat, blockSize: nat, at: nat, value: Byte)
    requires |block| == blockSize && (blockSize == 128 || blockSize == 1024)
    requires 3 <= at < 4 + blockSize
    requires var packet := BuildPacket(block, packetNo, false, blockSize).value; packet[at] != value
    ensures var packet := BuildPacket(block, packetNo, false, blockSize).value;
            Parse(packet[at := value], false) == Bad
  {
    var packet := BuildPacket(block, packetNo, false, blockSize).value;
    var bytes := packet[at := value];
    if at < 3 + blockSize {
      SumNotices(block, at - 3, value);
      assert bytes[3..][..blockSize] == block[at - 3 := value];
    } else {
      assert bytes[3..][..blockSize] == block;
    }
    hide Sum;
  }

  /** Strings that differ in one byte agree outside its bits. */
  lemma {:induction false} OneByteApart(a: seq<Byte>, at: nat, value: Byte)
    requires at < |a|
    ensures AgreeOutside(a[at := value], a, 8 * at)
  {
    hide MessageBits;
    var n, b := |a| - 1, a[at := value];
    LastByteBits(a);
    LastByteBits(b);
    if at < n {
      OneByteApart(a[..n], at, value);
      assert b[..n] == a[..n][at := value];
    } else {
      assert b[..n] == a[..n];
    }
    forall i | 0 <= i < 8 * |a| && !(8 * at <= i < 8 * at + 16) ensures MessageBits(b)[i] == MessageBits(a)[i] {
      if i < 8 * n {
        assert MessageBits(b)[..8 * n][i] == MessageBits(a)[..8 * n][i];
      } else {
        assert MessageBits(b)[8 * n..][i - 8 * n] == MessageBits(a)[8 * n..][i - 8 * n];
      }
    }
  }

  /** Damage to any single byte of a packet is noticed, in either mode. */
  lemma OneByteIsBad(block: seq<Byte>, packetNo: nat, useCrc: bool, blockSize: nat, at: nat, value: Byte)
    requires |block| == blockSize && (blockSize == 128 || blockSize == 1024)
    requires var packet := BuildPacket(block, packetNo, useCrc, blockSize).value; at < |packet| && packet[at] != value
    ensures var packet := BuildPacket(block, packetNo, useCrc, blockSize).value;
            Parse(packet[at := value], useCrc) == Bad
  {
    hide Parse, Trailer;
    if at == 0 {
      HeaderDamageIsBad(block, packetNo, useCrc, blockSize, value);
    } else if at < 3 {
      NumberDamageIsBad(block, packetNo, useCrc, blockSize, at, value);
    } else if useCrc {
      var packet := BuildPacket(block, packetNo, true, blockSize).value;
      var bytes := packet[at := value];
      assert bytes[3..] == packet[3..][at - 3 := value] && bytes[..3] == packet[..3];
      assert bytes[at] != packet[at];
      OneByteApart(packet[3..], at - 3, value);
      BurstIsBad(block, packetNo, blockSize, bytes, 8 * (at - 3));
    } else {
      ChecksumDamageIsBad(block, packetNo, blockSize, at, value);
    }
  }
}
