/** The XMODEM sender: its retries, the transfer of an image, and what the receiver ends up with. */
module XmodemSender {

  import opened Arithmetic
  import opened Bits
  import opened Wrappers
  import opened Xmodem

  // ---------------------------------------------------------------------------
  // The loops
  // ---------------------------------------------------------------------------

  datatype Result = Sent | Unanswered | Aborted

  /** Writing a packet up to `n` times until it is acknowledged or the receiver cancels. */
  function Retried(link: Link, bytes: seq<Byte>, useCrc: bool, packet: nat, n: nat): (Result, Link)
    decreases n
  {
    if n == 0 then (Unanswered, link)
    else
      var (response, next) := Exchange(link, bytes, useCrc, packet);
      if response == ACK then (Sent, next)
      else if response == CAN then (Aborted, next)
      else Retried(next, bytes, useCrc, packet, n - 1)
  }

  /** The link after `j` exchanges of a packet, whatever is answered. */
  function Exchanged(link: Link, bytes: seq<Byte>, useCrc: bool, packet: nat, j: nat): Link {
    if j == 0 then link else Exchange(Exchanged(link, bytes, useCrc, packet, j - 1), bytes, useCrc, packet).1
  }

  predicate Decides(response: int) {
    response == ACK || response == CAN
  }

  /** The packet was written `j` times; only what was read after the last write may be ACK or CAN, and it tells the
      result; without either the packet was written `n` times. */
  ghost predicate StopsAfter(link: Link, bytes: seq<Byte>, useCrc: bool, packet: nat, n: nat, result: Result, l: Link,
                             j: nat)
  {
    && j <= n && l == Exchanged(link, bytes, useCrc, packet, j)
    && |l.heard| == |link.heard| + j && l.heard[..|link.heard|] == link.heard
    && (forall i | |link.heard| <= i < |l.heard| - 1 :: !Decides(l.heard[i]))
    && (result.Sent? <==> j > 0 && l.heard[|l.heard| - 1] == ACK)
    && (result.Aborted? <==> j > 0 && l.heard[|l.heard| - 1] == CAN)
    && (result.Unanswered? ==> j == n)
  }

  ghost predicate Stops(link: Link, bytes: seq<Byte>, useCrc: bool, packet: nat, n: nat, result: Result, l: Link) {
    exists j: nat :: StopsAfter(link, bytes, useCrc, packet, n, result, l, j)
  }

  lemma {:induction false} ExchangedNext(link: Link, bytes: seq<Byte>, useCrc: bool, packet: nat, j: nat)
    ensures Exchanged(link, bytes, useCrc, packet, j + 1) ==
            Exchanged(Exchange(link, bytes, useCrc, packet).1, bytes, useCrc, packet, j)
  {
    hide Exchange;
    if j > 0 {
      ExchangedNext(link, bytes, useCrc, packet, j - 1);
    }
  }

  lemma ExchangeHeard(link: Link, bytes: seq<Byte>, useCrc: bool, packet: nat)
    ensures var (response, l) := Exchange(link, bytes, useCrc, packet); l.heard == link.heard + [response]
  {
  }

  lemma StopsAtOnce(link: Link, bytes: seq<Byte>, useCrc: bool, packet: nat, n: nat, result: Result)
    requires n > 0
    requires var response := Exchange(link, bytes, useCrc, packet).0;
             Decides(response) && result == if response == ACK then Sent else Aborted
    ensures StopsAfter(link, bytes, useCrc, packet, n, result, Exchange(link, bytes, useCrc, packet).1, 1)
  {
    ExchangeHeard(link, bytes, useCrc, packet);
    assert Exchanged(link, bytes, useCrc, packet, 0) == link;
    hide Exchange;
    var next := Exchange(link, bytes, useCrc, packet).1;
    assert next.heard[..|link.heard|] == link.heard;
  }

  lemma StopsLater(link: Link, bytes: seq<Byte>, useCrc: bool, packet: nat, n: nat, result: Result, l: Link, j: nat)
    requires n > 0 && !Decides(Exchange(link, bytes, useCrc, packet).0)
    requires StopsAfter(Exchange(link, bytes, useCrc, packet).1, bytes, useCrc, packet, n - 1, result, l, j)
    ensures StopsAfter(link, bytes, useCrc, packet, n, result, l, j + 1)
  {
    ExchangeHeard(link, bytes, useCrc, packet);
    ExchangedNext(link, bytes, useCrc, packet, j);
    hide Exchange, Exchanged;
    var (response, next) := Exchange(link, bytes, useCrc, packet);
    var before := |link.heard|;
    assert l.heard[..before] == next.heard[..before] == link.heard;
    assert l.heard[before] == next.heard[before] == response;
  }

  /** The retries stop at the first ACK or CAN and not before. */
  lemma {:induction false} RetriedStops(link: Link, bytes: seq<Byte>, useCrc: bool, packet: nat, n: nat)
    ensures var (result, l) := Retried(link, bytes, useCrc, packet, n);
            Stops(link, bytes, useCrc, packet, n, result, l)
    decreases n
  {
    var (result, l) := Retried(link, bytes, useCrc, packet, n);
    if n == 0 {
      assert StopsAfter(link, bytes, useCrc, packet, n, Unanswered, link, 0);
    } else {
      hide Exchange, StopsAfter;
      var (response, next) := Exchange(link, bytes, useCrc, packet);
      if Decides(response) {
        StopsAtOnce(link, bytes, useCrc, packet, n, result);
      } else {
        RetriedStops(next, bytes, useCrc, packet, n - 1);
        var j: nat :| StopsAfter(next, bytes, useCrc, packet, n - 1, result, l, j);
        StopsLater(link, bytes, useCrc, packet, n, result, l, j);
      }
    }
  }

  ghost predicate AllHonest(script: nat -> Event, useCrc: bool) {
    forall i: nat :: Honest(script(i), useCrc)
  }

  function Pads(n: nat): (p: seq<Byte>)
    ensures |p| == n && forall i | 0 <= i < n :: p[i] == PAD
  {
    seq(n, i => PAD)
  }

  /** How much of the image is in the block at `offset`. */
  function CountAt(image: seq<Byte>, offset: nat, bs: nat): (count: nat)
    requires offset < |image|
    ensures offset + count <= |image| && count <= bs && (bs > 0 ==> count > 0)
  {
    if bs < |image| - offset then bs else |image| - offset
  }

  /** The block at `offset`, padded when it is the last. */
  function BlockFrom(image: seq<Byte>, offset: nat, bs: nat): (block: seq<Byte>)
    requires offset < |image|
    ensures |block| == bs
  {
    image[offset..offset + CountAt(image, offset, bs)] + Pads(bs - CountAt(image, offset, bs))
  }

  function PacketAt(image: seq<Byte>, offset: nat, packetNo: nat, useCrc: bool, bs: nat): seq<Byte>
    requires offset < |image|
  {
    BuildPacket(BlockFrom(image, offset, bs), packetNo, useCrc, bs).value
  }

  /** The blocks from `offset` on, one after the other; `k` blocks have gone before. */
  function Transferred(image: seq<Byte>, useCrc: bool, m: nat, bs: nat, link: Link, offset: nat, packetNo: nat, k: nat):
      (Result, nat, Link)
    requires bs > 0 && offset <= |image|
    decreases |image| - offset
  {
    if offset == |image| then (Sent, packetNo, link)
    else
      var (result, next) := Retried(link, PacketAt(image, offset, packetNo, useCrc, bs), useCrc, k, m);
      if result.Sent?
      then
        var then' := offset + CountAt(image, offset, bs);
        Transferred(image, useCrc, m, bs, next, then', (packetNo + 1) % 0x100, k + 1)
      else (result, packetNo, next)
  }

  lemma TransferredStep(image: seq<Byte>, useCrc: bool, m: nat, bs: nat, link: Link, offset: nat, packetNo: nat, k: nat,
                        result: Result, next: Link)
    requires bs > 0 && offset < |image|
    requires (result, next) == Retried(link, PacketAt(image, offset, packetNo, useCrc, bs), useCrc, k, m)
    ensures Transferred(image, useCrc, m, bs, link, offset, packetNo, k) ==
            if result.Sent?
            then
              var then' := offset + CountAt(image, offset, bs);
              Transferred(image, useCrc, m, bs, next, then', (packetNo + 1) % 0x100, k + 1)
            else (result, packetNo, next)
  {
  }

  lemma TransferredEnd(image: seq<Byte>, useCrc: bool, m: nat, bs: nat, link: Link, packetNo: nat, k: nat)
    requires bs > 0
    ensures Transferred(image, useCrc, m, bs, link, |image|, packetNo, k) == (Sent, packetNo, link)
  {
  }

  datatype Outcome = Delivered | PacketFailed(packetNo: nat) | Cancelled | CancelledAtEot | EotFailed

  function Blocks(image: seq<Byte>, bs: nat): nat
    requires bs > 0
  {
    (|image| + bs - 1) / bs
  }

  /** The whole transfer, from the first block to the end byte. */
  function Delivery(image: seq<Byte>, useCrc: bool, m: nat, bs: nat, link: Link): (Outcome, Link)
    requires bs > 0
  {
    var (result, packetNo, across) := Transferred(image, useCrc, m, bs, link, 0, 1, 0);
    match result
    case Aborted => (Cancelled, across)
    case Unanswered => (PacketFailed(packetNo), across)
    case Sent =>
      var (last, end) := Retried(across, [EOT], useCrc, Blocks(image, bs), m);
      (match last case Sent => Delivered case Aborted => CancelledAtEot case Unanswered => EotFailed, end)
  }

  lemma RetriedScript(link: Link, bytes: seq<Byte>, useCrc: bool, packet: nat, n: nat)
    ensures var l := Retried(link, bytes, useCrc, packet, n).1;
            && l.script == link.script && |link.heard| <= |l.heard| <= |link.heard| + n
            && l.arrived <= link.arrived + {packet} && (link.early ==> l.early)
    decreases n
  {
    if n > 0 {
      var next := Exchange(link, bytes, useCrc, packet).1;
      RetriedScript(next, bytes, useCrc, packet, n - 1);
    }
  }

  /** The retry loop of one block. */
  method SendBlock(block: seq<Byte>, packetNo: nat, useCrc: bool, maxRetries: nat, blockSize: nat,
                   link0: Link, packet: nat)
    returns (result: Result, link: Link)
    requires |block| == blockSize && AllHonest(link0.script, useCrc)
    ensures (result, link) ==
            Retried(link0, BuildPacket(block, packetNo, useCrc, blockSize).value, useCrc, packet, maxRetries)
    ensures var bytes := BuildPacket(block, packetNo, useCrc, blockSize).value;
            Stops(link0, bytes, useCrc, packet, maxRetries, result, link)
  {
    hide Exchange, Honest, Stops;
    link := link0;
    var bytes := BuildPacket(block, packetNo, useCrc, blockSize).value;
    RetriedStops(link0, bytes, useCrc, packet, maxRetries);
    for retry := 0 to maxRetries
      invariant link.script == link0.script
      invariant Retried(link0, bytes, useCrc, packet, maxRetries) ==
                Retried(link, bytes, useCrc, packet, maxRetries - retry)
    {
      assert Honest(link.script(|link.heard|), useCrc);
      ExchangeScript(link, bytes, useCrc, packet);
      var response;
      response, link := WriteAndRead(bytes, useCrc, packet, link);
      if response == ACK {
        return Sent, link;
      } else if response == CAN {
        return Aborted, link;
      }
    }
    return Unanswered, link;
  }

  lemma ExchangeScript(link: Link, bytes: seq<Byte>, useCrc: bool, packet: nat)
    ensures Exchange(link, bytes, useCrc, packet).1.script == link.script
  {
  }

  /** The retry loop of the end-of-transmission byte. */
  method SendEot(useCrc: bool, maxRetries: nat, link0: Link, packet: nat) returns (outcome: Outcome, link: Link)
    requires AllHonest(link0.script, useCrc)
    ensures var (result, l) := Retried(link0, [EOT], useCrc, packet, maxRetries);
            && link == l
            && outcome == match result
                          case Sent => Delivered case Aborted => CancelledAtEot case Unanswered => EotFailed
    ensures var result := if outcome.Delivered? then Sent else if outcome.CancelledAtEot? then Aborted else Unanswered;
            Stops(link0, [EOT], useCrc, packet, maxRetries, result, link)
  {
    hide Exchange, Honest, Stops;
    link := link0;
    RetriedStops(link0, [EOT], useCrc, packet, maxRetries);
    for retry := 0 to maxRetries
      invariant link.script == link0.script
      invariant Retried(link0, [EOT], useCrc, packet, maxRetries) ==
                Retried(link, [EOT], useCrc, packet, maxRetries - retry)
    {
      assert Honest(link.script(|link.heard|), useCrc);
      ExchangeScript(link, [EOT], useCrc, packet);
      var response;
      response, link := WriteAndRead([EOT], useCrc, packet, link);
      if response == ACK {
        return Delivered, link;
      }
      if response == CAN {
        return CancelledAtEot, link;
      }
    }
    return EotFailed, link;
  }

  /** The loop over the blocks. */
  method SendBlocks(image: seq<Byte>, useCrc: bool, maxRetries: nat, blockSize: nat, link0: Link)
    returns (result: Result, packetNo: nat, link: Link)
    requires blockSize > 0 && AllHonest(link0.script, useCrc)
    ensures (result, packetNo, link) == Transferred(image, useCrc, maxRetries, blockSize, link0, 0, 1, 0)
    ensures link.script == link0.script
  {
    hide *;
    packetNo, result, link := 1, Sent, link0;
    var offset: nat, packets: nat := 0, 0;
    ghost var whole := Transferred(image, useCrc, maxRetries, blockSize, link0, 0, 1, 0);
    while offset < |image|
      invariant offset <= |image| && link.script == link0.script && result == Sent
      invariant whole == Transferred(image, useCrc, maxRetries, blockSize, link, offset, packetNo, packets)
    {
      ghost var before := link;
      result, link := SendNext(image, offset, packetNo, useCrc, maxRetries, blockSize, link, packets);
      TransferredStep(image, useCrc, maxRetries, blockSize, before, offset, packetNo, packets, result, link);
      if !result.Sent? {
        return;
      }
      offset, packetNo, packets := offset + CountAt(image, offset, blockSize), (packetNo + 1) % 0x100, packets + 1;
    }
    TransferredEnd(image, useCrc, maxRetries, blockSize, link, packetNo, packets);
  }

  /** The block at `offset`: cut out, padded, and sent. */
  method SendNext(image: seq<Byte>, offset: nat, packetNo: nat, useCrc: bool, maxRetries: nat, blockSize: nat,
                  link0: Link, packet: nat)
    returns (result: Result, link: Link)
    requires offset < |image| && AllHonest(link0.script, useCrc)
    ensures (result, link) ==
            Retried(link0, PacketAt(image, offset, packetNo, useCrc, blockSize), useCrc, packet, maxRetries)
    ensures link.script == link0.script
  {
    hide Retried, AllHonest, BuildPacket;
    var count := if blockSize < |image| - offset then blockSize else |image| - offset;
    var block := image[offset..offset + count] + Pads(blockSize - count);
    RetriedScript(link0, PacketAt(image, offset, packetNo, useCrc, blockSize), useCrc, packet, maxRetries);
    result, link := SendBlock(block, packetNo, useCrc, maxRetries, blockSize, link0, packet);
  }

  // ---------------------------------------------------------------------------
  // One packet
  // ---------------------------------------------------------------------------

  ghost predicate Aborts(script: nat -> Event) {
    exists i: nat :: script(i).fate == ReceiverAborts
  }

  /** No answer under way cancels without the receiver having given up. */
  ghost predicate Uncancelled(link: Link) {
    forall i | 0 <= i < |link.pending| && link.pending[i].answer == CAN :: Aborts(link.script)
  }

  /** Packet `k` takes the receiver from `r0` to `r1`, and has done so if a write of it has arrived. */
  ghost predicate Around(link: Link, r0: Receiver, r1: Receiver, k: nat) {
    link.receiver == (if k in link.arrived then r1 else r0) && Uncancelled(link)
  }

  /** The receiver takes the packet in, once. */
  ghost predicate Takes(bytes: seq<Byte>, useCrc: bool, r0: Receiver, r1: Receiver) {
    Receive(r0, Parse(bytes, useCrc)) == (r1, ACK) && Receive(r1, Parse(bytes, useCrc)) == (r1, ACK)
  }

  /** One exchange of a packet: the receiver takes it in when its first write arrives and never again, and an ACK
      that is not heard early means that it has. */
  lemma ExchangeSafe(link: Link, bytes: seq<Byte>, useCrc: bool, k: nat, r0: Receiver, r1: Receiver)
    requires Honest(link.script(|link.heard|), useCrc) && Takes(bytes, useCrc, r0, r1) && Around(link, r0, r1, k)
    ensures var (response, l) := Exchange(link, bytes, useCrc, k);
            && Around(l, r0, r1, k)
            && (response == ACK && !l.early ==> l.receiver == r1)
            && (response == CAN ==> Aborts(link.script))
  {
    hide Parse;
    var e := link.script(|link.heard|);
    assert e.fate == ReceiverAborts ==> Aborts(link.script);
    hide Aborts;
    var queue := Queue(link, bytes, useCrc, k);
    assert forall i | 0 <= i < |queue| && queue[i].answer == CAN :: Aborts(link.script);
  }

  /** Every ACK under way is to a packet of which a write has arrived, and an ACK was heard early only if it
      was stale. */
  ghost predicate Backed(link: Link) {
    && (forall i | 0 <= i < |link.pending| && link.pending[i].answer == ACK :: link.pending[i].packet in link.arrived)
    && (link.early ==> link.stale)
  }

  lemma ExchangeBacked(link: Link, bytes: seq<Byte>, useCrc: bool, k: nat)
    requires Honest(link.script(|link.heard|), useCrc) && Backed(link)
    ensures Backed(Exchange(link, bytes, useCrc, k).1)
  {
    hide Parse;
    var l := Exchange(link, bytes, useCrc, k).1;
    var queue := Queue(link, bytes, useCrc, k);
    assert forall i | 0 <= i < |queue| && queue[i].answer == ACK :: queue[i].packet in l.arrived;
  }

  /** Every answer under way is to packet `k` and none is positive. */
  ghost predicate OnlyRefusals(link: Link, k: nat) {
    forall i | 0 <= i < |link.pending| :: link.pending[i].packet == k && link.pending[i].answer != ACK
  }

  /** A packet that the receiver cannot read leaves it as it is and is never acknowledged. */
  lemma ExchangeRefused(link: Link, bytes: seq<Byte>, useCrc: bool, k: nat)
    requires Honest(link.script(|link.heard|), useCrc) && Parse(bytes, useCrc) == Bad && OnlyRefusals(link, k)
    ensures var (response, l) := Exchange(link, bytes, useCrc, k);
            && OnlyRefusals(l, k) && response != ACK
            && l.receiver == link.receiver && l.stale == link.stale && l.early == link.early
  {
    hide Parse;
    var queue := Queue(link, bytes, useCrc, k);
    assert forall i | 0 <= i < |queue| :: queue[i].packet == k && queue[i].answer != ACK;
  }

  lemma {:induction false} RetriedSafe(link: Link, bytes: seq<Byte>, useCrc: bool, k: nat,
                                       r0: Receiver, r1: Receiver, n: nat)
    requires AllHonest(link.script, useCrc) && Takes(bytes, useCrc, r0, r1) && Around(link, r0, r1, k)
    ensures var (result, l) := Retried(link, bytes, useCrc, k, n);
            && Around(l, r0, r1, k)
            && (result.Sent? && !l.early ==> l.receiver == r1)
            && (result.Aborted? ==> Aborts(link.script))
    decreases n
  {
    if n > 0 {
      assert Honest(link.script(|link.heard|), useCrc);
      hide Honest, Takes, Around, Aborts, Exchange;
      ExchangeSafe(link, bytes, useCrc, k, r0, r1);
      ExchangeScript(link, bytes, useCrc, k);
      RetriedSafe(Exchange(link, bytes, useCrc, k).1, bytes, useCrc, k, r0, r1, n - 1);
    }
  }

  lemma {:induction false} RetriedBacked(link: Link, bytes: seq<Byte>, useCrc: bool, k: nat, n: nat)
    requires AllHonest(link.script, useCrc) && Backed(link)
    ensures Backed(Retried(link, bytes, useCrc, k, n).1)
    decreases n
  {
    if n > 0 {
      assert Honest(link.script(|link.heard|), useCrc);
      hide Honest, Backed, Exchange;
      ExchangeBacked(link, bytes, useCrc, k);
      ExchangeScript(link, bytes, useCrc, k);
      RetriedBacked(Exchange(link, bytes, useCrc, k).1, bytes, useCrc, k, n - 1);
    }
  }

  lemma {:induction false} RetriedRefused(link: Link, bytes: seq<Byte>, useCrc: bool, k: nat, n: nat)
    requires AllHonest(link.script, useCrc) && Parse(bytes, useCrc) == Bad && OnlyRefusals(link, k)
    ensures var (result, l) := Retried(link, bytes, useCrc, k, n);
            !result.Sent? && l.receiver == link.receiver && l.stale == link.stale && l.early == link.early
    decreases n
  {
    if n > 0 {
      assert Honest(link.script(|link.heard|), useCrc);
      hide Honest, OnlyRefusals, Exchange, Parse;
      ExchangeRefused(link, bytes, useCrc, k);
      ExchangeScript(link, bytes, useCrc, k);
      RetriedRefused(Exchange(link, bytes, useCrc, k).1, bytes, useCrc, k, n - 1);
    }
  }

  // ---------------------------------------------------------------------------
  // Links without late answers
  // ---------------------------------------------------------------------------

  /** Each answer is lost or read after the write that it answers. */
  ghost predicate AllPrompt(script: nat -> Event) {
    forall i: nat :: script(i).answerLost || script(i).taken > 0
  }

  /** The write arrives and its answer is heard. */
  predicate Clean(e: Event) {
    e.fate == Arrives && !e.answerLost
  }

  /** Some write from `i` to `i + n - 1` is clean. */
  ghost predicate ServedFrom(script: nat -> Event, i: nat, n: nat) {
    exists j: nat :: i <= j < i + n && Clean(script(j))
  }

  /** Among any `n` writes in a row one is clean, and the receiver never gives up. */
  ghost predicate Serves(script: nat -> Event, n: nat) {
    && (forall i: nat :: ServedFrom(script, i, n))
    && !Aborts(script)
  }

  lemma ExchangePrompt(link: Link, bytes: seq<Byte>, useCrc: bool, k: nat)
    requires AllPrompt(link.script) && link.pending == []
    ensures var (response, l) := Exchange(link, bytes, useCrc, k); l.pending == [] && l.stale == link.stale
  {
    hide Transmit;
    assert link.script(|link.heard|).answerLost || link.script(|link.heard|).taken > 0;
  }

  lemma ExchangeClean(link: Link, bytes: seq<Byte>, useCrc: bool, k: nat, r0: Receiver, r1: Receiver)
    requires AllPrompt(link.script) && link.pending == [] && Clean(link.script(|link.heard|))
    requires Takes(bytes, useCrc, r0, r1) && (link.receiver == r0 || link.receiver == r1)
    ensures Exchange(link, bytes, useCrc, k).0 == ACK
  {
    hide Parse;
    assert link.script(|link.heard|).answerLost || link.script(|link.heard|).taken > 0;
    assert Queue(link, bytes, useCrc, k) == [Reply(ACK, k)];
  }

  lemma {:induction false} RetriedPrompt(link: Link, bytes: seq<Byte>, useCrc: bool, k: nat, n: nat)
    requires AllPrompt(link.script) && link.pending == []
    ensures var (result, l) := Retried(link, bytes, useCrc, k, n); l.pending == [] && l.stale == link.stale
    decreases n
  {
    hide AllPrompt, Exchange;
    if n > 0 {
      var next := Exchange(link, bytes, useCrc, k).1;
      ExchangePrompt(link, bytes, useCrc, k);
      ExchangeScript(link, bytes, useCrc, k);
      RetriedPrompt(next, bytes, useCrc, k, n - 1);
    }
  }

  lemma {:induction false} RetriedServed(link: Link, bytes: seq<Byte>, useCrc: bool, k: nat,
                                         r0: Receiver, r1: Receiver, n: nat)
    requires AllHonest(link.script, useCrc) && AllPrompt(link.script) && link.pending == []
    requires Takes(bytes, useCrc, r0, r1) && Around(link, r0, r1, k)
    ensures Retried(link, bytes, useCrc, k, n).0.Unanswered? ==> !ServedFrom(link.script, |link.heard|, n)
    decreases n
  {
    if n > 0 {
      var (response, next) := Exchange(link, bytes, useCrc, k);
      assert |next.heard| == |link.heard| + 1;
      assert Honest(link.script(|link.heard|), useCrc);
      assert link.receiver == r0 || link.receiver == r1;
      hide Honest, Takes, Around, Exchange, AllPrompt, Clean;
      if Clean(link.script(|link.heard|)) {
        ExchangeClean(link, bytes, useCrc, k, r0, r1);
      }
      ExchangePrompt(link, bytes, useCrc, k);
      ExchangeSafe(link, bytes, useCrc, k, r0, r1);
      ExchangeScript(link, bytes, useCrc, k);
      RetriedServed(next, bytes, useCrc, k, r0, r1, n - 1);
    }
  }

  // ---------------------------------------------------------------------------
  // Blocks of the padded image
  // ---------------------------------------------------------------------------

  /** The image padded with 0x1A to a whole number of blocks. */
  function Padded(image: seq<Byte>, bs: nat): (p: seq<Byte>)
    requires bs > 0
    ensures image <= p && forall i | |image| <= i < |p| :: p[i] == 0x1A
  {
    image + Pads((-|image|) % bs)
  }

  lemma PaddedLength(image: seq<Byte>, bs: nat)
    requires bs > 0
    ensures |Padded(image, bs)| == Blocks(image, bs) * bs
  {
    var n: int := |image|;
    var q, r := (n + bs - 1) / bs, (n + bs - 1) % bs;
    assert n + bs - 1 == q * bs + r;
    assert -n == (-q) * bs + (bs - 1 - r);
    Quotient(-n, bs, -q, bs - 1 - r);
  }

  /** Where block `k` starts. */
  function Base(bs: nat, k: nat): (base: nat) {
    k * bs
  }

  lemma BaseNext(bs: nat, k: nat)
    ensures Base(bs, k + 1) == Base(bs, k) + bs && Base(bs, 0) == 0
  {
  }

  lemma BaseAtLeast(bs: nat, k: nat)
    ensures Base(bs, k) >= 0
  {
  }

  lemma BaseOrder(bs: nat, j: nat, k: nat)
    requires bs > 0
    ensures j <= k <==> Base(bs, j) <= Base(bs, k)
  {
    Multiples(j, k, bs);
  }

  /** A block starts before the end of the image exactly when it is one of the image's blocks. */
  lemma BlockInside(image: seq<Byte>, bs: nat, k: nat)
    requires bs > 0
    ensures Base(bs, k) < |image| <==> k < Blocks(image, bs)
    ensures |Padded(image, bs)| == Base(bs, Blocks(image, bs)) && |Padded(image, bs)| - |image| < bs
  {
    PaddedLength(image, bs);
    var b := Blocks(image, bs);
    BaseOrder(bs, k + 1, b);
    BaseOrder(bs, b, k);
    BaseNext(bs, k);
    hide Base, Blocks;
  }

  /** The blocks before `k`. */
  function Upto(image: seq<Byte>, bs: nat, k: nat): seq<Byte>
    requires bs > 0 && k <= Blocks(image, bs)
  {
    BlockInside(image, bs, 0);
    BaseOrder(bs, k, Blocks(image, bs));
    Padded(image, bs)[..Base(bs, k)]
  }

  lemma UptoNext(image: seq<Byte>, bs: nat, k: nat)
    requires bs > 0 && k < Blocks(image, bs)
    ensures Base(bs, k) < |image|
    ensures Upto(image, bs, k) + BlockFrom(image, Base(bs, k), bs) == Upto(image, bs, k + 1)
  {
    BlockInside(image, bs, k);
    BaseNext(bs, k);
    BaseOrder(bs, k + 1, Blocks(image, bs));
    hide Base, Blocks;
    var base, padded := Base(bs, k), Padded(image, bs);
    assert padded[base..base + bs] == BlockFrom(image, base, bs);
    assert padded[..base] + padded[base..base + bs] == padded[..base + bs];
  }

  lemma UptoEnds(image: seq<Byte>, bs: nat)
    requires bs > 0
    ensures Upto(image, bs, 0) == [] && Upto(image, bs, Blocks(image, bs)) == Padded(image, bs)
  {
    BlockInside(image, bs, 0);
    BaseNext(bs, 0);
    hide Base, Blocks;
  }

  // ---------------------------------------------------------------------------
  // How much can have been stored
  // ---------------------------------------------------------------------------

  /** Nothing is finished, and at most `k` blocks are stored, one fewer once an ACK was heard early. */
  predicate Short(link: Link, bs: nat, k: nat) {
    !link.receiver.finished && |link.receiver.stored| + (if link.early then bs else 0) <= Base(bs, k)
  }

  /** The same while packet `k` is being sent: one block more when it has arrived, after which the receiver does
      not expect it again. */
  predicate ShortDuring(link: Link, bs: nat, k: nat) {
    && !link.receiver.finished
    && |link.receiver.stored| + (if link.early then bs else 0) <= Base(bs, k) + (if k in link.arrived then bs else 0)
    && (k in link.arrived ==> link.receiver.expected != (k + 1) % 0x100)
  }

  lemma ExchangeShort(link: Link, bytes: seq<Byte>, useCrc: bool, bs: nat, k: nat, block: seq<Byte>)
    requires Honest(link.script(|link.heard|), useCrc) && ShortDuring(link, bs, k)
    requires Parse(bytes, useCrc) == Data((k + 1) % 0x100, block) && |block| == bs
    ensures var (response, l) := Exchange(link, bytes, useCrc, k);
            if response == ACK then Short(l, bs, k + 1) else ShortDuring(l, bs, k)
  {
    hide Parse, Base;
    BaseNext(bs, k);
    var r := link.receiver;
    assert r.expected == (k + 1) % 0x100 ==> (r.expected + 1) % 0x100 != (k + 1) % 0x100;
    assert |r.stored + block| == |r.stored| + bs;
  }

  lemma {:induction false} RetriedShort(link: Link, bytes: seq<Byte>, useCrc: bool, bs: nat, k: nat,
                                        block: seq<Byte>, n: nat)
    requires AllHonest(link.script, useCrc) && ShortDuring(link, bs, k)
    requires Parse(bytes, useCrc) == Data((k + 1) % 0x100, block) && |block| == bs
    ensures var (result, l) := Retried(link, bytes, useCrc, k, n); result.Sent? ==> Short(l, bs, k + 1)
    decreases n
  {
    if n > 0 {
      assert Honest(link.script(|link.heard|), useCrc);
      hide Honest, Short, ShortDuring, Exchange, Parse;
      ExchangeShort(link, bytes, useCrc, bs, k, block);
      ExchangeScript(link, bytes, useCrc, k);
      var (response, next) := Exchange(link, bytes, useCrc, k);
      if response != ACK {
        RetriedShort(next, bytes, useCrc, bs, k, block, n - 1);
      }
    }
  }

  lemma ExchangeEot(link: Link, useCrc: bool, k: nat)
    requires Honest(link.script(|link.heard|), useCrc) && (link.receiver.finished <==> k in link.arrived)
    ensures var (response, l) := Exchange(link, [EOT], useCrc, k);
            && l.receiver.stored == link.receiver.stored && (l.receiver.finished <==> k in l.arrived)
            && (l.early <==> link.early || (response == ACK && k !in l.arrived))
  {
    assert Parse([EOT], useCrc) == EndOfFile;
    hide Parse;
  }

  /** The end byte leaves what is stored as it is, and finishes the receiver exactly when it arrives. */
  lemma {:induction false} RetriedEot(link: Link, useCrc: bool, k: nat, n: nat)
    requires AllHonest(link.script, useCrc) && (link.receiver.finished <==> k in link.arrived)
    ensures var (result, l) := Retried(link, [EOT], useCrc, k, n);
            && l.receiver.stored == link.receiver.stored && (l.receiver.finished <==> k in l.arrived)
            && (l.early ==> link.early || k !in l.arrived)
    decreases n
  {
    if n > 0 {
      assert Honest(link.script(|link.heard|), useCrc);
      hide Honest, Exchange;
      ExchangeEot(link, useCrc, k);
      ExchangeScript(link, [EOT], useCrc, k);
      var (response, next) := Exchange(link, [EOT], useCrc, k);
      if response != ACK {
        RetriedEot(next, useCrc, k, n - 1);
      }
    }
  }

  // ---------------------------------------------------------------------------
  // The transfer
  // ---------------------------------------------------------------------------

  predicate GoodSize(bs: nat) {
    bs == 128 || bs == 1024
  }

  /** The receiver holding the first `k` blocks. */
  function Holding(image: seq<Byte>, bs: nat, k: nat): Receiver
    requires bs > 0 && k <= Blocks(image, bs)
  {
    Receiver((k + 1) % 0x100, Upto(image, bs, k), false)
  }

  ghost predicate HoldsBlocks(image: seq<Byte>, bs: nat, r: Receiver)
    requires bs > 0
  {
    exists k :: 0 <= k <= Blocks(image, bs) && r == Holding(image, bs, k)
  }

  /** A packet of the right size takes the receiver one block further, past 255 blocks too. */
  lemma BlockTakes(image: seq<Byte>, useCrc: bool, bs: nat, k: nat)
    requires GoodSize(bs) && k < Blocks(image, bs) && Base(bs, k) < |image|
    ensures Takes(PacketAt(image, Base(bs, k), (k + 1) % 0x100, useCrc, bs), useCrc,
                  Holding(image, bs, k), Holding(image, bs, k + 1))
  {
    hide Parse, Upto, Base, Blocks, BlockFrom, BuildPacket;
    var block := BlockFrom(image, Base(bs, k), bs);
    UptoNext(image, bs, k);
    ParseBuilt(block, (k + 1) % 0x100, useCrc, bs);
    TakesNext(PacketAt(image, Base(bs, k), (k + 1) % 0x100, useCrc, bs), useCrc, k, block, Upto(image, bs, k));
  }

  lemma TakesNext(bytes: seq<Byte>, useCrc: bool, k: nat, block: seq<Byte>, stored: seq<Byte>)
    requires Parse(bytes, useCrc) == Data((k + 1) % 0x100, block)
    ensures Takes(bytes, useCrc, Receiver((k + 1) % 0x100, stored, false),
                  Receiver((k + 2) % 0x100, stored + block, false))
  {
    hide Parse;
  }

  /** A receiver of the protocol reads no other size. */
  lemma OddSizeIsBad(block: seq<Byte>, packetNo: nat, useCrc: bool, bs: nat)
    requires |block| == bs && !GoodSize(bs)
    ensures Parse(BuildPacket(block, packetNo, useCrc, bs).value, useCrc) == Bad
  {
    hide TrailerOk, Trailer;
    var bytes := BuildPacket(block, packetNo, useCrc, bs).value;
    assert |bytes| == 3 + bs + (if useCrc then 2 else 1) && bytes[0] == STX;
  }

  /** Where the sender stands: `k` blocks are behind it. */
  ghost predicate AtBlock(image: seq<Byte>, bs: nat, offset: nat, packetNo: nat, k: nat) {
    && bs > 0 && k <= Blocks(image, bs) && packetNo == (k + 1) % 0x100
    && offset == if Base(bs, k) < |image| then Base(bs, k) else |image|
  }

  lemma NumberNext(packetNo: nat, k: nat)
    requires packetNo == (k + 1) % 0x100
    ensures (packetNo + 1) % 0x100 == (k + 2) % 0x100
  {
  }

  lemma AtBlockNext(image: seq<Byte>, bs: nat, offset: nat, packetNo: nat, k: nat)
    requires AtBlock(image, bs, offset, packetNo, k)
    ensures offset == |image| <==> k == Blocks(image, bs)
    ensures offset < |image| ==>
              && offset == Base(bs, k) && k < Blocks(image, bs)
              && AtBlock(image, bs, offset + CountAt(image, offset, bs),
                         (packetNo + 1) % 0x100, k + 1)
  {
    hide Base, Blocks;
    BlockInside(image, bs, k);
    BaseNext(bs, k);
    if offset < |image| {
      assert offset == Base(bs, k);
      NumberNext(packetNo, k);
    }
  }

  /** Every block and the end byte cost at most `m` writes. */
  lemma {:induction false} TransferredScript(image: seq<Byte>, useCrc: bool, m: nat, bs: nat, link: Link, offset: nat,
                                             packetNo: nat, k: nat)
    requires AtBlock(image, bs, offset, packetNo, k) && offset <= |image|
    ensures var l := Transferred(image, useCrc, m, bs, link, offset, packetNo, k).2;
            && l.script == link.script && (link.early ==> l.early)
            && |l.heard| <= |link.heard| + Base(m, Blocks(image, bs) - k)
    decreases |image| - offset
  {
    hide *;
    AtBlockNext(image, bs, offset, packetNo, k);
    AtBlockNumber(image, bs, offset, packetNo, k);
    if offset == |image| {
      TransferredEnd(image, useCrc, m, bs, link, packetNo, k);
      BaseNext(m, 0);
    } else {
      var bytes := PacketAt(image, offset, packetNo, useCrc, bs);
      var (result, next) := Retried(link, bytes, useCrc, k, m);
      TransferredStep(image, useCrc, m, bs, link, offset, packetNo, k, result, next);
      RetriedScript(link, bytes, useCrc, k, m);
      BaseNext(m, Blocks(image, bs) - k - 1);
      BaseAtLeast(m, Blocks(image, bs) - k - 1);
      if result.Sent? {
        var then' := offset + CountAt(image, offset, bs);
        TransferredScript(image, useCrc, m, bs, next, then', (packetNo + 1) % 0x100, k + 1);
      }
    }
  }

  lemma IsHolding(image: seq<Byte>, bs: nat, k: nat)
    requires bs > 0 && k <= Blocks(image, bs)
    ensures HoldsBlocks(image, bs, Holding(image, bs, k))
  {
    hide Holding, Blocks;
  }

  lemma AtBlockNumber(image: seq<Byte>, bs: nat, offset: nat, packetNo: nat, k: nat)
    requires AtBlock(image, bs, offset, packetNo, k)
    ensures bs > 0 && k <= Blocks(image, bs) && packetNo == (k + 1) % 0x100
  {
    hide Blocks, Base;
  }

  /** No write of packet `k` or a later one has arrived. */
  ghost predicate Ahead(link: Link, k: nat) {
    forall p | p in link.arrived :: p < k
  }

  lemma AheadNext(link: Link, next: Link, k: nat)
    requires Ahead(link, k) && next.arrived <= link.arrived + {k}
    ensures Ahead(next, k + 1) && k !in link.arrived
  {
  }

  lemma AroundBefore(link: Link, r0: Receiver, r1: Receiver, k: nat)
    requires link.receiver == r0 && Uncancelled(link) && k !in link.arrived
    ensures Around(link, r0, r1, k)
  {
    hide Uncancelled;
  }

  lemma AroundIs(link: Link, r0: Receiver, r1: Receiver, k: nat)
    requires Around(link, r0, r1, k)
    ensures (link.receiver == r0 || link.receiver == r1) && Uncancelled(link)
  {
    hide Uncancelled;
  }

  /** Blocks of any other size can be sent only when there are none. */
  predicate Sendable(image: seq<Byte>, bs: nat) {
    bs > 0 && (GoodSize(bs) || image == [])
  }

  /** As long as no ACK is heard early the receiver holds whole blocks, all of them when every block was sent. */
  lemma {:induction false} TransferredSafe(image: seq<Byte>, useCrc: bool, m: nat, bs: nat, link: Link, offset: nat,
                                           packetNo: nat, k: nat)
    requires Sendable(image, bs) && AtBlock(image, bs, offset, packetNo, k) && offset <= |image| && Ahead(link, k)
    requires AllHonest(link.script, useCrc) && link.receiver == Holding(image, bs, k) && Uncancelled(link)
    ensures var (result, _, l) := Transferred(image, useCrc, m, bs, link, offset, packetNo, k);
            l.early || (HoldsBlocks(image, bs, l.receiver)
                        && (result.Sent? ==> l.receiver == Holding(image, bs, Blocks(image, bs)) && Uncancelled(l))
                        && (result.Aborted? ==> Aborts(link.script)))
    decreases |image| - offset
  {
    hide *;
    AtBlockNext(image, bs, offset, packetNo, k);
    AtBlockNumber(image, bs, offset, packetNo, k);
    var r0 := Holding(image, bs, k);
    IsHolding(image, bs, k);
    if offset == |image| {
      TransferredEnd(image, useCrc, m, bs, link, packetNo, k);
    } else {
      var r1, bytes := Holding(image, bs, k + 1), PacketAt(image, offset, packetNo, useCrc, bs);
      IsHolding(image, bs, k + 1);
      SendableIs(image, bs);
      BlockTakes(image, useCrc, bs, k);
      var (result, next) := Retried(link, bytes, useCrc, k, m);
      TransferredStep(image, useCrc, m, bs, link, offset, packetNo, k, result, next);
      RetriedScript(link, bytes, useCrc, k, m);
      AheadNext(link, next, k);
      AroundBefore(link, r0, r1, k);
      RetriedSafe(link, bytes, useCrc, k, r0, r1, m);
      AroundIs(next, r0, r1, k);
      if result.Sent? {
        var then' := offset + CountAt(image, offset, bs);
        TransferredScript(image, useCrc, m, bs, next, then', (packetNo + 1) % 0x100, k + 1);
        if !next.early {
          TransferredSafe(image, useCrc, m, bs, next, then', (packetNo + 1) % 0x100, k + 1);
        }
      }
    }
  }

  lemma SendableIs(image: seq<Byte>, bs: nat)
    requires Sendable(image, bs)
    ensures bs > 0 && (image != [] ==> GoodSize(bs))
  {
  }

  lemma ParsePacket(image: seq<Byte>, useCrc: bool, bs: nat, offset: nat, packetNo: nat)
    requires GoodSize(bs) && offset < |image| && packetNo < 0x100
    ensures Parse(PacketAt(image, offset, packetNo, useCrc, bs), useCrc) == Data(packetNo, BlockFrom(image, offset, bs))
  {
    hide Parse, BuildPacket, BlockFrom;
    ParseBuilt(BlockFrom(image, offset, bs), packetNo, useCrc, bs);
  }

  lemma ShortBefore(link: Link, bs: nat, k: nat)
    requires Short(link, bs, k) && k !in link.arrived
    ensures ShortDuring(link, bs, k)
  {
    hide Base;
  }

  /** When every block was sent, not all of them are stored if an ACK was heard early. */
  lemma {:induction false} TransferredShort(image: seq<Byte>, useCrc: bool, m: nat, bs: nat, link: Link, offset: nat,
                                            packetNo: nat, k: nat)
    requires Sendable(image, bs) && AtBlock(image, bs, offset, packetNo, k) && offset <= |image|
    requires AllHonest(link.script, useCrc) && Short(link, bs, k) && Ahead(link, k)
    ensures var (result, _, l) := Transferred(image, useCrc, m, bs, link, offset, packetNo, k);
            result.Sent? ==> Short(l, bs, Blocks(image, bs)) && Ahead(l, Blocks(image, bs))
    decreases |image| - offset
  {
    hide *;
    AtBlockNext(image, bs, offset, packetNo, k);
    AtBlockNumber(image, bs, offset, packetNo, k);
    if offset == |image| {
      TransferredEnd(image, useCrc, m, bs, link, packetNo, k);
    } else {
      var bytes, block := PacketAt(image, offset, packetNo, useCrc, bs), BlockFrom(image, offset, bs);
      var (result, next) := Retried(link, bytes, useCrc, k, m);
      TransferredStep(image, useCrc, m, bs, link, offset, packetNo, k, result, next);
      if result.Sent? {
        SendableIs(image, bs);
        ParsePacket(image, useCrc, bs, offset, packetNo);
        RetriedScript(link, bytes, useCrc, k, m);
        AheadNext(link, next, k);
        ShortBefore(link, bs, k);
        RetriedShort(link, bytes, useCrc, bs, k, block, m);
        var then' := offset + CountAt(image, offset, bs);
        TransferredShort(image, useCrc, m, bs, next, then', (packetNo + 1) % 0x100, k + 1);
      }
    }
  }

  /** An ACK that was heard early was stale. */
  lemma {:induction false} TransferredBacked(image: seq<Byte>, useCrc: bool, m: nat, bs: nat, link: Link, offset: nat,
                                             packetNo: nat, k: nat)
    requires bs > 0 && offset <= |image| && AllHonest(link.script, useCrc) && Backed(link)
    ensures Backed(Transferred(image, useCrc, m, bs, link, offset, packetNo, k).2)
    decreases |image| - offset
  {
    hide *;
    if offset == |image| {
      TransferredEnd(image, useCrc, m, bs, link, packetNo, k);
    } else {
      var bytes := PacketAt(image, offset, packetNo, useCrc, bs);
      var (result, next) := Retried(link, bytes, useCrc, k, m);
      TransferredStep(image, useCrc, m, bs, link, offset, packetNo, k, result, next);
      RetriedBacked(link, bytes, useCrc, k, m);
      RetriedScript(link, bytes, useCrc, k, m);
      if result.Sent? {
        var then' := offset + CountAt(image, offset, bs);
        TransferredBacked(image, useCrc, m, bs, next, then', (packetNo + 1) % 0x100, k + 1);
      }
    }
  }

  lemma {:induction false} TransferredPrompt(image: seq<Byte>, useCrc: bool, m: nat, bs: nat, link: Link, offset: nat,
                                             packetNo: nat, k: nat)
    requires bs > 0 && offset <= |image| && AllPrompt(link.script) && link.pending == []
    ensures var l := Transferred(image, useCrc, m, bs, link, offset, packetNo, k).2;
            l.pending == [] && l.stale == link.stale
    decreases |image| - offset
  {
    hide *;
    if offset == |image| {
      TransferredEnd(image, useCrc, m, bs, link, packetNo, k);
    } else {
      var bytes := PacketAt(image, offset, packetNo, useCrc, bs);
      var (result, next) := Retried(link, bytes, useCrc, k, m);
      TransferredStep(image, useCrc, m, bs, link, offset, packetNo, k, result, next);
      RetriedPrompt(link, bytes, useCrc, k, m);
      RetriedScript(link, bytes, useCrc, k, m);
      if result.Sent? {
        var then' := offset + CountAt(image, offset, bs);
        TransferredPrompt(image, useCrc, m, bs, next, then', (packetNo + 1) % 0x100, k + 1);
      }
    }
  }

  lemma BackedIs(link: Link)
    requires Backed(link)
    ensures link.early ==> link.stale
  {
  }

  /** On a link that serves, a packet that the receiver takes is sent. */
  lemma RetriedSent(link: Link, bytes: seq<Byte>, useCrc: bool, k: nat, r0: Receiver, r1: Receiver, m: nat)
    requires AllHonest(link.script, useCrc) && AllPrompt(link.script) && link.pending == [] && !link.stale
    requires Takes(bytes, useCrc, r0, r1) && Around(link, r0, r1, k) && Serves(link.script, m) && Backed(link)
    ensures var (result, l) := Retried(link, bytes, useCrc, k, m);
            result.Sent? && l.receiver == r1 && !l.stale && Uncancelled(l) && Backed(l)
  {
    assert ServedFrom(link.script, |link.heard|, m) && !Aborts(link.script);
    hide *;
    RetriedSafe(link, bytes, useCrc, k, r0, r1, m);
    RetriedPrompt(link, bytes, useCrc, k, m);
    RetriedServed(link, bytes, useCrc, k, r0, r1, m);
    RetriedBacked(link, bytes, useCrc, k, m);
    var l := Retried(link, bytes, useCrc, k, m).1;
    BackedIs(l);
    AroundIs(l, r0, r1, k);
  }

  lemma {:induction false} TransferredServed(image: seq<Byte>, useCrc: bool, m: nat, bs: nat, link: Link, offset: nat,
                                             packetNo: nat, k: nat)
    requires Sendable(image, bs) && AtBlock(image, bs, offset, packetNo, k) && offset <= |image| && Ahead(link, k)
    requires AllHonest(link.script, useCrc) && link.receiver == Holding(image, bs, k) && Uncancelled(link)
    requires AllPrompt(link.script) && link.pending == [] && !link.stale && Serves(link.script, m) && Backed(link)
    ensures Transferred(image, useCrc, m, bs, link, offset, packetNo, k).0.Sent?
    decreases |image| - offset
  {
    hide *;
    AtBlockNext(image, bs, offset, packetNo, k);
    AtBlockNumber(image, bs, offset, packetNo, k);
    if offset == |image| {
      TransferredEnd(image, useCrc, m, bs, link, packetNo, k);
    } else {
      var r0, r1 := Holding(image, bs, k), Holding(image, bs, k + 1);
      var bytes := PacketAt(image, offset, packetNo, useCrc, bs);
      SendableIs(image, bs);
      BlockTakes(image, useCrc, bs, k);
      var (result, next) := Retried(link, bytes, useCrc, k, m);
      TransferredStep(image, useCrc, m, bs, link, offset, packetNo, k, result, next);
      RetriedScript(link, bytes, useCrc, k, m);
      AheadNext(link, next, k);
      AroundBefore(link, r0, r1, k);
      RetriedPrompt(link, bytes, useCrc, k, m);
      RetriedSent(link, bytes, useCrc, k, r0, r1, m);
      TransferredServed(image, useCrc, m, bs, next, offset + CountAt(image, offset, bs), (packetNo + 1) % 0x100, k + 1);
    }
  }

  // ---------------------------------------------------------------------------
  // The whole
  // ---------------------------------------------------------------------------

  ghost predicate IsFresh(link: Link) {
    link == Link(link.script, [], Receiver(1, [], false), [], {}, false, false)
  }

  lemma FreshIs(link: Link)
    requires IsFresh(link)
    ensures link == Link(link.script, [], Receiver(1, [], false), [], {}, false, false)
    ensures Uncancelled(link) && Backed(link) && Ahead(link, 0) && OnlyRefusals(link, 0)
    ensures forall bs: nat :: Short(link, bs, 0)
  {
  }

  lemma AtStart(image: seq<Byte>, bs: nat)
    requires bs > 0
    ensures AtBlock(image, bs, 0, 1, 0) && Holding(image, bs, 0) == Receiver(1, [], false)
  {
    UptoEnds(image, bs);
    BlockInside(image, bs, 0);
  }

  lemma EotTakes(r0: Receiver, useCrc: bool)
    ensures Takes([EOT], useCrc, r0, r0.(finished := true))
  {
  }

  /** What has been stored are whole blocks of the padded image from its start, all of them once the receiver
      has finished. */
  ghost predicate HoldsPrefix(image: seq<Byte>, bs: nat, r: Receiver)
    requires bs > 0
  {
    && (exists k :: 0 <= k <= Blocks(image, bs) && r.stored == Upto(image, bs, k))
    && (r.finished ==> r.stored == Padded(image, bs))
  }

  lemma PartHeld(image: seq<Byte>, bs: nat, r: Receiver)
    requires bs > 0 && HoldsBlocks(image, bs, r)
    ensures HoldsPrefix(image, bs, r) && !r.finished
  {
    hide Upto, Blocks;
  }

  lemma AllHeld(image: seq<Byte>, bs: nat, r: Receiver)
    requires bs > 0 && r.stored == Holding(image, bs, Blocks(image, bs)).stored
    ensures HoldsPrefix(image, bs, r)
  {
    UptoEnds(image, bs);
    hide Upto, Blocks, Padded;
  }

  lemma DeliveryIs(image: seq<Byte>, useCrc: bool, m: nat, bs: nat, link: Link, result: Result, packetNo: nat,
                   across: Link)
    requires bs > 0 && (result, packetNo, across) == Transferred(image, useCrc, m, bs, link, 0, 1, 0)
    ensures Delivery(image, useCrc, m, bs, link) ==
            match result
            case Aborted => (Cancelled, across)
            case Unanswered => (PacketFailed(packetNo), across)
            case Sent =>
              var (last, end) := Retried(across, [EOT], useCrc, Blocks(image, bs), m);
              (match last case Sent => Delivered case Aborted => CancelledAtEot case Unanswered => EotFailed, end)
  {
    hide Transferred, Retried, Blocks;
  }

  /** As long as no ACK is heard early the receiver holds whole blocks of the padded image, and after a delivery
      all of it, finished. */
  lemma DeliverySafe(image: seq<Byte>, useCrc: bool, m: nat, bs: nat, link: Link)
    requires Sendable(image, bs) && IsFresh(link) && AllHonest(link.script, useCrc)
    ensures var (outcome, l) := Delivery(image, useCrc, m, bs, link);
            l.early || (HoldsPrefix(image, bs, l.receiver)
                        && (outcome.Delivered? ==> l.receiver.finished)
                        && (outcome.Cancelled? || outcome.CancelledAtEot? ==> Aborts(link.script)))
  {
    hide *;
    FreshIs(link);
    SendableIs(image, bs);
    AtStart(image, bs);
    TransferredSafe(image, useCrc, m, bs, link, 0, 1, 0);
    TransferredShort(image, useCrc, m, bs, link, 0, 1, 0);
    TransferredScript(image, useCrc, m, bs, link, 0, 1, 0);
    var (result, packetNo, across) := Transferred(image, useCrc, m, bs, link, 0, 1, 0);
    var b := Blocks(image, bs);
    DeliveryIs(image, useCrc, m, bs, link, result, packetNo, across);
    if result.Sent? {
      var (last, end) := Retried(across, [EOT], useCrc, b, m);
      RetriedScript(across, [EOT], useCrc, b, m);
      if !end.early {
        var r0 := across.receiver;
        var r1 := r0.(finished := true);
        EotTakes(r0, useCrc);
        AheadNext(across, end, b);
        AroundBefore(across, r0, r1, b);
        RetriedSafe(across, [EOT], useCrc, b, r0, r1, m);
        AroundIs(end, r0, r1, b);
        AllHeld(image, bs, end.receiver);
      }
    } else if !across.early {
      PartHeld(image, bs, across.receiver);
    }
  }

  lemma ShortIs(image: seq<Byte>, bs: nat, link: Link)
    requires bs > 0 && Short(link, bs, Blocks(image, bs))
    ensures !link.receiver.finished && (link.early ==> |link.receiver.stored| < |Padded(image, bs)|)
  {
    BlockInside(image, bs, 0);
    hide Base, Blocks, Padded;
  }

  /** A transfer is delivered whole exactly when no ACK was heard for a packet of which no write had arrived. */
  lemma DeliveredWhole(image: seq<Byte>, useCrc: bool, m: nat, bs: nat, link: Link)
    requires Sendable(image, bs) && IsFresh(link) && AllHonest(link.script, useCrc)
    requires Delivery(image, useCrc, m, bs, link).0.Delivered?
    ensures var l := Delivery(image, useCrc, m, bs, link).1;
            l.receiver.stored == Padded(image, bs) && l.receiver.finished <==> !l.early
  {
    hide *;
    FreshIs(link);
    SendableIs(image, bs);
    AtStart(image, bs);
    DeliverySafe(image, useCrc, m, bs, link);
    TransferredShort(image, useCrc, m, bs, link, 0, 1, 0);
    TransferredScript(image, useCrc, m, bs, link, 0, 1, 0);
    var (result, packetNo, across) := Transferred(image, useCrc, m, bs, link, 0, 1, 0);
    var b := Blocks(image, bs);
    DeliveryIs(image, useCrc, m, bs, link, result, packetNo, across);
    var (last, end) := Retried(across, [EOT], useCrc, b, m);
    AheadNext(across, across, b);
    ShortIs(image, bs, across);
    RetriedEot(across, useCrc, b, m);
    if !end.early {
      PrefixIs(image, bs, end.receiver);
    }
  }

  lemma PrefixIs(image: seq<Byte>, bs: nat, r: Receiver)
    requires bs > 0 && HoldsPrefix(image, bs, r)
    ensures r.finished ==> r.stored == Padded(image, bs)
  {
    hide Upto, Blocks, Padded;
  }

  /** An ACK that was heard early was stale. */
  lemma EarlyIsStale(image: seq<Byte>, useCrc: bool, m: nat, bs: nat, link: Link)
    requires bs > 0 && IsFresh(link) && AllHonest(link.script, useCrc)
    ensures var l := Delivery(image, useCrc, m, bs, link).1; l.early ==> l.stale
  {
    hide *;
    FreshIs(link);
    AtStart(image, bs);
    TransferredBacked(image, useCrc, m, bs, link, 0, 1, 0);
    TransferredScript(image, useCrc, m, bs, link, 0, 1, 0);
    var (result, packetNo, across) := Transferred(image, useCrc, m, bs, link, 0, 1, 0);
    DeliveryIs(image, useCrc, m, bs, link, result, packetNo, across);
    RetriedBacked(across, [EOT], useCrc, Blocks(image, bs), m);
    BackedIs(across);
    BackedIs(Retried(across, [EOT], useCrc, Blocks(image, bs), m).1);
  }

  lemma DeliveryBudget(image: seq<Byte>, useCrc: bool, m: nat, bs: nat, link: Link)
    requires bs > 0 && IsFresh(link)
    ensures |Delivery(image, useCrc, m, bs, link).1.heard| <= Base(m, Blocks(image, bs) + 1)
  {
    hide *;
    FreshIs(link);
    AtStart(image, bs);
    TransferredScript(image, useCrc, m, bs, link, 0, 1, 0);
    var (result, packetNo, across) := Transferred(image, useCrc, m, bs, link, 0, 1, 0);
    DeliveryIs(image, useCrc, m, bs, link, result, packetNo, across);
    RetriedScript(across, [EOT], useCrc, Blocks(image, bs), m);
    BaseNext(m, Blocks(image, bs));
  }

  /** With prompt answers nothing stale is read, and a link that serves one in any `m` writes delivers. */
  lemma DeliveryPrompt(image: seq<Byte>, useCrc: bool, m: nat, bs: nat, link: Link)
    requires bs > 0 && IsFresh(link) && AllPrompt(link.script)
    ensures !Delivery(image, useCrc, m, bs, link).1.stale
  {
    TransferredPrompt(image, useCrc, m, bs, link, 0, 1, 0);
    AtStart(image, bs);
    TransferredScript(image, useCrc, m, bs, link, 0, 1, 0);
    hide Transferred, Retried, AllPrompt, Blocks;
    RetriedPrompt(Transferred(image, useCrc, m, bs, link, 0, 1, 0).2, [EOT], useCrc, Blocks(image, bs), m);
  }

  lemma DeliveryServed(image: seq<Byte>, useCrc: bool, m: nat, bs: nat, link: Link)
    requires Sendable(image, bs) && IsFresh(link) && AllHonest(link.script, useCrc)
    requires AllPrompt(link.script) && Serves(link.script, m)
    ensures Delivery(image, useCrc, m, bs, link).0.Delivered?
  {
    hide *;
    FreshIs(link);
    SendableIs(image, bs);
    AtStart(image, bs);
    TransferredServed(image, useCrc, m, bs, link, 0, 1, 0);
    TransferredSafe(image, useCrc, m, bs, link, 0, 1, 0);
    TransferredShort(image, useCrc, m, bs, link, 0, 1, 0);
    TransferredScript(image, useCrc, m, bs, link, 0, 1, 0);
    TransferredPrompt(image, useCrc, m, bs, link, 0, 1, 0);
    TransferredBacked(image, useCrc, m, bs, link, 0, 1, 0);
    var (result, packetNo, across) := Transferred(image, useCrc, m, bs, link, 0, 1, 0);
    var b, r0 := Blocks(image, bs), across.receiver;
    DeliveryIs(image, useCrc, m, bs, link, result, packetNo, across);
    BackedIs(across);
    EotTakes(r0, useCrc);
    AheadNext(across, across, b);
    AroundBefore(across, r0, r0.(finished := true), b);
    RetriedSent(across, [EOT], useCrc, b, r0, r0.(finished := true), m);
  }

  lemma PacketIsBad(image: seq<Byte>, offset: nat, packetNo: nat, useCrc: bool, bs: nat)
    requires offset < |image| && !GoodSize(bs)
    ensures Parse(PacketAt(image, offset, packetNo, useCrc, bs), useCrc) == Bad
  {
    hide Parse, BuildPacket, BlockFrom;
    OddSizeIsBad(BlockFrom(image, offset, bs), packetNo, useCrc, bs);
  }

  /** With any other block size an image that is not empty is never delivered, and nothing of it stored. */
  lemma OddSizeNeverArrives(image: seq<Byte>, useCrc: bool, m: nat, bs: nat, link: Link)
    requires bs > 0 && !Sendable(image, bs) && IsFresh(link) && AllHonest(link.script, useCrc)
    ensures var (outcome, l) := Delivery(image, useCrc, m, bs, link);
            !outcome.Delivered? && l.receiver == link.receiver && !l.stale && !l.early
  {
    NotSendable(image, bs);
    hide *;
    FreshIs(link);
    AtStart(image, bs);
    AtBlockNext(image, bs, 0, 1, 0);
    var bytes := PacketAt(image, 0, 1, useCrc, bs);
    var (result, next) := Retried(link, bytes, useCrc, 0, m);
    PacketIsBad(image, 0, 1, useCrc, bs);
    RetriedRefused(link, bytes, useCrc, 0, m);
    TransferredStep(image, useCrc, m, bs, link, 0, 1, 0, result, next);
    DeliveryIs(image, useCrc, m, bs, link, result, 1, next);
  }

  lemma NotSendable(image: seq<Byte>, bs: nat)
    requires bs > 0 && !Sendable(image, bs)
    ensures !GoodSize(bs) && image != []
  {
  }

  // ---------------------------------------------------------------------------
  // What was heard decides
  // ---------------------------------------------------------------------------

  function Acks(heard: seq<int>): nat {
    if heard == [] then 0 else Acks(heard[..|heard| - 1]) + if heard[|heard| - 1] == ACK then 1 else 0
  }

  lemma AcksMore(heard: seq<int>, response: int)
    ensures Acks(heard + [response]) == Acks(heard) + if response == ACK then 1 else 0
  {
    assert (heard + [response])[..|heard|] == heard;
  }

  predicate IsUncancelled(heard: seq<int>) {
    forall i | 0 <= i < |heard| :: heard[i] != CAN
  }

  /** A CAN was heard, and nothing was written after it. */
  predicate EndsInCan(heard: seq<int>) {
    heard != [] && heard[|heard| - 1] == CAN && IsUncancelled(heard[..|heard| - 1])
  }

  /** Nothing heard after the last `m` writes was ACK or CAN. */
  predicate GaveUp(heard: seq<int>, m: nat) {
    m <= |heard| && forall i | |heard| - m <= i < |heard| :: !Decides(heard[i])
  }

  /** What the retries of one packet add to what was heard. */
  ghost predicate Adds(before: seq<int>, after: seq<int>, n: nat, result: Result) {
    && |before| <= |after|
    && match result
       case Sent => IsUncancelled(after) && Acks(after) == Acks(before) + 1
       case Aborted => EndsInCan(after) && Acks(after) == Acks(before)
       case Unanswered =>
         && |after| == |before| + n && IsUncancelled(after) && Acks(after) == Acks(before)
         && forall i | |before| <= i < |after| :: !Decides(after[i])
  }

  lemma {:induction false} RetriedAdds(link: Link, bytes: seq<Byte>, useCrc: bool, packet: nat, n: nat)
    requires IsUncancelled(link.heard)
    ensures var (result, l) := Retried(link, bytes, useCrc, packet, n); Adds(link.heard, l.heard, n, result)
    decreases n
  {
    if n > 0 {
      hide Exchange;
      var (response, next) := Exchange(link, bytes, useCrc, packet);
      ExchangeHeard(link, bytes, useCrc, packet);
      AcksMore(link.heard, response);
      if response == CAN {
        assert next.heard[..|link.heard|] == link.heard;
      } else if response != ACK {
        RetriedAdds(next, bytes, useCrc, packet, n - 1);
        RetriedKeepsHeard(next, bytes, useCrc, packet, n - 1);
        hide Retried, Acks;
        var l := Retried(next, bytes, useCrc, packet, n - 1).1;
        assert l.heard[|link.heard|] == l.heard[..|next.heard|][|link.heard|] == response;
      }
    }
  }

  lemma {:induction false} RetriedKeepsHeard(link: Link, bytes: seq<Byte>, useCrc: bool, packet: nat, n: nat)
    ensures var l := Retried(link, bytes, useCrc, packet, n).1;
            |link.heard| <= |l.heard| && l.heard[..|link.heard|] == link.heard
    decreases n
  {
    if n > 0 {
      hide Exchange;
      ExchangeHeard(link, bytes, useCrc, packet);
      var next := Exchange(link, bytes, useCrc, packet).1;
      assert next.heard[..|link.heard|] == link.heard;
      RetriedKeepsHeard(next, bytes, useCrc, packet, n - 1);
      var l := Retried(next, bytes, useCrc, packet, n - 1).1;
      assert l.heard[..|link.heard|] == l.heard[..|next.heard|][..|link.heard|];
    }
  }

  /** The transfer of the blocks, told from what was heard: `b` blocks in all. */
  ghost predicate Told(heard: seq<int>, b: nat, m: nat, result: Result, packetNo: nat) {
    match result
    case Sent => IsUncancelled(heard) && Acks(heard) == b
    case Aborted => EndsInCan(heard) && Acks(heard) < b
    case Unanswered =>
      IsUncancelled(heard) && Acks(heard) < b && GaveUp(heard, m) && packetNo == (Acks(heard) + 1) % 0x100
  }

  lemma AddsTells(before: seq<int>, after: seq<int>, m: nat, result: Result, b: nat, packetNo: nat)
    requires Adds(before, after, m, result) && !result.Sent? && Acks(before) < b
    requires packetNo == (Acks(before) + 1) % 0x100
    ensures Told(after, b, m, result, packetNo)
  {
    hide Acks, Decides;
  }

  lemma AddsOne(before: seq<int>, after: seq<int>, m: nat)
    requires Adds(before, after, m, Sent)
    ensures IsUncancelled(after) && Acks(after) == Acks(before) + 1
  {
    hide Acks;
  }

  lemma ToldAll(heard: seq<int>, b: nat, m: nat, packetNo: nat)
    requires IsUncancelled(heard) && Acks(heard) == b
    ensures Told(heard, b, m, Sent, packetNo)
  {
    hide Acks;
  }

  lemma {:induction false} TransferredTold(image: seq<Byte>, useCrc: bool, m: nat, bs: nat, link: Link, offset: nat,
                                           packetNo: nat, k: nat)
    requires AtBlock(image, bs, offset, packetNo, k) && offset <= |image|
    requires IsUncancelled(link.heard) && Acks(link.heard) == k
    ensures var (result, no, l) := Transferred(image, useCrc, m, bs, link, offset, packetNo, k);
            Told(l.heard, Blocks(image, bs), m, result, no)
    decreases |image| - offset
  {
    hide *;
    AtBlockNext(image, bs, offset, packetNo, k);
    AtBlockNumber(image, bs, offset, packetNo, k);
    if offset == |image| {
      TransferredEnd(image, useCrc, m, bs, link, packetNo, k);
      ToldAll(link.heard, Blocks(image, bs), m, packetNo);
    } else {
      var bytes := PacketAt(image, offset, packetNo, useCrc, bs);
      var (result, next) := Retried(link, bytes, useCrc, k, m);
      TransferredStep(image, useCrc, m, bs, link, offset, packetNo, k, result, next);
      RetriedAdds(link, bytes, useCrc, k, m);
      if result.Sent? {
        AddsOne(link.heard, next.heard, m);
        var then' := offset + CountAt(image, offset, bs);
        TransferredTold(image, useCrc, m, bs, next, then', (packetNo + 1) % 0x100, k + 1);
      } else {
        AddsTells(link.heard, next.heard, m, result, Blocks(image, bs), packetNo);
      }
    }
  }

  /** The outcome, told from what was heard after each write: cancelled exactly when the last answer was CAN, with
      no write after a CAN, delivered exactly when each of the `b` blocks and the end byte brought an ACK, and
      otherwise given up after `m` writes without either. */
  ghost predicate Accounts(heard: seq<int>, b: nat, m: nat, outcome: Outcome) {
    && (outcome.Cancelled? || outcome.CancelledAtEot? <==> EndsInCan(heard))
    && (!EndsInCan(heard) ==> IsUncancelled(heard))
    && (outcome.Delivered? <==> Acks(heard) == b + 1)
    && (outcome.CancelledAtEot? || outcome.EotFailed? ==> Acks(heard) == b)
    && (outcome.Cancelled? || outcome.PacketFailed? ==> Acks(heard) < b)
    && (outcome.PacketFailed? ==> outcome.packetNo == (Acks(heard) + 1) % 0x100)
    && (outcome.PacketFailed? || outcome.EotFailed? ==> GaveUp(heard, m))
  }

  lemma ToldAccounts(heard: seq<int>, b: nat, m: nat, result: Result, packetNo: nat)
    requires Told(heard, b, m, result, packetNo) && !result.Sent?
    ensures Accounts(heard, b, m, if result.Aborted? then Cancelled else PacketFailed(packetNo))
  {
    hide Acks, Decides;
  }

  lemma EotAccounts(before: seq<int>, after: seq<int>, b: nat, m: nat, last: Result)
    requires IsUncancelled(before) && Acks(before) == b && Adds(before, after, m, last)
    ensures Accounts(after, b, m,
                     match last case Sent => Delivered case Aborted => CancelledAtEot case Unanswered => EotFailed)
  {
    hide Acks, Decides;
  }

  lemma ToldSent(heard: seq<int>, b: nat, m: nat, packetNo: nat)
    requires Told(heard, b, m, Sent, packetNo)
    ensures IsUncancelled(heard) && Acks(heard) == b
  {
    hide Acks;
  }

  lemma FreshUncancelled(link: Link)
    requires IsFresh(link)
    ensures IsUncancelled(link.heard) && Acks(link.heard) == 0
  {
  }

  lemma DeliveryAccounts(image: seq<Byte>, useCrc: bool, m: nat, bs: nat, link: Link)
    requires bs > 0 && IsFresh(link)
    ensures var (outcome, l) := Delivery(image, useCrc, m, bs, link); Accounts(l.heard, Blocks(image, bs), m, outcome)
  {
    hide *;
    FreshUncancelled(link);
    AtStart(image, bs);
    TransferredTold(image, useCrc, m, bs, link, 0, 1, 0);
    var (result, packetNo, across) := Transferred(image, useCrc, m, bs, link, 0, 1, 0);
    var b := Blocks(image, bs);
    DeliveryIs(image, useCrc, m, bs, link, result, packetNo, across);
    if result.Sent? {
      ToldSent(across.heard, b, m, packetNo);
      RetriedAdds(across, [EOT], useCrc, b, m);
      var (last, end) := Retried(across, [EOT], useCrc, b, m);
      EotAccounts(across.heard, end.heard, b, m, last);
    } else {
      ToldAccounts(across.heard, b, m, result, packetNo);
    }
  }

  // ---------------------------------------------------------------------------
  // The transfer as it is run
  // ---------------------------------------------------------------------------

  /** `send_xmodem`. */
  method SendXmodem(image: seq<Byte>, useCrc: bool, maxRetries: nat, blockSize: nat, link0: Link)
    returns (outcome: Outcome, link: Link)
    requires blockSize > 0 && IsFresh(link0) && AllHonest(link0.script, useCrc)
    ensures (outcome, link) == Delivery(image, useCrc, maxRetries, blockSize, link0)
    ensures |link.heard| <= Base(maxRetries, Blocks(image, blockSize) + 1)
    ensures Accounts(link.heard, Blocks(image, blockSize), maxRetries, outcome)
    ensures outcome.Delivered? ==>
              (link.receiver.stored == Padded(image, blockSize) && link.receiver.finished <==> !link.early)
    ensures !link.early ==> HoldsPrefix(image, blockSize, link.receiver)
    ensures !Sendable(image, blockSize) ==> !outcome.Delivered? && link.receiver == link0.receiver
    ensures link.early ==> link.stale
    ensures AllPrompt(link0.script) ==> !link.stale
    ensures AllPrompt(link0.script) && Serves(link0.script, maxRetries) && Sendable(image, blockSize) ==>
              outcome.Delivered?
  {
    var result, packetNo;
    result, packetNo, link := SendBlocks(image, useCrc, maxRetries, blockSize, link0);
    match result {
      case Aborted => outcome := Cancelled;
      case Unanswered => outcome := PacketFailed(packetNo);
      case Sent => outcome, link := SendEot(useCrc, maxRetries, link, Blocks(image, blockSize));
    }
    assert (outcome, link) == Delivery(image, useCrc, maxRetries, blockSize, link0);
    hide *;
    DeliveryBudget(image, useCrc, maxRetries, blockSize, link0);
    DeliveryAccounts(image, useCrc, maxRetries, blockSize, link0);
    EarlyIsStale(image, useCrc, maxRetries, blockSize, link0);
    if Sendable(image, blockSize) {
      DeliverySafe(image, useCrc, maxRetries, blockSize, link0);
      if outcome.Delivered? {
        DeliveredWhole(image, useCrc, maxRetries, blockSize, link0);
      }
    } else {
      OddSizeNeverArrives(image, useCrc, maxRetries, blockSize, link0);
      FreshIs(link0);
      NothingHeld(image, blockSize, link.receiver);
    }
    if AllPrompt(link0.script) {
      DeliveryPrompt(image, useCrc, maxRetries, blockSize, link0);
      if Serves(link0.script, maxRetries) && Sendable(image, blockSize) {
        DeliveryServed(image, useCrc, maxRetries, blockSize, link0);
      }
    }
  }

  lemma NothingHeld(image: seq<Byte>, bs: nat, r: Receiver)
    requires bs > 0 && r == Receiver(1, [], false)
    ensures HoldsPrefix(image, bs, r)
  {
    UptoEnds(image, bs);
    hide Upto, Blocks, Padded;
  }

  // ---------------------------------------------------------------------------
  // A late answer
  // ---------------------------------------------------------------------------

  /** The first answer comes only after its read has timed out; the third write is lost or not. */
  function LateScript(lost: bool): nat -> Event {
    i => Event(if lost && i == 2 then Lost else Arrives, false, if i == 0 then 0 else 1, [], [], [])
  }

  /** The link after `writes` writes, in a transfer whose first answer was late. */
  function LateLink(lost: bool, writes: nat, receiver: Receiver, pending: seq<Reply>, arrived: set<nat>): Link
    requires writes <= 3
  {
    Link(LateScript(lost), [-1, ACK as int, ACK as int][..writes], receiver, pending, arrived,
         writes > 2, lost && writes > 2)
  }

  /** The answer to the repeated first block is still under way when the second block is written, and is taken
      for the answer to it. The transfer is reported as delivered; if the second block was lost it is nowhere,
      and if it arrived the image is whole although that answer was stale. */
  lemma LateAnswerDropsBlock(first: seq<Byte>, second: seq<Byte>, useCrc: bool, lost: bool)
    requires |first| == |second| == 128
    ensures var link := LateLink(lost, 0, Receiver(1, [], false), [], {});
            var (outcome, l) := Delivery(first + second, useCrc, 2, 128, link);
            && IsFresh(link) && AllHonest(link.script, useCrc) && !Aborts(link.script)
            && outcome == Delivered && l.receiver.finished && l.stale && (l.early <==> lost)
            && l.receiver.stored == if lost then first else first + second
  {
    var image := first + second;
    var start := LateLink(lost, 0, Receiver(1, [], false), [], {});
    var link2 := LateLink(lost, 2, Receiver(2, first, false), [Reply(ACK, 0)], {0});
    var link3 := AfterThird(lost, first, second);
    LateIsHonest(lost, useCrc);
    TwoPackets(image, first, second, useCrc);
    hide Parse, PacketAt, Aborts, AllHonest;
    FirstWrites(start, PacketAt(image, 0, 1, useCrc, 128), useCrc, lost, first, link2);
    ThirdWrite(link2, PacketAt(image, 128, 2, useCrc, 128), useCrc, lost, first, second);
    LastWrite(link3, useCrc, lost, first, second);
    hide *;
    StartIsFresh(lost, start);
    TwoBlocks(image, useCrc, start, link2, link3);
    DeliveryIs(image, useCrc, 2, 128, start, Sent, 3, link3);
  }

  function AfterThird(lost: bool, first: seq<Byte>, second: seq<Byte>): Link {
    if lost then LateLink(lost, 3, Receiver(2, first, false), [], {0})
    else LateLink(lost, 3, Receiver(3, first + second, false), [Reply(ACK, 1)], {0, 1})
  }

  lemma StartIsFresh(lost: bool, start: Link)
    requires start == LateLink(lost, 0, Receiver(1, [], false), [], {})
    ensures IsFresh(start) && start.script == LateScript(lost)
  {
  }

  lemma LateIsHonest(lost: bool, useCrc: bool)
    ensures AllHonest(LateScript(lost), useCrc) && !Aborts(LateScript(lost))
  {
  }

  lemma TwoPackets(image: seq<Byte>, first: seq<Byte>, second: seq<Byte>, useCrc: bool)
    requires |first| == |second| == 128 && image == first + second
    ensures Parse(PacketAt(image, 0, 1, useCrc, 128), useCrc) == Data(1, first)
    ensures Parse(PacketAt(image, 128, 2, useCrc, 128), useCrc) == Data(2, second)
  {
    ParsePacket(image, useCrc, 128, 0, 1);
    ParsePacket(image, useCrc, 128, 128, 2);
    hide PacketAt, Parse;
    assert image[0..128] + Pads(0) == first && image[128..256] + Pads(0) == second;
  }

  lemma TwoBlocks(image: seq<Byte>, useCrc: bool, start: Link, link2: Link, link3: Link)
    requires |image| == 256
    requires Retried(start, PacketAt(image, 0, 1, useCrc, 128), useCrc, 0, 2) == (Sent, link2)
    requires Retried(link2, PacketAt(image, 128, 2, useCrc, 128), useCrc, 1, 2) == (Sent, link3)
    ensures Transferred(image, useCrc, 2, 128, start, 0, 1, 0) == (Sent, 3, link3) && Blocks(image, 128) == 2
  {
    hide Retried, PacketAt, Transferred;
    TransferredStep(image, useCrc, 2, 128, start, 0, 1, 0, Sent, link2);
    TransferredStep(image, useCrc, 2, 128, link2, 128, 2, 1, Sent, link3);
    TransferredEnd(image, useCrc, 2, 128, link3, 3, 2);
  }

  lemma LateHeard()
    ensures var heard := [-1, ACK as int, ACK as int];
            && heard[..0] == [] && [] + [-1] == heard[..1]
            && heard[..1] + [ACK as int] == heard[..2] && heard[..2] + [ACK as int] == heard[..3]
  {
  }

  lemma FirstWrites(start: Link, bytes: seq<Byte>, useCrc: bool, lost: bool, first: seq<Byte>, link2: Link)
    requires start == LateLink(lost, 0, Receiver(1, [], false), [], {}) && Parse(bytes, useCrc) == Data(1, first)
    requires link2 == LateLink(lost, 2, Receiver(2, first, false), [Reply(ACK, 0)], {0})
    ensures Retried(start, bytes, useCrc, 0, 2) == (Sent, link2)
  {
    hide Parse;
    var link1 := LateLink(lost, 1, Receiver(2, first, false), [Reply(ACK, 0)], {0});
    assert [] + first == first && {} + {0} == {0} + {0} == {0};
    LateHeard();
    assert Queue(start, bytes, useCrc, 0) == [Reply(ACK, 0)];
    assert Exchange(start, bytes, useCrc, 0) == (-1, link1);
    assert Queue(link1, bytes, useCrc, 0) == [Reply(ACK, 0), Reply(ACK, 0)];
    assert Exchange(link1, bytes, useCrc, 0) == (ACK as int, link2);
    hide Exchange;
    assert Retried(link1, bytes, useCrc, 0, 1) == (Sent, link2);
  }

  lemma ThirdWrite(link2: Link, bytes: seq<Byte>, useCrc: bool, lost: bool, first: seq<Byte>, second: seq<Byte>)
    requires link2 == LateLink(lost, 2, Receiver(2, first, false), [Reply(ACK, 0)], {0})
    requires Parse(bytes, useCrc) == Data(2, second)
    ensures Retried(link2, bytes, useCrc, 1, 2) == (Sent, AfterThird(lost, first, second))
  {
    hide Parse;
    var link3 := AfterThird(lost, first, second);
    assert Queue(link2, bytes, useCrc, 1) == [Reply(ACK, 0)] + if lost then [] else [Reply(ACK, 1)];
    assert {0} + {1} == {0, 1} && {0} + {} == {0};
    LateHeard();
    assert Exchange(link2, bytes, useCrc, 1) == (ACK as int, link3);
    hide Exchange;
  }

  lemma LastWrite(link3: Link, useCrc: bool, lost: bool, first: seq<Byte>, second: seq<Byte>)
    requires link3 == AfterThird(lost, first, second)
    ensures var (result, l) := Retried(link3, [EOT], useCrc, 2, 2);
            result == Sent && l.receiver == link3.receiver.(finished := true) && l.stale && (l.early <==> lost)
  {
    assert Parse([EOT], useCrc) == EndOfFile;
    hide Parse;
    assert Queue(link3, [EOT], useCrc, 2) == link3.pending + [Reply(ACK, 2)];
    assert Exchange(link3, [EOT], useCrc, 2).0 == ACK as int;
  }
}
