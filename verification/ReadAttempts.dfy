/** Pairing requests and answers of logged traffic into reading attempts. */
module ReadAttempts {

  import opened Counting
  import opened Sorting
  import opened Wrappers

  type Address = string

  const LIFETIME_SECONDS := 300.0

  /** A logged row: its time stamp and row id, its direction, its time when the stamp could be read, and the
      addresses found in it. */
  datatype LogRow =
    | Tx(stamp: string, id: int, at: Option<real>, nested: seq<Address>)
    | Rx(stamp: string, id: int, at: Option<real>, address: Address, failed: bool)
    | Other(stamp: string, id: int, at: Option<real>)

  /** The key `(ts, id)`. */
  function ByStamp(): (LogRow, LogRow) -> bool {
    (r: LogRow, q: LogRow) => if r.stamp == q.stamp then r.id <= q.id else StringLe(r.stamp, q.stamp)
  }

  lemma StampChains(r: LogRow, q: LogRow, t: LogRow)
    requires ByStamp()(r, q) && ByStamp()(q, t)
    ensures ByStamp()(r, t)
  {
    StringTotal(r.stamp, q.stamp);
    if StringLe(r.stamp, q.stamp) && StringLe(q.stamp, t.stamp) {
      StringChains(r.stamp, q.stamp, t.stamp);
    }
    hide StringLe;
  }

  lemma StampOrder()
    ensures IsOrder(ByStamp())
  {
    hide StringLe;
    forall r: LogRow, q: LogRow ensures ByStamp()(r, q) || ByStamp()(q, r) {
      StringTotal(r.stamp, q.stamp);
    }
    forall r: LogRow, q: LogRow, t: LogRow | ByStamp()(r, q) && ByStamp()(q, t) ensures ByStamp()(r, t) {
      StampChains(r, q, t);
    }
  }

  datatype Attempt = Attempt(meter: Address, start: real, end: real, success: bool, duplicate: bool)

  /** What a row does to one address. */
  datatype Event = Send(address: Address, at: real) | Reply(address: Address, at: real, failed: bool)

  function Sends(addresses: seq<Address>, at: real): seq<Event> {
    if addresses == [] then []
    else Sends(addresses[..|addresses| - 1], at) + [Send(addresses[|addresses| - 1], at)]
  }

  function Addressed(nested: seq<Address>): seq<Address> {
    if nested == [] then ["?"] else nested
  }

  function RowEvents(row: LogRow): seq<Event> {
    if row.at.None? then []
    else
      match row
      case Tx(_, _, at, nested) => Sends(Addressed(nested), at.value)
      case Rx(_, _, at, address, failed) => [Reply(address, at.value, failed)]
      case Other(_, _, _) => []
  }

  function Events(rows: seq<LogRow>): seq<Event> {
    if rows == [] then [] else Events(rows[..|rows| - 1]) + RowEvents(rows[|rows| - 1])
  }

  // ---------------------------------------------------------------------------
  // What the attempts of one address should be
  // ---------------------------------------------------------------------------

  /** The events of one address. */
  function Project(events: seq<Event>, a: Address): (own: seq<Event>)
    ensures forall e | e in own :: e.address == a && e in events
  {
    if events == [] then []
    else
      var last := events[|events| - 1];
      Project(events[..|events| - 1], a) + if last.address == a then [last] else []
  }

  /** The send at `i` was made while the one before it was open. */
  predicate IsDuplicate(own: seq<Event>, i: nat)
    requires i < |own|
  {
    own[i].Send? && i > 0 && own[i - 1].Send?
  }

  /** The attempt that event `i` ends: the send just before it, or an answer that nobody asked for. */
  function EndedBy(own: seq<Event>, i: nat): seq<Attempt>
    requires i < |own|
  {
    var success := own[i].Reply? && !own[i].failed;
    if i > 0 && own[i - 1].Send? then
      [Attempt(own[i].address, own[i - 1].at, own[i].at, success, IsDuplicate(own, i - 1))]
    else if own[i].Reply? then [Attempt(own[i].address, own[i].at, own[i].at, success, false)]
    else []
  }

  function EndedUpTo(own: seq<Event>, n: nat): seq<Attempt>
    requires n <= |own|
  {
    if n == 0 then [] else EndedUpTo(own, n - 1) + EndedBy(own, n - 1)
  }

  /** The attempts of an address that a later event ended, in order. */
  function Ended(own: seq<Event>): seq<Attempt> {
    EndedUpTo(own, |own|)
  }

  predicate IsOpen(own: seq<Event>) {
    own != [] && own[|own| - 1].Send?
  }

  predicate IsSwept(own: seq<Event>, latest: real) {
    IsOpen(own) && latest - own[|own| - 1].at >= LIFETIME_SECONDS
  }

  /** The last send, ended by its lifetime. */
  function Swept(own: seq<Event>, latest: real): seq<Attempt> {
    if IsSwept(own, latest) then
      var last := own[|own| - 1];
      [Attempt(last.address, last.at, last.at + LIFETIME_SECONDS, false, IsDuplicate(own, |own| - 1))]
    else []
  }

  function Of(attempts: seq<Attempt>, a: Address): seq<Attempt> {
    if attempts == [] then []
    else
      var last := attempts[|attempts| - 1];
      Of(attempts[..|attempts| - 1], a) + if last.meter == a then [last] else []
  }

  // ---------------------------------------------------------------------------
  // All addresses together
  // ---------------------------------------------------------------------------

  /** The attempts that events end, in the order of these events. */
  function AllEnded(events: seq<Event>): seq<Attempt> {
    if events == [] then []
    else
      var own := Project(events, events[|events| - 1].address);
      AllEnded(events[..|events| - 1]) + EndedBy(own, |own| - 1)
  }

  predicate IsLastOf(events: seq<Event>, i: nat)
    requires i < |events|
  {
    forall j | i < j < |events| :: events[j].address != events[i].address
  }

  function SweptUpTo(events: seq<Event>, latest: real, n: nat): seq<Attempt>
    requires n <= |events|
  {
    if n == 0 then []
    else
      SweptUpTo(events, latest, n - 1)
        + if IsLastOf(events, n - 1) then Swept(Project(events, events[n - 1].address), latest) else []
  }

  /** The attempts ended by their lifetime, in the order in which they were sent. */
  function AllSwept(events: seq<Event>, latest: real): seq<Attempt> {
    SweptUpTo(events, latest, |events|)
  }

  lemma ProjectAppend(events: seq<Event>, e: Event, a: Address)
    ensures Project(events + [e], a) == Project(events, a) + if e.address == a then [e] else []
  {
    assert (events + [e])[..|events|] == events;
  }

  lemma OfAppend(attempts: seq<Attempt>, t: Attempt, a: Address)
    ensures Of(attempts + [t], a) == Of(attempts, a) + if t.meter == a then [t] else []
  {
    assert (attempts + [t])[..|attempts|] == attempts;
  }

  lemma OfMore(attempts: seq<Attempt>, more: seq<Attempt>, a: Address, b: Address)
    requires |more| <= 1 && forall t | t in more :: t.meter == b
    ensures Of(attempts + more, a) == Of(attempts, a) + if a == b then more else []
  {
    if more == [] {
      assert attempts + more == attempts;
    } else {
      assert more == [more[0]] && more[0] in more;
      OfAppend(attempts, more[0], a);
    }
  }

  lemma {:induction false} EndedPrefix(own: seq<Event>, e: Event, n: nat)
    requires n <= |own|
    ensures EndedUpTo(own + [e], n) == EndedUpTo(own, n)
  {
    if n > 0 {
      EndedPrefix(own, e, n - 1);
      assert EndedBy(own + [e], n - 1) == EndedBy(own, n - 1);
    }
  }

  lemma EndedNone()
    ensures Ended([]) == []
  {
  }

  lemma EndedAppend(own: seq<Event>, e: Event)
    ensures Ended(own + [e]) == Ended(own) + EndedBy(own + [e], |own|)
  {
    EndedPrefix(own, e, |own|);
  }

  lemma AllEndedAppend(events: seq<Event>, e: Event)
    ensures AllEnded(events + [e]) ==
            AllEnded(events) + EndedBy(Project(events, e.address) + [e], |Project(events, e.address)|)
  {
    assert (events + [e])[..|events|] == events;
    ProjectAppend(events, e, e.address);
  }

  lemma EndedByMeter(own: seq<Event>, e: Event)
    requires forall x | x in own :: x.address == e.address
    ensures |EndedBy(own + [e], |own|)| <= 1 && forall t | t in EndedBy(own + [e], |own|) :: t.meter == e.address
  {
  }

  lemma EndedOfNext(events: seq<Event>, e: Event, a: Address)
    requires Of(AllEnded(events), a) == Ended(Project(events, a))
    ensures Of(AllEnded(events + [e]), a) == Ended(Project(events + [e], a))
  {
    hide *;
    var own := Project(events, e.address);
    var more := EndedBy(own + [e], |own|);
    AllEndedAppend(events, e);
    ProjectAppend(events, e, a);
    EndedByMeter(own, e);
    OfMore(AllEnded(events), more, a, e.address);
    if e.address == a {
      EndedAppend(own, e);
    } else {
      assert Project(events, a) + [] == Project(events, a) && Of(AllEnded(events), a) + [] == Of(AllEnded(events), a);
    }
  }

  /** Of all attempts that events end, those of one address are the ones its own events end. */
  lemma {:induction false} EndedOfOne(events: seq<Event>, a: Address)
    ensures Of(AllEnded(events), a) == Ended(Project(events, a))
  {
    if events == [] {
      EndedNone();
    } else {
      var init, e := events[..|events| - 1], events[|events| - 1];
      hide *;
      assert events == init + [e];
      EndedOfOne(init, a);
      EndedOfNext(init, e, a);
    }
  }

  /** The last event of the address is among the first `n`. */
  ghost predicate LastBefore(events: seq<Event>, a: Address, n: nat) {
    exists i :: 0 <= i < n && i < |events| && events[i].address == a && IsLastOf(events, i)
  }

  lemma LastBeforeNext(events: seq<Event>, a: Address, n: nat)
    requires 0 < n <= |events|
    ensures LastBefore(events, a, n) <==>
            LastBefore(events, a, n - 1) || (events[n - 1].address == a && IsLastOf(events, n - 1))
    ensures events[n - 1].address == a ==> !LastBefore(events, a, n - 1)
  {
  }

  lemma {:induction false} SweptOfOneUpTo(events: seq<Event>, latest: real, a: Address, n: nat)
    requires n <= |events|
    ensures Of(SweptUpTo(events, latest, n), a) ==
            if LastBefore(events, a, n) then Swept(Project(events, a), latest) else []
  {
    hide Of, Project, LastBefore, IsLastOf, Swept;
    if n == 0 {
      NoneBefore(events, a);
    } else {
      SweptOfOneUpTo(events, latest, a, n - 1);
      LastBeforeNext(events, a, n);
      var b, before := events[n - 1].address, SweptUpTo(events, latest, n - 1);
      var more := if IsLastOf(events, n - 1) then Swept(Project(events, b), latest) else [];
      SweptMeter(Project(events, b), latest, b);
      OfMore(before, more, a, b);
      assert Of(before, a) + [] == Of(before, a);
    }
  }

  lemma NoneBefore(events: seq<Event>, a: Address)
    ensures !LastBefore(events, a, 0) && Of([], a) == []
  {
  }

  lemma SweptMeter(own: seq<Event>, latest: real, a: Address)
    requires forall e | e in own :: e.address == a
    ensures |Swept(own, latest)| <= 1 && forall t | t in Swept(own, latest) :: t.meter == a
  {
  }

  lemma {:induction false} LastIsBefore(events: seq<Event>, a: Address, n: nat)
    requires n <= |events| && forall j | n <= j < |events| :: events[j].address != a
    ensures LastBefore(events, a, n) || forall j | 0 <= j < |events| :: events[j].address != a
  {
    if n > 0 {
      if events[n - 1].address == a {
        assert IsLastOf(events, n - 1);
      } else {
        LastIsBefore(events, a, n - 1);
      }
    }
  }

  /** So it is for the swept ones. */
  lemma SweptOfOne(events: seq<Event>, latest: real, a: Address)
    ensures Of(AllSwept(events, latest), a) == Swept(Project(events, a), latest)
  {
    SweptOfOneUpTo(events, latest, a, |events|);
    LastIsBefore(events, a, |events|);
    var own := Project(events, a);
    assert own != [] ==> own[0] in own && own[0] in events;
  }

  lemma {:induction false} OfConcat(x: seq<Attempt>, y: seq<Attempt>, a: Address)
    ensures Of(x + y, a) == Of(x, a) + Of(y, a)
  {
    if y == [] {
      assert x + y == x;
    } else {
      hide *;
      var init, t := y[..|y| - 1], y[|y| - 1];
      OfConcat(x, init, a);
      OfAppend(x + init, t, a);
      OfAppend(init, t, a);
      assert y == init + [t];
      assert x + y == (x + init) + [t];
      var own := if t.meter == a then [t] else [];
      assert (Of(x, a) + Of(init, a)) + own == Of(x, a) + (Of(init, a) + own);
    }
  }

  // ---------------------------------------------------------------------------
  // The algorithm
  // ---------------------------------------------------------------------------

  /** Open sends, duplicate flags and attempts so far. `order` lists the keys of `open` as they were inserted,
      which is how a dictionary is iterated. */
  datatype Pairing =
    Pairing(open: map<Address, real>, order: seq<Address>, dup: map<Address, bool>, attempts: seq<Attempt>)

  /** What is left of the keys when one is popped. */
  function Without(order: seq<Address>, a: Address): (rest: seq<Address>)
    ensures forall b :: b in rest <==> b in order && b != a
  {
    if order == [] then []
    else
      var init, last := order[..|order| - 1], order[|order| - 1];
      assert order == init + [last];
      Without(init, a) + if last == a then [] else [last]
  }

  lemma {:induction false} WithoutNone(order: seq<Address>, a: Address)
    requires a !in order
    ensures Without(order, a) == order
  {
    if order != [] {
      WithoutNone(order[..|order| - 1], a);
    }
  }

  lemma WithoutAppend(order: seq<Address>, b: Address, a: Address)
    ensures Without(order + [b], a) == Without(order, a) + if b == a then [] else [b]
  {
    assert (order + [b])[..|order|] == order;
  }

  /** The address of event `i` if this is its last event and leaves it open. */
  function OpenAt(events: seq<Event>, i: nat): seq<Address>
    requires i < |events|
  {
    var a := events[i].address;
    if IsLastOf(events, i) && IsOpen(Project(events, a)) then [a] else []
  }

  function OpenUpTo(events: seq<Event>, n: nat): seq<Address>
    requires n <= |events|
  {
    if n == 0 then [] else OpenUpTo(events, n - 1) + OpenAt(events, n - 1)
  }

  lemma LastOfAppend(events: seq<Event>, e: Event, i: nat)
    requires i < |events|
    ensures IsLastOf(events + [e], i) <==> IsLastOf(events, i) && events[i].address != e.address
  {
    var longer := events + [e];
    assert longer[|events|] == e && forall j | i <= j < |events| :: longer[j] == events[j];
  }

  lemma OpenAtAppend(events: seq<Event>, e: Event, i: nat)
    requires i < |events|
    ensures OpenAt(events + [e], i) == if events[i].address == e.address then [] else OpenAt(events, i)
  {
    var a := events[i].address;
    assert (events + [e])[i] == events[i];
    ProjectAppend(events, e, a);
    assert Project(events, a) + [] == Project(events, a);
    LastOfAppend(events, e, i);
    hide Project, IsLastOf, IsOpen;
  }

  lemma OpenUpToNext(events: seq<Event>, n: nat)
    requires 0 < n <= |events|
    ensures OpenUpTo(events, n) == OpenUpTo(events, n - 1) + OpenAt(events, n - 1)
    ensures OpenAt(events, n - 1) == [events[n - 1].address] || OpenAt(events, n - 1) == []
  {
    hide Project, IsLastOf, IsOpen;
  }

  lemma OpenNone(events: seq<Event>, a: Address)
    ensures OpenUpTo(events, 0) == [] && Without([], a) == []
  {
  }

  lemma {:induction false} OpenAppend(events: seq<Event>, e: Event, n: nat)
    requires n <= |events|
    ensures OpenUpTo(events + [e], n) == Without(OpenUpTo(events, n), e.address)
  {
    hide *;
    if n == 0 {
      OpenNone(events, e.address);
      OpenNone(events + [e], e.address);
    } else {
      OpenAppend(events, e, n - 1);
      OpenAtAppend(events, e, n - 1);
      OpenUpToNext(events, n);
      OpenUpToNext(events + [e], n);
      var before, a := OpenUpTo(events, n - 1), events[n - 1].address;
      WithoutAppend(before, a, e.address);
      assert before + [] == before && Without(before, e.address) + [] == Without(before, e.address);
    }
  }

  /** The addresses open after one more event. */
  lemma OpenNext(events: seq<Event>, e: Event)
    ensures OpenUpTo(events + [e], |events| + 1) ==
            Without(OpenUpTo(events, |events|), e.address) + if e.Send? then [e.address] else []
  {
    OpenLast(events, e);
    hide *;
    OpenAppend(events, e, |events|);
    OpenUpToNext(events + [e], |events| + 1);
  }

  lemma OpenLast(events: seq<Event>, e: Event)
    ensures OpenAt(events + [e], |events|) == if e.Send? then [e.address] else []
  {
    ProjectAppend(events, e, e.address);
    assert (events + [e])[|events|] == e;
    hide Project;
  }

  /** The open send and duplicate flag of an address belong to its last event. */
  ghost predicate OpenFor(own: seq<Event>, a: Address, p: Pairing) {
    && (a in p.open <==> IsOpen(own)) && (a in p.open <==> a in p.order)
    && (a in p.open ==> p.open[a] == own[|own| - 1].at && a in p.dup && p.dup[a] == IsDuplicate(own, |own| - 1))
  }

  ghost predicate AllOpenFor(events: seq<Event>, p: Pairing) {
    forall a: Address :: OpenFor(Project(events, a), a, p)
  }

  ghost predicate InStep(events: seq<Event>, p: Pairing) {
    AllOpenFor(events, p) && p.order == OpenUpTo(events, |events|) && p.attempts == AllEnded(events)
  }

  /** A send ends the open one before it. */
  function AfterSend(p: Pairing, a: Address, at: real): Pairing {
    if a in p.open then
      var attempt := Attempt(a, p.open[a], at, false, a in p.dup && p.dup[a]);
      Pairing(p.open[a := at], Without(p.order, a) + [a], p.dup[a := true], p.attempts + [attempt])
    else
      Pairing(p.open[a := at], p.order + [a], p.dup[a := false], p.attempts)
  }

  /** An answer ends the open send, or stands alone. */
  function AfterReply(p: Pairing, a: Address, at: real, failed: bool): Pairing {
    if a in p.open then
      var attempt := Attempt(a, p.open[a], at, !failed, a in p.dup && p.dup[a]);
      Pairing(p.open - {a}, Without(p.order, a), p.dup - {a}, p.attempts + [attempt])
    else
      p.(attempts := p.attempts + [Attempt(a, at, at, !failed, false)])
  }

  lemma OwnSend(own: seq<Event>, p: Pairing, a: Address, at: real)
    requires OpenFor(own, a, p)
    ensures OpenFor(own + [Send(a, at)], a, AfterSend(p, a, at))
    ensures AfterSend(p, a, at).attempts == p.attempts + EndedBy(own + [Send(a, at)], |own|)
    ensures AfterSend(p, a, at).order == Without(p.order, a) + [a]
  {
    if a !in p.open {
      WithoutNone(p.order, a);
    }
    hide Without;
  }

  lemma OwnReply(own: seq<Event>, p: Pairing, a: Address, at: real, failed: bool)
    requires OpenFor(own, a, p)
    ensures OpenFor(own + [Reply(a, at, failed)], a, AfterReply(p, a, at, failed))
    ensures AfterReply(p, a, at, failed).attempts == p.attempts + EndedBy(own + [Reply(a, at, failed)], |own|)
    ensures AfterReply(p, a, at, failed).order == Without(p.order, a)
  {
    if a !in p.open {
      WithoutNone(p.order, a);
    }
    hide Without;
  }

  lemma OtherSend(own: seq<Event>, p: Pairing, b: Address, a: Address, at: real)
    requires OpenFor(own, b, p) && a != b
    ensures OpenFor(own, b, AfterSend(p, a, at))
  {
    hide Without, IsOpen, IsDuplicate;
  }

  lemma OtherReply(own: seq<Event>, p: Pairing, b: Address, a: Address, at: real, failed: bool)
    requires OpenFor(own, b, p) && a != b
    ensures OpenFor(own, b, AfterReply(p, a, at, failed))
  {
    hide Without, IsOpen, IsDuplicate;
  }

  /** One event keeps the pairing in step when it does so for its own address and leaves the others alone. */
  lemma EventKeeps(events: seq<Event>, p: Pairing, e: Event, q: Pairing)
    requires InStep(events, p)
    requires q.order == Without(p.order, e.address) + if e.Send? then [e.address] else []
    requires q.attempts == p.attempts + EndedBy(Project(events, e.address) + [e], |Project(events, e.address)|)
    requires OpenFor(Project(events, e.address) + [e], e.address, q)
    requires forall b | b != e.address :: OpenFor(Project(events, b), b, q)
    ensures InStep(events + [e], q)
  {
    hide OpenFor, Project, AllEnded, EndedBy, Without, OpenUpTo;
    OpenNext(events, e);
    AllEndedAppend(events, e);
    forall b: Address ensures OpenFor(Project(events + [e], b), b, q) {
      ProjectAppend(events, e, b);
      assert Project(events, b) + [] == Project(events, b);
    }
  }

  lemma SendKeeps(events: seq<Event>, p: Pairing, a: Address, at: real)
    requires InStep(events, p)
    ensures InStep(events + [Send(a, at)], AfterSend(p, a, at))
  {
    forall b: Address ensures OpenFor(Project(events, b), b, p) {
    }
    hide *;
    OwnSend(Project(events, a), p, a, at);
    forall b | b != a ensures OpenFor(Project(events, b), b, AfterSend(p, a, at)) {
      OtherSend(Project(events, b), p, b, a, at);
    }
    EventKeeps(events, p, Send(a, at), AfterSend(p, a, at));
  }

  lemma ReplyKeeps(events: seq<Event>, p: Pairing, a: Address, at: real, failed: bool)
    requires InStep(events, p)
    ensures InStep(events + [Reply(a, at, failed)], AfterReply(p, a, at, failed))
  {
    forall b: Address ensures OpenFor(Project(events, b), b, p) {
    }
    hide *;
    OwnReply(Project(events, a), p, a, at, failed);
    forall b | b != a ensures OpenFor(Project(events, b), b, AfterReply(p, a, at, failed)) {
      OtherReply(Project(events, b), p, b, a, at, failed);
    }
    assert Without(p.order, a) + [] == Without(p.order, a);
    EventKeeps(events, p, Reply(a, at, failed), AfterReply(p, a, at, failed));
  }

  method OnSend(ghost events: seq<Event>, p: Pairing, a: Address, at: real) returns (r: Pairing)
    requires InStep(events, p)
    ensures InStep(events + [Send(a, at)], r)
  {
    var open, order, dup, attempts := p.open, p.order, p.dup, p.attempts;
    if a in open {
      attempts := attempts + [Attempt(a, open[a], at, false, a in dup && dup[a])];
      open, order := open - {a}, Without(order, a);
      dup := dup[a := true];
    } else {
      dup := dup[a := false];
    }
    open, order := open[a := at], order + [a];
    r := Pairing(open, order, dup, attempts);
    assert r.open == p.open[a := at];
    hide InStep;
    SendKeeps(events, p, a, at);
  }

  method OnReply(ghost events: seq<Event>, p: Pairing, a: Address, at: real, failed: bool) returns (r: Pairing)
    requires InStep(events, p)
    ensures InStep(events + [Reply(a, at, failed)], r)
  {
    var open, order, dup := p.open, p.order, p.dup;
    var start, duplicate := at, false;
    if a in open {
      start, duplicate := open[a], a in dup && dup[a];
      open, order := open - {a}, Without(order, a);
      dup := dup - {a};
    }
    r := Pairing(open, order, dup, p.attempts + [Attempt(a, start, at, !failed, duplicate)]);
    hide InStep;
    ReplyKeeps(events, p, a, at, failed);
  }

  lemma NothingYet()
    ensures InStep([], Pairing(map[], [], map[], []))
  {
  }

  lemma SendsPrefix(addresses: seq<Address>, at: real, j: nat)
    requires j < |addresses|
    ensures Sends(addresses[..j + 1], at) == Sends(addresses[..j], at) + [Send(addresses[j], at)]
  {
    assert addresses[..j + 1][..j] == addresses[..j];
  }

  method OnRow(ghost events: seq<Event>, p: Pairing, row: LogRow) returns (r: Pairing)
    requires InStep(events, p)
    ensures InStep(events + RowEvents(row), r)
  {
    hide InStep;
    r := p;
    if row.at.None? || row.Other? {
      assert events + [] == events;
    } else if row.Tx? {
      var addresses := Addressed(row.nested);
      assert events + [] == events;
      for j := 0 to |addresses|
        invariant InStep(events + Sends(addresses[..j], row.at.value), r)
      {
        SendsPrefix(addresses, row.at.value, j);
        var sends := Sends(addresses[..j], row.at.value);
        assert events + (sends + [Send(addresses[j], row.at.value)]) ==
               events + sends + [Send(addresses[j], row.at.value)];
        r := OnSend(events + Sends(addresses[..j], row.at.value), r, addresses[j], row.at.value);
      }
      assert addresses[..|addresses|] == addresses;
    } else {
      r := OnReply(events, p, row.address, row.at.value, row.failed);
    }
  }

  /** The latest end among the attempts, zero when there is none. */
  function LatestEnd(attempts: seq<Attempt>): real {
    if attempts == [] then 0.0
    else
      var last := attempts[|attempts| - 1].end;
      if |attempts| == 1 || last >= LatestEnd(attempts[..|attempts| - 1]) then last
      else LatestEnd(attempts[..|attempts| - 1])
  }

  /** The open send of `a`, ended by its lifetime if that ran out. */
  function Expired(p: Pairing, a: Address, latest: real): seq<Attempt>
    requires a in p.open
  {
    if latest - p.open[a] >= LIFETIME_SECONDS
    then [Attempt(a, p.open[a], p.open[a] + LIFETIME_SECONDS, false, a in p.dup && p.dup[a])]
    else []
  }

  lemma SweptIs(own: seq<Event>, p: Pairing, a: Address, latest: real)
    requires OpenFor(own, a, p) && forall e | e in own :: e.address == a
    ensures a in p.open <==> IsOpen(own)
    ensures a !in p.open ==> Swept(own, latest) == []
    ensures a in p.open ==> Swept(own, latest) == Expired(p, a, latest)
  {
    hide IsDuplicate;
    assert own != [] ==> own[|own| - 1] in own;
  }

  /** What the sweep adds for the first keys it visits. */
  function SweepOver(p: Pairing, latest: real, order: seq<Address>): seq<Attempt>
    requires forall a | a in order :: a in p.open
  {
    if order == [] then []
    else
      var a := order[|order| - 1];
      SweepOver(p, latest, order[..|order| - 1]) + Expired(p, a, latest)
  }

  lemma SweepOverNext(p: Pairing, latest: real, order: seq<Address>, a: Address)
    requires (forall b | b in order :: b in p.open) && a in p.open
    ensures SweepOver(p, latest, order + [a]) == SweepOver(p, latest, order) + Expired(p, a, latest)
  {
    assert (order + [a])[..|order|] == order;
  }

  /** One turn of the sweep. */
  lemma SweepTurn(p: Pairing, latest: real, i: nat, attempts: seq<Attempt>)
    requires i < |p.order| && (forall b | b in p.order :: b in p.open)
    requires attempts == p.attempts + SweepOver(p, latest, p.order[..i])
    ensures attempts + Expired(p, p.order[i], latest) == p.attempts + SweepOver(p, latest, p.order[..i + 1])
  {
    hide *;
    SweepOverNext(p, latest, p.order[..i], p.order[i]);
    assert p.order[..i + 1] == p.order[..i] + [p.order[i]];
  }

  lemma SweptUpToNext(events: seq<Event>, latest: real, n: nat)
    requires 0 < n <= |events|
    ensures var a := events[n - 1].address;
            SweptUpTo(events, latest, n) ==
            SweptUpTo(events, latest, n - 1)
            + if OpenAt(events, n - 1) == [a] then Swept(Project(events, a), latest) else []
    ensures OpenAt(events, n - 1) == [events[n - 1].address] || OpenAt(events, n - 1) == []
  {
    hide Project, IsLastOf;
  }

  lemma {:induction false} SweepIs(events: seq<Event>, p: Pairing, latest: real, n: nat)
    requires AllOpenFor(events, p) && n <= |events|
    ensures forall a | a in OpenUpTo(events, n) :: a in p.open
    ensures SweepOver(p, latest, OpenUpTo(events, n)) == SweptUpTo(events, latest, n)
  {
    hide Project, SweepOver, Swept, OpenFor, OpenAt;
    if n == 0 {
      SweepOverNone(p, latest);
    } else {
      SweepIs(events, p, latest, n - 1);
      SweptUpToNext(events, latest, n);
      var a, before := events[n - 1].address, OpenUpTo(events, n - 1);
      assert OpenFor(Project(events, a), a, p);
      hide AllOpenFor, SweptUpTo;
      if OpenAt(events, n - 1) == [a] {
        OpenAtIs(events, n - 1);
        SweptIs(Project(events, a), p, a, latest);
        SweepOverNext(p, latest, before, a);
      } else {
        assert before + [] == before;
      }
    }
  }

  lemma OpenAtIs(events: seq<Event>, i: nat)
    requires i < |events|
    ensures OpenAt(events, i) != [] ==> IsOpen(Project(events, events[i].address))
  {
  }

  method SweepOne(p: Pairing, latest: real, a: Address, attempts: seq<Attempt>) returns (r: seq<Attempt>)
    requires a in p.open
    ensures r == attempts + Expired(p, a, latest)
  {
    r := attempts;
    var start := p.open[a];
    if latest - start >= LIFETIME_SECONDS {
      r := r + [Attempt(a, start, start + LIFETIME_SECONDS, false, a in p.dup && p.dup[a])];
    }
  }

  method Sweep(ghost events: seq<Event>, p: Pairing, latest: real) returns (attempts: seq<Attempt>)
    requires InStep(events, p)
    ensures attempts == AllEnded(events) + AllSwept(events, latest)
  {
    SweepStarts(events, p, latest);
    hide *;
    SweepOverNone(p, latest);
    attempts := p.attempts;
    for i := 0 to |p.order|
      invariant attempts == p.attempts + SweepOver(p, latest, p.order[..i])
    {
      SweepTurn(p, latest, i, attempts);
      attempts := SweepOne(p, latest, p.order[i], attempts);
    }
    assert p.order[..|p.order|] == p.order;
  }

  lemma SweepStarts(events: seq<Event>, p: Pairing, latest: real)
    requires InStep(events, p)
    ensures p.attempts == AllEnded(events) && forall a | a in p.order :: a in p.open
    ensures SweepOver(p, latest, p.order) == AllSwept(events, latest)
  {
    hide AllOpenFor, OpenUpTo, SweptUpTo, SweepOver, AllEnded;
    SweepIs(events, p, latest, |events|);
  }

  lemma SweepOverNone(p: Pairing, latest: real)
    ensures SweepOver(p, latest, []) == []
  {
  }

  method PairRows(rows: seq<LogRow>) returns (p: Pairing)
    ensures InStep(Events(rows), p)
  {
    p := Pairing(map[], [], map[], []);
    NothingYet();
    for i := 0 to |rows|
      invariant InStep(Events(rows[..i]), p)
    {
      hide InStep;
      assert rows[..i + 1][..i] == rows[..i];
      p := OnRow(Events(rows[..i]), p, rows[i]);
    }
    assert rows[..|rows|] == rows;
  }

  /** The latest end among all attempts that a later event ended, zero when there is none. */
  ghost predicate IsLatestEnd(events: seq<Event>, latest: real) {
    && (forall a: Address, t: Attempt | t in Ended(Project(events, a)) :: t.end <= latest)
    && ((exists a: Address, t: Attempt :: t in Ended(Project(events, a)) && t.end == latest)
        || (latest == 0.0 && forall a: Address :: Ended(Project(events, a)) == []))
  }

  /** First the attempts that later events ended, in the order of these, and then the open sends whose lifetime
      ran out before the latest of all ends, in the order in which they were made; for every address these are
      the attempts its own events end, and perhaps its last send. */
  ghost predicate IsCollected(events: seq<Event>, attempts: seq<Attempt>, latest: real) {
    && IsLatestEnd(events, latest)
    && attempts == AllEnded(events) + AllSwept(events, latest)
    && forall a: Address :: Of(attempts, a) == Ended(Project(events, a)) + Swept(Project(events, a), latest)
  }

  lemma {:induction false} OfHas(attempts: seq<Attempt>, t: Attempt, a: Address)
    ensures t in Of(attempts, a) <==> t in attempts && t.meter == a
  {
    if attempts != [] {
      OfHas(attempts[..|attempts| - 1], t, a);
      assert attempts == attempts[..|attempts| - 1] + [attempts[|attempts| - 1]];
    }
  }

  lemma {:induction false} LatestEndIs(attempts: seq<Attempt>)
    requires attempts != []
    ensures forall t | t in attempts :: t.end <= LatestEnd(attempts)
    ensures exists t :: t in attempts && t.end == LatestEnd(attempts)
  {
    var init, last := attempts[..|attempts| - 1], attempts[|attempts| - 1];
    assert attempts == init + [last];
    if init != [] {
      LatestEndIs(init);
    }
    assert last in attempts;
  }

  lemma LatestOfAll(events: seq<Event>)
    ensures IsLatestEnd(events, LatestEnd(AllEnded(events)))
  {
    hide Ended, AllEnded, Of, LatestEnd, Project;
    var attempts := AllEnded(events);
    forall a: Address ensures Of(attempts, a) == Ended(Project(events, a)) {
      EndedOfOne(events, a);
    }
    forall a: Address, t: Attempt ensures t in Of(attempts, a) <==> t in attempts && t.meter == a {
      OfHas(attempts, t, a);
    }
    if attempts == [] {
      NoLatest();
    } else {
      LatestEndIs(attempts);
      var t :| t in attempts && t.end == LatestEnd(attempts);
      assert t in Ended(Project(events, t.meter));
    }
  }

  lemma NoLatest()
    ensures LatestEnd([]) == 0.0 && forall a: Address :: Of([], a) == []
  {
  }

  lemma CollectedOfOne(events: seq<Event>, latest: real, a: Address)
    ensures Of(AllEnded(events) + AllSwept(events, latest), a) ==
            Ended(Project(events, a)) + Swept(Project(events, a), latest)
  {
    hide *;
    EndedOfOne(events, a);
    SweptOfOne(events, latest, a);
    OfConcat(AllEnded(events), AllSwept(events, latest), a);
  }

  /** `collect_attempts`. */
  method CollectAttempts(rows: seq<LogRow>) returns (attempts: seq<Attempt>)
    ensures exists latest :: IsCollected(Events(Sort(rows, ByStamp())), attempts, latest)
    ensures forall a: Address :: SuccessesAre(rows, attempts, a)
    ensures InTime(Events(Sort(rows, ByStamp()))) ==> forall a: Address :: Disjoint(Of(attempts, a))
  {
    ghost var events := Events(Sort(rows, ByStamp()));
    var p := PairRows(Sort(rows, ByStamp()));
    attempts := Sweep(events, p, LatestEnd(p.attempts));
    ghost var latest := LatestEnd(AllEnded(events));
    assert p.attempts == AllEnded(events);
    LatestOfAll(events);
    hide Of, Ended, AllEnded, AllSwept, Project, Swept, LatestEnd, Events, InStep, IsLatestEnd, Sort, InTime, Disjoint,
      SuccessesAre;
    forall a: Address
      ensures Of(attempts, a) == Ended(Project(events, a)) + Swept(Project(events, a), latest)
      ensures SuccessesAre(rows, attempts, a)
      ensures InTime(events) ==> Disjoint(Of(attempts, a))
    {
      CollectedOfOne(events, latest, a);
      SuccessesFromRows(rows, events, attempts, latest, a);
      if InTime(events) {
        ProjectInTime(events, a);
        AttemptsDisjoint(Project(events, a), latest);
      }
    }
    assert IsCollected(events, attempts, latest);
  }

  /** Rows of different stamps and ids give the same events in whatever order they come. */
  lemma RowOrderDoesNotMatter(rows: seq<LogRow>, other: seq<LogRow>)
    requires multiset(rows) == multiset(other)
    requires forall r, q | r in rows && q in rows && r.stamp == q.stamp && r.id == q.id :: r == q
    ensures Events(Sort(rows, ByStamp())) == Events(Sort(other, ByStamp()))
  {
    StampOrder();
    forall r: LogRow, q: LogRow | r in rows && q in rows && ByStamp()(r, q) && ByStamp()(q, r) ensures r == q {
      StringTotal(r.stamp, q.stamp);
    }
    SortIgnoresOrder(rows, other, ByStamp());
  }

  // ---------------------------------------------------------------------------
  // What that amounts to
  // ---------------------------------------------------------------------------

  /** How many events of one kind (a send or an answer) come right after a send. */
  function AfterOpen(own: seq<Event>, sends: bool): nat {
    if |own| <= 1 then 0
    else
      AfterOpen(own[..|own| - 1], sends) + if own[|own| - 2].Send? && own[|own| - 1].Send? == sends then 1 else 0
  }

  function SendCount(own: seq<Event>): nat {
    NumberOf(own, (e: Event) => e.Send?)
  }

  function ReplyCount(own: seq<Event>): nat {
    NumberOf(own, (e: Event) => e.Reply?)
  }

  function Duplicates(attempts: seq<Attempt>): nat {
    if attempts == [] then 0
    else Duplicates(attempts[..|attempts| - 1]) + if attempts[|attempts| - 1].duplicate then 1 else 0
  }

  function Bit(b: bool): nat {
    if b then 1 else 0
  }

  /** Every send is superseded, answered or still open; every answer ends a send or stands alone. Attempts
      are the sends no longer open and the answers that stand alone. */
  lemma {:induction false} EndedConserves(own: seq<Event>)
    ensures SendCount(own) == AfterOpen(own, true) + AfterOpen(own, false) + Bit(IsOpen(own))
    ensures |Ended(own)| + Bit(IsOpen(own)) == SendCount(own) + (ReplyCount(own) - AfterOpen(own, false))
    ensures AfterOpen(own, false) <= ReplyCount(own)
  {
    if own != [] {
      var init, last := own[..|own| - 1], own[|own| - 1];
      EndedConserves(init);
      assert own == init + [last];
      EndedAppend(init, last);
    }
  }

  /** With the lifetime sweep: sends are superseded, answered, swept or left open, and each that is not left
      open is one attempt. */
  lemma AttemptsConserve(own: seq<Event>, latest: real)
    ensures SendCount(own) ==
            AfterOpen(own, true) + AfterOpen(own, false) + |Swept(own, latest)|
              + Bit(IsOpen(own) && !IsSwept(own, latest))
    ensures |Ended(own) + Swept(own, latest)| + Bit(IsOpen(own) && !IsSwept(own, latest)) ==
            SendCount(own) + (ReplyCount(own) - AfterOpen(own, false))
  {
    EndedConserves(own);
    hide Ended, SendCount, ReplyCount, AfterOpen;
  }

  lemma DuplicatesAppend(attempts: seq<Attempt>, more: seq<Attempt>)
    requires |more| <= 1
    ensures Duplicates(attempts + more) == Duplicates(attempts) + Bit(more != [] && more[0].duplicate)
  {
    if more == [] {
      assert attempts + more == attempts;
    } else {
      assert (attempts + more)[..|attempts|] == attempts;
    }
  }

  lemma DuplicatesNone()
    ensures Duplicates([]) == 0
  {
  }

  lemma {:induction false} EndedDuplicates(own: seq<Event>)
    ensures Duplicates(Ended(own)) + Bit(own != [] && IsDuplicate(own, |own| - 1)) == AfterOpen(own, true)
  {
    hide Ended, Duplicates;
    EndedNone();
    if own == [] {
      DuplicatesNone();
    } else {
      var init, last := own[..|own| - 1], own[|own| - 1];
      EndedDuplicates(init);
      assert own == init + [last];
      EndedAppend(init, last);
      DuplicatesAppend(Ended(init), EndedBy(own, |init|));
    }
  }

  /** Each send made over an open one marks exactly one attempt as duplicate: as many attempts carry the mark
      as were superseded, one fewer while the last such send is still open. */
  lemma DuplicatesAreSupersessions(own: seq<Event>, latest: real)
    ensures Duplicates(Ended(own) + Swept(own, latest))
            + Bit(IsOpen(own) && !IsSwept(own, latest) && IsDuplicate(own, |own| - 1)) == AfterOpen(own, true)
  {
    EndedDuplicates(own);
    DuplicatesAppend(Ended(own), Swept(own, latest));
    hide Ended, Duplicates, AfterOpen;
  }

  // ---------------------------------------------------------------------------
  // What becomes of each event
  // ---------------------------------------------------------------------------

  /** Event `i` ends attempt `t`: an answer ends the send before it, or stands alone when there is none; a send ends
      the one before it. Only a normal answer makes a success, and only a repeated send a duplicate. */
  ghost predicate IsEndOf(own: seq<Event>, i: nat, t: Attempt)
    requires i < |own|
  {
    var sent := i > 0 && own[i - 1].Send?;
    && t.meter == own[i].address && t.end == own[i].at
    && t.start == (if sent then own[i - 1].at else own[i].at)
    && (t.success <==> own[i].Reply? && !own[i].failed)
    && (t.duplicate <==> sent && i > 1 && own[i - 2].Send?)
  }

  /** An answer ends an attempt, and so does what follows a send. */
  ghost predicate IsEnd(own: seq<Event>, i: int) {
    0 <= i < |own| && (own[i].Reply? || (i > 0 && own[i - 1].Send?))
  }

  /** The events at the places listed, and no others, end the attempts, in order. */
  ghost predicate AreEnds(own: seq<Event>, attempts: seq<Attempt>, at: seq<int>) {
    && |at| == |attempts| && Increasing(at)
    && (forall i :: IsEnd(own, i) <==> i in at)
    && (forall k | 0 <= k < |at| && 0 <= at[k] < |own| :: IsEndOf(own, at[k], attempts[k]))
  }

  lemma EndsMore(own: seq<Event>, last: Event, attempts: seq<Attempt>, at: seq<int>)
    requires AreEnds(own, attempts, at)
    ensures AreEnds(own + [last], attempts + EndedBy(own + [last], |own|),
                    at + if IsEnd(own + [last], |own|) then [|own|] else [])
  {
    var longer, n := own + [last], |own|;
    var more := if IsEnd(longer, n) then [n] else [];
    assert EndedBy(longer, n) != [] ==> IsEndOf(longer, n, EndedBy(longer, n)[0]);
    assert |EndedBy(longer, n)| == |more|;
    forall i ensures IsEnd(longer, i) <==> i in at + more {
      assert IsEnd(own, i) <==> i in at;
      assert 0 <= i < n ==> longer[i] == own[i];
    }
    hide EndedBy;
    forall k | 0 <= k < |at| ensures 0 <= at[k] < n && IsEndOf(longer, at[k], attempts[k]) {
      assert at[k] in at && IsEnd(own, at[k]);
      SameEnd(own, last, at[k], attempts[k]);
    }
  }

  lemma SameEnd(own: seq<Event>, last: Event, i: nat, t: Attempt)
    requires i < |own| && IsEndOf(own, i, t)
    ensures IsEndOf(own + [last], i, t)
  {
  }

  /** Every answer, and every send that follows a send, ends one attempt, in order; nothing else ends any. */
  lemma {:induction false} EndedExactly(own: seq<Event>) returns (at: seq<int>)
    ensures AreEnds(own, Ended(own), at)
  {
    EndedNone();
    if own == [] {
      at := [];
    } else {
      var init, last := own[..|own| - 1], own[|own| - 1];
      hide *;
      at := EndedExactly(init);
      assert own == init + [last];
      EndedAppend(init, last);
      EndsMore(init, last, Ended(init), at);
      at := at + if IsEnd(own, |init|) then [|init|] else [];
    }
  }

  predicate IsGood(e: Event) {
    e.Reply? && !e.failed
  }

  predicate Succeeded(t: Attempt) {
    t.success
  }

  lemma {:induction false} EndedSuccesses(own: seq<Event>)
    ensures NumberOf(Ended(own), Succeeded) == NumberOf(own, IsGood)
  {
    EndedNone();
    if own != [] {
      var init, last := own[..|own| - 1], own[|own| - 1];
      EndedSuccesses(init);
      assert own == init + [last];
      EndedAppend(init, last);
      OneSuccess(own, |init|);
      NumberConcat(Ended(init), EndedBy(own, |init|), Succeeded);
      NumberAppend(init, last, IsGood);
      hide Ended, NumberOf, EndedBy;
    }
  }

  lemma OneSuccess(own: seq<Event>, i: nat)
    requires i < |own|
    ensures NumberOf(EndedBy(own, i), Succeeded) == if IsGood(own[i]) then 1 else 0
  {
    hide NumberOf, IsDuplicate;
    var more := EndedBy(own, i);
    if more != [] {
      NumberOne(more[0], Succeeded);
      assert more == [more[0]];
    } else {
      NumberZero(more, Succeeded);
    }
  }

  /** A send that is still open is swept exactly when the latest end is 300 s or more after it; the attempt ends
      after its lifetime, unsuccessfully, and is a duplicate if the send before it was open too. */
  lemma SweptExactly(own: seq<Event>, latest: real, t: Attempt)
    ensures t in Swept(own, latest) <==>
              && own != [] && own[|own| - 1].Send? && latest >= own[|own| - 1].at + 300.0
              && t.meter == own[|own| - 1].address && t.start == own[|own| - 1].at && t.end == t.start + 300.0
              && !t.success && (t.duplicate <==> |own| > 1 && own[|own| - 2].Send?)
    ensures |Swept(own, latest)| <= 1
  {
  }

  lemma SweptFails(own: seq<Event>, latest: real)
    ensures NumberOf(Swept(own, latest), Succeeded) == 0
    ensures forall t | t in Swept(own, latest) :: !t.success
  {
    NumberZero(Swept(own, latest), Succeeded);
  }

  function GoodOf(a: Address): Event -> bool {
    (e: Event) => e.address == a && IsGood(e)
  }

  lemma {:induction false} ProjectNumber(events: seq<Event>, a: Address)
    ensures NumberOf(Project(events, a), IsGood) == NumberOf(events, GoodOf(a))
  {
    if events != [] {
      var init, last := events[..|events| - 1], events[|events| - 1];
      assert events == init + [last];
      ProjectNumber(init, a);
      ProjectAppend(init, last, a);
      NumberAppend(init, last, GoodOf(a));
      NumberAppend(Project(init, a), last, IsGood);
      hide Project, NumberOf;
      assert Project(init, a) + [] == Project(init, a);
    }
  }

  // ---------------------------------------------------------------------------
  // What becomes of each row
  // ---------------------------------------------------------------------------

  /** A normal answer of the address, with a readable time. */
  function GoodRow(a: Address): LogRow -> bool {
    (row: LogRow) => row.Rx? && row.at.Some? && row.address == a && !row.failed
  }

  /** How often a row asks the address; a row that names no address asks "?". */
  function Asked(row: LogRow, a: Address): nat {
    if !row.Tx? || row.at.None? then 0
    else if row.nested == [] then (if a == "?" then 1 else 0)
    else NumberOf(row.nested, (b: Address) => b == a)
  }

  function AllAsked(rows: seq<LogRow>, a: Address): nat {
    if rows == [] then 0 else AllAsked(rows[..|rows| - 1], a) + Asked(rows[|rows| - 1], a)
  }

  function SendTo(a: Address): Event -> bool {
    (e: Event) => e.Send? && e.address == a
  }

  /** The event is one that the row stands for. */
  ghost predicate IsEventOf(row: LogRow, e: Event) {
    && row.at == Some(e.at)
    && match e
       case Send(a, _) => row.Tx? && (a in row.nested || (row.nested == [] && a == "?"))
       case Reply(a, _, failed) => row.Rx? && row.address == a && row.failed == failed
  }

  lemma {:induction false} SendsNumber(addresses: seq<Address>, at: real, a: Address)
    ensures NumberOf(Sends(addresses, at), SendTo(a)) == NumberOf(addresses, (b: Address) => b == a)
    ensures NumberOf(Sends(addresses, at), GoodOf(a)) == 0
    ensures forall e | e in Sends(addresses, at) :: e.Send? && e.at == at && e.address in addresses
  {
    if addresses != [] {
      var init, last := addresses[..|addresses| - 1], addresses[|addresses| - 1];
      SendsNumber(init, at, a);
      assert addresses == init + [last];
      NumberAppend(Sends(init, at), Send(last, at), SendTo(a));
      NumberAppend(Sends(init, at), Send(last, at), GoodOf(a));
    }
  }

  lemma RowNumber(row: LogRow, a: Address)
    ensures NumberOf(RowEvents(row), GoodOf(a)) == if GoodRow(a)(row) then 1 else 0
    ensures NumberOf(RowEvents(row), SendTo(a)) == Asked(row, a)
    ensures forall e | e in RowEvents(row) :: IsEventOf(row, e)
  {
    if row.at.Some? {
      match row
      case Tx(_, _, at, nested) =>
        SendsNumber(Addressed(nested), at.value, a);
        NumberOne<Address>("?", (b: Address) => b == a);
      case Rx(_, _, at, address, failed) =>
        NumberOne(Reply(address, at.value, failed), GoodOf(a));
        NumberOne(Reply(address, at.value, failed), SendTo(a));
      case Other(_, _, _) =>
    }
  }

  /** The events of an address are what the rows ask it and what it answers, each at the time of its row. */
  lemma {:induction false} EventsMean(rows: seq<LogRow>, a: Address)
    ensures NumberOf(Events(rows), GoodOf(a)) == NumberOf(rows, GoodRow(a))
    ensures NumberOf(Events(rows), SendTo(a)) == AllAsked(rows, a)
    ensures forall e | e in Events(rows) :: exists row :: row in rows && IsEventOf(row, e)
  {
    if rows != [] {
      var init, last := rows[..|rows| - 1], rows[|rows| - 1];
      assert rows == init + [last] && last in rows;
      EventsMean(init, a);
      RowNumber(last, a);
      NumberConcat(Events(init), RowEvents(last), GoodOf(a));
      NumberConcat(Events(init), RowEvents(last), SendTo(a));
      NumberAppend(init, last, GoodRow(a));
      hide RowEvents, NumberOf, IsEventOf, Asked;
      forall e | e in Events(rows) ensures exists row :: row in rows && IsEventOf(row, e) {
        if e in Events(init) {
          var row :| row in init && IsEventOf(row, e);
          assert row in rows;
        }
      }
    }
  }

  /** Rows are read in order of their stamps, rows of one stamp in order of their ids. */
  lemma RowsInOrder(rows: seq<LogRow>)
    ensures var r := Sort(rows, ByStamp());
            forall i, j | 0 <= i < j < |r| ::
              IsBefore(r[i].stamp, r[j].stamp) && (r[i].stamp == r[j].stamp ==> r[i].id <= r[j].id)
  {
    StampOrder();
    SortSorted(rows, ByStamp());
    var r := Sort(rows, ByStamp());
    hide Sort, StringLe, IsBefore;
    forall i: nat, j: nat | i < j < |r|
      ensures IsBefore(r[i].stamp, r[j].stamp) && (r[i].stamp == r[j].stamp ==> r[i].id <= r[j].id)
    {
      assert ByStamp()(r[i], r[j]);
      StringTotal(r[i].stamp, r[j].stamp);
      StringLeMeans(r[i].stamp, r[j].stamp);
    }
  }

  /** A successful attempt ends with a normal answer of its address, at the time of that row; there are as many as
      such rows. */
  ghost predicate SuccessesAre(rows: seq<LogRow>, attempts: seq<Attempt>, a: Address) {
    && NumberOf(Of(attempts, a), Succeeded) == NumberOf(rows, GoodRow(a))
    && forall t | t in Of(attempts, a) && t.success ::
         exists row :: row in rows && GoodRow(a)(row) && row.at == Some(t.end)
  }

  lemma EndedGood(own: seq<Event>, t: Attempt)
    requires t in Ended(own) && t.success
    ensures exists e :: e in own && IsGood(e) && e.at == t.end
  {
    var at := EndedExactly(own);
    var k: nat :| k < |Ended(own)| && Ended(own)[k] == t;
    hide Ended, EndedUpTo;
    var i := at[k];
    assert i in at && IsEnd(own, i);
    assert IsEndOf(own, i, t) && own[i] in own;
  }

  lemma SuccessesFromRows(rows: seq<LogRow>, events: seq<Event>, attempts: seq<Attempt>, latest: real, a: Address)
    requires events == Events(Sort(rows, ByStamp()))
    requires Of(attempts, a) == Ended(Project(events, a)) + Swept(Project(events, a), latest)
    ensures SuccessesAre(rows, attempts, a)
  {
    var own, sorted := Project(events, a), Sort(rows, ByStamp());
    EndedSuccesses(own);
    SweptFails(own, latest);
    NumberConcat(Ended(own), Swept(own, latest), Succeeded);
    ProjectNumber(events, a);
    EventsMean(sorted, a);
    SortNumber(rows, ByStamp(), GoodRow(a));
    hide Ended, Swept, NumberOf, Sort, Project, Events, Of;
    forall t | t in Of(attempts, a) && t.success
      ensures exists row :: row in rows && GoodRow(a)(row) && row.at == Some(t.end)
    {
      EndedGood(own, t);
      var e :| e in own && IsGood(e) && e.at == t.end;
      var row :| row in sorted && IsEventOf(row, e);
      assert row in rows && GoodRow(a)(row);
    }
  }

  ghost predicate InTime(own: seq<Event>) {
    forall i, j | 0 <= i < j < |own| :: own[i].at <= own[j].at
  }

  /** Each attempt starts no earlier than those before it end. */
  ghost predicate Disjoint(attempts: seq<Attempt>) {
    && (forall i | 0 <= i < |attempts| :: attempts[i].start <= attempts[i].end)
    && (forall i, j | 0 <= i < j < |attempts| :: attempts[i].end <= attempts[j].start)
  }

  lemma DisjointAppend(attempts: seq<Attempt>, t: Attempt, bound: real)
    requires Disjoint(attempts) && forall i | 0 <= i < |attempts| :: attempts[i].end <= bound
    requires bound <= t.start <= t.end
    ensures Disjoint(attempts + [t]) && forall i | 0 <= i < |attempts + [t]| :: (attempts + [t])[i].end <= t.end
  {
  }

  lemma {:induction false} EndedDisjoint(own: seq<Event>)
    requires InTime(own) && own != []
    ensures Disjoint(Ended(own)) && forall i | 0 <= i < |Ended(own)| :: Ended(own)[i].end <= own[|own| - 1].at
  {
    hide Ended, InTime;
    var init, last := own[..|own| - 1], own[|own| - 1];
    assert own == init + [last];
    EndedAppend(init, last);
    EndedNone();
    assert InTime(init) by { InTimePrefix(own); }
    if init != [] {
      EndedDisjoint(init);
    }
    LastEnded(own, Ended(init));
  }

  lemma InTimePrefix(own: seq<Event>)
    requires InTime(own) && own != []
    ensures InTime(own[..|own| - 1])
    ensures |own| > 1 ==> own[|own| - 2].at <= own[|own| - 1].at
  {
  }

  /** The attempt that the last event ends comes after the others. */
  lemma LastEnded(own: seq<Event>, attempts: seq<Attempt>)
    requires InTime(own) && own != [] && Disjoint(attempts)
    requires forall i | 0 <= i < |attempts| :: |own| > 1 && attempts[i].end <= own[|own| - 2].at
    ensures var r := attempts + EndedBy(own, |own| - 1);
            Disjoint(r) && forall i | 0 <= i < |r| :: r[i].end <= own[|own| - 1].at
  {
    InTimePrefix(own);
    hide InTime, Disjoint, IsDuplicate;
    var more := EndedBy(own, |own| - 1);
    if more == [] {
      assert attempts + more == attempts;
    } else {
      assert more == [more[0]];
      DisjointAppend(attempts, more[0], if |own| > 1 then own[|own| - 2].at else more[0].start);
    }
  }

  /** When times do not go back, the attempts of an address never overlap, the swept one included. */
  lemma AttemptsDisjoint(own: seq<Event>, latest: real)
    requires InTime(own)
    ensures Disjoint(Ended(own) + Swept(own, latest))
  {
    if own == [] {
      assert Ended(own) + Swept(own, latest) == [];
    } else {
      EndedDisjoint(own);
      hide Ended;
      if IsSwept(own, latest) {
        DisjointAppend(Ended(own), Swept(own, latest)[0], own[|own| - 1].at);
      } else {
        assert Ended(own) + Swept(own, latest) == Ended(own);
      }
    }
  }

  /** Events in time order stay so for each address. */
  lemma {:induction false} ProjectInTime(events: seq<Event>, a: Address)
    requires InTime(events)
    ensures InTime(Project(events, a))
  {
    if events != [] {
      var init, last := events[..|events| - 1], events[|events| - 1];
      ProjectInTime(init, a);
      var own := Project(init, a);
      forall i | 0 <= i < |own| ensures own[i].at <= last.at {
        assert own[i] in own && own[i] in init;
      }
    }
  }
}
