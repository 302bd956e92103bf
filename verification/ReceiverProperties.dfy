/** What a receiver does with a whole stream: transfers do not disturb each other, nothing but complete
    and exact payloads is delivered however the network behaves, and a transfer whose packets arrive
    in order among anything else is delivered. */
module ReceiverProperties {
  import opened Prelude
  import opened Messages
  import opened BytesAccumulation
  import opened BytesReceiving

  /** What can happen to a receiver. */
  datatype Input = SetCallback(valid: bool) | Arrives(packet: Packet)

  function Step(r: Receiver, input: Input): Outcome {
    match input
    case SetCallback(valid) => Outcome(r.(callbackSet := valid), [])
    case Arrives(packet) => ReceivePacket(r, packet)
  }

  function Run(r: Receiver, inputs: seq<Input>): Outcome
    decreases |inputs|
  {
    if inputs == [] then Outcome(r, [])
    else
      var first := Step(r, inputs[0]);
      var rest := Run(first.receiver, inputs[1..]);
      Outcome(rest.receiver, first.deliveries + rest.deliveries)
  }

  // ---------- Transfers do not interfere ----------

  predicate Concerns(input: Input, id: uint32) {
    input.SetCallback? || input.packet.id == id
  }

  /** The inputs that transfer `id` would see alone. */
  function OnlyFor(inputs: seq<Input>, id: uint32): seq<Input> {
    if inputs == [] then []
    else (if Concerns(inputs[0], id) then [inputs[0]] else []) + OnlyFor(inputs[1..], id)
  }

  function DeliveriesFor(ds: seq<Delivery>, id: uint32): seq<Delivery> {
    if ds == [] then []
    else (if ds[0].id == id then [ds[0]] else []) + DeliveriesFor(ds[1..], id)
  }

  lemma {:induction false} DeliveriesForConcat(a: seq<Delivery>, b: seq<Delivery>, id: uint32)
    ensures DeliveriesFor(a + b, id) == DeliveriesFor(a, id) + DeliveriesFor(b, id)
    decreases |a|
  {
    if a == [] {
      assert a + b == b;
    } else {
      var head := if a[0].id == id then [a[0]] else [];
      assert (a + b)[0] == a[0] && (a + b)[1..] == a[1..] + b;
      DeliveriesForConcat(a[1..], b, id);
      assert head + (DeliveriesFor(a[1..], id) + DeliveriesFor(b, id)) == head + DeliveriesFor(a[1..], id) + DeliveriesFor(b, id);
    }
  }

  /** What transfer `id` can tell apart about two receivers. */
  ghost predicate SameFor(r: Receiver, r': Receiver, id: uint32) {
    && r.callbackSet == r'.callbackSet
    && (id in r.live <==> id in r'.live)
    && (id in r.live ==> r.live[id] == r'.live[id])
  }

  /** Whatever other transfers are interleaved, a transfer ends in the state, and causes the
      deliveries, of the run that sees only its own packets: also across its own completions,
      after which it starts again from nothing. */
  lemma {:induction false} NonInterference(r: Receiver, alone: Receiver, inputs: seq<Input>, id: uint32)
    requires SameFor(r, alone, id)
    ensures SameFor(Run(r, inputs).receiver, Run(alone, OnlyFor(inputs, id)).receiver, id)
    ensures DeliveriesFor(Run(r, inputs).deliveries, id) == DeliveriesFor(Run(alone, OnlyFor(inputs, id)).deliveries, id)
    decreases |inputs|
  {
    if inputs == [] {
    } else {
      var first := Step(r, inputs[0]);
      DeliveriesForConcat(first.deliveries, Run(first.receiver, inputs[1..]).deliveries, id);
      StepSameFor(r, alone, inputs[0], id);
      var own := OnlyFor(inputs, id);
      hide Step, SameFor, DeliveriesFor;
      if Concerns(inputs[0], id) {
        assert own[0] == inputs[0] && own[1..] == OnlyFor(inputs[1..], id);
        var first' := Step(alone, inputs[0]);
        NonInterference(first.receiver, first'.receiver, inputs[1..], id);
        DeliveriesForConcat(first'.deliveries, Run(first'.receiver, own[1..]).deliveries, id);
      } else {
        assert own == OnlyFor(inputs[1..], id);
        NonInterference(first.receiver, alone, inputs[1..], id);
      }
    }
  }

  lemma StepSameFor(r: Receiver, alone: Receiver, input: Input, id: uint32)
    requires SameFor(r, alone, id)
    ensures
      var first := Step(r, input);
      if Concerns(input, id) then
        SameFor(first.receiver, Step(alone, input).receiver, id) && first.deliveries == Step(alone, input).deliveries
      else SameFor(first.receiver, alone, id) && DeliveriesFor(first.deliveries, id) == []
  {
  }

  // ---------- Safety on a bad network ----------

  /** The transfers under way, each by its id and the pieces it was cut into. */
  type Transfers = map<uint32, seq<Payload>>

  ghost predicate WellFormed(transfers: Transfers) {
    forall id <- transfers :: 0 < |transfers[id]| < UINT32_LIMIT
  }

  /** Packet `number` of a transfer cut into `pieces`. */
  function PacketOf(id: uint32, pieces: seq<Payload>, number: nat): Packet
    requires number < |pieces| < UINT32_LIMIT
  {
    Packet(id, number, number == |pieces| - 1, pieces[number])
  }

  ghost predicate Genuine(p: Packet, transfers: Transfers)
    requires WellFormed(transfers)
  {
    p.id in transfers && p.number < |transfers[p.id]| && p == PacketOf(p.id, transfers[p.id], p.number)
  }

  /** The stream is made of packets of the given transfers: any of them, any number of times, in any
      order. */
  ghost predicate GenuineStream(inputs: seq<Input>, transfers: Transfers)
    requires WellFormed(transfers)
  {
    forall i :: 0 <= i < |inputs| && inputs[i].Arrives? ==> Genuine(inputs[i].packet, transfers)
  }

  /** An accumulator waiting for packet k holds exactly the first k pieces of its transfer. */
  ghost predicate HoldsPrefix(a: Accumulated, pieces: seq<Payload>) {
    NextNumber(a) < |pieces| && a.bytes == Join(pieces[..NextNumber(a)])
  }

  ghost predicate Consistent(r: Receiver, transfers: Transfers) {
    forall id <- r.live :: id in transfers && HoldsPrefix(r.live[id], transfers[id])
  }

  ghost predicate Exact(d: Delivery, transfers: Transfers) {
    d.id in transfers && d.bytes == Join(transfers[d.id])
  }

  lemma {:induction false} AppendExtendsPrefix(a: Accumulated, pieces: seq<Payload>)
    requires |pieces| < UINT32_LIMIT && HoldsPrefix(a, pieces)
    ensures
      var k := NextNumber(a);
      var after := Append(a, k, pieces[k]);
      && after.bytes == Join(pieces[..k + 1])
      && (k + 1 < |pieces| ==> NextNumber(after) == k + 1 && HoldsPrefix(after, pieces))
      && (k + 1 == |pieces| ==> after.bytes == Join(pieces))
  {
    var k := NextNumber(a);
    assert pieces[..k + 1] == pieces[..k] + [pieces[k]];
    JoinSnoc(pieces[..k], pieces[k]);
    if k + 1 == |pieces| {
      assert pieces[..k + 1] == pieces;
    }
  }

  lemma FreshHoldsNothing(pieces: seq<Payload>)
    requires 0 < |pieces|
    ensures HoldsPrefix(FRESH, pieces)
  {
    assert pieces[..0] == [];
  }

  lemma GenuineStep(r: Receiver, p: Packet, transfers: Transfers)
    requires WellFormed(transfers) && Consistent(r, transfers) && Genuine(p, transfers)
    ensures Consistent(ReceivePacket(r, p).receiver, transfers)
    ensures forall d <- ReceivePacket(r, p).deliveries :: Exact(d, transfers)
  {
    var pieces := transfers[p.id];
    FreshHoldsNothing(pieces);
    var before := InProgress(r, p.id);
    AppendExtendsPrefix(before, pieces);
    var after := Append(before, p.number, p.data);
    if p.number == NextNumber(before) && p.last {
      assert after.bytes == Join(pieces);
    } else {
      assert HoldsPrefix(after, pieces);
    }
  }

  /** Drop, duplicate, reorder and interleave the packets of any transfers: every delivery is the
      complete, exact payload of one of them. */
  lemma {:induction false} OnlyExactPayloadsAreDelivered(r: Receiver, inputs: seq<Input>, transfers: Transfers)
    requires WellFormed(transfers) && GenuineStream(inputs, transfers) && Consistent(r, transfers)
    ensures forall d <- Run(r, inputs).deliveries :: Exact(d, transfers)
    ensures Consistent(Run(r, inputs).receiver, transfers)
    decreases |inputs|
  {
    if inputs == [] {
    } else {
      if inputs[0].Arrives? {
        GenuineStep(r, inputs[0].packet, transfers);
      }
      OnlyExactPayloadsAreDelivered(Step(r, inputs[0]).receiver, inputs[1..], transfers);
    }
  }

  // ---------- Delivery ----------

  /** The packets from number `from` on, in order. */
  function Remaining(id: uint32, pieces: seq<Payload>, from: nat): seq<Input>
    requires from <= |pieces| < UINT32_LIMIT
    ensures |Remaining(id, pieces, from)| == |pieces| - from
  {
    seq(|pieces| - from, i requires 0 <= i < |pieces| - from => Arrives(PacketOf(id, pieces, from + i)))
  }

  ghost predicate CallbackStaysSet(inputs: seq<Input>) {
    forall i :: 0 <= i < |inputs| && inputs[i].SetCallback? ==> inputs[i].valid
  }

  /** The number of the packet that transfer `id` waits for. */
  function Awaited(r: Receiver, id: uint32): nat {
    NextNumber(InProgress(r, id))
  }

  /** The packet that a transfer waits for, arriving while a callback is set, delivers the transfer and
      starts it afresh when it is the last, and otherwise makes it wait for the following one. No other
      genuine input delivers it or changes what it waits for. */
  lemma StepProgress(r: Receiver, input: Input, transfers: Transfers, id: uint32)
    requires WellFormed(transfers) && Consistent(r, transfers) && id in transfers
    requires input.Arrives? ==> Genuine(input.packet, transfers)
    ensures
      var first := Step(r, input);
      var next := Awaited(r, id);
      var taken := r.callbackSet && input.Arrives? && input.packet.id == id && input.packet.number == next;
      var delivers := taken && next == |transfers[id]| - 1;
      && first.receiver.callbackSet == (if input.SetCallback? then input.valid else r.callbackSet)
      && Consistent(first.receiver, transfers)
      && next < |transfers[id]|
      && DeliveriesFor(first.deliveries, id) == (if delivers then [Delivery(id, Join(transfers[id]))] else [])
      && Awaited(first.receiver, id) == (if delivers then 0 else if taken then next + 1 else next)
  {
    var pieces := transfers[id];
    FreshHoldsNothing(pieces);
    AppendExtendsPrefix(InProgress(r, id), pieces);
    if input.Arrives? {
      GenuineStep(r, input.packet, transfers);
    }
  }

  /** The packets that arrive while a callback is set. */
  function Heard(listening: bool, inputs: seq<Input>): seq<Input>
    decreases |inputs|
  {
    if inputs == [] then []
    else match inputs[0]
      case SetCallback(valid) => Heard(valid, inputs[1..])
      case Arrives(_) => (if listening then [inputs[0]] else []) + Heard(listening, inputs[1..])
  }

  /** What transfer `id`, waiting for packet `from`, takes until it has been delivered m times: what is
      missing now, and then the whole transfer m - 1 times over. */
  function Times(id: uint32, pieces: seq<Payload>, from: nat, m: nat): seq<Input>
    requires from <= |pieces| < UINT32_LIMIT
  {
    if m == 0 then [] else Remaining(id, pieces, from) + Times(id, pieces, 0, m - 1)
  }

  lemma RemainingHead(id: uint32, pieces: seq<Payload>, from: nat)
    requires from < |pieces| < UINT32_LIMIT
    ensures Remaining(id, pieces, from) == [Arrives(PacketOf(id, pieces, from))] + Remaining(id, pieces, from + 1)
  {
  }

  lemma TimesHead(id: uint32, pieces: seq<Payload>, from: nat, m: nat)
    requires from < |pieces| < UINT32_LIMIT && m > 0
    ensures
      var times := Times(id, pieces, from, m);
      && times != [] && times[0] == Arrives(PacketOf(id, pieces, from))
      && times[1..] == if from + 1 < |pieces| then Times(id, pieces, from + 1, m) else Times(id, pieces, 0, m - 1)
  {
    var rest := Times(id, pieces, 0, m - 1);
    RemainingHead(id, pieces, from);
    hide Remaining, PacketOf;
    assert (Remaining(id, pieces, from) + rest)[1..] == Remaining(id, pieces, from + 1) + rest;
    if from + 1 == |pieces| {
      assert Remaining(id, pieces, from + 1) + rest == rest;
    }
  }

  /** Hearing the packet it waits for brings a transfer nearer to its m-th delivery; hearing anything else
      does not. */
  lemma HearingOne(id: uint32, pieces: seq<Payload>, from: nat, m: nat, heard: seq<Input>)
    requires from < |pieces| < UINT32_LIMIT && m > 0 && heard != []
    ensures heard[0] == Arrives(PacketOf(id, pieces, from)) ==>
      (Subsequence(Times(id, pieces, from, m), heard) <==>
       Subsequence(if from + 1 < |pieces| then Times(id, pieces, from + 1, m) else Times(id, pieces, 0, m - 1), heard[1..]))
    ensures heard[0] != Arrives(PacketOf(id, pieces, from)) ==>
      (Subsequence(Times(id, pieces, from, m), heard) <==> Subsequence(Times(id, pieces, from, m), heard[1..]))
  {
    TimesHead(id, pieces, from, m);
    hide Times, PacketOf, Subsequence;
    SubsequenceHead(Times(id, pieces, from, m), heard);
  }

  /** How often a transfer is delivered. On any stream of genuine packets, and however the callback is set
      and unset, it is delivered m times or more if and only if the packets heard contain, in order, what
      was still missing of it and m - 1 further copies of the whole of it. */
  lemma {:induction false} DeliveredTimesExactlyWhen(r: Receiver, inputs: seq<Input>, transfers: Transfers,
                                                     id: uint32, m: nat)
    requires WellFormed(transfers) && GenuineStream(inputs, transfers) && Consistent(r, transfers)
    requires id in transfers
    ensures Awaited(r, id) < |transfers[id]|
    ensures |DeliveriesFor(Run(r, inputs).deliveries, id)| >= m
       <==> Subsequence(Times(id, transfers[id], Awaited(r, id), m), Heard(r.callbackSet, inputs))
    decreases |inputs|
  {
    hide Step, Run, DeliveriesFor, Times, Heard, Consistent, Awaited, WellFormed, GenuineStream, Genuine, PacketOf, Join,
      Subsequence;
    AwaitsOne(r, transfers, id);
    GenuineTail(inputs, transfers, id, Awaited(r, id));
    if m == 0 {
      NoTimes(id, transfers[id], Awaited(r, id), Heard(r.callbackSet, inputs));
    } else if inputs == [] {
      NothingToHear(r, id, transfers[id], Awaited(r, id), m);
    } else {
      var first := Step(r, inputs[0]);
      StepProgress(r, inputs[0], transfers, id);
      HeardFirst(r.callbackSet, inputs);
      DeliveriesAdd(r, inputs, id);
      DeliveredTimesExactlyWhen(first.receiver, inputs[1..], transfers, id, m - |DeliveriesFor(first.deliveries, id)|);
      if inputs[0].Arrives? && r.callbackSet {
        HearingOne(id, transfers[id], Awaited(r, id), m, Heard(r.callbackSet, inputs));
      }
    }
  }

  lemma AwaitsOne(r: Receiver, transfers: Transfers, id: uint32)
    requires WellFormed(transfers) && Consistent(r, transfers) && id in transfers
    ensures Awaited(r, id) < |transfers[id]| < UINT32_LIMIT
  {
    FreshHoldsNothing(transfers[id]);
  }

  lemma GenuineTail(inputs: seq<Input>, transfers: Transfers, id: uint32, next: nat)
    requires WellFormed(transfers) && GenuineStream(inputs, transfers)
    requires id in transfers && next < |transfers[id]|
    ensures inputs != [] ==> GenuineStream(inputs[1..], transfers)
    ensures inputs != [] && inputs[0].Arrives? ==> Genuine(inputs[0].packet, transfers)
    ensures inputs != [] && inputs[0].Arrives? ==>
      (inputs[0] == Arrives(PacketOf(id, transfers[id], next)) <==> inputs[0].packet.id == id && inputs[0].packet.number == next)
  {
  }

  lemma NoTimes(id: uint32, pieces: seq<Payload>, from: nat, heard: seq<Input>)
    requires from <= |pieces| < UINT32_LIMIT
    ensures Subsequence(Times(id, pieces, from, 0), heard)
  {
  }

  lemma NothingToHear(r: Receiver, id: uint32, pieces: seq<Payload>, from: nat, m: nat)
    requires from < |pieces| < UINT32_LIMIT && m > 0
    ensures !Subsequence(Times(id, pieces, from, m), Heard(r.callbackSet, []))
    ensures DeliveriesFor(Run(r, []).deliveries, id) == []
  {
    TimesHead(id, pieces, from, m);
  }

  lemma DeliveriesAdd(r: Receiver, inputs: seq<Input>, id: uint32)
    requires inputs != []
    ensures
      var first := Step(r, inputs[0]);
      |DeliveriesFor(Run(r, inputs).deliveries, id)|
      == |DeliveriesFor(first.deliveries, id)| + |DeliveriesFor(Run(first.receiver, inputs[1..]).deliveries, id)|
  {
    var first := Step(r, inputs[0]);
    DeliveriesForConcat(first.deliveries, Run(first.receiver, inputs[1..]).deliveries, id);
  }

  lemma HeardFirst(listening: bool, inputs: seq<Input>)
    requires inputs != []
    ensures
      var heard := Heard(listening, inputs);
      match inputs[0]
      case SetCallback(valid) => heard == Heard(valid, inputs[1..])
      case Arrives(_) =>
        if listening then heard != [] && heard[0] == inputs[0] && heard[1..] == Heard(true, inputs[1..])
        else heard == Heard(false, inputs[1..])
  {
  }

  /** Where the callback stays set, the packets heard are those of the stream. */
  lemma {:induction false} AllHeard(sub: seq<Input>, inputs: seq<Input>)
    requires CallbackStaysSet(inputs) && (forall i <- sub :: i.Arrives?)
    ensures Subsequence(sub, Heard(true, inputs)) <==> Subsequence(sub, inputs)
    decreases |inputs|
  {
    if sub == [] || inputs == [] {
    } else {
      HeardFirst(true, inputs);
      assert sub[0] in sub;
      hide Heard;
      AllHeard(if inputs[0] == sub[0] then sub[1..] else sub, inputs[1..]);
    }
  }

  lemma {:induction false} TimesArrives(id: uint32, pieces: seq<Payload>, from: nat, m: nat)
    requires from <= |pieces| < UINT32_LIMIT
    ensures forall i <- Times(id, pieces, from, m) :: i.Arrives?
  {
    if m == 0 {
    } else {
      TimesArrives(id, pieces, 0, m - 1);
    }
  }

  /** The same for a user who keeps listening: what counts is the stream itself. */
  lemma DeliveredTimesWhileListening(r: Receiver, inputs: seq<Input>, transfers: Transfers,
                                     id: uint32, m: nat)
    requires WellFormed(transfers) && GenuineStream(inputs, transfers) && Consistent(r, transfers)
    requires r.callbackSet && CallbackStaysSet(inputs)
    requires id in transfers
    ensures Awaited(r, id) < |transfers[id]|
    ensures |DeliveriesFor(Run(r, inputs).deliveries, id)| >= m
       <==> Subsequence(Times(id, transfers[id], Awaited(r, id), m), inputs)
  {
    DeliveredTimesExactlyWhen(r, inputs, transfers, id, m);
    TimesArrives(id, transfers[id], Awaited(r, id), m);
    AllHeard(Times(id, transfers[id], Awaited(r, id), m), inputs);
  }

  /** A transfer that the receiver does not know is delivered a second time if and only if all of it is heard
      twice, one copy after the other. In particular, repeating or reordering some of its packets
      is not enough. */
  lemma DeliveredAgainExactlyByReplay(r: Receiver, inputs: seq<Input>, transfers: Transfers, id: uint32)
    requires WellFormed(transfers) && GenuineStream(inputs, transfers) && Consistent(r, transfers)
    requires id in transfers && id !in r.live
    ensures
      var once := Remaining(id, transfers[id], 0);
      |DeliveriesFor(Run(r, inputs).deliveries, id)| >= 2 <==> Subsequence(once + once, Heard(r.callbackSet, inputs))
  {
    DeliveredTimesExactlyWhen(r, inputs, transfers, id, 2);
    TwoTimes(id, transfers[id]);
  }

  lemma TwoTimes(id: uint32, pieces: seq<Payload>)
    requires |pieces| < UINT32_LIMIT
    ensures Times(id, pieces, 0, 1) == Remaining(id, pieces, 0)
    ensures Times(id, pieces, 0, 2) == Remaining(id, pieces, 0) + Remaining(id, pieces, 0)
  {
    assert Times(id, pieces, 0, 0) == [];
    assert Times(id, pieces, 0, 1) == Remaining(id, pieces, 0) + [];
    assert Times(id, pieces, 0, 2) == Remaining(id, pieces, 0) + Times(id, pieces, 0, 1);
  }

  /** The deliveries for a transfer are among the deliveries, and they are the ones with its id. */
  lemma {:induction false} DeliveriesForHas(ds: seq<Delivery>, id: uint32)
    ensures forall d :: d in DeliveriesFor(ds, id) <==> d in ds && d.id == id
  {
    if ds == [] {
    } else {
      DeliveriesForHas(ds[1..], id);
    }
  }

  /** A transfer is delivered if and only if the packets it still needs are heard, in order, whatever
      surrounds and repeats them. */
  lemma DeliveredExactlyWhen(r: Receiver, inputs: seq<Input>, transfers: Transfers, id: uint32)
    requires WellFormed(transfers) && GenuineStream(inputs, transfers) && Consistent(r, transfers)
    requires id in transfers
    ensures Awaited(r, id) < |transfers[id]|
    ensures Delivery(id, Join(transfers[id])) in Run(r, inputs).deliveries
       <==> Subsequence(Remaining(id, transfers[id], Awaited(r, id)), Heard(r.callbackSet, inputs))
  {
    DeliveredTimesExactlyWhen(r, inputs, transfers, id, 1);
    var ds := Run(r, inputs).deliveries;
    OnlyExactPayloadsAreDelivered(r, inputs, transfers);
    DeliveriesForHas(ds, id);
    assert DeliveriesFor(ds, id) != [] ==> DeliveriesFor(ds, id)[0] in DeliveriesFor(ds, id);
    var needed := Remaining(id, transfers[id], Awaited(r, id));
    assert Times(id, transfers[id], Awaited(r, id), 1) == needed + Times(id, transfers[id], 0, 0);
    assert needed + [] == needed;
  }

  /** In particular, a transfer is delivered by the end of a stream in which the packets it needs occur in
      order, to a user who keeps listening. `from` may lag behind what the accumulator has taken. */
  lemma DeliveredByTheEnd(r: Receiver, inputs: seq<Input>, transfers: Transfers,
                          id: uint32, from: nat, at: seq<nat>)
    requires WellFormed(transfers) && GenuineStream(inputs, transfers) && Consistent(r, transfers)
    requires r.callbackSet && CallbackStaysSet(inputs)
    requires id in transfers && from < |transfers[id]| && from <= Awaited(r, id)
    requires OccursAt(Remaining(id, transfers[id], from), inputs, at)
    ensures Delivery(id, Join(transfers[id])) in Run(r, inputs).deliveries
  {
    hide Run, Heard, Subsequence, OccursAt, Consistent, GenuineStream, WellFormed, CallbackStaysSet, Awaited, Join, Remaining;
    AwaitsOne(r, transfers, id);
    DeliveredExactlyWhen(r, inputs, transfers, id);
    var next := Awaited(r, id);
    GreedyFinds(Remaining(id, transfers[id], from), inputs, at);
    RemainingTail(id, transfers[id], from, next);
    SubsequenceDrop(Remaining(id, transfers[id], from), inputs, next - from);
    AllHeard(Remaining(id, transfers[id], next), inputs);
  }

  lemma RemainingTail(id: uint32, pieces: seq<Payload>, from: nat, next: nat)
    requires from <= next <= |pieces| < UINT32_LIMIT
    ensures Remaining(id, pieces, from)[next - from..] == Remaining(id, pieces, next)
    ensures forall i <- Remaining(id, pieces, next) :: i.Arrives?
  {
  }

  /** A transfer fed alone, in order and without repetition, to a receiver that does not know it, is
      delivered exactly once, when its last packet comes, and leaves nothing behind. */
  lemma {:induction false} InOrderDeliversOnce(r: Receiver, id: uint32, pieces: seq<Payload>, from: nat)
    requires from < |pieces| < UINT32_LIMIT
    requires r.callbackSet && NextNumber(InProgress(r, id)) == from
    requires InProgress(r, id).bytes == Join(pieces[..from])
    ensures Run(r, Remaining(id, pieces, from)).deliveries == [Delivery(id, Join(pieces))]
    ensures Run(r, Remaining(id, pieces, from)).receiver == r.(live := r.live - {id})
    decreases |pieces| - from
  {
    var inputs := Remaining(id, pieces, from);
    var first := Step(r, inputs[0]);
    AppendExtendsPrefix(InProgress(r, id), pieces);
    if from == |pieces| - 1 {
      assert inputs[1..] == [];
      assert first.deliveries == [Delivery(id, Join(pieces))];
      assert first.deliveries + [] == first.deliveries;
    } else {
      assert inputs[1..] == Remaining(id, pieces, from + 1);
      assert first.deliveries == [];
      InOrderDeliversOnce(first.receiver, id, pieces, from + 1);
      assert first.receiver.live - {id} == r.live - {id};
    }
  }

  /** Among any other traffic: if the packets of a transfer arrive in order, once each, at a receiver
      whose callback stays set and which does not know the transfer yet, the transfer is delivered
      exactly once, exactly. */
  lemma {:induction false} DeliveredOnceAmongOthers(r: Receiver, inputs: seq<Input>, id: uint32, pieces: seq<Payload>)
    requires 0 < |pieces| < UINT32_LIMIT
    requires r.callbackSet && id !in r.live
    requires OnlyFor(inputs, id) == Remaining(id, pieces, 0)
    ensures DeliveriesFor(Run(r, inputs).deliveries, id) == [Delivery(id, Join(pieces))]
    ensures id !in Run(r, inputs).receiver.live
  {
    hide Run, Step, OnlyFor, Remaining;
    NonInterference(r, r, inputs, id);
    assert pieces[..0] == [];
    InOrderDeliversOnce(r, id, pieces, 0);
  }

  /** While no callback is set, packets leave no trace: transfers in progress neither advance nor end. */
  lemma {:induction false} NobodyListening(r: Receiver, inputs: seq<Input>)
    requires !r.callbackSet && (forall i :: 0 <= i < |inputs| && inputs[i].SetCallback? ==> !inputs[i].valid)
    ensures Run(r, inputs) == Outcome(r, [])
    decreases |inputs|
  {
    if inputs == [] {
    } else {
      NobodyListening(r, inputs[1..]);
    }
  }

  /** For instance: a whole transfer that arrives twice is delivered exactly twice, and nothing else is. */
  lemma {:induction false} ReplayDeliversAgain(id: uint32, pieces: seq<Payload>)
    requires 0 < |pieces| < UINT32_LIMIT
    ensures
      var once := Remaining(id, pieces, 0);
      var payload := Delivery(id, Join(pieces));
      Run(Receiver(true, map[]), once + once).deliveries == [payload, payload]
  {
    var r, once, transfers := Receiver(true, map[]), Remaining(id, pieces, 0), map[id := pieces];
    DeliveredJustTwice(r, once, transfers, id);
    OnlyExactPayloadsAreDelivered(r, once + once, transfers);
    var ds := Run(r, once + once).deliveries;
    hide Run, Remaining;
    AllForOne(ds, id);
    assert |ds| == 2 && ds[0] in ds && ds[1] in ds;
  }

  lemma DeliveredJustTwice(r: Receiver, once: seq<Input>, transfers: Transfers, id: uint32)
    requires WellFormed(transfers) && id in transfers && once == Remaining(id, transfers[id], 0)
    requires r == Receiver(true, map[])
    ensures |DeliveriesFor(Run(r, once + once).deliveries, id)| == 2
  {
    var twice := once + once;
    TwoTimes(id, transfers[id]);
    SubsequenceOfItself(twice);
    NotInItselfThrice(id, transfers[id]);
    assert GenuineStream(twice, transfers) && CallbackStaysSet(twice) && Awaited(r, id) == 0;
    hide Run, DeliveriesFor, Subsequence, Times, WellFormed, GenuineStream, CallbackStaysSet, Remaining, Awaited;
    DeliveredTimesWhileListening(r, twice, transfers, id, 2);
    DeliveredTimesWhileListening(r, twice, transfers, id, 3);
  }

  lemma NotInItselfThrice(id: uint32, pieces: seq<Payload>)
    requires 0 < |pieces| < UINT32_LIMIT
    ensures !Subsequence(Times(id, pieces, 0, 3), Remaining(id, pieces, 0) + Remaining(id, pieces, 0))
  {
    var once := Remaining(id, pieces, 0);
    TwoTimes(id, pieces);
    assert Times(id, pieces, 0, 3) == once + Times(id, pieces, 0, 2);
    if Subsequence(Times(id, pieces, 0, 3), once + once) {
      SubsequenceIsShorter(Times(id, pieces, 0, 3), once + once);
    }
  }

  lemma {:induction false} AllForOne(ds: seq<Delivery>, id: uint32)
    requires forall d <- ds :: d.id == id
    ensures DeliveriesFor(ds, id) == ds
  {
    if ds == [] {
    } else {
      AllForOne(ds[1..], id);
    }
  }

  lemma {:induction false} RunConcat(r: Receiver, a: seq<Input>, b: seq<Input>)
    ensures Run(r, a + b).receiver == Run(Run(r, a).receiver, b).receiver
    ensures Run(r, a + b).deliveries == Run(r, a).deliveries + Run(Run(r, a).receiver, b).deliveries
    decreases |a|
  {
    if a == [] {
      assert a + b == b;
    } else {
      assert (a + b)[1..] == a[1..] + b;
      RunConcat(Step(r, a[0]).receiver, a[1..], b);
    }
  }
}
