/** `HiveMindHostApiRequestHandler`: one accumulator per transfer in progress, and the delivery of a
    transfer when its last packet is accepted. */
module BytesReceiving {
  import opened Prelude
  import opened Messages
  import opened BytesAccumulation

  /** The receiver's state: whether a callback is set, and the transfers in progress. */
  datatype Receiver = Receiver(callbackSet: bool, live: map<uint32, Accumulated>)

  /** One call of the user's callback. The callback only sees the bytes. */
  datatype Delivery = Delivery(id: uint32, bytes: seq<byte>)

  datatype Outcome = Outcome(receiver: Receiver, deliveries: seq<Delivery>)

  /** The accumulator that the next packet of transfer `id` meets. */
  function InProgress(r: Receiver, id: uint32): Accumulated {
    if id in r.live then r.live[id] else FRESH
  }

  function ReceivePacket(r: Receiver, p: Packet): Outcome {
    var before := InProgress(r, p.id);
    var after := Append(before, p.number, p.data);
    if !r.callbackSet then Outcome(r, [])
    else if p.number == NextNumber(before) && p.last then
      Outcome(r.(live := r.live - {p.id}), [Delivery(p.id, after.bytes)])
    else Outcome(r.(live := r.live[p.id := after]), [])
  }

  class HiveMindHostApiRequestHandler {
    var callbackSet: bool
    var accumulators: map<uint32, BytesAccumulator>
    // The calls made to the user's callback, oldest first.
    var delivered: seq<Delivery>
    ghost var Repr: set<object>

    ghost predicate Valid()
      reads this, Repr
    {
      && this in Repr
      && (forall id <- accumulators :: accumulators[id] in Repr && (accumulators[id] as object) != this)
      && (forall i, j :: i in accumulators && j in accumulators && i != j ==> accumulators[i] != accumulators[j])
    }

    ghost function Value(): Receiver
      requires Valid()
      reads this, Repr
    {
      Receiver(callbackSet, map id | id in accumulators :: accumulators[id].Value())
    }

    constructor ()
      ensures Valid() && fresh(Repr)
      ensures Value() == Receiver(false, map[]) && delivered == []
    {
      callbackSet := false;
      accumulators := map[];
      delivered := [];
      Repr := {this};
    }

    // `set` is false when the caller passes an empty `std::function`.
    method OnBytesReceived(set_: bool) returns (overwritten: bool)
      requires Valid()
      modifies this`callbackSet
      ensures Valid() && overwritten == old(callbackSet)
      ensures Value() == old(Value()).(callbackSet := set_)
    {
      overwritten := callbackSet;
      callbackSet := set_;
    }

    method HandleMessage(api: HostApiRequest)
      requires Valid()
      modifies Repr
      ensures Valid() && fresh(Repr - old(Repr))
      ensures api.Bytes? ==>
        var outcome := ReceivePacket(old(Value()), api.packet);
        Value() == outcome.receiver && delivered == old(delivered) + outcome.deliveries
      ensures !api.Bytes? ==> Value() == old(Value()) && delivered == old(delivered)
    {
      match api
      case Bytes(packet) => HandleBytes(packet);
      case _ =>
    }

    method HandleBytes(packet: Packet)
      requires Valid()
      modifies Repr
      ensures Valid() && fresh(Repr - old(Repr))
      ensures
        var outcome := ReceivePacket(old(Value()), packet);
        Value() == outcome.receiver && delivered == old(delivered) + outcome.deliveries
    {
      if !callbackSet {
        return;
      }
      CreateIfMissing(packet.id);
      ghost var before := old(Value());
      assert (before.live[packet.id := InProgress(before, packet.id)] - {packet.id}) == before.live - {packet.id};
      var accepted := AppendTo(packet);
      if accepted && packet.last {
        Deliver(packet.id);
      }
    }

    // The callback gets the bytes of a complete transfer, which is then forgotten.
    method Deliver(id: uint32)
      requires Valid() && id in accumulators
      modifies this`delivered, this`accumulators
      ensures Valid() && Repr == old(Repr)
      ensures Value() == old(Value()).(live := old(Value()).live - {id})
      ensures delivered == old(delivered) + [Delivery(id, old(Value()).live[id].bytes)]
    {
      delivered := delivered + [Delivery(id, accumulators[id].bytes)];
      accumulators := accumulators - {id};
    }

    // The `find`/`emplace` pair: a transfer that is not in progress starts with a fresh accumulator.
    method CreateIfMissing(id: uint32)
      requires Valid()
      modifies this`accumulators, this`Repr
      ensures Valid() && fresh(Repr - old(Repr)) && id in accumulators
      ensures Value() == old(Value()).(live := old(Value()).live[id := InProgress(old(Value()), id)])
    {
      if id !in accumulators {
        var created := new BytesAccumulator();
        accumulators := accumulators[id := created];
        Repr := Repr + {created};
      }
    }

    method AppendTo(packet: Packet) returns (accepted: bool)
      requires Valid() && packet.id in accumulators
      modifies accumulators[packet.id]
      ensures Valid()
      ensures accepted <==> packet.number == NextNumber(old(Value()).live[packet.id])
      ensures
        var before := old(Value());
        Value() == before.(live := before.live[packet.id := Append(before.live[packet.id], packet.number, packet.data)])
    {
      accepted := accumulators[packet.id].AppendBytes(packet.data, |packet.data|, packet.number);
      assert packet.data[..|packet.data|] == packet.data;
    }
  }
}
