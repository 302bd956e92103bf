/** Reassembly of one transfer: packets are taken strictly in numerical order, starting from a
    32-bit `-1`. */
module BytesAccumulation {
  import opened Prelude

  /** What an accumulator holds. */
  datatype Accumulated = Accumulated(last: uint32, bytes: seq<byte>)

  const FRESH := Accumulated(UINT32_LIMIT - 1, [])

  /** `m_lastPacketNumber + 1`, in 32 bits: the only packet number that is accepted next. */
  function NextNumber(a: Accumulated): uint32 {
    (a.last + 1) % UINT32_LIMIT
  }

  function Append(a: Accumulated, number: uint32, data: seq<byte>): Accumulated {
    if number == NextNumber(a) then Accumulated(number, a.bytes + data) else a
  }

  class BytesAccumulator {
    var bytes: seq<byte>
    var lastPacketNumber: uint32

    constructor ()
      ensures Value() == FRESH
    {
      bytes := [];
      lastPacketNumber := UINT32_LIMIT - 1;
    }

    function Value(): Accumulated
      reads this
    {
      Accumulated(lastPacketNumber, bytes)
    }

    method AppendBytes(data: seq<byte>, length: uint16, packetNumber: uint32) returns (accepted: bool)
      requires length <= |data|
      modifies this
      ensures accepted <==> packetNumber == NextNumber(old(Value()))
      ensures Value() == Append(old(Value()), packetNumber, data[..length])
    {
      if packetNumber != (lastPacketNumber + 1) % UINT32_LIMIT {
        return false;
      }
      lastPacketNumber := packetNumber;
      var i := 0;
      while i < length
        invariant 0 <= i <= length
        invariant bytes == old(bytes) + data[..i]
        invariant lastPacketNumber == packetNumber
      {
        bytes := bytes + [data[i]];
        i := i + 1;
      }
      return true;
    }
  }

  /** The packets of one transfer fed to one accumulator, whatever order they come in. */
  function AppendAll(a: Accumulated, stream: seq<(uint32, seq<byte>)>): Accumulated
    decreases |stream|
  {
    if stream == [] then a else AppendAll(Append(a, stream[0].0, stream[0].1), stream[1..])
  }

  /** The number after n, in 32 bits. */
  function Successor(n: uint32): uint32 {
    if n + 1 == UINT32_LIMIT then 0 else n + 1
  }

  /** "Take the next number, ignore anything else": the pieces of the stream that are picked by counting
      from `next` on, written without an accumulator. */
  function Greedy(next: uint32, stream: seq<(uint32, seq<byte>)>): seq<seq<byte>>
    decreases |stream|
  {
    if stream == [] then []
    else if stream[0].0 == next then [stream[0].1] + Greedy(Successor(next), stream[1..])
    else Greedy(next, stream[1..])
  }

  lemma {:induction false} JoinCons<T>(piece: seq<T>, pieces: seq<seq<T>>)
    ensures Join([piece] + pieces) == piece + Join(pieces)
    decreases |pieces|
  {
    if pieces == [] {
      assert [piece] + pieces == [] + [piece];
      JoinSnoc([], piece);
    } else {
      var front, last := pieces[..|pieces| - 1], pieces[|pieces| - 1];
      JoinCons(piece, front);
      assert [piece] + pieces == ([piece] + front) + [last];
      JoinSnoc([piece] + front, last);
    }
  }

  /** On any stream, the accumulator holds what it held and then the pieces the greedy rule picks, in the
      order it picks them, and has counted them in 32 bits. */
  lemma {:induction false} AccumulatorIsGreedy(a: Accumulated, stream: seq<(uint32, seq<byte>)>)
    ensures
      var picked := Greedy(NextNumber(a), stream);
      && AppendAll(a, stream).bytes == a.bytes + Join(picked)
      && NextNumber(AppendAll(a, stream)) == (NextNumber(a) + |picked|) % UINT32_LIMIT
    decreases |stream|
  {
    if stream == [] {
    } else {
      var (number, data) := stream[0];
      var rest := stream[1..];
      AppendCounts(a, number, data);
      hide Append, NextNumber, Successor, Join;
      AccumulatorIsGreedy(Append(a, number, data), rest);
      if number == NextNumber(a) {
        var picked := Greedy(Successor(number), rest);
        JoinCons(data, picked);
        SuccessorCounts(number, |picked|);
        assert a.bytes + data + Join(picked) == a.bytes + (data + Join(picked));
      }
    }
  }

  lemma AppendCounts(a: Accumulated, number: uint32, data: seq<byte>)
    ensures NextNumber(Append(a, number, data)) == if number == NextNumber(a) then Successor(number) else NextNumber(a)
    ensures Append(a, number, data).bytes == if number == NextNumber(a) then a.bytes + data else a.bytes
  {
  }

  lemma SuccessorCounts(n: uint32, count: nat)
    ensures (Successor(n) + count) % UINT32_LIMIT == (n + (count + 1)) % UINT32_LIMIT
  {
  }

  /** As long as the count does not reach 2^32 it is the number of pieces picked: the wrap-around plays no
      part. */
  lemma CountedWithoutWrap(a: Accumulated, stream: seq<(uint32, seq<byte>)>)
    requires NextNumber(a) + |Greedy(NextNumber(a), stream)| < UINT32_LIMIT
    ensures NextNumber(AppendAll(a, stream)) == NextNumber(a) + |Greedy(NextNumber(a), stream)|
  {
    AccumulatorIsGreedy(a, stream);
  }
}
