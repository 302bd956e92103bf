/** How `sendBytes` cuts a payload into packets, and what comes out when they are put together. */
module Fragmentation {
  import opened Prelude
  import opened Messages
  import opened ReceiverProperties
  import opened SinglePrecision

  /** ceil(size / PAYLOAD_MAX_SIZE). */
  function PacketCount(size: nat): nat {
    (size + PAYLOAD_MAX_SIZE - 1) / PAYLOAD_MAX_SIZE
  }

  /** The bytes that packet k carries: a full packet, except that the last one carries the remainder
      of the division, as the program computes it, which is nothing when the division is exact. */
  function PieceLength(size: nat, k: nat): nat {
    if k == PacketCount(size) - 1 then (size - k * PAYLOAD_MAX_SIZE) % PAYLOAD_MAX_SIZE else PAYLOAD_MAX_SIZE
  }

  lemma PacketCountBounds(size: nat)
    ensures size == 0 <==> PacketCount(size) == 0
    ensures 0 < size ==> (PacketCount(size) - 1) * PAYLOAD_MAX_SIZE < size <= PacketCount(size) * PAYLOAD_MAX_SIZE
    ensures PacketCount(size) <= size
  {
    var m: int := PAYLOAD_MAX_SIZE;
    var n := PacketCount(size);
    assert m * n <= size + m - 1 < m * n + m;
    if size > 0 {
      assert size * m + m >= size + m;
    }
  }

  /** Where packet k starts, and that it stays inside the payload. */
  lemma PieceInside(size: nat, k: nat)
    requires k < PacketCount(size)
    ensures 0 <= k * PAYLOAD_MAX_SIZE < size
    ensures 0 <= PieceLength(size, k) <= PAYLOAD_MAX_SIZE
    ensures k * PAYLOAD_MAX_SIZE + PieceLength(size, k) <= size
    ensures k < PacketCount(size) - 1 ==> (k + 1) * PAYLOAD_MAX_SIZE < size
    ensures k == PacketCount(size) - 1 && size % PAYLOAD_MAX_SIZE != 0 ==> k * PAYLOAD_MAX_SIZE + PieceLength(size, k) == size
    ensures k == PacketCount(size) - 1 && size % PAYLOAD_MAX_SIZE == 0
      ==> PieceLength(size, k) == 0 && k * PAYLOAD_MAX_SIZE == size - PAYLOAD_MAX_SIZE
  {
    var m: int := PAYLOAD_MAX_SIZE;
    var n := PacketCount(size);
    PacketCountBounds(size);
    ScaledBounds(k, n, m);
    if k == n - 1 {
      LastRemainder(size, k, m);
    }
  }

  lemma ScaledBounds(k: nat, n: int, m: int)
    requires k < n && m > 0
    ensures 0 <= k * m <= (n - 1) * m
    ensures (k + 1) * m == k * m + m
    ensures k < n - 1 ==> (k + 1) * m <= (n - 1) * m
  {
  }

  lemma LastRemainder(size: nat, k: nat, m: int)
    requires m > 0 && k * m < size <= k * m + m
    ensures size % m != 0 ==> (size - k * m) % m == size - k * m
    ensures size % m == 0 ==> (size - k * m) % m == 0 && size - k * m == m
  {
    var rest := size - k * m;
    if rest == m {
      assert (k + 1) * m == k * m + m;
      DivisionIsUnique(size, k + 1, 0, m);
      DivisionIsUnique(rest, 1, 0, m);
    } else {
      DivisionIsUnique(size, k, rest, m);
      DivisionIsUnique(rest, 0, rest, m);
    }
  }

  function Piece(payload: Payload, k: nat): Payload
    requires k < PacketCount(|payload|)
  {
    PieceInside(|payload|, k);
    payload[k * PAYLOAD_MAX_SIZE..k * PAYLOAD_MAX_SIZE + PieceLength(|payload|, k)]
  }

  /** What `sendBytes` puts in its packets, in order. */
  function Pieces(payload: Payload): seq<Payload> {
    seq(PacketCount(|payload|), k requires 0 <= k < PacketCount(|payload|) => Piece(payload, k))
  }

  lemma {:induction false} JoinedPrefix(payload: Payload, k: nat)
    requires k < PacketCount(|payload|)
    ensures 0 <= k * PAYLOAD_MAX_SIZE <= |payload|
    ensures Join(Pieces(payload)[..k]) == payload[..k * PAYLOAD_MAX_SIZE]
    decreases k
  {
    PieceInside(|payload|, k);
    if k == 0 {
      assert Pieces(payload)[..0] == [];
    } else {
      JoinedPrefix(payload, k - 1);
      PieceInside(|payload|, k - 1);
      assert Pieces(payload)[..k] == Pieces(payload)[..k - 1] + [Piece(payload, k - 1)];
      JoinSnoc(Pieces(payload)[..k - 1], Piece(payload, k - 1));
      ScaledBounds(k - 1, PacketCount(|payload|), PAYLOAD_MAX_SIZE);
    }
  }

  /** What is sent is the payload when its size is not a multiple of the packet size; when it is one,
      the last PAYLOAD_MAX_SIZE bytes are missing, and nothing else is. */
  lemma WhatIsSent(payload: Payload)
    requires payload != []
    ensures |payload| % PAYLOAD_MAX_SIZE != 0 ==> Join(Pieces(payload)) == payload
    ensures |payload| % PAYLOAD_MAX_SIZE == 0 ==>
      PAYLOAD_MAX_SIZE <= |payload| && Join(Pieces(payload)) == payload[..|payload| - PAYLOAD_MAX_SIZE]
  {
    var size := |payload|;
    PacketCountBounds(size);
    var k := PacketCount(size) - 1;
    JoinedPrefix(payload, k);
    PieceInside(size, k);
    assert Pieces(payload) == Pieces(payload)[..k] + [Piece(payload, k)];
    JoinSnoc(Pieces(payload)[..k], Piece(payload, k));
    if size % PAYLOAD_MAX_SIZE != 0 {
      assert payload[..k * PAYLOAD_MAX_SIZE] + payload[k * PAYLOAD_MAX_SIZE..size] == payload;
    } else {
      assert Piece(payload, k) == [];
    }
  }

  /** The round trip holds exactly for the sizes that are not positive multiples of the packet size. */
  lemma RoundTripExactlyWhen(payload: Payload)
    ensures Join(Pieces(payload)) == payload <==> payload == [] || |payload| % PAYLOAD_MAX_SIZE != 0
  {
    if payload != [] {
      WhatIsSent(payload);
    } else {
      PacketCountBounds(0);
    }
  }

  /** A payload of one full packet is sent as a single empty one. */
  lemma FullPacketIsLost(payload: Payload)
    requires |payload| == PAYLOAD_MAX_SIZE
    ensures PacketCount(|payload|) == 1 && Pieces(payload) == [[]] && Join(Pieces(payload)) != payload
  {
    PacketCountBounds(|payload|);
    var m: int := PAYLOAD_MAX_SIZE;
    DivisionIsUnique(2 * m - 1, 1, m - 1, m);
    PieceInside(|payload|, 0);
    assert Piece(payload, 0) == [];
    WhatIsSent(payload);
  }

  /** Not what the program does: had the last packet carried what is left of the payload, without the
      remainder being taken of it, it would have fitted a packet and completed every payload. */
  lemma RepairedLastPacket(payload: Payload)
    requires payload != []
    ensures
      var k := PacketCount(|payload|) - 1;
      && k >= 0 && 0 <= k * PAYLOAD_MAX_SIZE < |payload|
      && |payload| - k * PAYLOAD_MAX_SIZE <= PAYLOAD_MAX_SIZE
      && Join(Pieces(payload)[..k] + [payload[k * PAYLOAD_MAX_SIZE..]]) == payload
  {
    PacketCountBounds(|payload|);
    var k := PacketCount(|payload|) - 1;
    JoinedPrefix(payload, k);
    PieceInside(|payload|, k);
    ScaledBounds(k, k + 1, PAYLOAD_MAX_SIZE);
    hide PacketCount, PieceLength, Pieces;
    JoinSnoc(Pieces(payload)[..k], payload[k * PAYLOAD_MAX_SIZE..]);
  }

  /** The number of packets is computed in single precision: `ceil((float)size / PAYLOAD_MAX_SIZE)`. Both
      operands are rounded when they are converted, and so is their quotient; the ceiling of what results
      is the integer one all the same. */
  lemma FloatCeilingIsExact(size: uint16, dividend: real, divisor: real, quotient: real)
    requires RoundsTo(size as real, dividend) && RoundsTo(PAYLOAD_MAX_SIZE as real, divisor)
    requires divisor != 0.0 ==> RoundsTo(dividend / divisor, quotient)
    ensures divisor != 0.0 && -((-quotient).Floor) == PacketCount(size)
  {
    IntegersAreSingle(size);
    IntegersAreSingle(PAYLOAD_MAX_SIZE);
    hide IsSingle, RoundsTo, PacketCount;
    SingleIsExact(size as real, dividend);
    SingleIsExact(PAYLOAD_MAX_SIZE as real, divisor);
    QuotientRange(size, PAYLOAD_MAX_SIZE);
    RoundingError(dividend / divisor, quotient);
    if size % PAYLOAD_MAX_SIZE == 0 {
      WholeQuotient(size, PAYLOAD_MAX_SIZE);
      SingleIsExact(dividend / divisor, quotient);
    }
    SmallErrorKeepsCeiling(size, quotient);
  }

  lemma QuotientRange(size: uint16, m: int)
    requires m > 0
    ensures 0.0 <= size as real / m as real <= 65535.0
  {
    RealQuotient(size, m, size as real / m as real);
  }

  lemma WholeQuotient(size: uint16, m: int)
    requires m > 0 && size % m == 0
    ensures IsSingle(size as real / m as real)
  {
    var d := size / m;
    assert d * m == size;
    assert (d as real) * (m as real) == size as real;
    assert d as real == size as real / m as real;
    IntegersAreSingle(d);
  }

  /** An error of at most 1/512, and none in an integral quotient, cannot change the ceiling. */
  lemma SmallErrorKeepsCeiling(size: uint16, rounded: real)
    requires -1.0 / 512.0 <= rounded - size as real / PAYLOAD_MAX_SIZE as real <= 1.0 / 512.0
    requires size % PAYLOAD_MAX_SIZE == 0 ==> rounded == size as real / PAYLOAD_MAX_SIZE as real
    ensures -((-rounded).Floor) == PacketCount(size)
  {
    var m: int := PAYLOAD_MAX_SIZE;
    var n := PacketCount(size);
    PacketCountBounds(size);
    var q := size as real / m as real;
    RealQuotient(size, m, q);
    if size % m == 0 {
      ExactQuotient(size, n, m, q);
    } else {
      if size == n * m {
        DivisionIsUnique(size, n, 0, m);
      }
      assert n * m == (n - 1) * m + m;
      DistanceFromInteger(size, n, m, q);
      CeilingBetween(rounded, n);
    }
  }

  lemma RealQuotient(size: nat, m: int, q: real)
    requires m > 0 && q == size as real / m as real
    ensures q * m as real == size as real
  {
  }

  lemma CeilingBetween(x: real, n: int)
    requires n as real - 1.0 < x <= n as real
    ensures -((-x).Floor) == n
  {
    assert (-n) as real == -(n as real);
    assert (-n) as real <= -x < (-n) as real + 1.0;
  }

  lemma ExactQuotient(size: nat, n: nat, m: int, q: real)
    requires 0 < m && q * m as real == size as real && size % m == 0
    requires (n - 1) * m < size <= n * m || size == n == 0
    ensures q == n as real && -((-q).Floor) == n
  {
    var d := size / m;
    assert d * m == size;
    assert (n - d) * m == n * m - size;
    assert n * m == (n - 1) * m + m;
    MultipleOutsideGap(n - d, m);
    assert (n as real) * (m as real) == size as real;
    if q != n as real {
      assert (q - n as real) * m as real == 0.0;
    }
    CeilingBetween(q, n);
  }

  lemma DistanceFromInteger(size: nat, n: int, m: int, q: real)
    requires 0 < m <= 255 && q * m as real == size as real
    requires (n - 1) * m + 1 <= size <= n * m - 1
    ensures n as real - 1.0 + 1.0 / 512.0 < q < n as real - 1.0 / 512.0
  {
    var e := 1.0 / 512.0;
    var x := m as real;
    assert e * x < 1.0;
    var above := n as real - q;
    assert above * x >= 1.0 by {
      assert above * x == (n as real) * x - q * x;
      assert (n as real) * x == (n * m) as real;
    }
    ScaledOrder(above, e, x);
    var below := q - (n - 1) as real;
    assert below * x >= 1.0 by {
      assert below * x == q * x - (n - 1) as real * x;
      assert (n - 1) as real * x == ((n - 1) * m) as real;
    }
    ScaledOrder(below, e, x);
  }

  lemma ScaledOrder(a: real, b: real, x: real)
    requires x > 0.0 && a * x > b * x
    ensures a > b
  {
  }

  /** The narrowing stores of `sendBytes` lose nothing: the packet size fits a `uint8_t`, the start
      index a `uint16_t`, the packet number a `uint32_t`. */
  lemma NarrowingIsHarmless(size: uint16, k: nat)
    requires k < PacketCount(size)
    ensures PAYLOAD_MAX_SIZE % 0x100 == PAYLOAD_MAX_SIZE
    ensures PieceLength(size, k) % 0x100 == PieceLength(size, k)
    ensures (k * PAYLOAD_MAX_SIZE) % 0x1_0000 == k * PAYLOAD_MAX_SIZE
    ensures k < 0x1_0000
  {
    hide PacketCount, PieceLength;
    PieceInside(size, k);
    PacketCountBounds(size);
  }

  lemma CountIsCeiling(size: uint16)
    ensures PacketCount(size) == (size + PAYLOAD_MAX_SIZE - 1) / PAYLOAD_MAX_SIZE
    ensures PacketCount(size) < 0x1_0000
    ensures size == 0 <==> PacketCount(size) == 0
  {
    PacketCountBounds(size);
  }

  /** The slice that `sendBytes` computes for packet k, with its narrowing stores, is the packet's piece. */
  lemma SliceIsPiece(payload: Payload, k: nat, start: int, length: int)
    requires k < PacketCount(|payload|)
    requires start == (k * PAYLOAD_MAX_SIZE) % 0x1_0000
    requires length == if k == PacketCount(|payload|) - 1 then (|payload| - k * PAYLOAD_MAX_SIZE) % PAYLOAD_MAX_SIZE % 0x100
                       else PAYLOAD_MAX_SIZE % 0x100
    ensures 0 <= start <= start + length <= |payload|
    ensures payload[start..start + length] == Piece(payload, k)
  {
    hide PacketCount;
    PieceInside(|payload|, k);
    NarrowingIsHarmless(|payload|, k);
  }

  /** The packet number k of a transfer. */
  function PacketAt(transfer: uint32, payload: Payload, k: nat): Packet
    requires k < PacketCount(|payload|)
  {
    PacketCountBounds(|payload|);
    PacketOf(transfer, Pieces(payload), k)
  }

  /** The message for packet k, under the agent's id and the request id drawn for it. */
  function PacketMessage(agent: uint32, destination: uint32, requestId: uint32, transfer: uint32,
                         payload: Payload, k: nat): Message
    requires k < PacketCount(|payload|)
  {
    Message(agent, destination, Request(requestId, HostRequest(Bytes(PacketAt(transfer, payload, k)))))
  }

  /** A bytes message is refused exactly when its payload exceeds a packet, and otherwise says what it was
      given. */
  lemma CreationFailsExactlyWhen(source: uint32, destination: uint32, requestId: uint32, transfer: uint32,
                                 number: uint32, last: bool, data: Payload)
    ensures
      var m := CreateBytesMessage(source, destination, requestId, transfer, number, last, data);
      && (m == None <==> |data| > PAYLOAD_MAX_SIZE)
      && (m != None ==>
           && m.value.source == source && m.value.destination == destination
           && m.value.body == Request(requestId, HostRequest(Bytes(Packet(transfer, number, last, data)))))
  {
  }

  /** Building the message for a packet never fails: the branch of `sendBytes` for that is dead. */
  lemma CreationNeverFails(agent: uint32, destination: uint32, requestId: uint32, transfer: uint32,
                           payload: Payload, k: nat)
    requires k < PacketCount(|payload|)
    ensures
      CreateBytesMessage(agent, destination, requestId, transfer, k, k == PacketCount(|payload|) - 1, Piece(payload, k))
      == Some(PacketMessage(agent, destination, requestId, transfer, payload, k))
    ensures |Piece(payload, k)| <= PAYLOAD_MAX_SIZE
  {
    PieceInside(|payload|, k);
    PacketCountBounds(|payload|);
  }
}
