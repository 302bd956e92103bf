/** The list of pending requests and the loop over it: what stays, and what is sent. */
module PendingLoop {
  import opened Prelude
  import opened Messages
  import opened UserCalls
  import SpinProtocol

  /** The pending requests whose callback still runs. */
  function Unfinished(rs: seq<InboundRequest>, ready: map<nat, Option<CallbackReturn>>): seq<InboundRequest> {
    if rs == [] then []
    else (if SpinProtocol.StillRuns(rs[0].future, ready) then [rs[0]] else []) + Unfinished(rs[1..], ready)
  }

  /** The returns of the finished ones, in order. */
  function Returns(rs: seq<InboundRequest>, ready: map<nat, Option<CallbackReturn>>, requestIds: seq<uint32>): seq<Message>
    requires |requestIds| == |rs|
  {
    if rs == [] then [] else ReturnOf(rs[0], ready, requestIds[0]) + Returns(rs[1..], ready, requestIds[1..])
  }

  function ReturnOf(r: InboundRequest, ready: map<nat, Option<CallbackReturn>>, requestId: uint32): seq<Message> {
    AsSeq(SpinProtocol.DueReturn(r.future, r.context, ready, requestId))
  }

  /** `at` says where the requests that stay were: those whose future is valid and not ready, in order. */
  ghost predicate StaysAt(kept: seq<InboundRequest>, all: seq<InboundRequest>, ready: map<nat, Option<CallbackReturn>>,
                          at: seq<nat>)
  {
    && OccursAt(kept, all, at)
    && (forall i :: 0 <= i < |all| ==> (i in at <==> all[i].future.Some? && all[i].future.value !in ready))
  }

  lemma {:induction false} UnfinishedAre(rs: seq<InboundRequest>, ready: map<nat, Option<CallbackReturn>>)
    returns (at: seq<nat>)
    ensures StaysAt(Unfinished(rs, ready), rs, ready, at)
  {
    if rs == [] {
      at := [];
    } else {
      hide StaysAt;
      var rest := UnfinishedAre(rs[1..], ready);
      at := if SpinProtocol.StillRuns(rs[0].future, ready) then [0] + Shifted(rest) else Shifted(rest);
      OneMoreStays(Unfinished(rs[1..], ready), rs, ready, rest);
    }
  }

  lemma OneMoreStays(kept: seq<InboundRequest>, all: seq<InboundRequest>, ready: map<nat, Option<CallbackReturn>>, rest: seq<nat>)
    requires all != [] && StaysAt(kept, all[1..], ready, rest)
    ensures
      if SpinProtocol.StillRuns(all[0].future, ready) then StaysAt([all[0]] + kept, all, ready, [0] + Shifted(rest))
      else StaysAt(kept, all, ready, Shifted(rest))
  {
    ShiftedOccurs(kept, all, rest);
    HeadOccurs(kept, all, Shifted(rest));
    assert forall i :: 0 < i < |all| ==> all[i] == all[1..][i - 1];
    hide OccursAt, Shifted;
  }

  lemma HeadOccurs<T>(sub: seq<T>, full: seq<T>, at: seq<nat>)
    requires full != [] && OccursAt(sub, full, at) && forall n :: 0 <= n < |at| ==> at[n] > 0
    ensures OccursAt([full[0]] + sub, full, [0] + at)
  {
  }

  /** Positions in the tail of a sequence, as positions in the sequence. */
  function Shifted(at: seq<nat>): (shifted: seq<nat>)
    ensures |shifted| == |at| && forall i :: 0 <= i < |at| ==> shifted[i] == at[i] + 1
  {
    seq(|at|, i requires 0 <= i < |at| => at[i] + 1)
  }

  lemma ShiftedOccurs<T>(sub: seq<T>, full: seq<T>, at: seq<nat>)
    requires full != [] && OccursAt(sub, full[1..], at)
    ensures OccursAt(sub, full, Shifted(at))
    ensures forall i :: i in Shifted(at) <==> i > 0 && i - 1 in at
  {
    ShiftedHas(at);
    hide Shifted;
  }

  lemma ShiftedHas(at: seq<nat>)
    ensures forall i :: i in Shifted(at) <==> i > 0 && i - 1 in at
  {
    hide Shifted;
    forall i | i > 0 && i - 1 in at ensures i in Shifted(at) {
      var n :| 0 <= n < |at| && at[n] == i - 1;
      assert Shifted(at)[n] == i;
    }
  }

  /** The request's callback is over and has left a value to return, within the limit on arguments. */
  predicate HasReturn(r: InboundRequest, ready: map<nat, Option<CallbackReturn>>) {
    && r.future.Some? && r.future.value in ready && r.context.Some?
    && match ready[r.future.value]
       case None => false
       case Some(value) => !(|value.arguments| > FUNCTION_CALL_ARGUMENTS_MAX_LENGTH)
  }

  /** The message returns that value to where the call came from. */
  predicate ReturnsTo(m: Message, r: InboundRequest, ready: map<nat, Option<CallbackReturn>>, requestId: uint32)
    requires HasReturn(r, ready)
  {
    var value, context := ready[r.future.value].value, r.context.value;
    && m.source == context.destination && m.destination == context.source
    && m.body == Request(requestId, UserCallRequest(Host, context.caller, FunctionCall(value.name, value.arguments)))
  }

  /** `sent` are the returns of exactly the requests at the positions `at`: those that have one, in order. */
  ghost predicate ReturnsFrom(sent: seq<Message>, all: seq<InboundRequest>, ready: map<nat, Option<CallbackReturn>>,
                              requestIds: seq<uint32>, at: seq<nat>)
    requires |requestIds| == |all|
  {
    && |at| == |sent| && StrictlyIncreasing(at)
    && (forall n :: 0 <= n < |at| ==> at[n] < |all| && HasReturn(all[at[n]], ready)
                                      && ReturnsTo(sent[n], all[at[n]], ready, requestIds[at[n]]))
    && (forall i :: 0 <= i < |all| ==> (i in at <==> HasReturn(all[i], ready)))
  }

  lemma ReturnOfIs(r: InboundRequest, ready: map<nat, Option<CallbackReturn>>, requestId: uint32)
    ensures !HasReturn(r, ready) ==> ReturnOf(r, ready, requestId) == []
    ensures HasReturn(r, ready) ==>
      |ReturnOf(r, ready, requestId)| == 1 && ReturnsTo(ReturnOf(r, ready, requestId)[0], r, ready, requestId)
  {
  }

  lemma {:induction false} ReturnsAre(rs: seq<InboundRequest>, ready: map<nat, Option<CallbackReturn>>, requestIds: seq<uint32>)
    returns (at: seq<nat>)
    requires |requestIds| == |rs|
    ensures ReturnsFrom(Returns(rs, ready, requestIds), rs, ready, requestIds, at)
  {
    hide Returns, ReturnOf, HasReturn, ReturnsTo, ReturnsFrom;
    if rs == [] {
      at := [];
      NoReturns(ready);
    } else {
      var rest := ReturnsAre(rs[1..], ready, requestIds[1..]);
      at := if HasReturn(rs[0], ready) then [0] + Shifted(rest) else Shifted(rest);
      OneMoreReturn(rs, ready, requestIds, rest);
    }
  }

  lemma NoReturns(ready: map<nat, Option<CallbackReturn>>)
    ensures ReturnsFrom(Returns([], ready, []), [], ready, [], [])
  {
  }

  lemma OneMoreReturn(rs: seq<InboundRequest>, ready: map<nat, Option<CallbackReturn>>, requestIds: seq<uint32>, rest: seq<nat>)
    requires |requestIds| == |rs| && rs != []
    requires ReturnsFrom(Returns(rs[1..], ready, requestIds[1..]), rs[1..], ready, requestIds[1..], rest)
    ensures ReturnsFrom(Returns(rs, ready, requestIds), rs, ready, requestIds,
                        if HasReturn(rs[0], ready) then [0] + Shifted(rest) else Shifted(rest))
  {
    var sent := Returns(rs[1..], ready, requestIds[1..]);
    ReturnsHead(rs, ready, requestIds);
    hide Returns, ReturnOf, HasReturn, ReturnsTo, ReturnsFrom, Shifted;
    ReturnOfIs(rs[0], ready, requestIds[0]);
    TailReturns(sent, rs, ready, requestIds, rest);
    if HasReturn(rs[0], ready) {
      var first := ReturnOf(rs[0], ready, requestIds[0])[0];
      assert ReturnOf(rs[0], ready, requestIds[0]) == [first];
      HeadReturns(sent, rs, ready, requestIds, Shifted(rest), first);
    } else {
      TailIsAll(sent, rs, ready, requestIds, Shifted(rest));
      assert [] + sent == sent;
    }
  }

  lemma TailIsAll(sent: seq<Message>, all: seq<InboundRequest>, ready: map<nat, Option<CallbackReturn>>,
                  requestIds: seq<uint32>, at: seq<nat>)
    requires |requestIds| == |all| && all != [] && !HasReturn(all[0], ready)
    requires |sent| == |at| && StrictlyIncreasing(at) && 0 !in at
    requires forall n :: 0 <= n < |at| ==>
      at[n] < |all| && HasReturn(all[at[n]], ready) && ReturnsTo(sent[n], all[at[n]], ready, requestIds[at[n]])
    requires forall i :: 0 < i < |all| ==> (i in at <==> HasReturn(all[i], ready))
    ensures ReturnsFrom(sent, all, ready, requestIds, at)
  {
    hide HasReturn, ReturnsTo;
  }

  lemma HeadReturns(sent: seq<Message>, all: seq<InboundRequest>, ready: map<nat, Option<CallbackReturn>>,
                    requestIds: seq<uint32>, at: seq<nat>, first: Message)
    requires |requestIds| == |all| && all != [] && |sent| == |at| && StrictlyIncreasing(at)
    requires forall n :: 0 <= n < |at| ==> at[n] > 0
    requires HasReturn(all[0], ready) && ReturnsTo(first, all[0], ready, requestIds[0])
    requires forall n :: 0 <= n < |at| ==>
      at[n] < |all| && HasReturn(all[at[n]], ready) && ReturnsTo(sent[n], all[at[n]], ready, requestIds[at[n]])
    requires forall i :: 0 < i < |all| ==> (i in at <==> HasReturn(all[i], ready))
    ensures ReturnsFrom([first] + sent, all, ready, requestIds, [0] + at)
  {
    hide HasReturn, ReturnsTo;
  }

  lemma ReturnsHead(rs: seq<InboundRequest>, ready: map<nat, Option<CallbackReturn>>, requestIds: seq<uint32>)
    requires |requestIds| == |rs| && rs != []
    ensures Returns(rs, ready, requestIds)
         == ReturnOf(rs[0], ready, requestIds[0]) + Returns(rs[1..], ready, requestIds[1..])
  {
  }

  lemma TailReturns(sent: seq<Message>, all: seq<InboundRequest>, ready: map<nat, Option<CallbackReturn>>,
                    requestIds: seq<uint32>, at: seq<nat>)
    requires |requestIds| == |all| && all != [] && ReturnsFrom(sent, all[1..], ready, requestIds[1..], at)
    ensures |sent| == |Shifted(at)| == |at| && StrictlyIncreasing(Shifted(at))
    ensures forall n :: 0 <= n < |at| ==> Shifted(at)[n] > 0
    ensures forall n :: 0 <= n < |at| ==>
      && Shifted(at)[n] < |all| && HasReturn(all[Shifted(at)[n]], ready)
      && ReturnsTo(sent[n], all[Shifted(at)[n]], ready, requestIds[Shifted(at)[n]])
    ensures forall i :: 0 < i < |all| ==> (i in Shifted(at) <==> HasReturn(all[i], ready))
    ensures 0 !in Shifted(at)
  {
    hide HasReturn, ReturnsTo;
    ShiftedHas(at);
    forall n | 0 <= n < |at|
      ensures Shifted(at)[n] < |all| && HasReturn(all[Shifted(at)[n]], ready)
      ensures ReturnsTo(sent[n], all[Shifted(at)[n]], ready, requestIds[Shifted(at)[n]])
    {
      assert all[1..][at[n]] == all[at[n] + 1] && requestIds[1..][at[n]] == requestIds[at[n] + 1];
    }
    forall i | 0 < i < |all| ensures i in Shifted(at) <==> HasReturn(all[i], ready) {
      assert all[1..][i - 1] == all[i];
    }
  }

  lemma NothingToScan(ready: map<nat, Option<CallbackReturn>>)
    ensures Unfinished([], ready) == [] && Returns([], ready, []) == []
  {
  }

  /** One turn of the loop over the pending requests, with `all` examined up to `drawn` and `now` the list
      as erased so far. */
  lemma ScanStep(now: seq<InboundRequest>, i: nat, all: seq<InboundRequest>, drawn: nat,
                 ready: map<nat, Option<CallbackReturn>>, requestIds: seq<uint32>)
    requires i < |now| && drawn < |all| == |requestIds| && now[i..] == all[drawn..]
    ensures now[i] == all[drawn]
    ensures now[i + 1..] == all[drawn + 1..] && now[..i + 1] == now[..i] + [now[i]]
    ensures (now[..i] + now[i + 1..])[..i] == now[..i] && (now[..i] + now[i + 1..])[i..] == now[i + 1..]
    ensures Unfinished(all[drawn..], ready) ==
      (if SpinProtocol.StillRuns(now[i].future, ready) then [now[i]] else []) + Unfinished(all[drawn + 1..], ready)
    ensures Returns(all[drawn..], ready, requestIds[drawn..]) ==
      ReturnOf(now[i], ready, requestIds[drawn]) + Returns(all[drawn + 1..], ready, requestIds[drawn + 1..])
  {
    assert now[i..][0] == all[drawn..][0];
    assert now[i..][1..] == all[drawn..][1..];
    assert all[drawn..][1..] == all[drawn + 1..] && requestIds[drawn..][1..] == requestIds[drawn + 1..];
  }

  /** What such a turn leaves alone: what is kept or will be, and what was sent or will be. */
  lemma ScanTurn(now: seq<InboundRequest>, i: nat, all: seq<InboundRequest>, drawn: nat, sent: seq<Message>,
                 ready: map<nat, Option<CallbackReturn>>, requestIds: seq<uint32>)
    requires i < |now| && drawn < |all| == |requestIds| && now[i..] == all[drawn..]
    ensures
      var kept := SpinProtocol.StillRuns(now[i].future, ready);
      var now', i' := if kept then now else now[..i] + now[i + 1..], if kept then i + 1 else i;
      && now'[i'..] == all[drawn + 1..]
      && now'[..i'] + Unfinished(all[drawn + 1..], ready) == now[..i] + Unfinished(all[drawn..], ready)
      && sent + ReturnOf(now[i], ready, requestIds[drawn]) + Returns(all[drawn + 1..], ready, requestIds[drawn + 1..])
         == sent + Returns(all[drawn..], ready, requestIds[drawn..])
  {
    hide Unfinished, Returns, ReturnOf, SpinProtocol.StillRuns;
    ScanStep(now, i, all, drawn, ready, requestIds);
  }

  lemma ScanIsOver(kept: seq<InboundRequest>, wire: seq<Message>, all: seq<InboundRequest>, before: seq<Message>,
                   ready: map<nat, Option<CallbackReturn>>, requestIds: seq<uint32>)
    requires |requestIds| == |all|
    requires kept == Unfinished(all, ready) && wire == before + Returns(all, ready, requestIds)
    ensures exists at :: StaysAt(kept, all, ready, at)
    ensures exists at :: ReturnsFrom(wire[|before|..], all, ready, requestIds, at)
  {
    hide Unfinished, Returns, StaysAt, ReturnsFrom;
    var stays := UnfinishedAre(all, ready);
    var from := ReturnsAre(all, ready, requestIds);
    assert wire[|before|..] == Returns(all, ready, requestIds);
  }
}
