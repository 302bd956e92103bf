/** What every run of the spinning thread keeps: acks in arrival order, returns after their acks and at
    most once, responses stored as they came, bytes fed to the receiver as they came, and the keep-alive
    on schedule. */
module SpinInvariants {
  import opened Prelude
  import opened Messages
  import opened BytesReceiving
  import opened ReceiverProperties
  import opened UserCallbacks
  import opened UserCalls
  import opened MessageHandling
  import opened SpinProtocol

  // ---------- Reading the logs ----------

  /** The numbers of the acks sent, in order. */
  function AckTokens(log: seq<Output>): seq<nat> {
    if log == [] then []
    else AckTokens(log[..|log| - 1]) + (if log[|log| - 1].Ack? then [log[|log| - 1].token] else [])
  }

  /** The positions of the user calls among the first n arrivals. */
  function UserCallsAmong(arrived: seq<Message>, n: nat): seq<nat>
    requires n <= |arrived|
  {
    if n == 0 then []
    else UserCallsAmong(arrived, n - 1) + (if IsUserCall(arrived[n - 1]) then [n - 1] else [])
  }

  /** The responses for the outbound side among the first n arrivals. */
  function AnswersAmong(arrived: seq<Message>, n: nat): seq<InboundResponse>
    requires n <= |arrived|
  {
    if n == 0 then []
    else AnswersAmong(arrived, n - 1) + (match AnswerIn(arrived[n - 1]) case Some(answer) => [answer] case None => [])
  }

  /** The packets among the first n arrivals, as inputs of the receiver. */
  function PacketsAmong(arrived: seq<Message>, n: nat): seq<Input>
    requires n <= |arrived|
  {
    if n == 0 then [] else PacketsAmong(arrived, n - 1) + InputsIn(arrived[n - 1])
  }

  /** The packets among the inputs of a receiver. */
  function PacketInputs(inputs: seq<Input>): seq<Input> {
    if inputs == [] then []
    else PacketInputs(inputs[..|inputs| - 1]) + (if inputs[|inputs| - 1].Arrives? then [inputs[|inputs| - 1]] else [])
  }

  /** How many arrivals have had their outcome acted upon, and how many have been handled. */
  function Done(s: State): int {
    if s.phase.Recording? then s.handled - 1 else s.handled
  }

  function Looked(s: State): nat {
    if s.phase.Popping? then s.handled + 1 else s.handled
  }

  /** The pending requests, also while the loop over them is under way. */
  function Pendings(s: State): seq<Pending> {
    match s.phase
    case Scanning(kept, rest) => kept + rest
    case _ => s.pending
  }

  // ---------- The inbox ----------

  /** What handling a message produced fits the message. */
  ghost predicate RoutedFits(routed: Routed, m: Message, token: nat) {
    && !routed.Broken?
    && (routed.AsRequest? <==> IsUserCall(m))
    && (routed.AsRequest? ==>
         && Acknowledges(routed.handle.response, m)
         && FutureFits(routed.handle.future, routed.handle.context, m, token))
    && (routed.AsResponse? ==> AnswerIn(m) == Some(routed.response))
    && (AnswerIn(m).Some? ==> routed.AsResponse?)
  }

  /** A future belongs to the function call that launched it and knows where that came from. */
  ghost predicate FutureFits(future: Option<nat>, context: Option<CallContext>, m: Message, token: nat) {
    future.Some? ==>
      && future == Some(token) && IsUserCall(m) && m.body.request.call.FunctionCall?
      && context == Some(CallContext(m.source, m.destination, m.body.request.caller))
  }

  lemma RouteFits(r: Registry, m: Message, token: nat)
    requires Agree(r) && !Route(r, m, token).Broken?
    ensures RoutedFits(Route(r, m, token), m, token)
  {
    RoutingPartition(r, m, token);
    if IsUserCall(m) {
      UserCallsAreAcknowledged(r, m, token, []);
    }
  }

  ghost predicate InboxInOrder(s: State) {
    && s.phase != Crashed
    && s.handled <= |s.arrived| && s.inbox == s.arrived[s.handled..]
    && (s.phase.Peeking? ==> s.inbox != [])
    && (s.phase.Popping? ==> s.inbox != [] && s.inbox[0] == s.phase.copy && RoutedFits(s.phase.routed, s.phase.copy, s.handled))
    && (s.phase.Recording? ==> s.handled > 0 && RoutedFits(s.phase.routed, s.arrived[s.handled - 1], s.handled - 1))
  }

  lemma InboxNext(s: State, e: Event)
    requires Agree(s.registry) && InboxInOrder(s) && Enabled(s, e)
    ensures InboxInOrder(Next(s, e))
  {
    if e.Work? && s.phase.Peeking? {
      var m := s.inbox[0];
      if !Route(s.registry, m, s.handled).Broken? {
        RouteFits(s.registry, m, s.handled);
      }
    } else if e.Work? && s.phase.Popping? {
      assert s.arrived[s.handled..][0] == s.arrived[s.handled];
      assert s.arrived[s.handled..][1..] == s.arrived[s.handled + 1..];
    } else if e.Arrive? {
      assert (s.arrived + [e.message])[s.handled..] == s.arrived[s.handled..] + [e.message];
    }
  }

  // ---------- Acks and stored responses ----------

  ghost predicate AcksInOrder(s: State)
    requires 0 <= Done(s) <= |s.arrived|
  {
    && AckTokens(s.log) == UserCallsAmong(s.arrived, Done(s))
    && (forall j :: 0 <= j < |s.log| && s.log[j].Ack? ==>
         s.log[j].token < |s.arrived| && Acknowledges(s.log[j].message, s.arrived[s.log[j].token]))
    && s.stored == AnswersAmong(s.arrived, Done(s))
  }

  lemma {:induction false} AmongPrefix(arrived: seq<Message>, m: Message, n: nat)
    requires n <= |arrived|
    ensures UserCallsAmong(arrived + [m], n) == UserCallsAmong(arrived, n)
    ensures AnswersAmong(arrived + [m], n) == AnswersAmong(arrived, n)
    ensures PacketsAmong(arrived + [m], n) == PacketsAmong(arrived, n)
  {
    if n == 0 {
    } else {
      AmongPrefix(arrived, m, n - 1);
    }
  }

  lemma AckTokensSnoc(log: seq<Output>, o: Output)
    ensures AckTokens(log + [o]) == AckTokens(log) + (if o.Ack? then [o.token] else [])
  {
    assert (log + [o])[..|log|] == log;
  }

  /** Steps other than recording, scanning and arrivals leave the logs alone. */
  ghost predicate SameLogs(s: State, s': State) {
    s'.log == s.log && s'.stored == s.stored && s'.arrived == s.arrived
  }

  lemma QuietLogs(s: State, e: Event)
    requires Agree(s.registry) && InboxInOrder(s) && Enabled(s, e)
    requires !e.Arrive? && (e.Work? ==> !s.phase.Recording? && !s.phase.Scanning?)
    ensures SameLogs(s, Next(s, e)) && Done(Next(s, e)) == Done(s)
    ensures Pendings(Next(s, e)) == Pendings(s)
  {
    hide Record, Scan, Route, Absorb, Register, RoutedFits, Beat, InputsIn;
  }

  lemma RecordEffect(s: State)
    requires InboxInOrder(s) && s.phase.Recording?
    ensures
      var s' := Record(s, s.phase.routed);
      var m := s.arrived[s.handled - 1];
      && Done(s') == Done(s) + 1 == s.handled && s'.arrived == s.arrived && s'.finished == s.finished
      && s'.log == s.log + (if IsUserCall(m) then [Ack(s.handled - 1, s.phase.routed.handle.response)] else [])
      && s'.stored == s.stored + (match AnswerIn(m) case Some(answer) => [answer] case None => [])
      && Pendings(s') == s.pending + (if IsUserCall(m) then
           [Pending(s.handled - 1, s.phase.routed.handle.future, s.phase.routed.handle.context)] else [])
  {
    assert forall ps: seq<Pending> :: [] + ps == ps;
  }

  lemma RecordAcks(s: State)
    requires InboxInOrder(s) && s.phase.Recording? && AcksInOrder(s)
    ensures
      var s' := Record(s, s.phase.routed);
      0 <= Done(s') <= |s'.arrived| && AcksInOrder(s')
  {
    RecordEffect(s);
    hide Record, Pendings;
    var m := s.arrived[s.handled - 1];
    if IsUserCall(m) {
      AckTokensSnoc(s.log, Ack(s.handled - 1, s.phase.routed.handle.response));
    }
  }

  lemma ScanEffect(s: State, requestId: uint32)
    requires s.phase.Scanning?
    ensures
      var s' := Scan(s, s.phase.kept, s.phase.rest, requestId);
      && s'.arrived == s.arrived && s'.stored == s.stored && s'.finished == s.finished
      && Done(s') == Done(s)
      && (|s'.log| == |s.log| + 1 ==> s.phase.rest != [] && s'.log == s.log + ReturnOf(s.phase.rest[0], s.finished, requestId)
                                      && !StillRuns(s.phase.rest[0].future, s.finished)
                                      && Pendings(s') == s.phase.kept + s.phase.rest[1..])
      && (|s'.log| != |s.log| + 1 ==> s'.log == s.log)
      && (|s'.log| != |s.log| + 1 ==>
           Pendings(s') == Pendings(s) || (s.phase.rest != [] && Pendings(s') == s.phase.kept + s.phase.rest[1..]))
  {
    var kept, rest := s.phase.kept, s.phase.rest;
    if rest == [] {
      assert kept + rest == kept;
    } else {
      assert kept + [rest[0]] + rest[1..] == kept + rest;
    }
  }

  lemma ScanAcks(s: State, requestId: uint32)
    requires s.phase.Scanning? && 0 <= Done(s) <= |s.arrived| && AcksInOrder(s)
    ensures
      var s' := Scan(s, s.phase.kept, s.phase.rest, requestId);
      0 <= Done(s') <= |s'.arrived| && AcksInOrder(s')
  {
    ScanEffect(s, requestId);
    ScanLogsReturns(s, requestId);
    hide Scan, Pendings, ReturnOf, StillRuns;
    var s' := Scan(s, s.phase.kept, s.phase.rest, requestId);
    if |s'.log| == |s.log| + 1 {
      ReturnAcks(s, s', s'.log[|s.log|]);
    }
  }

  lemma ScanLogsReturns(s: State, requestId: uint32)
    requires s.phase.Scanning?
    ensures
      var s' := Scan(s, s.phase.kept, s.phase.rest, requestId);
      |s'.log| == |s.log| + 1 ==> s'.log[|s.log|].Return? && s'.log == s.log + [s'.log[|s.log|]]
  {
  }

  lemma ReturnAcks(s: State, s': State, o: Output)
    requires 0 <= Done(s) <= |s.arrived| && AcksInOrder(s)
    requires o.Return? && s'.log == s.log + [o] && s'.arrived == s.arrived && s'.stored == s.stored && Done(s') == Done(s)
    ensures AcksInOrder(s')
  {
    AckTokensSnoc(s.log, o);
  }

  lemma AcksNext(s: State, e: Event)
    requires Agree(s.registry) && InboxInOrder(s) && Enabled(s, e) && AcksInOrder(s)
    ensures
      var s' := Next(s, e);
      0 <= Done(s') <= |s'.arrived| && AcksInOrder(s')
  {
    if e.Arrive? {
      AmongPrefix(s.arrived, e.message, Done(s));
    } else if e.Work? && s.phase.Recording? {
      RecordAcks(s);
    } else if e.Work? && s.phase.Scanning? {
      ScanAcks(s, e.requestId);
    } else {
      QuietLogs(s, e);
    }
  }

  // ---------- Pending requests and returns ----------

  ghost predicate Acked(log: seq<Output>, n: nat, token: nat)
    requires n <= |log|
  {
    exists i :: 0 <= i < n && log[i].Ack? && log[i].token == token
  }

  ghost predicate Returned(log: seq<Output>, n: nat, token: nat)
    requires n <= |log|
  {
    exists i :: 0 <= i < n && log[i].Return? && log[i].token == token
  }

  /** A pending request belongs to an acknowledged user call that has sent no return. */
  ghost predicate PendingFits(p: Pending, s: State) {
    && p.token < |s.arrived| && p.token < Done(s) && IsUserCall(s.arrived[p.token])
    && FutureFits(p.future, p.context, s.arrived[p.token], p.token)
    && Acked(s.log, |s.log|, p.token)
    && !Returned(s.log, |s.log|, p.token)
  }

  ghost predicate PendingsFit(s: State) {
    && (forall i :: 0 <= i < |Pendings(s)| ==> PendingFits(Pendings(s)[i], s))
    && (forall i, j :: 0 <= i < j < |Pendings(s)| ==> Pendings(s)[i].token < Pendings(s)[j].token)
  }

  /** The return at position j of the log was owed: its call is a function call whose callback finished
      with a value that may be sent, the message says exactly that, and to the right place, its ack came
      earlier, and no other return came for it. */
  ghost predicate ReturnOwed(log: seq<Output>, arrived: seq<Message>, finished: map<nat, Option<CallbackReturn>>, j: nat)
    requires j < |log|
  {
    log[j].Return? ==>
      var token, m := log[j].token, log[j].message;
      && token < |arrived| && IsUserCall(arrived[token]) && arrived[token].body.request.call.FunctionCall?
      && token in finished && m.body.Request?
      && ReturnFor(CallContext(arrived[token].source, arrived[token].destination, arrived[token].body.request.caller),
                   m.body.id, finished[token]) == Some(m)
      && Acked(log, j, token)
      && !Returned(log, j, token)
  }

  ghost predicate ReturnsOwed(s: State) {
    forall j :: 0 <= j < |s.log| ==>
      ReturnOwed(s.log, s.arrived, s.finished, j) && (s.log[j].Return? ==> s.log[j].token < Done(s))
  }

  lemma OwedStays(log: seq<Output>, log': seq<Output>, arrived: seq<Message>, arrived': seq<Message>,
                  finished: map<nat, Option<CallbackReturn>>, finished': map<nat, Option<CallbackReturn>>, j: nat)
    requires log <= log' && arrived <= arrived' && j < |log| && ReturnOwed(log, arrived, finished, j)
    requires forall t <- finished :: t in finished' && finished'[t] == finished[t]
    ensures ReturnOwed(log', arrived', finished', j)
  {
    if log[j].Return? {
      var token := log[j].token;
      var i :| 0 <= i < j && log[i].Ack? && log[i].token == token;
      assert log'[i] == log[i];
      assert arrived'[token] == arrived[token];
      forall n | 0 <= n < j ensures !(log'[n].Return? && log'[n].token == token) {
        assert log'[n] == log[n];
      }
    }
  }

  lemma FitsStays(p: Pending, s: State, s': State)
    requires PendingFits(p, s) && s.arrived <= s'.arrived && Done(s) <= Done(s') && s.log <= s'.log
    requires |s'.log| <= |s.log| + 1
    requires |s'.log| == |s.log| + 1 ==> !(s'.log[|s.log|].Return? && s'.log[|s.log|].token == p.token)
    ensures PendingFits(p, s')
  {
    var i :| 0 <= i < |s.log| && s.log[i].Ack? && s.log[i].token == p.token;
    assert s'.log[i] == s.log[i];
    forall n | 0 <= n < |s'.log| ensures !(s'.log[n].Return? && s'.log[n].token == p.token) {
      if n < |s.log| {
        assert s'.log[n] == s.log[n];
      }
    }
  }

  lemma RecordPendings(s: State)
    requires InboxInOrder(s) && s.phase.Recording? && PendingsFit(s) && ReturnsOwed(s)
    ensures PendingsFit(Record(s, s.phase.routed)) && ReturnsOwed(Record(s, s.phase.routed))
  {
    var s' := Record(s, s.phase.routed);
    RecordEffect(s);
    hide Record, InboxInOrder;
    assert s.log <= s'.log;
    forall j | 0 <= j < |s'.log|
      ensures ReturnOwed(s'.log, s'.arrived, s'.finished, j) && (s'.log[j].Return? ==> s'.log[j].token < Done(s'))
    {
      if j < |s.log| {
        OwedStays(s.log, s'.log, s.arrived, s'.arrived, s.finished, s'.finished, j);
      }
    }
    NewPendingFits(s, s');
  }

  lemma NewPendingFits(s: State, s': State)
    requires s.phase.Recording? && s.handled > 0 && s.handled <= |s.arrived|
    requires RoutedFits(s.phase.routed, s.arrived[s.handled - 1], s.handled - 1)
    requires PendingsFit(s) && ReturnsOwed(s)
    requires s'.arrived == s.arrived && Done(s') == s.handled
    requires
      var m := s.arrived[s.handled - 1];
      && s'.log == s.log + (if IsUserCall(m) then [Ack(s.handled - 1, s.phase.routed.handle.response)] else [])
      && Pendings(s') == s.pending + (if IsUserCall(m) then
           [Pending(s.handled - 1, s.phase.routed.handle.future, s.phase.routed.handle.context)] else [])
    ensures PendingsFit(s')
  {
    var ps, ps' := Pendings(s), Pendings(s');
    var token := s.handled - 1;
    forall i | 0 <= i < |ps'| ensures PendingFits(ps'[i], s') {
      if i < |ps| {
        assert ps'[i] == ps[i];
        FitsStays(ps[i], s, s');
      } else {
        assert s'.log[|s.log|].Ack? && s'.log[|s.log|].token == token;
        forall n | 0 <= n < |s'.log| ensures !(s'.log[n].Return? && s'.log[n].token == token) {
          assert n < |s.log| ==> s'.log[n] == s.log[n] && ReturnOwed(s.log, s.arrived, s.finished, n);
        }
      }
    }
    forall i, j | 0 <= i < j < |ps'| ensures ps'[i].token < ps'[j].token {
      assert ps'[i] == ps[i] && PendingFits(ps[i], s);
      assert j < |ps| ==> ps'[j] == ps[j];
    }
  }

  lemma ReturnOfOwed(s: State, p: Pending, requestId: uint32)
    requires PendingFits(p, s)
    requires ReturnOf(p, s.finished, requestId) != []
    ensures
      var log' := s.log + ReturnOf(p, s.finished, requestId);
      && |log'| == |s.log| + 1 && log'[|s.log|].Return? && log'[|s.log|].token == p.token
      && ReturnOwed(log', s.arrived, s.finished, |s.log|)
  {
    var log' := s.log + ReturnOf(p, s.finished, requestId);
    var i :| 0 <= i < |s.log| && s.log[i].Ack? && s.log[i].token == p.token;
    assert log'[i] == s.log[i];
    forall n | 0 <= n < |s.log| ensures !(log'[n].Return? && log'[n].token == p.token) {
      assert log'[n] == s.log[n];
    }
  }

  lemma ScanReturns(s: State, requestId: uint32)
    requires s.phase.Scanning? && PendingsFit(s) && ReturnsOwed(s)
    ensures ReturnsOwed(Scan(s, s.phase.kept, s.phase.rest, requestId))
  {
    var s' := Scan(s, s.phase.kept, s.phase.rest, requestId);
    ScanEffect(s, requestId);
    if |s'.log| == |s.log| + 1 {
      var p := s.phase.rest[0];
      assert Pendings(s)[|s.phase.kept|] == p;
      assert PendingFits(p, s);
      ReturnOfOwed(s, p, requestId);
    }
    hide Scan, ReturnOf, Pendings, PendingsFit;
    forall j | 0 <= j < |s'.log|
      ensures ReturnOwed(s'.log, s'.arrived, s'.finished, j) && (s'.log[j].Return? ==> s'.log[j].token < Done(s'))
    {
      if j < |s.log| {
        OwedStays(s.log, s'.log, s.arrived, s'.arrived, s.finished, s'.finished, j);
      }
    }
  }

  lemma ScanPendings(s: State, requestId: uint32)
    requires s.phase.Scanning? && PendingsFit(s)
    ensures PendingsFit(Scan(s, s.phase.kept, s.phase.rest, requestId))
  {
    var s' := Scan(s, s.phase.kept, s.phase.rest, requestId);
    ScanEffect(s, requestId);
    var ps, ps' := Pendings(s), Pendings(s');
    var k := |s.phase.kept|;
    assert s.phase.rest != [] ==> ps[k] == s.phase.rest[0];
    assert |s'.log| == |s.log| + 1 ==> s'.log[|s.log|].token == ps[k].token;
    assert s.log <= s'.log;
    assert ps' == ps || (s.phase.rest != [] && ps' == ps[..k] + ps[k + 1..]) by {
      assert ps == s.phase.kept + s.phase.rest;
      assert s.phase.rest != [] ==> ps[..k] == s.phase.kept && ps[k + 1..] == s.phase.rest[1..];
    }
    hide Scan, ReturnOf, Pendings;
    KeptPendingsFit(s, s', ps, ps', k);
  }

  /** Dropping one pending request, possibly with its return, leaves the others in place. */
  lemma KeptPendingsFit(s: State, s': State, ps: seq<Pending>, ps': seq<Pending>, k: nat)
    requires ps == Pendings(s) && ps' == Pendings(s') && PendingsFit(s)
    requires s'.arrived == s.arrived && Done(s') == Done(s) && s.log <= s'.log && |s'.log| <= |s.log| + 1
    requires ps' == ps || (k < |ps| && ps' == ps[..k] + ps[k + 1..])
    requires |s'.log| == |s.log| + 1 ==> k < |ps| && ps' == ps[..k] + ps[k + 1..] && s'.log[|s.log|].token == ps[k].token
    ensures PendingsFit(s')
  {
    hide Pendings;
    var shift := if ps' == ps then |ps| else k;
    forall i | 0 <= i < |ps'| ensures ps'[i] == ps[if i < shift then i else i + 1] {
    }
    forall i | 0 <= i < |ps'| ensures PendingFits(ps'[i], s') {
      FitsStays(ps'[i], s, s');
    }
  }

  lemma ReturnsNext(s: State, e: Event)
    requires Agree(s.registry) && InboxInOrder(s) && PendingsFit(s) && ReturnsOwed(s) && Enabled(s, e)
    ensures PendingsFit(Next(s, e)) && ReturnsOwed(Next(s, e))
  {
    if e.Work? && s.phase.Recording? {
      RecordPendings(s);
    } else if e.Work? && s.phase.Scanning? {
      ScanReturns(s, e.requestId);
      ScanPendings(s, e.requestId);
    } else {
      UnscannedReturns(s, e);
    }
  }

  lemma UnscannedReturns(s: State, e: Event)
    requires Agree(s.registry) && InboxInOrder(s) && PendingsFit(s) && ReturnsOwed(s) && Enabled(s, e)
    requires e.Work? ==> !s.phase.Recording? && !s.phase.Scanning?
    ensures PendingsFit(Next(s, e)) && ReturnsOwed(Next(s, e))
  {
    var s' := Next(s, e);
    OtherEffect(s, e);
    hide Next, Pendings, InboxInOrder;
    forall j | 0 <= j < |s'.log| ensures ReturnOwed(s'.log, s'.arrived, s'.finished, j) {
      OwedStays(s.log, s'.log, s.arrived, s'.arrived, s.finished, s'.finished, j);
    }
    forall i | 0 <= i < |Pendings(s')| ensures PendingFits(Pendings(s')[i], s') {
      FitsStays(Pendings(s)[i], s, s');
    }
  }

  lemma OtherEffect(s: State, e: Event)
    requires Agree(s.registry) && InboxInOrder(s) && Enabled(s, e)
    requires e.Work? ==> !s.phase.Recording? && !s.phase.Scanning?
    ensures
      var s' := Next(s, e);
      && Pendings(s') == Pendings(s) && s'.log == s.log && s.arrived <= s'.arrived && Done(s') == Done(s)
      && forall t <- s.finished :: t in s'.finished && s'.finished[t] == s.finished[t]
  {
    hide Record, Scan, Route, Absorb, Register, RoutedFits, Beat, InputsIn;
  }

  // ---------- No call is forgotten ----------

  ghost predicate InFlight(s: State, token: nat) {
    match s.phase
    case Popping(_, routed) => routed.AsRequest? && routed.handle.future == Some(token)
    case Recording(routed) => routed.AsRequest? && routed.handle.future == Some(token)
    case _ => false
  }

  ghost predicate IsPending(ps: seq<Pending>, token: nat) {
    exists i :: 0 <= i < |ps| && ps[i].future == Some(token)
  }

  /** A result that `sendReturn` serializes. */
  predicate Returnable(result: Option<CallbackReturn>) {
    result.Some? && |result.value.arguments| <= FUNCTION_CALL_ARGUMENTS_MAX_LENGTH
  }

  /** The callback is over, and its value, if it is to be sent, has been. */
  ghost predicate Answered(s: State, token: nat) {
    token in s.finished && (Returnable(s.finished[token]) ==> Returned(s.log, |s.log|, token))
  }

  ghost predicate NoneForgotten(s: State) {
    && (forall token <- s.launched :: InFlight(s, token) || IsPending(Pendings(s), token) || Answered(s, token))
    && (forall token <- s.launched :: token < Looked(s) <= |s.arrived|
          && IsUserCall(s.arrived[token]) && s.arrived[token].body.request.call.FunctionCall?
          && s.arrived[token].body.request.call.name in s.registry.callbacks)
    && (forall token <- s.finished :: token in s.launched)
  }

  lemma ReturnedStays(log: seq<Output>, log': seq<Output>, token: nat)
    requires log <= log' && Returned(log, |log|, token)
    ensures Returned(log', |log'|, token)
  {
    var i :| 0 <= i < |log| && log[i].Return? && log[i].token == token;
    assert log'[i] == log[i];
  }

  /** The one entry looked at stays if its callback still runs; otherwise it goes, and what is due for it is
      sent. */
  lemma ScanOutcome(s: State, requestId: uint32)
    requires s.phase.Scanning? && s.phase.rest != []
    ensures
      var s' := Scan(s, s.phase.kept, s.phase.rest, requestId);
      var p, k := s.phase.rest[0], |s.phase.kept|;
      && s.log <= s'.log && s'.finished == s.finished && k < |Pendings(s)| && Pendings(s)[k] == p
      && (StillRuns(p.future, s.finished) ==> Pendings(s') == Pendings(s))
      && (!StillRuns(p.future, s.finished) ==>
           s'.log == s.log + ReturnOf(p, s.finished, requestId) && Pendings(s') == Pendings(s)[..k] + Pendings(s)[k + 1..])
  {
    var kept, rest := s.phase.kept, s.phase.rest;
    assert (kept + rest)[|kept|..] == rest;
    assert kept + [rest[0]] + rest[1..] == kept + rest;
    assert (kept + rest)[..|kept|] == kept && (kept + rest)[|kept| + 1..] == rest[1..];
  }

  lemma ReturnIsSent(s: State, p: Pending, requestId: uint32, token: nat)
    requires PendingFits(p, s) && p.future == Some(token) && !StillRuns(p.future, s.finished)
    ensures
      var log' := s.log + ReturnOf(p, s.finished, requestId);
      token in s.finished && (Returnable(s.finished[token]) ==> Returned(log', |log'|, token))
  {
    var log' := s.log + ReturnOf(p, s.finished, requestId);
    if Returnable(s.finished[token]) {
      assert log'[|s.log|].Return? && log'[|s.log|].token == token;
    }
  }

  lemma ScanEnds(s: State, requestId: uint32)
    requires s.phase.Scanning? && s.phase.rest == []
    ensures
      var s' := Scan(s, s.phase.kept, s.phase.rest, requestId);
      s'.log == s.log && s'.finished == s.finished && Pendings(s') == Pendings(s)
  {
    assert s.phase.kept + [] == s.phase.kept;
  }

  lemma ScanForgetsNone(s: State, requestId: uint32, token: nat)
    requires s.phase.Scanning? && PendingsFit(s)
    requires IsPending(Pendings(s), token) || Answered(s, token)
    ensures
      var s' := Scan(s, s.phase.kept, s.phase.rest, requestId);
      IsPending(Pendings(s'), token) || Answered(s', token)
  {
    hide Scan, Pendings, PendingFits, ReturnOf, Returned, Returnable, StillRuns;
    var s' := Scan(s, s.phase.kept, s.phase.rest, requestId);
    var ps, k := Pendings(s), |s.phase.kept|;
    if s.phase.rest == [] {
      ScanEnds(s, requestId);
    } else {
      ScanOutcome(s, requestId);
      if Answered(s, token) {
        if Returned(s.log, |s.log|, token) {
          ReturnedStays(s.log, s'.log, token);
        }
      } else {
        var i :| 0 <= i < |ps| && ps[i].future == Some(token);
        assert PendingFits(ps[i], s);
        if StillRuns(s.phase.rest[0].future, s.finished) {
        } else if i != k {
          assert Pendings(s')[if i < k then i else i - 1] == ps[i];
        } else {
          ReturnIsSent(s, ps[k], requestId, token);
        }
      }
    }
  }

  lemma RecordForgetsNone(s: State, token: nat)
    requires InboxInOrder(s) && s.phase.Recording?
    requires InFlight(s, token) || IsPending(Pendings(s), token) || Answered(s, token)
    ensures
      var s' := Record(s, s.phase.routed);
      IsPending(Pendings(s'), token) || Answered(s', token)
  {
    var s' := Record(s, s.phase.routed);
    RecordEffect(s);
    if Answered(s, token) {
      assert s.log <= s'.log;
      if Returned(s.log, |s.log|, token) {
        ReturnedStays(s.log, s'.log, token);
      }
    } else if IsPending(Pendings(s), token) {
      var i :| 0 <= i < |s.pending| && s.pending[i].future == Some(token);
      assert Pendings(s')[i] == s.pending[i];
    } else {
      assert Pendings(s')[|s.pending|].future == Some(token);
    }
  }

  /** Steps outside recording and scanning: only handling launches, only completion finishes, and only
      registration touches the registry, which never loses a name. */
  lemma LaunchEffect(s: State, e: Event)
    requires Agree(s.registry) && InboxInOrder(s) && Enabled(s, e)
    requires e.Work? ==> !s.phase.Recording? && !s.phase.Scanning?
    ensures
      var s' := Next(s, e);
      && (forall t <- s.launched :: t in s'.launched)
      && (forall t <- s'.launched :: t in s.launched || (t == s.handled && InFlight(s', t)
            && s.handled < |s.arrived| && Looked(s') == s.handled + 1
            && IsUserCall(s.arrived[t]) && s.arrived[t].body.request.call.FunctionCall?
            && s.arrived[t].body.request.call.name in s.registry.callbacks))
      && (forall t <- s'.finished :: t in s.finished || t in s.launched)
      && Looked(s) <= Looked(s')
      && (forall t :: InFlight(s, t) ==> InFlight(s', t))
      && (forall name <- s.registry.callbacks :: name in s'.registry.callbacks)
  {
    if e.Work? && s.phase.Peeking? && IsUserCall(s.inbox[0]) {
      UserCallsAreAcknowledged(s.registry, s.inbox[0], s.handled, []);
    }
  }

  lemma LookedWithin(s: State)
    requires InboxInOrder(s)
    ensures Looked(s) <= |s.arrived|
  {
  }

  lemma OthersForgetNone(s: State, e: Event)
    requires Agree(s.registry) && InboxInOrder(s) && NoneForgotten(s) && Enabled(s, e)
    requires e.Work? ==> !s.phase.Recording? && !s.phase.Scanning?
    ensures NoneForgotten(Next(s, e))
  {
    var s' := Next(s, e);
    OtherEffect(s, e);
    LaunchEffect(s, e);
    InboxNext(s, e);
    LookedWithin(s');
    hide Next, InFlight, Pendings, InboxInOrder, Looked, IsUserCall;
    forall token | token in s'.launched
      ensures InFlight(s', token) || IsPending(Pendings(s'), token) || Answered(s', token)
    {
      if token in s.launched && Answered(s, token) {
        assert Answered(s', token);
      }
    }
    forall token | token in s'.launched
      ensures token < Looked(s') && IsUserCall(s'.arrived[token]) && s'.arrived[token].body.request.call.FunctionCall?
              && s'.arrived[token].body.request.call.name in s'.registry.callbacks
    {
      if token in s.launched {
        assert s'.arrived[token] == s.arrived[token];
      }
    }
  }

  lemma NoneForgottenNext(s: State, e: Event)
    requires Agree(s.registry) && InboxInOrder(s) && PendingsFit(s) && NoneForgotten(s) && Enabled(s, e)
    ensures NoneForgotten(Next(s, e))
  {
    hide Record, Scan, Handle, IsPending, Answered, PendingsFit, Pendings, IsUserCall;
    if e.Work? && s.phase.Recording? {
      forall token | token in s.launched
        ensures IsPending(Pendings(Next(s, e)), token) || Answered(Next(s, e), token)
      {
        RecordForgetsNone(s, token);
      }
      RecordFrame(s);
    } else if e.Work? && s.phase.Scanning? {
      forall token | token in s.launched
        ensures IsPending(Pendings(Next(s, e)), token) || Answered(Next(s, e), token)
      {
        ScanForgetsNone(s, e.requestId, token);
      }
      ScanFrame(s, e.requestId);
    } else {
      OthersForgetNone(s, e);
    }
  }

  /** Acting on what handling produced touches nothing but the list of pending requests and the logs. */
  lemma RecordFrame(s: State)
    requires s.phase.Recording?
    ensures
      var s' := Record(s, s.phase.routed);
      s'.phase.Scanning? && s' == s.(phase := s'.phase, pending := s'.pending, log := s'.log, stored := s'.stored)
  {
  }

  /** Looking at a pending request touches nothing but that list and the log. */
  lemma ScanFrame(s: State, requestId: uint32)
    requires s.phase.Scanning?
    ensures
      var s' := Scan(s, s.phase.kept, s.phase.rest, requestId);
      && (s'.phase.Scanning? || s'.phase.Beating?)
      && s' == s.(phase := s'.phase, pending := s'.pending, log := s'.log)
  {
  }

  /** An ack that tells the caller its function was found. */
  predicate OkAck(m: Message) {
    m.body.Response? && m.body.response.UserCallResponse? && m.body.response.reply == FunctionCallReply(Ok, "")
  }

  /** Every ack that says Ok, sent or about to be, stands for a callback that was launched. */
  ghost predicate OkMeansLaunched(s: State) {
    && (forall j :: 0 <= j < |s.log| && s.log[j].Ack? && OkAck(s.log[j].message) ==> s.log[j].token in s.launched)
    && (s.phase.Popping? && s.phase.routed.AsRequest? && OkAck(s.phase.routed.handle.response) ==> s.handled in s.launched)
    && (s.phase.Recording? && s.phase.routed.AsRequest? && OkAck(s.phase.routed.handle.response) ==> s.handled - 1 in s.launched)
  }

  lemma HandleLaunches(s: State)
    requires Agree(s.registry) && InboxInOrder(s) && s.phase.Peeking? && OkMeansLaunched(s)
    ensures OkMeansLaunched(Handle(s))
  {
    RoutingPartition(s.registry, s.inbox[0], s.handled);
    if IsUserCall(s.inbox[0]) {
      UserCallsAreAcknowledged(s.registry, s.inbox[0], s.handled, []);
    }
  }

  lemma OtherLaunches(s: State, e: Event)
    requires Agree(s.registry) && InboxInOrder(s) && OkMeansLaunched(s) && Enabled(s, e)
    requires e.Work? ==> !s.phase.Recording? && !s.phase.Scanning? && !s.phase.Peeking?
    ensures OkMeansLaunched(Next(s, e))
  {
  }

  lemma LaunchNext(s: State, e: Event)
    requires Agree(s.registry) && InboxInOrder(s) && OkMeansLaunched(s) && Enabled(s, e)
    ensures OkMeansLaunched(Next(s, e))
  {
    if e.Work? && s.phase.Recording? {
      RecordFrame(s);
      RecordEffect(s);
    } else if e.Work? && s.phase.Scanning? {
      ScanFrame(s, e.requestId);
      ScanEffect(s, e.requestId);
      ScanLogsReturns(s, e.requestId);
    } else if e.Work? && s.phase.Peeking? {
      HandleLaunches(s);
    } else {
      OtherLaunches(s, e);
    }
  }

  // ---------- The receiver of bytes ----------

  const NEW_RECEIVER := Receiver(false, map[])

  /** The receiver's state and deliveries are those of a run over the packets that arrived, in order,
      with the user's settings of the callback in between. */
  ghost predicate ReceiverFollows(s: State) {
    && Looked(s) <= |s.arrived|
    && ReceiverProperties.Run(NEW_RECEIVER, s.inputs) == Outcome(s.receiver, s.delivered)
    && PacketInputs(s.inputs) == PacketsAmong(s.arrived, Looked(s))
  }

  lemma RunSnoc(r: Receiver, inputs: seq<Input>, input: Input)
    ensures
      var before := ReceiverProperties.Run(r, inputs);
      var last := Step(before.receiver, input);
      ReceiverProperties.Run(r, inputs + [input]) == Outcome(last.receiver, before.deliveries + last.deliveries)
  {
    RunConcat(r, inputs, [input]);
    var before := ReceiverProperties.Run(r, inputs);
    var last := Step(before.receiver, input);
    assert [input][1..] == [];
    assert last.deliveries + [] == last.deliveries;
  }

  lemma PacketInputsSnoc(inputs: seq<Input>, input: Input)
    ensures PacketInputs(inputs + [input]) == PacketInputs(inputs) + (if input.Arrives? then [input] else [])
  {
    assert (inputs + [input])[..|inputs|] == inputs;
  }

  lemma HandleEffect(s: State)
    requires Agree(s.registry) && InboxInOrder(s) && s.phase.Peeking?
    ensures
      var s' := Handle(s);
      var m := s.inbox[0];
      && s.handled < |s.arrived| && m == s.arrived[s.handled] && s'.arrived == s.arrived
      && (s'.phase == Ruined ==>
           && PacketIn(m) == None && Looked(s') == Looked(s)
           && s'.inputs == s.inputs && s'.receiver == s.receiver && s'.delivered == s.delivered)
      && (s'.phase != Ruined ==>
           var outcome := Absorb(s.receiver, m);
           && Looked(s') == s.handled + 1 && s'.inputs == s.inputs + InputsIn(m)
           && s'.receiver == outcome.receiver && s'.delivered == s.delivered + outcome.deliveries)
  {
    RoutingPartition(s.registry, s.inbox[0], s.handled);
  }

  lemma AbsorbFollows(receiver: Receiver, delivered: seq<Delivery>, inputs: seq<Input>, m: Message)
    requires ReceiverProperties.Run(NEW_RECEIVER, inputs) == Outcome(receiver, delivered)
    ensures
      var outcome := Absorb(receiver, m);
      && ReceiverProperties.Run(NEW_RECEIVER, inputs + InputsIn(m)) == Outcome(outcome.receiver, delivered + outcome.deliveries)
      && PacketInputs(inputs + InputsIn(m)) == PacketInputs(inputs) + InputsIn(m)
  {
    match PacketIn(m)
    case Some(packet) =>
      RunSnoc(NEW_RECEIVER, inputs, Arrives(packet));
      PacketInputsSnoc(inputs, Arrives(packet));
    case None =>
      assert inputs + [] == inputs && delivered + [] == delivered;
  }

  lemma HandleFollows(s: State)
    requires Agree(s.registry) && InboxInOrder(s) && s.phase.Peeking? && ReceiverFollows(s)
    ensures ReceiverFollows(Handle(s))
  {
    HandleEffect(s);
    AbsorbFollows(s.receiver, s.delivered, s.inputs, s.inbox[0]);
    hide Handle;
    if Handle(s).phase != Ruined {
      assert PacketsAmong(s.arrived, s.handled + 1) == PacketsAmong(s.arrived, s.handled) + InputsIn(s.inbox[0]);
    }
  }

  lemma QuietReceiver(s: State, e: Event)
    requires Agree(s.registry) && InboxInOrder(s) && Enabled(s, e)
    requires !e.OnBytes? && !e.Arrive? && (e.Work? ==> !s.phase.Peeking? && !s.phase.Recording? && !s.phase.Scanning?)
    ensures
      var s' := Next(s, e);
      && Looked(s') == Looked(s) && s'.inputs == s.inputs && s'.receiver == s.receiver
      && s'.delivered == s.delivered && s'.arrived == s.arrived
  {
  }

  lemma InputReceiver(s: State, e: Event)
    requires Agree(s.registry) && ReceiverFollows(s) && (e.OnBytes? || e.Arrive?)
    ensures ReceiverFollows(Next(s, e))
  {
    hide ReceiverProperties.Run, PacketInputs, PacketsAmong;
    if e.OnBytes? {
      RunSnoc(NEW_RECEIVER, s.inputs, SetCallback(e.valid));
      PacketInputsSnoc(s.inputs, SetCallback(e.valid));
    } else {
      AmongPrefix(s.arrived, e.message, Looked(s));
    }
  }

  lemma ReceiverNext(s: State, e: Event)
    requires Agree(s.registry) && InboxInOrder(s) && ReceiverFollows(s) && Enabled(s, e)
    ensures ReceiverFollows(Next(s, e))
  {
    if e.OnBytes? || e.Arrive? {
      InputReceiver(s, e);
    } else if e.Work? && s.phase.Peeking? {
      HandleFollows(s);
    } else {
      if e.Work? && s.phase.Recording? {
        RecordFrame(s);
      } else if e.Work? && s.phase.Scanning? {
        ScanFrame(s, e.requestId);
      } else {
        QuietReceiver(s, e);
      }
      SameReceiver(s, Next(s, e));
    }
  }

  lemma SameReceiver(s: State, s': State)
    requires ReceiverFollows(s)
    requires Looked(s') == Looked(s) && s'.inputs == s.inputs && s'.receiver == s.receiver
    requires s'.delivered == s.delivered && s'.arrived == s.arrived
    ensures ReceiverFollows(s')
  {
  }

  // ---------- The keep-alive ----------

  /** After n spins with period N > 0, (n - 1) / N greetings have been attempted, and the counter stays
      between 0 and N. */
  ghost predicate OnSchedule(s: State) {
    if s.period == 0 then s.counter == 0 && s.attempts == 0
    else if s.beats == 0 then s.counter == 0 && s.attempts == 0
    else s.counter == (s.beats - 1) % s.period + 1 && s.attempts == (s.beats - 1) / s.period
  }

  lemma DivisionStep(n: nat, d: int)
    requires d > 0
    ensures n % d == d - 1 ==> (n + 1) / d == n / d + 1 && (n + 1) % d == 0
    ensures n % d < d - 1 ==> (n + 1) / d == n / d && (n + 1) % d == n % d + 1
    ensures n % d <= d - 1
  {
    var q, r := n / d, n % d;
    Euclid(n, d);
    if r == d - 1 {
      assert (q + 1) * d == q * d + d;
      DivisionIsUnique(n + 1, q + 1, 0, d);
    } else {
      DivisionIsUnique(n + 1, q, r + 1, d);
    }
  }

  lemma BeatKeepsSchedule(s: State)
    requires s.phase.Beating? && OnSchedule(s)
    ensures
      var (counter, attempt) := Beat(s.counter, s.period);
      OnSchedule(s.(phase := Idle, counter := counter, beats := s.beats + 1, attempts := s.attempts + (if attempt then 1 else 0)))
  {
    if s.period > 0 {
      if s.beats > 0 {
        DivisionStep(s.beats - 1, s.period);
      } else {
        DivisionIsUnique(0, 0, 0, s.period);
      }
    }
  }

  lemma UnbeatenSchedule(s: State, e: Event)
    requires Agree(s.registry) && Enabled(s, e) && (e.Work? ==> !s.phase.Recording? && !s.phase.Scanning? && !s.phase.Beating?)
    ensures
      var s' := Next(s, e);
      s'.counter == s.counter && s'.period == s.period && s'.beats == s.beats && s'.attempts == s.attempts
  {
  }

  lemma ScheduleNext(s: State, e: Event)
    requires Agree(s.registry) && OnSchedule(s) && Enabled(s, e)
    ensures OnSchedule(Next(s, e)) && Next(s, e).period == s.period
  {
    hide OnSchedule;
    if e.Work? && s.phase.Beating? {
      BeatKeepsSchedule(s);
    } else {
      if e.Work? && s.phase.Recording? {
        RecordFrame(s);
      } else if e.Work? && s.phase.Scanning? {
        ScanFrame(s, e.requestId);
      } else {
        UnbeatenSchedule(s, e);
      }
      SameSchedule(s, Next(s, e));
    }
  }

  lemma SameSchedule(s: State, s': State)
    requires OnSchedule(s)
    requires s'.counter == s.counter && s'.period == s.period && s'.beats == s.beats && s'.attempts == s.attempts
    ensures OnSchedule(s')
  {
  }

  // ---------- Every run ----------

  ghost predicate Invariant(s: State) {
    && Agree(s.registry)
    && InboxInOrder(s)
    && 0 <= Done(s) <= |s.arrived| && AcksInOrder(s)
    && PendingsFit(s) && ReturnsOwed(s)
    && NoneForgotten(s) && OkMeansLaunched(s)
    && ReceiverFollows(s)
    && OnSchedule(s)
  }

  lemma InvariantNext(s: State, e: Event)
    requires Invariant(s) && Enabled(s, e)
    ensures Invariant(Next(s, e)) && Next(s, e).period == s.period
  {
    hide Next, InboxInOrder, AcksInOrder, PendingsFit, ReturnsOwed, NoneForgotten, OkMeansLaunched,
      ReceiverFollows, OnSchedule, Done;
    RegistryStaysInAgreement(s, e);
    InboxNext(s, e);
    AcksNext(s, e);
    ReturnsNext(s, e);
    NoneForgottenNext(s, e);
    LaunchNext(s, e);
    ReceiverNext(s, e);
    ScheduleNext(s, e);
  }

  lemma InvariantAtStart(period: uint32)
    ensures Invariant(SpinProtocol.Start(period))
  {
    var s := SpinProtocol.Start(period);
    assert Pendings(s) == [] && AckTokens([]) == [];
  }

  lemma {:induction false} InvariantAlways(period: uint32, es: seq<Event>, k: nat)
    requires Legal(period, es) && k <= |es|
    ensures Invariant(After(period, es, k)) && After(period, es, k).period == period
  {
    hide Next, Invariant;
    if k == 0 {
      InvariantAtStart(period);
    } else {
      InvariantAlways(period, es, k - 1);
      InvariantNext(After(period, es, k - 1), es[k - 1]);
    }
  }
}
