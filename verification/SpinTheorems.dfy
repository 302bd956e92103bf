/** What holds of every run of the spinning thread. */
module SpinTheorems {
  import opened Prelude
  import opened Messages
  import opened BytesReceiving
  import opened ReceiverProperties
  import opened UserCallbacks
  import opened UserCalls
  import opened MessageHandling
  import opened SpinProtocol
  import opened SpinInvariants

  /** The inbox is never read or popped empty; the message popped is the message handled; messages are
      handled in the order in which they arrived. */
  lemma InboxIsFifo(period: uint32, es: seq<Event>, k: nat)
    requires Legal(period, es) && k <= |es|
    ensures
      var s := After(period, es, k);
      && s.phase != Crashed && s.handled <= |s.arrived| && s.inbox == s.arrived[s.handled..]
      && (s.phase.Popping? ==> s.inbox != [] && s.inbox[0] == s.phase.copy == s.arrived[s.handled])
  {
    hide After;
    InvariantAlways(period, es, k);
  }

  /** `stored` holds what the answers among the first n arrivals said, one for each and in order; `at` says
      where they are. */
  ghost predicate StoredFrom(stored: seq<InboundResponse>, arrived: seq<Message>, n: nat, at: seq<nat>)
    requires n <= |arrived|
  {
    && |at| == |stored| && StrictlyIncreasing(at)
    && (forall i :: 0 <= i < |at| ==> at[i] < n && Keeps(stored[i], arrived[at[i]]))
    && (forall i :: 0 <= i < n ==> (i in at <==> IsAnswer(arrived[i])))
  }

  /** `at` holds the positions of the user-call requests among the first n arrivals, in order. */
  ghost predicate CallsAt(at: seq<nat>, arrived: seq<Message>, n: nat)
    requires n <= |arrived|
  {
    && StrictlyIncreasing(at) && (forall i :: 0 <= i < |at| ==> at[i] < n)
    && (forall i :: 0 <= i < n ==> (i in at <==> arrived[i].body.Request? && arrived[i].body.request.UserCallRequest?))
  }

  lemma {:induction false} UserCallsAmongAre(arrived: seq<Message>, n: nat)
    requires n <= |arrived|
    ensures CallsAt(UserCallsAmong(arrived, n), arrived, n)
  {
    hide CallsAt;
    if n == 0 {
      NoCalls(arrived);
    } else {
      UserCallsAmongAre(arrived, n - 1);
      OneMoreCall(UserCallsAmong(arrived, n - 1), arrived, n - 1);
      assert UserCallsAmong(arrived, n - 1) + [] == UserCallsAmong(arrived, n - 1);
    }
  }

  lemma CallsAtAre(at: seq<nat>, arrived: seq<Message>, n: nat)
    requires n <= |arrived| && CallsAt(at, arrived, n)
    ensures forall i, j :: 0 <= i < j < |at| ==> at[i] < at[j]
    ensures forall i :: i in at <==> 0 <= i < n && arrived[i].body.Request? && arrived[i].body.request.UserCallRequest?
  {
  }

  lemma NoCalls(arrived: seq<Message>)
    ensures CallsAt([], arrived, 0)
  {
  }

  lemma OneMoreCall(at: seq<nat>, arrived: seq<Message>, n: nat)
    requires n < |arrived| && CallsAt(at, arrived, n)
    ensures CallsAt(if IsUserCall(arrived[n]) then at + [n] else at, arrived, n + 1)
  {
    IncreasingSnoc(at, n);
    assert n !in at;
  }

  lemma {:induction false} AnswersAmongAre(arrived: seq<Message>, n: nat) returns (at: seq<nat>)
    requires n <= |arrived|
    ensures StoredFrom(AnswersAmong(arrived, n), arrived, n, at)
  {
    hide StoredFrom, AnswerIn, IsAnswer;
    if n == 0 {
      at := [];
      NothingStored(arrived);
    } else {
      at := AnswersAmongAre(arrived, n - 1);
      AnswersAreKept(arrived[n - 1]);
      match AnswerIn(arrived[n - 1])
      case Some(answer) =>
        OneMoreStored(AnswersAmong(arrived, n - 1), arrived, n - 1, at, answer);
        at := at + [n - 1];
      case None =>
        NoMoreStored(AnswersAmong(arrived, n - 1), arrived, n - 1, at);
        assert AnswersAmong(arrived, n - 1) + [] == AnswersAmong(arrived, n - 1);
    }
  }

  lemma NothingStored(arrived: seq<Message>)
    ensures StoredFrom([], arrived, 0, [])
  {
  }

  lemma OneMoreStored(stored: seq<InboundResponse>, arrived: seq<Message>, n: nat, at: seq<nat>, answer: InboundResponse)
    requires n < |arrived| && StoredFrom(stored, arrived, n, at) && IsAnswer(arrived[n]) && Keeps(answer, arrived[n])
    ensures StoredFrom(stored + [answer], arrived, n + 1, at + [n])
  {
    hide IsAnswer, Keeps;
    IncreasingSnoc(at, n);
  }

  lemma NoMoreStored(stored: seq<InboundResponse>, arrived: seq<Message>, n: nat, at: seq<nat>)
    requires n < |arrived| && StoredFrom(stored, arrived, n, at) && !IsAnswer(arrived[n])
    ensures StoredFrom(stored, arrived, n + 1, at)
  {
    hide IsAnswer, Keeps;
    assert n !in at;
  }

  /** The acks sent are, in order, one for each user call handled, in order of arrival, each with the
      request's id, its ends swapped, to the module that asked; and the responses stored are, in order,
      what the generic and function-call responses that arrived said, one for each. */
  lemma AcksFollowArrivals(period: uint32, es: seq<Event>, k: nat)
    requires Legal(period, es) && k <= |es|
    ensures
      var s := After(period, es, k);
      && 0 <= Done(s) <= |s.arrived|
      && AckTokens(s.log) == UserCallsAmong(s.arrived, Done(s))
      && (forall i, j :: 0 <= i < j < |AckTokens(s.log)| ==> AckTokens(s.log)[i] < AckTokens(s.log)[j])
      && (forall i :: i in AckTokens(s.log) <==>
           0 <= i < Done(s) && s.arrived[i].body.Request? && s.arrived[i].body.request.UserCallRequest?)
      && (forall j :: 0 <= j < |s.log| && s.log[j].Ack? ==>
           s.log[j].token < |s.arrived| && Acknowledges(s.log[j].message, s.arrived[s.log[j].token]))
      && s.stored == AnswersAmong(s.arrived, Done(s))
      && exists at :: StoredFrom(s.stored, s.arrived, Done(s), at)
  {
    hide After, UserCallsAmong, AnswersAmong, AckTokens, IsAnswer, Keeps, CallsAt;
    InvariantAlways(period, es, k);
    var s := After(period, es, k);
    UserCallsAmongAre(s.arrived, Done(s));
    CallsAtAre(UserCallsAmong(s.arrived, Done(s)), s.arrived, Done(s));
    var at := AnswersAmongAre(s.arrived, Done(s));
    assert StoredFrom(s.stored, s.arrived, Done(s), at);
  }

  /** Every return sent is the return of a function call whose callback finished with a value that fits,
      says just that, goes back to where the call came from, comes after the ack of its call, and is the
      only one. */
  lemma ReturnsComeAfterAcksOnce(period: uint32, es: seq<Event>, k: nat, j: nat)
    requires Legal(period, es) && k <= |es|
    requires j < |After(period, es, k).log| && After(period, es, k).log[j].Return?
    ensures
      var s := After(period, es, k);
      var token, m := s.log[j].token, s.log[j].message;
      && token < |s.arrived| && IsUserCall(s.arrived[token]) && s.arrived[token].body.request.call.FunctionCall?
      && token in s.finished && s.finished[token].Some? && m.body.Request?
      && var value := s.finished[token].value;
      && |value.arguments| <= FUNCTION_CALL_ARGUMENTS_MAX_LENGTH
      && m.source == s.arrived[token].destination && m.destination == s.arrived[token].source
      && m.body.request
         == UserCallRequest(Host, s.arrived[token].body.request.caller, FunctionCall(value.name, value.arguments))
      && (exists i :: 0 <= i < j && s.log[i].Ack? && s.log[i].token == token)
      && (forall i :: 0 <= i < |s.log| && i != j && s.log[i].Return? ==> s.log[i].token != token)
  {
    hide After;
    InvariantAlways(period, es, k);
    OnlyReturn(After(period, es, k), j);
  }

  lemma OnlyReturn(s: State, j: nat)
    requires ReturnsOwed(s) && j < |s.log| && s.log[j].Return?
    ensures ReturnOwed(s.log, s.arrived, s.finished, j)
    ensures forall i :: 0 <= i < |s.log| && i != j && s.log[i].Return? ==> s.log[i].token != s.log[j].token
  {
    forall i | 0 <= i < |s.log| && i != j && s.log[i].Return? ensures s.log[i].token != s.log[j].token {
      assert ReturnOwed(s.log, s.arrived, s.finished, if i < j then j else i);
    }
  }

  /** An ack that says Ok was sent for a function call whose callback was launched. */
  lemma OkAcksAreKept(period: uint32, es: seq<Event>, k: nat, j: nat)
    requires Legal(period, es) && k <= |es| && j < |After(period, es, k).log|
    requires After(period, es, k).log[j].Ack? && OkAck(After(period, es, k).log[j].message)
    ensures After(period, es, k).log[j].token in After(period, es, k).launched
  {
    hide After;
    InvariantAlways(period, es, k);
  }

  /** There is a value, and its arguments do not exceed the limit: the limit itself is still allowed. */
  predicate WorthReturning(result: Option<CallbackReturn>) {
    match result
    case None => false
    case Some(value) => !(|value.arguments| > FUNCTION_CALL_ARGUMENTS_MAX_LENGTH)
  }

  /** A callback that was launched is being recorded, or waits in the list of pending requests, which
      keeps the order of arrival, or is over and its value, if it may be sent, has been sent. */
  lemma CallsAreNeverForgotten(period: uint32, es: seq<Event>, k: nat, token: nat)
    requires Legal(period, es) && k <= |es| && token in After(period, es, k).launched
    ensures
      var s := After(period, es, k);
      && (|| InFlight(s, token) || IsPending(Pendings(s), token)
          || (token in s.finished && (WorthReturning(s.finished[token]) <==> Returned(s.log, |s.log|, token))))
      && (forall i, j :: 0 <= i < j < |Pendings(s)| ==> Pendings(s)[i].token < Pendings(s)[j].token)
  {
    hide After;
    InvariantAlways(period, es, k);
    var s := After(period, es, k);
    if Answered(s, token) && Returned(s.log, |s.log|, token) {
      var i :| 0 <= i < |s.log| && s.log[i].Return? && s.log[i].token == token;
      OnlyReturn(s, i);
    }
  }

  /** When a callback that was acknowledged Ok looks itself up, whenever that is and whatever was
      registered since, its name is registered. */
  lemma LaunchedCallbacksAreFound(period: uint32, es: seq<Event>, k: nat, token: nat)
    requires Legal(period, es) && k <= |es| && token in After(period, es, k).launched
    ensures
      var s := After(period, es, k);
      && token < |s.arrived| && IsUserCall(s.arrived[token]) && s.arrived[token].body.request.call.FunctionCall?
      && s.arrived[token].body.request.call.name in s.registry.callbacks
  {
    hide After;
    InvariantAlways(period, es, k);
  }

  /** The callback of the user of bytes has been called exactly as a receiver fed with the packets that
      arrived, in order, calls it. */
  lemma DeliveriesFollowArrivals(period: uint32, es: seq<Event>, k: nat)
    requires Legal(period, es) && k <= |es|
    ensures
      var s := After(period, es, k);
      && Looked(s) <= |s.arrived|
      && s.delivered == ReceiverProperties.Run(NEW_RECEIVER, s.inputs).deliveries
      && s.receiver == ReceiverProperties.Run(NEW_RECEIVER, s.inputs).receiver
      && PacketInputs(s.inputs) == PacketsAmong(s.arrived, Looked(s))
  {
    hide After, ReceiverProperties.Run;
    InvariantAlways(period, es, k);
  }

  /** For a keep-alive period N > 0, n >= 1 spins attempt exactly (n - 1) / N greetings, and the counter
      never leaves 0..N; with N == 0 none is ever attempted. */
  lemma KeepAliveSchedule(period: uint32, es: seq<Event>, k: nat)
    requires Legal(period, es) && k <= |es|
    ensures
      var s := After(period, es, k);
      && 0 <= s.counter <= period
      && s.attempts == if period == 0 || s.beats == 0 then 0 else (s.beats - 1) / period
  {
    hide After;
    InvariantAlways(period, es, k);
    var s := After(period, es, k);
    if period > 0 && s.beats > 0 {
      DivisionStep(s.beats - 1, period);
    }
  }

  /** The registry is read past its end exactly when the message to be handled asks for the description
      at the index equal to the number of registered names. */
  lemma RuinedExactlyBy(s: State, e: Event)
    requires Invariant(s) && Enabled(s, e) && s.phase != Ruined
    ensures Next(s, e).phase == Ruined <==>
      && e.Work? && s.phase.Peeking? && s.inbox[0].body.Request? && s.inbox[0].body.request.UserCallRequest?
      && s.inbox[0].body.request.call.FunctionDescription? && s.inbox[0].body.request.call.index == |s.registry.names|
  {
    hide Record, Scan, AcksInOrder, PendingsFit, ReturnsOwed, NoneForgotten, ReceiverFollows, OnSchedule;
    if e.Work? {
      ActingDoesNotRuin(s, e);
    }
    if e.Work? && s.phase.Peeking? {
      if IsUserCall(s.inbox[0]) {
        UserCallsAreAcknowledged(s.registry, s.inbox[0], s.handled, []);
      } else {
        RoutingPartition(s.registry, s.inbox[0], s.handled);
      }
    }
  }

  lemma ActingDoesNotRuin(s: State, e: Event)
    requires Agree(s.registry) && s.phase != Ruined && e.Work?
    ensures s.phase.Recording? ==> Next(s, e).phase != Ruined
    ensures s.phase.Scanning? ==> Next(s, e).phase != Ruined
  {
  }
}
