/** The protocol of one IDE bus: what its queue, and what came in and went out, have to do with each other. */
module RequestQueue {

  /** What a caller asks for; `data` and the completion function are known by the number `owner`. */
  datatype Io = Io(drive: nat, start: nat, count: nat, buffer: nat, owner: nat)

  datatype Command = Read | Write

  datatype Request = Request(io: Io, command: Command)

  datatype Pending = Pending(request: Request, retried: bool)

  /** A completion callback: whose request it was, and whether it failed. */
  datatype Call = Call(request: Request, error: bool)

  /**
   Everything a bus has seen. `starts` are the operations given to the drive, and `tickets` says which
   submission each belongs to; `failed` are the outcomes the drive has reported, in order.
   */
  datatype History = History(submitted: seq<Request>, starts: seq<Request>, tickets: seq<nat>, failed: seq<bool>,
                             calls: seq<Call>)

  datatype Bus = Bus(queue: seq<Pending>, history: History)

  const FRESH: Bus := Bus([], History([], [], [], [], []))

  // ----- the status register of the bus master

  predicate ErrorBit(status: nat) {
    status / 2 % 2 == 1
  }

  predicate ActiveBit(status: nat) {
    status % 2 == 1
  }

  // ----- steps

  datatype Input = Submit(request: Request) | Poll(status: nat)

  /** An operation starts: the drive is given the request of that ticket. */
  function Started(h: History, r: Request, ticket: nat): History {
    h.(starts := h.starts + [r], tickets := h.tickets + [ticket])
  }

  function Submitted(b: Bus, r: Request): Bus {
    var h := b.history.(submitted := b.history.submitted + [r]);
    Bus(b.queue + [Pending(r, false)], if b.queue == [] then Started(h, r, |b.history.submitted|) else h)
  }

  function Retried(b: Bus): Bus
    requires b.queue != []
  {
    var h := b.history.(failed := b.history.failed + [true]);
    Bus([b.queue[0].(retried := true)] + b.queue[1..], Started(h, b.queue[0].request, |h.calls|))
  }

  /** The head is done with: the next one starts before the callback runs. */
  function Completed(b: Bus, error: bool): Bus
    requires b.queue != []
  {
    var rest := b.queue[1..];
    var h := b.history.(failed := b.history.failed + [error],
                        calls := b.history.calls + [Call(b.queue[0].request, error)]);
    Bus(rest, if rest != [] then Started(h, rest[0].request, |h.calls|) else h)
  }

  function Step(b: Bus, input: Input): Bus {
    match input
    case Submit(r) => Submitted(b, r)
    case Poll(status) =>
      if b.queue == [] then b
      else if ErrorBit(status) then
        if b.queue[0].retried then Completed(b, true) else Retried(b)
      else if ActiveBit(status) then b
      else Completed(b, false)
  }

  function Run(inputs: seq<Input>): Bus {
    if inputs == [] then FRESH else Step(Run(inputs[..|inputs| - 1]), inputs[|inputs| - 1])
  }

  /**
   What one look at the status does, by its two low bits: 1 alone is an operation under way, neither is its end, and
   2, with 1 or without, is an error, after which the operation is tried again once.
   */
  lemma PollByStatus(b: Bus, s: nat)
    ensures b.queue == [] || s % 4 == 1 ==> Step(b, Poll(s)) == b
    ensures b.queue != [] && s % 4 == 0 ==>
      && Step(b, Poll(s)).queue == b.queue[1..]
      && Step(b, Poll(s)).history.failed == b.history.failed + [false]
      && Step(b, Poll(s)).history.calls == b.history.calls + [Call(b.queue[0].request, false)]
    ensures b.queue != [] && s % 4 >= 2 && !b.queue[0].retried ==>
      && Step(b, Poll(s)).queue == [Pending(b.queue[0].request, true)] + b.queue[1..]
      && Step(b, Poll(s)).history.failed == b.history.failed + [true]
      && Step(b, Poll(s)).history.starts == b.history.starts + [b.queue[0].request]
      && Step(b, Poll(s)).history.calls == b.history.calls
    ensures b.queue != [] && s % 4 >= 2 && b.queue[0].retried ==>
      && Step(b, Poll(s)).queue == b.queue[1..]
      && Step(b, Poll(s)).history.failed == b.history.failed + [true]
      && Step(b, Poll(s)).history.calls == b.history.calls + [Call(b.queue[0].request, true)]
  {
    assert s / 2 % 2 == s % 4 / 2 && s % 2 == s % 4 % 2;
  }

  // ----- what every run keeps

  /** The outcomes of the operations started for a ticket, as far as they are known. */
  function Outcomes(tickets: seq<nat>, failed: seq<bool>, k: nat): seq<bool>
    requires |failed| <= |tickets|
  {
    if failed == [] then []
    else
      var n := |failed| - 1;
      Outcomes(tickets, failed[..n], k) + (if tickets[n] == k then [failed[n]] else [])
  }

  /** Tried once and well, or twice; failed exactly if both attempts did. */
  predicate Settled(outcomes: seq<bool>, error: bool) {
    (outcomes == [false] && !error) || (outcomes == [true, false] && !error) || (outcomes == [true, true] && error)
  }

  predicate InOrder(tickets: seq<nat>) {
    forall i, j :: 0 <= i < j < |tickets| ==> tickets[i] <= tickets[j]
  }

  /** Callbacks are those of the first submissions, in order; the queue holds all the others, in order. */
  predicate Fifo(b: Bus) {
    var h := b.history;
    && |h.submitted| == |h.calls| + |b.queue|
    && (forall k :: 0 <= k < |h.calls| ==> h.calls[k].request == h.submitted[k])
    && (forall i :: 0 <= i < |b.queue| ==> b.queue[i].request == h.submitted[|h.calls| + i])
    && (forall i :: 0 < i < |b.queue| ==> !b.queue[i].retried)
  }

  /** There is an operation under way exactly if the queue is nonempty, and it is the head's. */
  predicate HeadStarted(b: Bus) {
    var h := b.history;
    && |h.starts| == |h.tickets| == |h.failed| + (if b.queue == [] then 0 else 1)
    && (b.queue != [] ==> h.tickets[|h.failed|] == |h.calls| && h.starts[|h.failed|] == b.queue[0].request)
    && (forall i :: 0 <= i < |h.tickets| ==>
        h.tickets[i] <= |h.calls| && h.tickets[i] < |h.submitted| && h.starts[i] == h.submitted[h.tickets[i]])
    && InOrder(h.tickets)
  }

  predicate AllSettled(b: Bus)
    requires |b.history.failed| <= |b.history.tickets|
  {
    var h := b.history;
    && (forall k :: 0 <= k < |h.calls| ==> Settled(Outcomes(h.tickets, h.failed, k), h.calls[k].error))
    && Outcomes(h.tickets, h.failed, |h.calls|) == (if b.queue != [] && b.queue[0].retried then [true] else [])
  }

  predicate Lawful(b: Bus) {
    Fifo(b) && HeadStarted(b) && AllSettled(b)
  }

  lemma {:induction false} OutcomesOfMore(tickets: seq<nat>, more: seq<nat>, failed: seq<bool>, k: nat)
    requires |failed| <= |tickets| <= |more| && more[..|tickets|] == tickets
    ensures Outcomes(more, failed, k) == Outcomes(tickets, failed, k)
  {
    if failed != [] {
      OutcomesOfMore(tickets, more, failed[..|failed| - 1], k);
    }
  }

  lemma {:induction false} NoOutcomes(tickets: seq<nat>, failed: seq<bool>, k: nat)
    requires |failed| <= |tickets| && forall i :: 0 <= i < |failed| ==> tickets[i] != k
    ensures Outcomes(tickets, failed, k) == []
  {
    if failed != [] {
      NoOutcomes(tickets, failed[..|failed| - 1], k);
    }
  }

  /** One more outcome, and perhaps one more start after it. */
  lemma OneMoreOutcome(tickets: seq<nat>, more: seq<nat>, failed: seq<bool>, outcome: bool, k: nat)
    requires |failed| + 1 == |tickets| <= |more| && more[..|tickets|] == tickets
    ensures Outcomes(more, failed + [outcome], k) ==
            Outcomes(tickets, failed, k) + (if tickets[|failed|] == k then [outcome] else [])
  {
    var failed' := failed + [outcome];
    assert failed'[..|failed|] == failed;
    OutcomesOfMore(tickets, more, failed, k);
  }

  /** One more ticket, not below the others. */
  lemma InOrderMore(tickets: seq<nat>, k: nat)
    requires InOrder(tickets) && forall i :: 0 <= i < |tickets| ==> tickets[i] <= k
    ensures InOrder(tickets + [k])
  {
  }

  lemma FifoSubmit(b: Bus, r: Request)
    requires Fifo(b)
    ensures Fifo(Submitted(b, r))
  {
  }

  lemma HeadSubmit(b: Bus, r: Request)
    requires Fifo(b) && HeadStarted(b)
    ensures HeadStarted(Submitted(b, r))
  {
    InOrderMore(b.history.tickets, |b.history.submitted|);
  }

  lemma SubmitKeeps(b: Bus, r: Request)
    requires Lawful(b)
    ensures Lawful(Submitted(b, r))
  {
    FifoSubmit(b, r);
    HeadSubmit(b, r);
    var h, h' := b.history, Submitted(b, r).history;
    forall k: nat
      ensures Outcomes(h'.tickets, h'.failed, k) == Outcomes(h.tickets, h.failed, k)
    {
      OutcomesOfMore(h.tickets, h'.tickets, h.failed, k);
    }
  }

  lemma HeadRetry(b: Bus)
    requires Fifo(b) && HeadStarted(b) && b.queue != []
    ensures HeadStarted(Retried(b))
  {
    InOrderMore(b.history.tickets, |b.history.calls|);
  }

  lemma RetryKeeps(b: Bus)
    requires Lawful(b) && b.queue != [] && !b.queue[0].retried
    ensures Lawful(Retried(b))
  {
    HeadRetry(b);
    var h, h' := b.history, Retried(b).history;
    forall k: nat
      ensures Outcomes(h'.tickets, h'.failed, k)
              == Outcomes(h.tickets, h.failed, k) + (if k == |h.calls| then [true] else [])
    {
      OneMoreOutcome(h.tickets, h'.tickets, h.failed, true, k);
    }
  }

  lemma FifoComplete(b: Bus, error: bool)
    requires Fifo(b) && b.queue != []
    ensures Fifo(Completed(b, error))
  {
    var h, h' := b.history, Completed(b, error).history;
    assert b.queue[0].request == h.submitted[|h.calls|];
    assert forall i :: 0 <= i < |b.queue| - 1 ==> b.queue[1..][i] == b.queue[i + 1];
  }

  lemma HeadComplete(b: Bus, error: bool)
    requires Fifo(b) && HeadStarted(b) && b.queue != []
    ensures HeadStarted(Completed(b, error))
  {
    InOrderMore(b.history.tickets, |b.history.calls| + 1);
    assert |b.queue| > 1 ==> b.queue[1].request == b.history.submitted[|b.history.calls| + 1];
  }

  lemma CompleteKeeps(b: Bus, error: bool)
    requires Lawful(b) && b.queue != [] && (error ==> b.queue[0].retried)
    ensures Lawful(Completed(b, error))
  {
    FifoComplete(b, error);
    HeadComplete(b, error);
    SettledComplete(b, error);
  }

  lemma OutcomesComplete(b: Bus, error: bool, k: nat)
    requires HeadStarted(b) && b.queue != []
    ensures var h, h' := b.history, Completed(b, error).history;
            && |h'.failed| <= |h'.tickets|
            && Outcomes(h'.tickets, h'.failed, k) ==
               Outcomes(h.tickets, h.failed, k) + (if k == |h.calls| then [error] else [])
  {
    var h, h' := b.history, Completed(b, error).history;
    OneMoreOutcome(h.tickets, h'.tickets, h.failed, error, k);
  }

  lemma HeadSettles(outcomes: seq<bool>, retried: bool, error: bool)
    requires outcomes == (if retried then [true] else []) && (error ==> retried)
    ensures Settled(outcomes + [error], error)
  {
  }

  lemma NextUntried(b: Bus, error: bool)
    requires HeadStarted(b) && b.queue != []
    ensures var h' := Completed(b, error).history;
            |h'.failed| <= |h'.tickets| && Outcomes(h'.tickets, h'.failed, |b.history.calls| + 1) == []
  {
    OutcomesComplete(b, error, |b.history.calls| + 1);
    NoOutcomes(b.history.tickets, b.history.failed, |b.history.calls| + 1);
  }

  lemma CallSettled(b: Bus, error: bool, k: nat)
    requires HeadStarted(b) && AllSettled(b) && b.queue != [] && (error ==> b.queue[0].retried) &&
             k <= |b.history.calls|
    ensures var h' := Completed(b, error).history;
            |h'.failed| <= |h'.tickets| && Settled(Outcomes(h'.tickets, h'.failed, k), h'.calls[k].error)
  {
    var h := b.history;
    OutcomesComplete(b, error, k);
    if k == |h.calls| {
      HeadSettles(Outcomes(h.tickets, h.failed, k), b.queue[0].retried, error);
    }
  }

  lemma SettledComplete(b: Bus, error: bool)
    requires Lawful(b) && b.queue != [] && (error ==> b.queue[0].retried) && HeadStarted(Completed(b, error))
    ensures AllSettled(Completed(b, error))
  {
    var h' := Completed(b, error).history;
    forall k | 0 <= k < |h'.calls|
      ensures Settled(Outcomes(h'.tickets, h'.failed, k), h'.calls[k].error)
    {
      CallSettled(b, error, k);
    }
    NextUntried(b, error);
    assert |b.queue| > 1 ==> !b.queue[1].retried;
  }

  lemma StepKeeps(b: Bus, input: Input)
    requires Lawful(b)
    ensures Lawful(Step(b, input))
  {
    match input
    case Submit(r) => SubmitKeeps(b, r);
    case Poll(status) =>
      if b.queue != [] {
        if ErrorBit(status) {
          if b.queue[0].retried { CompleteKeeps(b, true); } else { RetryKeeps(b); }
        } else if !ActiveBit(status) {
          CompleteKeeps(b, false);
        }
      }
  }

  /** Whatever is submitted and whatever the drive answers. */
  lemma {:induction false} RunLawful(inputs: seq<Input>)
    ensures Lawful(Run(inputs))
  {
    if inputs != [] {
      RunLawful(inputs[..|inputs| - 1]);
      StepKeeps(Run(inputs[..|inputs| - 1]), inputs[|inputs| - 1]);
    }
  }

  // ----- what it means for one request

  /** How often a ticket was started. */
  function Attempts(tickets: seq<nat>, k: nat): nat {
    if tickets == [] then 0
    else Attempts(tickets[..|tickets| - 1], k) + (if tickets[|tickets| - 1] == k then 1 else 0)
  }

  lemma {:induction false} AttemptsAreOutcomes(tickets: seq<nat>, failed: seq<bool>, k: nat)
    requires |failed| <= |tickets| <= |failed| + 1
    ensures Attempts(tickets, k) ==
            |Outcomes(tickets, failed, k)| + (if |tickets| > |failed| && tickets[|failed|] == k then 1 else 0)
  {
    if |tickets| > |failed| {
      AttemptsAreOutcomes(tickets[..|failed|], failed, k);
      OutcomesOfMore(tickets[..|failed|], tickets, failed, k);
    } else if tickets != [] {
      var n := |tickets| - 1;
      AttemptsAreOutcomes(tickets[..n], failed[..n], k);
      OutcomesOfMore(tickets[..n], tickets, failed[..n], k);
    }
  }

  /**
   A request that was called back was started once or twice, and its callback reports an error exactly if
   there were two attempts and both failed. Only the head has been started otherwise, at most twice.
   */
  lemma EveryRequest(inputs: seq<Input>, k: nat)
    requires k < |Run(inputs).history.submitted|
    ensures var b := Run(inputs);
            var h := b.history;
            && |h.failed| <= |h.tickets|
            && Attempts(h.tickets, k) <= 2
            && (k < |h.calls| ==> h.calls[k].request == h.submitted[k] && Attempts(h.tickets, k) >= 1)
            && (k < |h.calls| ==> (h.calls[k].error <==> Outcomes(h.tickets, h.failed, k) == [true, true]))
            && (k < |h.calls| && !h.calls[k].error ==>
                  var o := Outcomes(h.tickets, h.failed, k); |o| == Attempts(h.tickets, k) && !o[|o| - 1])
            && (k == |h.calls| ==> Attempts(h.tickets, k) >= 1)
            && (k > |h.calls| ==> Attempts(h.tickets, k) == 0)
  {
    RunLawful(inputs);
    var h := Run(inputs).history;
    AttemptsAreOutcomes(h.tickets, h.failed, k);
    if k > |h.calls| {
      NoOutcomes(h.tickets, h.failed, k);
    }
  }

  // ----- everything is called back in the end

  function Answer(b: Bus, statuses: seq<nat>): Bus
    decreases |statuses|
  {
    if statuses == [] then b else Answer(Step(b, Poll(statuses[0])), statuses[1..])
  }

  /** How many more answers the queue can take at most. */
  function Debt(b: Bus): nat {
    2 * |b.queue| - (if b.queue != [] && b.queue[0].retried then 1 else 0)
  }

  predicate Ended(status: nat) {
    ErrorBit(status) || !ActiveBit(status)
  }

  lemma Pays(b: Bus, status: nat)
    requires Lawful(b) && Ended(status)
    ensures var b' := Step(b, Poll(status));
            && Lawful(b') && b'.history.submitted == b.history.submitted && b.history.calls <= b'.history.calls
            && Debt(b') <= (if Debt(b) == 0 then 0 else Debt(b) - 1)
  {
    StepKeeps(b, Poll(status));
    assert |b.queue| > 1 ==> !b.queue[1].retried;
  }

  /**
   As soon as the drive has reported the end of an operation twice for each waiting request, and once
   less if the head is being retried, all of them have been called back.
   */
  lemma {:induction false} AllCalledBack(b: Bus, statuses: seq<nat>)
    requires Lawful(b) && |statuses| >= Debt(b)
    decreases |statuses|
    requires forall i :: 0 <= i < |statuses| ==> Ended(statuses[i])
    ensures var b' := Answer(b, statuses);
            && Lawful(b') && b'.queue == [] && b'.history.submitted == b.history.submitted
            && |b'.history.calls| == |b.history.submitted| && b.history.calls <= b'.history.calls
  {
    if statuses != [] {
      Pays(b, statuses[0]);
      AllCalledBack(Step(b, Poll(statuses[0])), statuses[1..]);
    }
  }
}
