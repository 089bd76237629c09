/**
 The batcher of the relay mailbox clearing service (src/services/relay_mailbox_clearing_service.rs): it groups
 the items of a channel into batches of limited size and sends a partial batch when nothing arrives for a
 while.
 */
module Batcher {
  import opened Arithmetic

  /** What one iteration of the loop receives. */
  datatype Input<T> = Item(value: T, at: int) | TimedOut(at: int) | Closed(at: int)

  datatype Status = Running | InputClosed | OutputClosed | Panicked

  /**
   `batches` were sent at the times in `sentAt`; `dropped` is the batch whose sending failed because the
   output was closed; `received` is everything taken from the input; `last` is when the last event happened.
   */
  datatype State<T> = State(
    buffer: seq<T>, batches: seq<seq<T>>, sentAt: seq<int>, dropped: seq<T>, received: seq<T>,
    status: Status, last: int)

  function Start<T>(at: int): State<T> {
    State([], [], [], [], [], Running, at)
  }

  /** `send_batch`, with its two asserts; `accepts` tells which sends find the output open. */
  function Send<T>(s: State<T>, max: nat, accepts: nat -> bool): State<T> {
    if s.buffer == [] || |s.buffer| > max then
      s.(status := Panicked)
    else if accepts(|s.batches|) then
      s.(buffer := [], batches := s.batches + [s.buffer], sentAt := s.sentAt + [s.last])
    else
      s.(buffer := [], dropped := s.buffer, status := OutputClosed)
  }

  function Step<T>(s: State<T>, max: nat, accepts: nat -> bool, e: Input<T>): State<T> {
    if s.status != Running then
      s
    else
      match e
      case Closed(at) => s.(status := InputClosed, last := at)
      case TimedOut(at) => Send(s.(last := at), max, accepts)
      case Item(value, at) =>
        var t := s.(buffer := s.buffer + [value], received := s.received + [value], last := at);
        // The first item of a batch is not checked against the size.
        if s.buffer == [] || |t.buffer| < max then t else Send(t, max, accepts)
  }

  function Run<T>(s: State<T>, max: nat, accepts: nat -> bool, events: seq<Input<T>>): State<T>
    decreases |events|
  {
    if events == [] then s else Step(Run(s, max, accepts, events[..|events| - 1]), max, accepts, events[|events| - 1])
  }

  /**
   What can happen next: with an empty buffer the loop waits for the input without a limit; otherwise an item
   or the closing comes within the timeout, or the timeout fires. Sending takes no time.
   */
  predicate CanHappen<T>(s: State<T>, timeout: nat, e: Input<T>) {
    && s.last <= e.at
    && (e.TimedOut? ==> s.buffer != [] && e.at == s.last + timeout)
    && (s.buffer != [] ==> e.at <= s.last + timeout)
  }

  predicate IsTrace<T>(s: State<T>, max: nat, timeout: nat, accepts: nat -> bool, events: seq<Input<T>>)
    decreases |events|
  {
    events != [] ==>
      var before := events[..|events| - 1];
      && IsTrace(s, max, timeout, accepts, before)
      && CanHappen(Run(s, max, accepts, before), timeout, events[|events| - 1])
  }

  function Flatten<T>(batches: seq<seq<T>>): seq<T>
    decreases |batches|
  {
    if batches == [] then [] else Flatten(batches[..|batches| - 1]) + batches[|batches| - 1]
  }

  lemma FlattenAppend<T>(batches: seq<seq<T>>, batch: seq<T>)
    ensures Flatten(batches + [batch]) == Flatten(batches) + batch
  {
    assert (batches + [batch])[..|batches|] == batches;
  }

  /** The sizes, and nothing lost or reordered. */
  ghost predicate Batched<T>(s: State<T>, max: nat) {
    && (forall i :: 0 <= i < |s.batches| ==> 1 <= |s.batches[i]| <= max)
    && Flatten(s.batches) + s.dropped + s.buffer == s.received
    && |s.sentAt| == |s.batches|
    && |s.buffer| < max && |s.dropped| <= max
    && s.status != Panicked
    && (s.status != OutputClosed ==> s.dropped == [])
    && (s.status == OutputClosed ==> s.buffer == [])
  }

  lemma SendBatched<T>(s: State<T>, max: nat, accepts: nat -> bool)
    requires 1 <= |s.buffer| <= max && s.status == Running && s.dropped == []
    requires forall i :: 0 <= i < |s.batches| ==> 1 <= |s.batches[i]| <= max
    requires Flatten(s.batches) + s.buffer == s.received && |s.sentAt| == |s.batches|
    ensures Batched(Send(s, max, accepts), max)
  {
    FlattenAppend(s.batches, s.buffer);
    assert Flatten(s.batches) + [] == Flatten(s.batches);
  }

  lemma StepBatched<T>(s: State<T>, max: nat, timeout: nat, accepts: nat -> bool, e: Input<T>)
    requires max >= 2 && Batched(s, max) && CanHappen(s, timeout, e)
    ensures Batched(Step(s, max, accepts, e), max)
  {
    if s.status == Running {
      assert Flatten(s.batches) + [] + s.buffer == Flatten(s.batches) + s.buffer;
      match e
      case Closed(_) =>
      case TimedOut(at) => SendBatched(s.(last := at), max, accepts);
      case Item(value, at) =>
        var t := s.(buffer := s.buffer + [value], received := s.received + [value], last := at);
        assert Flatten(t.batches) + t.buffer == Flatten(s.batches) + s.buffer + [value] == t.received;
        assert Flatten(t.batches) + [] + t.buffer == Flatten(t.batches) + t.buffer;
        if |t.buffer| >= max {
          SendBatched(t, max, accepts);
        }
    }
  }

  /** The loop, over what it receives. */
  method Batch<T>(max: nat, timeout: nat, start: int, events: seq<Input<T>>, accepts: nat -> bool)
      returns (batches: seq<seq<T>>, buffer: seq<T>, ghost end: State<T>)
    requires max >= 2 && IsTrace(Start(start), max, timeout, accepts, events)
    ensures end == Run(Start(start), max, accepts, events) && Batched(end, max)
    ensures batches == end.batches && buffer == end.buffer
    // Items leave in the order in which they came, in batches of 1 to max.
    ensures forall i :: 0 <= i < |batches| ==> 1 <= |batches[i]| <= max
    ensures Flatten(batches) + end.dropped + buffer == end.received
    // Closing the input loses fewer than max items, and closing the output at most one batch.
    ensures end.status == InputClosed ==> |buffer| < max && end.dropped == []
    ensures end.status == OutputClosed ==> |end.dropped| <= max && buffer == []
    // A batch that is not full leaves only on a timeout.
    ensures FullUnlessTimedOut(Start(start), max, accepts, events)
  {
    batches, buffer := [], [];
    end := Start(start);
    var i := 0;
    while i < |events|
      invariant 0 <= i <= |events|
      invariant end == Run(Start(start), max, accepts, events[..i]) && Batched(end, max)
      invariant batches == end.batches && buffer == end.buffer && end.status == Running
    {
      TraceStep(Start(start), max, timeout, accepts, events, i);
      StepBatched(end, max, timeout, accepts, events[i]);
      var open;
      batches, buffer, open := Receive(max, timeout, batches, buffer, events[i], accepts, end);
      end := Step(end, max, accepts, events[i]);
      i := i + 1;
      if !open {
        break;
      }
    }
    RunStopped(Start(start), max, accepts, events, i);
    TraceLeavesFull(max, timeout, start, accepts, events);
  }

  /** One iteration of the loop. */
  method Receive<T>(max: nat, timeout: nat, batches: seq<seq<T>>, buffer: seq<T>, e: Input<T>, accepts: nat -> bool,
                    ghost s: State<T>)
      returns (batches': seq<seq<T>>, buffer': seq<T>, open: bool)
    requires max >= 2 && s.status == Running && batches == s.batches && buffer == s.buffer && |buffer| < max
    requires CanHappen(s, timeout, e)
    ensures var t := Step(s, max, accepts, e); batches' == t.batches && buffer' == t.buffer
    ensures open <==> Step(s, max, accepts, e).status == Running
  {
    batches', buffer', open := batches, buffer, !e.Closed?;
    if open {
      if e.Item? {
        buffer' := buffer + [e.value];
      }
      if e.TimedOut? || (buffer != [] && |buffer'| >= max) {
        batches', buffer', open := SendBatch(max, batches, buffer', accepts);
      }
    }
  }

  /** `send_batch`: the asserts are its preconditions, and a closed output loses the batch. */
  method SendBatch<T>(max: nat, batches: seq<seq<T>>, batch: seq<T>, accepts: nat -> bool)
      returns (sent: seq<seq<T>>, buffer: seq<T>, open: bool)
    requires batch != [] && |batch| <= max
    ensures buffer == [] && open == accepts(|batches|)
    ensures sent == if open then batches + [batch] else batches
  {
    open := accepts(|batches|);
    sent, buffer := if open then batches + [batch] else batches, [];
  }

  lemma TraceStep<T>(s: State<T>, max: nat, timeout: nat, accepts: nat -> bool, events: seq<Input<T>>, i: nat)
    requires IsTrace(s, max, timeout, accepts, events) && i < |events|
    ensures CanHappen(Run(s, max, accepts, events[..i]), timeout, events[i])
    ensures Run(s, max, accepts, events[..i + 1]) == Step(Run(s, max, accepts, events[..i]), max, accepts, events[i])
  {
    TracePrefix(s, max, timeout, accepts, events, i + 1);
    assert events[..i + 1][..i] == events[..i];
  }

  lemma {:induction false} TracePrefix<T>(
      s: State<T>, max: nat, timeout: nat, accepts: nat -> bool, events: seq<Input<T>>, i: nat)
    requires IsTrace(s, max, timeout, accepts, events) && i <= |events|
    ensures IsTrace(s, max, timeout, accepts, events[..i])
    decreases |events|
  {
    if i < |events| {
      TracePrefix(s, max, timeout, accepts, events[..|events| - 1], i);
      assert events[..|events| - 1][..i] == events[..i];
    } else {
      assert events[..i] == events;
    }
  }

  lemma {:induction false} RunStopped<T>(s: State<T>, max: nat, accepts: nat -> bool, events: seq<Input<T>>, i: nat)
    requires i <= |events| && (i < |events| ==> Run(s, max, accepts, events[..i]).status != Running)
    ensures Run(s, max, accepts, events) == Run(s, max, accepts, events[..i])
    decreases |events|
  {
    if i < |events| {
      assert events[..|events| - 1][..i] == events[..i];
      RunStopped(s, max, accepts, events[..|events| - 1], i);
    } else {
      assert events[..i] == events;
    }
  }

  // ----- Which batches are not full -----

  /** Everything that has left the buffer, the batch included that was lost because the output was closed. */
  function Output<T>(s: State<T>): seq<seq<T>> {
    if s.dropped == [] then s.batches else s.batches + [s.dropped]
  }

  /** The event with this index makes nothing leave, or one batch, which is full unless the event is a timeout. */
  ghost predicate LeavesFull<T>(s: State<T>, max: nat, accepts: nat -> bool, events: seq<Input<T>>, j: nat)
    requires j < |events|
  {
    var before, after := Run(s, max, accepts, events[..j]), Run(s, max, accepts, events[..j + 1]);
    Output(after) == Output(before) || OneMore(Output(before), Output(after), max, events[j].TimedOut?)
  }

  ghost predicate FullUnlessTimedOut<T>(s: State<T>, max: nat, accepts: nat -> bool, events: seq<Input<T>>) {
    forall j :: 0 <= j < |events| ==> LeavesFull(s, max, accepts, events, j)
  }

  ghost predicate OneMore<T>(before: seq<seq<T>>, after: seq<seq<T>>, max: nat, timedOut: bool) {
    && |after| == |before| + 1 && after[..|before|] == before
    && after[|before|] != [] && (timedOut || |after[|before|]| == max)
  }

  lemma SendLeaves<T>(s: State<T>, max: nat, accepts: nat -> bool)
    requires s.buffer != [] && |s.buffer| <= max && s.dropped == []
    ensures Output(Send(s, max, accepts)) == Output(s) + [s.buffer]
  {
  }

  lemma StepLeavesFull<T>(s: State<T>, max: nat, timeout: nat, accepts: nat -> bool, e: Input<T>)
    requires max >= 2 && Batched(s, max) && CanHappen(s, timeout, e)
    ensures
      var after := Step(s, max, accepts, e);
      Output(after) == Output(s) || OneMore(Output(s), Output(after), max, e.TimedOut?)
  {
    if s.status == Running {
      match e
      case Closed(_) =>
      case TimedOut(at) => SendLeaves(s.(last := at), max, accepts);
      case Item(value, at) =>
        var t := s.(buffer := s.buffer + [value], received := s.received + [value], last := at);
        if s.buffer != [] && |t.buffer| >= max {
          SendLeaves(t, max, accepts);
        }
    }
  }

  /** On every trace a batch that is not full leaves only on a timeout. */
  lemma TraceLeavesFull<T>(max: nat, timeout: nat, start: int, accepts: nat -> bool, events: seq<Input<T>>)
    requires max >= 2 && IsTrace(Start(start), max, timeout, accepts, events)
    ensures FullUnlessTimedOut(Start(start), max, accepts, events)
  {
    forall j | 0 <= j < |events| ensures LeavesFull(Start(start), max, accepts, events, j) {
      TraceStep(Start(start), max, timeout, accepts, events, j);
      TracePrefix(Start(start), max, timeout, accepts, events, j);
      RunBatched(max, timeout, start, accepts, events[..j]);
      StepLeavesFull(Run(Start(start), max, accepts, events[..j]), max, timeout, accepts, events[j]);
    }
  }

  function Values<T>(events: seq<Input<T>>): seq<T>
    requires forall i :: 0 <= i < |events| ==> events[i].Item?
  {
    seq(|events|, i requires 0 <= i < |events| => events[i].value)
  }

  /** The batches are the items cut into pieces of `max`, and the buffer is what is left over. */
  ghost predicate InPieces<T>(s: State<T>, values: seq<T>, max: nat) {
    && s.status == Running && s.dropped == [] && |s.buffer| < max
    && |s.batches| * max + |s.buffer| == |values|
    && s.buffer == values[|values| - |s.buffer|..]
    && forall k :: 0 <= k < |s.batches| ==> IsPiece(s.batches[k], values, k * max, max)
  }

  ghost predicate IsPiece<T>(piece: seq<T>, values: seq<T>, from: int, max: nat) {
    0 <= from <= from + max <= |values| && piece == values[from..from + max]
  }

  lemma StepInPieces<T>(s: State<T>, values: seq<T>, max: nat, accepts: nat -> bool, value: T, at: int)
    requires max >= 2 && InPieces(s, values, max) && forall k: nat :: accepts(k)
    ensures InPieces(Step(s, max, accepts, Item(value, at)), values + [value], max)
  {
    var longer, n := values + [value], |s.batches|;
    forall k | 0 <= k < n ensures IsPiece(s.batches[k], longer, k * max, max) {
      assert IsPiece(s.batches[k], values, k * max, max);
      assert longer[k * max..k * max + max] == values[k * max..k * max + max];
    }
    assert longer[|values| - |s.buffer|..] == s.buffer + [value];
    if |s.buffer| + 1 == max {
      assert |values| - |s.buffer| == n * max && (n + 1) * max == n * max + max;
      assert IsPiece(s.buffer + [value], longer, n * max, max);
    }
  }

  lemma {:induction false} RunInPieces<T>(max: nat, start: int, accepts: nat -> bool, events: seq<Input<T>>)
    requires max >= 2 && (forall k: nat :: accepts(k)) && forall i :: 0 <= i < |events| ==> events[i].Item?
    ensures InPieces(Run(Start(start), max, accepts, events), Values(events), max)
    decreases |events|
  {
    if events == [] {
      assert InPieces(Start<T>(start), [], max);
    } else {
      var before, e := events[..|events| - 1], events[|events| - 1];
      RunInPieces(max, start, accepts, before);
      StepInPieces(Run(Start(start), max, accepts, before), Values(before), max, accepts, e.value, e.at);
      assert Values(events) == Values(before) + [e.value];
    }
  }

  lemma CountPieces(n: nat, pieces: nat, rest: nat, max: nat)
    requires pieces * max + rest == n && rest < max
    ensures n / max == pieces && n % max == rest
  {
    DivUnique(n, max, pieces);
  }

  /**
   Of n items, without a timeout or a closing, n / max full batches are sent, which are the items in order, and the
   rest waits.
   */
  lemma FullBatches<T>(max: nat, start: int, accepts: nat -> bool, events: seq<Input<T>>)
    requires max >= 2 && (forall k: nat :: accepts(k)) && forall i :: 0 <= i < |events| ==> events[i].Item?
    ensures
      var s := Run(Start(start), max, accepts, events);
      && InPieces(s, Values(events), max)
      && |s.batches| == |events| / max && |s.buffer| == |events| % max
  {
    RunInPieces(max, start, accepts, events);
    var s := Run(Start(start), max, accepts, events);
    CountPieces(|events|, |s.batches|, |s.buffer|, max);
  }

  // ----- The asserts -----

  lemma {:induction false} RunBatched<T>(max: nat, timeout: nat, start: int, accepts: nat -> bool,
                                         events: seq<Input<T>>)
    requires max >= 2 && IsTrace(Start(start), max, timeout, accepts, events)
    ensures Batched(Run(Start(start), max, accepts, events), max)
    decreases |events|
  {
    if events != [] {
      var before := events[..|events| - 1];
      RunBatched(max, timeout, start, accepts, before);
      StepBatched(Run(Start(start), max, accepts, before), max, timeout, accepts, events[|events| - 1]);
    }
  }

  /** The asserts of `send_batch` hold on every trace exactly when the maximum is at least two. */
  lemma AssertsHoldExactly(max: nat, timeout: nat)
    ensures max >= 2 <==>
      forall accepts: nat -> bool, events: seq<Input<int>> :: IsTrace(Start(0), max, timeout, accepts, events) ==>
        Run(Start(0), max, accepts, events).status != Panicked
  {
    if max >= 2 {
      forall accepts: nat -> bool, events: seq<Input<int>> | IsTrace(Start(0), max, timeout, accepts, events)
        ensures Run(Start(0), max, accepts, events).status != Panicked
      {
        RunBatched(max, timeout, 0, accepts, events);
      }
    } else {
      var open := (k: nat) => true;
      SmallMaximumPanics(max, timeout, open);
    }
  }

  lemma SmallMaximumPanics(max: nat, timeout: nat, accepts: nat -> bool)
    requires max < 2
    ensures exists events: seq<Input<int>> ::
      && IsTrace(Start(0), max, timeout, accepts, events)
      && Run(Start(0), max, accepts, events).status == Panicked
  {
    var first: Input<int> := Item(1, 0);
    var second: Input<int> := if max == 0 then TimedOut(timeout) else Item(2, 0);
    var one, two := [first], [first, second];
    assert one[..0] == [] && two[..1] == one;
    assert Run(Start(0), max, accepts, one) == State([1], [], [], [], [1], Running, 0);
    assert IsTrace(Start(0), max, timeout, accepts, one);
    assert IsTrace(Start(0), max, timeout, accepts, two);
    assert Run(Start(0), max, accepts, two).status == Panicked;
  }

  // ----- How long an item waits -----

  /** Every item is its own arrival time. */
  predicate SelfTimed(events: seq<Input<int>>) {
    forall i :: 0 <= i < |events| && events[i].Item? ==> events[i].value == events[i].at
  }

  /** An item that has seen k later ones arrive has waited at most k timeouts, and none longer before it was sent. */
  ghost predicate Prompt(s: State<int>, max: nat, timeout: nat) {
    && (forall i :: 0 <= i < |s.buffer| ==> s.last - s.buffer[i] <= (|s.buffer| - 1 - i) * timeout)
    && |s.sentAt| == |s.batches|
    && (forall k, i :: 0 <= k < |s.batches| && 0 <= i < |s.batches[k]| ==>
          s.sentAt[k] - s.batches[k][i] <= (max - 1) * timeout)
  }

  lemma SendPrompt(s: State<int>, max: nat, timeout: nat, accepts: nat -> bool, waited: nat)
    requires Prompt(s.(buffer := []), max, timeout) && waited <= max - 1
    requires forall i :: 0 <= i < |s.buffer| ==> s.last - s.buffer[i] <= waited * timeout
    requires s.buffer != [] && |s.buffer| <= max
    ensures Prompt(Send(s, max, accepts), max, timeout)
  {
    MulStep(waited, max - 1, timeout);
  }

  lemma ItemPrompt(s: State<int>, max: nat, timeout: nat, at: int)
    requires Prompt(s, max, timeout) && s.last <= at && (s.buffer != [] ==> at <= s.last + timeout)
    ensures
      var buffer := s.buffer + [at];
      forall i :: 0 <= i < |buffer| ==> at - buffer[i] <= (|buffer| - 1 - i) * timeout
  {
    forall i | 0 <= i < |s.buffer|
      ensures at - s.buffer[i] <= (|s.buffer| - i) * timeout
    {
      assert (|s.buffer| - i) * timeout == (|s.buffer| - 1 - i) * timeout + timeout;
    }
  }

  lemma StepPrompt(s: State<int>, max: nat, timeout: nat, accepts: nat -> bool, e: Input<int>)
    requires max >= 2 && Batched(s, max) && Prompt(s, max, timeout) && CanHappen(s, timeout, e)
    requires e.Item? ==> e.value == e.at
    requires s.status == Running && !e.Closed?
    ensures Prompt(Step(s, max, accepts, e), max, timeout)
  {
    ItemPrompt(s, max, timeout, e.at);
    var n := |s.buffer|;
    var grown := s.buffer + [e.at];
    match e
    case TimedOut(at) =>
      forall i | 0 <= i < n ensures at - s.buffer[i] <= n * timeout {
        assert grown[i] == s.buffer[i];
        MulStep(n - i, n, timeout);
      }
      SendPrompt(s.(last := at), max, timeout, accepts, n);
    case Item(value, at) =>
      if n > 0 && n + 1 >= max {
        forall i | 0 <= i < n + 1 ensures at - grown[i] <= n * timeout {
          MulStep(n - i, n, timeout);
        }
        SendPrompt(s.(buffer := grown, received := s.received + [value], last := at), max, timeout, accepts, n);
      }
  }

  /**
   While the input stays open no item waits longer than (max - 1) timeouts: every batch leaves within that time
   of each arrival in it, and what is still buffered has not waited as long.
   */
  lemma {:induction false} NoItemWaitsLong(
      max: nat, timeout: nat, start: int, accepts: nat -> bool, events: seq<Input<int>>)
    requires max >= 2 && IsTrace(Start(start), max, timeout, accepts, events) && SelfTimed(events)
    requires forall i :: 0 <= i < |events| ==> !events[i].Closed?
    ensures
      var s := Run(Start(start), max, accepts, events);
      && Prompt(s, max, timeout)
      && (forall k, i :: 0 <= k < |s.batches| && 0 <= i < |s.batches[k]| ==>
            s.sentAt[k] - s.batches[k][i] <= (max - 1) * timeout)
      && (forall i :: 0 <= i < |s.buffer| ==> s.last + timeout - s.buffer[i] <= (max - 1) * timeout)
    decreases |events|
  {
    if events != [] {
      var before := events[..|events| - 1];
      NoItemWaitsLong(max, timeout, start, accepts, before);
      RunBatched(max, timeout, start, accepts, before);
      var s := Run(Start(start), max, accepts, before);
      if s.status == Running {
        StepPrompt(s, max, timeout, accepts, events[|events| - 1]);
      }
    }
    RunBatched(max, timeout, start, accepts, events);
    BufferedIsPrompt(Run(Start(start), max, accepts, events), max, timeout);
  }

  lemma BufferedIsPrompt(s: State<int>, max: nat, timeout: nat)
    requires Prompt(s, max, timeout) && |s.buffer| < max
    ensures forall i :: 0 <= i < |s.buffer| ==> s.last + timeout - s.buffer[i] <= (max - 1) * timeout
  {
    forall i | 0 <= i < |s.buffer|
      ensures s.last + timeout - s.buffer[i] <= (max - 1) * timeout
    {
      assert (|s.buffer| - i) * timeout == (|s.buffer| - 1 - i) * timeout + timeout;
      MulStep(|s.buffer| - i, max - 1, timeout);
    }
  }
}
