/**
 Histories of one DMA engine: what was written and submitted, what was read back from the device, what
 settled a transfer and what released the buffers.
 */
module DmaTraces {
  import opened Outcomes

  datatype Channel = Send | Recv

  datatype Event =
    | WriteTx(contents: seq<int>)                             // the transfer buffer now holds these bytes
    | NotBusy                                                 // neither engine was seen busy
    | Routed(route: nat)                                      // the route register was written and read back
    | Start(route: nat, parameters: seq<int>, tag: int)       // descriptor, tag and start bit were written
    | Accepted(route: nat)                                    // the error register was read back clear
    | Submit(c: Channel, words: nat)                          // a transfer is handed to a channel
    | Idle(c: Channel)                                        // that channel was seen idle and waited for
    | Transferred(sent: int, received: int)                   // the byte counts of both channels were read
    | Completed(route: nat, error: bool, tag: int, count: int) // the completion registers were read
    | Reset                                                   // the DMA reset bit was seen cleared again
    | ClearEngine(engine: nat)
    | Running(c: Channel)                                     // the channel was restarted and seen running
    | Checked                                                 // the capability registers were read back correctly
    | Fail                                                    // failed := True
    | Ready                                                   // failed := False
    | Free                                                    // both buffers are released
    | Retain                                                  // both buffers are put on the retained list
    | Denied(expected: Event)                                 // the device did not show what was waited for

  /**
   What a history leaves behind: on which channels a submitted transfer may still be in progress, the
   failed flag, whether the buffers are released, the last bytes written to the transfer buffer, and how
   many packets were handed to the send channel.
   */
  datatype State = State(sending: bool, receiving: bool, failed: bool, freed: bool,
                         written: Option<seq<int>>, sent: nat) {
    predicate Quiet() {
      !sending && !receiving
    }

    /** No transfer is active, nothing has failed and the buffers are owned. */
    predicate Usable() {
      Quiet() && !failed && !freed
    }

    function Buffer(start: seq<int>): seq<int> {
      if written.Some? then written.value else start
    }

    predicate Active(c: Channel) {
      if c == Send then sending else receiving
    }

    function Next(e: Event): State {
      match e
      case WriteTx(contents) => this.(written := Some(contents))
      case Submit(Send, _) => this.(sending := true, sent := sent + 1)
      case Submit(Recv, _) => this.(receiving := true)
      case Idle(Send) => this.(sending := false)
      case Idle(Recv) => this.(receiving := false)
      case Reset => this.(sending := false, receiving := false)
      case Fail => this.(failed := true)
      case Ready => this.(failed := false)
      case Free => this.(freed := true)
      case _ => this
    }
  }

  function After(trace: seq<Event>): State {
    if trace == [] then State(false, false, false, false, None, 0)
    else After(trace[..|trace| - 1]).Next(trace[|trace| - 1])
  }

  const RECOVERY := [Reset, ClearEngine(0), ClearEngine(1), Running(Send), Running(Recv), Checked]

  /** What may happen after a given history. */
  ghost predicate Allowed(before: seq<Event>, e: Event) {
    match e
    case WriteTx(_) => After(before).Usable()
    case Start(_, _, _) => After(before).Usable()
    case Submit(_, _) => !After(before).failed && !After(before).freed
    case Free => After(before).Quiet() && !After(before).freed
    case Ready => |before| >= 6 && before[|before| - 6..] == RECOVERY
    case _ => true
  }

  ghost predicate Safe(trace: seq<Event>) {
    forall i {:trigger Allowed(trace[..i], trace[i])} :: 0 <= i < |trace| ==> Allowed(trace[..i], trace[i])
  }

  /** Behind the first history, the device denied something the driver was entitled to. */
  ghost predicate DeniedIn(before: seq<Event>, after: seq<Event>) {
    exists k :: |before| <= k < |after| && after[k].Denied?
  }

  lemma DeniedLast(before: seq<Event>, middle: seq<Event>, e: Event)
    requires |before| <= |middle|
    ensures DeniedIn(before, middle + [Denied(e)])
  {
    assert (middle + [Denied(e)])[|middle|] == Denied(e);
  }

  lemma DeniedStays(before: seq<Event>, from: seq<Event>, to: seq<Event>, after: seq<Event>)
    requires |before| <= |from| && to <= after && DeniedIn(from, to)
    ensures DeniedIn(before, after)
  {
    var k :| |from| <= k < |to| && to[k].Denied?;
    assert after[k] == to[k];
  }

  // ----- one event more --------------------------------------------------------------------

  lemma SafeStep(trace: seq<Event>, e: Event)
    requires Safe(trace) && Allowed(trace, e)
    ensures Safe(trace + [e])
  {
    var longer := trace + [e];
    forall i | 0 <= i < |longer|
      ensures Allowed(longer[..i], longer[i])
    {
      if i < |trace| {
        assert longer[..i] == trace[..i];
      } else {
        assert longer[..i] == trace;
      }
    }
  }

  lemma SafePrefix(trace: seq<Event>, n: nat)
    requires Safe(trace) && n <= |trace|
    ensures Safe(trace[..n])
  {
    forall i | 0 <= i < n
      ensures Allowed(trace[..n][..i], trace[..n][i])
    {
      assert trace[..n][..i] == trace[..i];
      assert Allowed(trace[..i], trace[i]);
    }
  }

  lemma StateStep(trace: seq<Event>, e: Event)
    ensures After(trace + [e]) == After(trace).Next(e)
  {
    assert (trace + [e])[..|trace + [e]| - 1] == trace;
  }

  // ----- what a safe history means ---------------------------------------------------------

  /** A submitted transfer that is no longer active was seen idle, or the DMA was reset, in between. */
  lemma {:induction false} Settled(trace: seq<Event>, j: nat)
    requires j < |trace| && trace[j].Submit? && !After(trace).Active(trace[j].c)
    ensures exists k :: j < k < |trace| && (trace[k] == Idle(trace[j].c) || trace[k] == Reset)
  {
    var n, c := |trace| - 1, trace[j].c;
    if trace[n] == Idle(c) || trace[n] == Reset {
      assert j < n;
    } else {
      assert trace[..n][j] == trace[j];
      Settled(trace[..n], j);
      var k :| j < k < n && (trace[..n][k] == Idle(c) || trace[..n][k] == Reset);
      assert trace[k] == trace[..n][k];
    }
  }

  /**
   The safety property in plain terms: whenever the transfer buffer is overwritten, a request is started
   or the buffers are freed, every transfer submitted before was settled in between.
   */
  lemma SafeMeansSettled(trace: seq<Event>, i: nat, j: nat)
    requires Safe(trace) && j < i < |trace| && trace[j].Submit?
    requires trace[i].WriteTx? || trace[i].Start? || trace[i] == Free
    ensures exists k :: j < k < i && (trace[k] == Idle(trace[j].c) || trace[k] == Reset)
  {
    var before := trace[..i];
    assert Allowed(before, trace[i]);
    assert before[j] == trace[j];
    assert !After(before).Active(trace[j].c);
    Settled(before, j);
    var k :| j < k < |before| && (before[k] == Idle(trace[j].c) || before[k] == Reset);
    assert trace[k] == before[k];
  }

  /** The buffer was rewritten at k, and at that moment it was usable. */
  ghost predicate RewrittenAt(trace: seq<Event>, k: nat) {
    k < |trace| && trace[k].WriteTx? && After(trace[..k]).Usable()
  }

  /** The contents of the buffer only change by writes to a usable buffer. */
  lemma {:induction false} ChangeIsRewrite(before: seq<Event>, trace: seq<Event>)
    requires Safe(trace) && before <= trace && After(before).written != After(trace).written
    ensures exists k :: |before| <= k < |trace| && RewrittenAt(trace, k)
    decreases |trace|
  {
    var n := |trace| - 1;
    assert before != trace;
    if trace[n].WriteTx? {
      assert Allowed(trace[..n], trace[n]);
      assert RewrittenAt(trace, n);
    } else {
      SafePrefix(trace, n);
      ChangeIsRewrite(before, trace[..n]);
      var k :| |before| <= k < n && RewrittenAt(trace[..n], k);
      assert trace[..n][..k] == trace[..k];
      assert RewrittenAt(trace, k);
    }
  }

  lemma NothingAfterFree(trace: seq<Event>, i: nat, j: nat)
    requires Safe(trace) && j < i < |trace| && trace[j] == Free
    ensures !trace[i].WriteTx? && !trace[i].Start? && !trace[i].Submit? && trace[i] != Free
  {
    FreedByEvent(trace[..i]);
    assert trace[..i][j] == Free;
    assert Allowed(trace[..i], trace[i]);
  }

  lemma {:induction false} FreedByEvent(trace: seq<Event>)
    ensures After(trace).freed <==> Free in trace
  {
    if trace != [] {
      var n := |trace| - 1;
      FreedByEvent(trace[..n]);
      assert trace == trace[..n] + [trace[n]];
    }
  }

  /** The flag was cleared at k, directly behind the whole recovery sequence. */
  ghost predicate RecoveredAt(trace: seq<Event>, k: nat) {
    6 <= k < |trace| && trace[k] == Ready && trace[k - 6..k] == RECOVERY
  }

  lemma RecoveredInPrefix(trace: seq<Event>, n: nat, k: nat)
    requires n <= |trace| && RecoveredAt(trace[..n], k)
    ensures RecoveredAt(trace, k)
  {
    assert trace[..n][k - 6..k] == trace[k - 6..k];
  }

  lemma ReadyNeedsRecovery(trace: seq<Event>, i: nat)
    requires Safe(trace) && i < |trace| && trace[i] == Ready
    ensures RecoveredAt(trace, i)
  {
    assert Allowed(trace[..i], trace[i]);
    assert trace[..i][i - 6..] == trace[i - 6..i];
  }

  /** A failed flag that is clear later was cleared in between, behind a whole recovery sequence. */
  lemma {:induction false} ClearedByRecovery(before: seq<Event>, trace: seq<Event>)
    requires Safe(trace) && before <= trace && After(before).failed && !After(trace).failed
    ensures exists k :: |before| <= k < |trace| && RecoveredAt(trace, k)
    decreases |trace|
  {
    var n := |trace| - 1;
    assert before != trace;
    if trace[n] == Ready {
      ReadyNeedsRecovery(trace, n);
    } else {
      SafePrefix(trace, n);
      ClearedByRecovery(before, trace[..n]);
      var k :| |before| <= k < n && RecoveredAt(trace[..n], k);
      RecoveredInPrefix(trace, n, k);
    }
  }

  lemma RecoveryHasNoFailure(trace: seq<Event>, k: nat)
    requires RecoveredAt(trace, k)
    ensures forall e :: k - 6 <= e < k ==> trace[e] != Fail
  {
    forall e | k - 6 <= e < k
      ensures trace[e] != Fail
    {
      assert trace[e] == trace[k - 6..k][e - (k - 6)];
    }
  }

  /**
   After a failure no request is started, nothing is submitted and the transfer buffer is not rewritten
   before a whole recovery sequence, begun after the failure, has cleared the flag.
   */
  lemma FailureBlocks(trace: seq<Event>, i: nat, j: nat)
    requires Safe(trace) && j < i < |trace| && trace[j] == Fail
    requires trace[i].WriteTx? || trace[i].Start? || trace[i].Submit?
    ensures exists k :: j + 6 < k < i && RecoveredAt(trace, k)
  {
    var before, history := trace[..j + 1], trace[..i];
    assert Allowed(history, trace[i]);
    SafePrefix(trace, i);
    assert before[..|before| - 1] == trace[..j];
    ClearedByRecovery(before, history);
    var k :| |before| <= k < i && RecoveredAt(history, k);
    RecoveredInPrefix(trace, i, k);
    RecoveryHasNoFailure(trace, k);
  }
}
