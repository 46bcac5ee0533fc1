/** Sending a signed transaction and waiting for its receipt, with retries.
    The node is an oracle: `send(i)` is what the i-th raw-transaction send
    returns, `wait(j)` what the j-th receipt wait returns. Every call the
    sender makes (sends, waits, sleeps) is recorded in a trace. */
module TxSubmit {
  import opened PyValue

  type Bytes = seq<bv8>

  /** The exceptions the sender tells apart. */
  datatype TxError =
    | TimeExhausted
    | ValueError(msg: string)
    | OtherError(msg: string)

  datatype SendOutcome = Sent(hash: string) | SendFailed(sendErr: TxError)
  datatype WaitOutcome = Mined(receipt: string) | WaitFailed(waitErr: TxError)

  datatype Network = Network(send: nat -> SendOutcome, wait: nat -> WaitOutcome)

  datatype Call =
    | SendRaw(raw: Bytes)
    | WaitReceipt(hash: string, timeout: real)
    | Sleep(seconds: real)

  datatype SendFailure =
    | MissingRawBytes
    | InsufficientFunds(cause: TxError)
    | Exhausted(attempts: int, last: Option<TxError>)

  /** How the handler treats a failed attempt. */
  datatype Handling =
    | RecordAndRetry      // remember the error, sleep, try again
    | AlreadyKnown        // the node has seen it: wait on the last hash
    | Abort               // re-raise

  /** A message saying "already known" also says "known". */
  lemma AlreadyKnownIsKnown(msg: string)
    requires Contains(msg, "already known")
    ensures Contains(msg, "known")
  {
    assert OccursAt("already known", "known", 8);
    ContainsAt("already known", "known", 8);
    ContainsTransitive(msg, "already known", "known");
  }

  /** The pricing and nonce complaints the handler records and retries. */
  predicate Underpriced(msg: string) {
    || Contains(msg, "nonce too low")
    || Contains(msg, "replacement transaction underpriced")
    || Contains(msg, "transaction underpriced")
  }

  /** The error the handler re-raises: an insufficient-funds ValueError that
      none of the earlier tests claims. */
  predicate Fatal(e: TxError) {
    e.ValueError? && Contains(e.msg, "insufficient funds") && !Contains(e.msg, "known") && !Underpriced(e.msg)
  }

  /** The handler's order of tests on an error message. */
  function Classify(e: TxError): (h: Handling)
    ensures h == Abort <==> Fatal(e)
    ensures h == AlreadyKnown <==> e.ValueError? && Contains(e.msg, "known")
    ensures h == RecordAndRetry <==> !Fatal(e) && !(e.ValueError? && Contains(e.msg, "known"))
  {
    match e
    case TimeExhausted => RecordAndRetry
    case OtherError(_) => RecordAndRetry
    case ValueError(msg) =>
      assert Contains(msg, "already known") ==> Contains(msg, "known") by {
        if Contains(msg, "already known") {
          AlreadyKnownIsKnown(msg);
        }
      }
      if Contains(msg, "already known") || Contains(msg, "known") then AlreadyKnown
      else if Underpriced(msg) then RecordAndRetry
      else if Contains(msg, "insufficient funds") then Abort
      else RecordAndRetry
  }

  /** What is left of the sender's state between attempts. */
  datatype Carry = Carry(waits: nat, lastError: Option<TxError>, txHash: string)

  datatype Step =
    | Returned(receipt: string)
    | Raised(failure: SendFailure)
    | Retry(carry: Carry)

  /** The handler for error `e` of an attempt, with `hash` the last hash
      the node returned ("" when none yet). */
  function Handle(net: Network, timeout: real, e: TxError, c: Carry): (r: (Step, seq<Call>))
    ensures Classify(e) == RecordAndRetry ==> r == (Retry(c.(lastError := Some(e))), [])
    ensures Classify(e) == Abort ==> r == (Raised(InsufficientFunds(e)), [])
    ensures Classify(e) == AlreadyKnown && c.txHash == "" ==> r == (Retry(c), [])
    ensures Classify(e) == AlreadyKnown && c.txHash != "" ==>
              && r.1 == [WaitReceipt(c.txHash, timeout)]
              && (net.wait(c.waits).Mined? ==> r.0 == Returned(net.wait(c.waits).receipt))
              && (net.wait(c.waits).WaitFailed? ==>
                    r.0 == Retry(Carry(c.waits + 1, Some(net.wait(c.waits).waitErr), c.txHash)))
  {
    match Classify(e)
    case RecordAndRetry => (Retry(c.(lastError := Some(e))), [])
    case Abort => (Raised(InsufficientFunds(e)), [])
    case AlreadyKnown =>
      if c.txHash == "" then (Retry(c), [])
      else
        var call := [WaitReceipt(c.txHash, timeout)];
        match net.wait(c.waits)
        case Mined(rc) => (Returned(rc), call)
        case WaitFailed(e2) => (Retry(Carry(c.waits + 1, Some(e2), c.txHash)), call)
  }

  /** One pass of the loop body: send, wait, or handle the error. */
  function Attempt(raw: Bytes, net: Network, timeout: real, attempt: nat, c: Carry): (Step, seq<Call>)
  {
    match net.send(attempt)
    case SendFailed(e) =>
      var h := Handle(net, timeout, e, c);
      (h.0, [SendRaw(raw)] + h.1)
    case Sent(hash) =>
      var calls := [SendRaw(raw), WaitReceipt(hash, timeout)];
      match net.wait(c.waits)
      case Mined(rc) => (Returned(rc), calls)
      case WaitFailed(e) =>
        var h := Handle(net, timeout, e, Carry(c.waits + 1, c.lastError, hash));
        (h.0, calls + h.1)
  }

  /** After the last attempt: one more wait on the last hash, if any. */
  function Final(net: Network, poll: real, maxRetries: int, c: Carry): (Result<string, SendFailure>, seq<Call>)
  {
    var failed := Err(Exhausted(maxRetries, c.lastError));
    if c.txHash == "" then (failed, [])
    else
      var call := [WaitReceipt(c.txHash, poll * maxRetries as real)];
      match net.wait(c.waits)
      case Mined(rc) => (Ok(rc), call)
      case WaitFailed(_) => (failed, call)
  }

  /** The pause after the k-th failed attempt. */
  function Backoff(poll: real, k: nat): (s: real)
    ensures poll >= 0.0 ==> s >= 0.0
  {
    poll * k as real
  }

  /** The retry loop from attempt number `attempt` on; after the k-th failed
      attempt the sender sleeps `poll * k` seconds. */
  function Loop(raw: Bytes, net: Network, timeout: real, poll: real, maxRetries: int, attempt: nat, c: Carry)
    : (Result<string, SendFailure>, seq<Call>)
    decreases maxRetries - attempt
  {
    if attempt >= maxRetries then Final(net, poll, maxRetries, c)
    else
      var step := Attempt(raw, net, timeout, attempt, c);
      match step.0
      case Returned(rc) => (Ok(rc), step.1)
      case Raised(f) => (Err(f), step.1)
      case Retry(c') =>
        var rest := Loop(raw, net, timeout, poll, maxRetries, attempt + 1, c');
        (rest.0, step.1 + [Sleep(Backoff(poll, attempt + 1))] + rest.1)
  }

  /** The whole exchange, from the signed transaction's raw bytes. */
  function Exchange(raw: Option<Bytes>, net: Network, timeout: real, poll: real, maxRetries: int)
    : (Result<string, SendFailure>, seq<Call>)
  {
    if raw.None? || raw.value == [] then (Err(MissingRawBytes), [])
    else Loop(raw.value, net, timeout, poll, maxRetries, 0, Carry(0, None, ""))
  }

  /** One failed attempt followed by the rest of the loop: the loop's
      outcome and trace carry over to the next attempt. */
  lemma LoopRetry(raw: Bytes, net: Network, timeout: real, poll: real, maxRetries: int, attempt: nat, c: Carry,
                  next: Carry, stepCalls: seq<Call>, before: seq<Call>, total: (Result<string, SendFailure>, seq<Call>))
    requires attempt < maxRetries
    requires Attempt(raw, net, timeout, attempt, c) == (Retry(next), stepCalls)
    requires var rest := Loop(raw, net, timeout, poll, maxRetries, attempt, c);
             total == (rest.0, before + rest.1)
    ensures var later := Loop(raw, net, timeout, poll, maxRetries, attempt + 1, next);
            total == (later.0, before + stepCalls + [Sleep(Backoff(poll, attempt + 1))] + later.1)
  {
    var later := Loop(raw, net, timeout, poll, maxRetries, attempt + 1, next);
    var sleep := [Sleep(Backoff(poll, attempt + 1))];
    assert Loop(raw, net, timeout, poll, maxRetries, attempt, c).1 == stepCalls + sleep + later.1;
    assert before + (stepCalls + sleep + later.1) == before + stepCalls + sleep + later.1;
  }

  /** Once the attempts are used up, the loop is the final wait. */
  lemma LoopDone(raw: Bytes, net: Network, timeout: real, poll: real, maxRetries: int, attempt: nat, c: Carry,
                 before: seq<Call>)
    requires attempt >= maxRetries
    ensures var rest := Loop(raw, net, timeout, poll, maxRetries, attempt, c);
            var last := Final(net, poll, maxRetries, c);
            rest.0 == last.0 && before + rest.1 == before + last.1
            && (c.txHash == "" ==> before + last.1 == before)
            && (c.txHash != "" ==> before + last.1 == before + [WaitReceipt(c.txHash, poll * maxRetries as real)])
  {
  }

  /** The except-clauses of one attempt. */
  method HandleError(net: Network, timeout: real, err: TxError, c: Carry) returns (step: Step, calls: seq<Call>)
    ensures (step, calls) == Handle(net, timeout, err, c)
  {
    calls := [];
    match Classify(err) {
      case RecordAndRetry =>
        step := Retry(c.(lastError := Some(err)));
      case Abort =>
        step := Raised(InsufficientFunds(err));
      case AlreadyKnown =>
        step := Retry(c);
        if c.txHash != "" {
          var got := net.wait(c.waits);
          calls := [WaitReceipt(c.txHash, timeout)];
          if got.Mined? {
            step := Returned(got.receipt);
          } else {
            step := Retry(Carry(c.waits + 1, Some(got.waitErr), c.txHash));
          }
        }
    }
  }

  /** The try-block of one attempt: send the raw bytes, then wait for the receipt. */
  method TryOnce(raw: Bytes, net: Network, timeout: real, attempt: nat, c: Carry) returns (step: Step, calls: seq<Call>)
    ensures (step, calls) == Attempt(raw, net, timeout, attempt, c)
  {
    calls := [SendRaw(raw)];
    var sent := net.send(attempt);
    match sent {
      case Sent(hash) =>
        var got := net.wait(c.waits);
        calls := calls + [WaitReceipt(hash, timeout)];
        assert calls == [SendRaw(raw), WaitReceipt(hash, timeout)];
        if got.Mined? {
          return Returned(got.receipt), calls;
        }
        var handled;
        step, handled := HandleError(net, timeout, got.waitErr, Carry(c.waits + 1, c.lastError, hash));
        calls := calls + handled;
      case SendFailed(e) =>
        var handled;
        step, handled := HandleError(net, timeout, e, c);
        calls := calls + handled;
    }
  }

  /** send_signed_transaction_with_receipt */
  method SendSignedTransactionWithReceipt(raw: Option<Bytes>, net: Network, timeout: real, poll: real,
                                          maxRetries: int)
    returns (r: Result<string, SendFailure>, calls: seq<Call>)
    ensures (r, calls) == Exchange(raw, net, timeout, poll, maxRetries)
  {
    if raw.None? || raw.value == [] {
      return Err(MissingRawBytes), [];
    }
    var bytes := raw.value;
    var attempt: nat := 0;
    var c := Carry(0, None, "");
    calls := [];
    ghost var total := Loop(bytes, net, timeout, poll, maxRetries, 0, c);
    assert calls + total.1 == total.1;
    while attempt < maxRetries
      invariant var rest := Loop(bytes, net, timeout, poll, maxRetries, attempt, c);
                total == (rest.0, calls + rest.1)
      decreases maxRetries - attempt
    {
      ghost var before := calls;
      ghost var prevC := c;
      var step, stepCalls := TryOnce(bytes, net, timeout, attempt, c);
      calls := calls + stepCalls;
      match step {
        case Returned(rc) =>
          return Ok(rc), calls;
        case Raised(f) =>
          return Err(f), calls;
        case Retry(next) =>
          c := next;
      }
      LoopRetry(bytes, net, timeout, poll, maxRetries, attempt, prevC, c, stepCalls, before, total);
      attempt := attempt + 1;
      calls := calls + [Sleep(Backoff(poll, attempt))];
    }
    LoopDone(bytes, net, timeout, poll, maxRetries, attempt, c, calls);
    if c.txHash != "" {
      var got := net.wait(c.waits);
      calls := calls + [WaitReceipt(c.txHash, poll * maxRetries as real)];
      if got.Mined? {
        return Ok(got.receipt), calls;
      }
    } else {
      assert calls + [] == calls;
    }
    return Err(Exhausted(maxRetries, c.lastError)), calls;
  }

  /* ---- Properties of the retry loop ---- */

  /** The number of raw-transaction sends in a trace. */
  function Sends(calls: seq<Call>): nat
  {
    if calls == [] then 0
    else (if calls[0].SendRaw? then 1 else 0) + Sends(calls[1..])
  }

  /** The pauses of a trace, in order. */
  function Pauses(calls: seq<Call>): seq<real>
  {
    if calls == [] then []
    else (if calls[0].Sleep? then [calls[0].seconds] else []) + Pauses(calls[1..])
  }

  /** Sends and pauses of a concatenated trace add up. */
  lemma SendsAppend(a: seq<Call>, b: seq<Call>)
    ensures Sends(a + b) == Sends(a) + Sends(b)
    ensures Pauses(a + b) == Pauses(a) + Pauses(b)
  {
    CountAppend(a, b);
    PausesAppend(a, b);
  }

  lemma {:induction false} CountAppend(a: seq<Call>, b: seq<Call>)
    ensures Sends(a + b) == Sends(a) + Sends(b)
  {
    if a == [] {
      assert a + b == b;
    } else {
      assert (a + b)[1..] == a[1..] + b;
      CountAppend(a[1..], b);
    }
  }

  lemma {:induction false} PausesAppend(a: seq<Call>, b: seq<Call>)
    ensures Pauses(a + b) == Pauses(a) + Pauses(b)
  {
    if a == [] {
      assert a + b == b;
    } else {
      var head := if a[0].Sleep? then [a[0].seconds] else [];
      assert (a + b)[0] == a[0] && (a + b)[1..] == a[1..] + b;
      PausesAppend(a[1..], b);
      calc {
        Pauses(a + b);
        head + Pauses(a[1..] + b);
        head + (Pauses(a[1..]) + Pauses(b));
        (head + Pauses(a[1..])) + Pauses(b);
      }
    }
  }

  /** The pauses after failed attempts `from + 1`, ..., `from + n`. */
  function Schedule(poll: real, from: nat, n: nat): (r: seq<real>)
    ensures |r| == n
    decreases n
  {
    if n == 0 then [] else [Backoff(poll, from + 1)] + Schedule(poll, from + 1, n - 1)
  }

  lemma {:induction false} ScheduleAt(poll: real, from: nat, n: nat, k: nat)
    requires k < n
    ensures Schedule(poll, from, n)[k] == Backoff(poll, from + 1 + k)
    decreases n
  {
    if k > 0 {
      ScheduleAt(poll, from + 1, n - 1, k - 1);
    }
  }

  /** A trace without sends and pauses. */
  predicate Quiet(t: seq<Call>)
  {
    Sends(t) == 0 && Pauses(t) == [] && forall k :: 0 <= k < |t| ==> !t[k].SendRaw?
  }

  /** A trace that opens with the one send of `raw` and then neither sends
      nor pauses. */
  predicate OneSend(t: seq<Call>, raw: Bytes)
  {
    && t != [] && t[0] == SendRaw(raw)
    && Sends(t) == 1 && Pauses(t) == []
    && forall k :: 1 <= k < |t| ==> !t[k].SendRaw?
  }

  /** The handler makes no send and no pause. */
  lemma HandleQuiet(net: Network, timeout: real, e: TxError, c: Carry)
    ensures Quiet(Handle(net, timeout, e, c).1)
  {
    var t := Handle(net, timeout, e, c).1;
    assert t == [] || t == [WaitReceipt(c.txHash, timeout)];
    if t != [] {
      assert t[1..] == [];
    }
  }

  /** The sends and pauses of a one-call trace. */
  lemma SingleCall(c: Call)
    ensures Sends([c]) == (if c.SendRaw? then 1 else 0)
    ensures Pauses([c]) == (if c.Sleep? then [c.seconds] else [])
  {
    assert [c][1..] == [];
  }

  /** A quiet tail keeps a single-send trace single-send. */
  lemma OneSendThenQuiet(head: seq<Call>, h: seq<Call>, raw: Bytes)
    requires OneSend(head, raw) && Quiet(h)
    ensures OneSend(head + h, raw)
  {
    SendsAppend(head, h);
    var t := head + h;
    forall k | 1 <= k < |t|
      ensures !t[k].SendRaw?
    {
      if k >= |head| {
        assert t[k] == h[k - |head|];
      }
    }
  }

  /** An attempt sends the raw bytes exactly once and does not pause. */
  lemma AttemptSendsOnce(raw: Bytes, net: Network, timeout: real, attempt: nat, c: Carry)
    ensures OneSend(Attempt(raw, net, timeout, attempt, c).1, raw)
  {
    var send := [SendRaw(raw)];
    SingleCall(SendRaw(raw));
    match net.send(attempt)
    case SendFailed(e) =>
      HandleQuiet(net, timeout, e, c);
      OneSendThenQuiet(send, Handle(net, timeout, e, c).1, raw);
    case Sent(hash) =>
      var wait := [WaitReceipt(hash, timeout)];
      SingleCall(WaitReceipt(hash, timeout));
      OneSendThenQuiet(send, wait, raw);
      assert send + wait == [SendRaw(raw), WaitReceipt(hash, timeout)];
      match net.wait(c.waits)
      case Mined(_) =>
      case WaitFailed(e) =>
        var c' := Carry(c.waits + 1, c.lastError, hash);
        HandleQuiet(net, timeout, e, c');
        OneSendThenQuiet(send + wait, Handle(net, timeout, e, c').1, raw);
  }

  /** The final wait makes no send and no pause. */
  lemma FinalQuiet(net: Network, poll: real, maxRetries: int, c: Carry)
    ensures var t := Final(net, poll, maxRetries, c).1;
            Sends(t) == 0 && Pauses(t) == [] && |t| <= 1
  {
    var t := Final(net, poll, maxRetries, c).1;
    if t != [] {
      assert t[1..] == [];
    }
  }

  function Max(a: int, b: int): int { if a < b then b else a }

  /** From attempt `attempt` on, the loop pauses `poll * k` after each failed
      attempt k, makes at most one send per remaining attempt, and gives up
      with `Exhausted(maxRetries, _)` only once every attempt has been sent. */
  lemma {:induction false} LoopCounts(raw: Bytes, net: Network, timeout: real, poll: real, maxRetries: int,
                                      attempt: nat, c: Carry)
    ensures var (r, t) := Loop(raw, net, timeout, poll, maxRetries, attempt, c);
            var n := |Pauses(t)|;
            && Pauses(t) == Schedule(poll, attempt, n)
            && attempt + n <= Max(attempt, maxRetries)
            && (Sends(t) == n || Sends(t) == n + 1)
            && attempt + Sends(t) <= Max(attempt, maxRetries)
            && (Sends(t) == n ==> r.Ok? || (r.Err? && r.error.Exhausted?))
            && (Sends(t) == n ==> n == Max(0, maxRetries - attempt))
            && (r.Err? && r.error.Exhausted? ==> Sends(t) == n && r.error.attempts == maxRetries)
            && r != Err(MissingRawBytes)
    decreases maxRetries - attempt
  {
    if attempt >= maxRetries {
      FinalQuiet(net, poll, maxRetries, c);
    } else {
      var step := Attempt(raw, net, timeout, attempt, c);
      AttemptSendsOnce(raw, net, timeout, attempt, c);
      match step.0
      case Returned(rc) =>
        assert Loop(raw, net, timeout, poll, maxRetries, attempt, c) == (Ok(rc), step.1);
      case Raised(f) =>
        AttemptRaisesOnlyFunds(raw, net, timeout, attempt, c);
        assert Loop(raw, net, timeout, poll, maxRetries, attempt, c) == (Err(f), step.1);
      case Retry(c') =>
        var rest := Loop(raw, net, timeout, poll, maxRetries, attempt + 1, c');
        LoopCounts(raw, net, timeout, poll, maxRetries, attempt + 1, c');
        RetryTrace(step.1, rest.1, raw, poll, attempt);
        assert Loop(raw, net, timeout, poll, maxRetries, attempt, c)
            == (rest.0, step.1 + [Sleep(Backoff(poll, attempt + 1))] + rest.1);
    }
  }

  /** The only failure an attempt raises is insufficient funds. */
  lemma AttemptRaisesOnlyFunds(raw: Bytes, net: Network, timeout: real, attempt: nat, c: Carry)
    ensures var step := Attempt(raw, net, timeout, attempt, c).0;
            step.Raised? ==> step.failure.InsufficientFunds?
  {
  }

  /** A failed attempt, its pause and the rest of the loop: one more send,
      and the attempt's pause ahead of the rest's. */
  lemma RetryTrace(s: seq<Call>, rest: seq<Call>, raw: Bytes, poll: real, attempt: nat)
    requires OneSend(s, raw)
    ensures var t := s + [Sleep(Backoff(poll, attempt + 1))] + rest;
            Sends(t) == 1 + Sends(rest)
            && Pauses(t) == [Backoff(poll, attempt + 1)] + Pauses(rest)
            && (Pauses(rest) == Schedule(poll, attempt + 1, |Pauses(rest)|) ==>
                  Pauses(t) == Schedule(poll, attempt, |Pauses(t)|))
  {
    var pause := [Sleep(Backoff(poll, attempt + 1))];
    SingleCall(pause[0]);
    SendsAppend(s, pause);
    SendsAppend(s + pause, rest);
  }

  /** Every send in `t` carries `raw`. */
  predicate SendsOnly(t: seq<Call>, raw: Bytes)
  {
    forall k :: 0 <= k < |t| && t[k].SendRaw? ==> t[k].raw == raw
  }

  /** Every send of the loop carries the same raw bytes. */
  lemma {:induction false} LoopSendsRaw(raw: Bytes, net: Network, timeout: real, poll: real, maxRetries: int,
                                        attempt: nat, c: Carry)
    ensures SendsOnly(Loop(raw, net, timeout, poll, maxRetries, attempt, c).1, raw)
    decreases maxRetries - attempt
  {
    if attempt < maxRetries {
      var step := Attempt(raw, net, timeout, attempt, c);
      AttemptSendsOnce(raw, net, timeout, attempt, c);
      match step.0
      case Returned(rc) =>
      case Raised(f) =>
      case Retry(c') =>
        LoopSendsRaw(raw, net, timeout, poll, maxRetries, attempt + 1, c');
        var rest := Loop(raw, net, timeout, poll, maxRetries, attempt + 1, c');
        var pause := [Sleep(Backoff(poll, attempt + 1))];
        assert Loop(raw, net, timeout, poll, maxRetries, attempt, c).1 == step.1 + pause + rest.1;
        SendsOnlyConcat(step.1, pause, raw);
        SendsOnlyConcat(step.1 + pause, rest.1, raw);
    }
  }

  /** Two traces that send only `raw` make one. */
  lemma SendsOnlyConcat(a: seq<Call>, b: seq<Call>, raw: Bytes)
    requires SendsOnly(a, raw) && SendsOnly(b, raw)
    ensures SendsOnly(a + b, raw)
  {
    var t := a + b;
    forall k | 0 <= k < |t| && t[k].SendRaw?
      ensures t[k].raw == raw
    {
      if k >= |a| {
        assert t[k] == b[k - |a|];
      }
    }
  }

  /** The loop re-raises only an insufficient-funds error the node reported. */
  lemma {:induction false} LoopAbortsOnlyOnFunds(raw: Bytes, net: Network, timeout: real, poll: real,
                                                 maxRetries: int, attempt: nat, c: Carry)
    ensures var r := Loop(raw, net, timeout, poll, maxRetries, attempt, c).0;
            r.Err? && r.error.InsufficientFunds? ==> Fatal(r.error.cause)
    decreases maxRetries - attempt
  {
    if attempt < maxRetries {
      var step := Attempt(raw, net, timeout, attempt, c);
      match step.0
      case Returned(rc) =>
      case Raised(f) =>
      case Retry(c') =>
        LoopAbortsOnlyOnFunds(raw, net, timeout, poll, maxRetries, attempt + 1, c');
    }
  }

  /** Conversely, a fatal error reported by a send is re-raised at once: the
      attempt's single send is the whole trace, with no pause and no wait. */
  lemma FatalSendAborts(raw: Bytes, net: Network, timeout: real, poll: real, maxRetries: int,
                        attempt: nat, c: Carry, e: TxError)
    requires attempt < maxRetries && net.send(attempt) == SendFailed(e) && Fatal(e)
    ensures Loop(raw, net, timeout, poll, maxRetries, attempt, c) == (Err(InsufficientFunds(e)), [SendRaw(raw)])
  {
    assert [SendRaw(raw)] + [] == [SendRaw(raw)];
    assert Attempt(raw, net, timeout, attempt, c) == (Raised(InsufficientFunds(e)), [SendRaw(raw)]);
  }

  /** A fatal error from the receipt wait is re-raised after that one send and wait. */
  lemma FatalWaitAborts(raw: Bytes, net: Network, timeout: real, poll: real, maxRetries: int,
                        attempt: nat, c: Carry, hash: string, e: TxError)
    requires attempt < maxRetries && net.send(attempt) == Sent(hash)
    requires net.wait(c.waits) == WaitFailed(e) && Fatal(e)
    ensures Loop(raw, net, timeout, poll, maxRetries, attempt, c)
         == (Err(InsufficientFunds(e)), [SendRaw(raw), WaitReceipt(hash, timeout)])
  {
    var calls := [SendRaw(raw), WaitReceipt(hash, timeout)];
    assert calls + [] == calls;
    assert Attempt(raw, net, timeout, attempt, c) == (Raised(InsufficientFunds(e)), calls);
  }

  /** Sends that fail with recorded errors for k attempts, then a fatal one:
      the exchange raises that error after exactly k + 1 sends, having
      paused after each of the k retried attempts. */
  lemma {:induction false} AbortAfterRetries(raw: Bytes, net: Network, timeout: real, poll: real, maxRetries: int,
                                             attempt: nat, c: Carry, k: nat, e: TxError)
    requires attempt + k < maxRetries
    requires forall i :: attempt <= i < attempt + k ==>
               net.send(i).SendFailed? && Classify(net.send(i).sendErr) == RecordAndRetry
    requires net.send(attempt + k) == SendFailed(e) && Fatal(e)
    ensures var (r, t) := Loop(raw, net, timeout, poll, maxRetries, attempt, c);
            r == Err(InsufficientFunds(e)) && Sends(t) == k + 1 && Pauses(t) == Schedule(poll, attempt, k)
    decreases k
  {
    if k == 0 {
      FatalSendAborts(raw, net, timeout, poll, maxRetries, attempt, c, e);
      SingleCall(SendRaw(raw));
    } else {
      var e0 := net.send(attempt).sendErr;
      var c' := c.(lastError := Some(e0));
      RecordedRetryUnfolds(raw, net, timeout, poll, maxRetries, attempt, c, e0);
      AbortAfterRetries(raw, net, timeout, poll, maxRetries, attempt + 1, c', k - 1, e);
      var rest := Loop(raw, net, timeout, poll, maxRetries, attempt + 1, c');
      SingleCall(SendRaw(raw));
      RetryTrace([SendRaw(raw)], rest.1, raw, poll, attempt);
    }
  }

  /** One attempt whose send fails with a recorded error: the error is
      remembered, and the next attempt follows the pause. */
  lemma RecordedRetryUnfolds(raw: Bytes, net: Network, timeout: real, poll: real, maxRetries: int,
                             attempt: nat, c: Carry, e: TxError)
    requires attempt < maxRetries && net.send(attempt) == SendFailed(e) && Classify(e) == RecordAndRetry
    ensures var rest := Loop(raw, net, timeout, poll, maxRetries, attempt + 1, c.(lastError := Some(e)));
            Loop(raw, net, timeout, poll, maxRetries, attempt, c)
            == (rest.0, [SendRaw(raw)] + [Sleep(Backoff(poll, attempt + 1))] + rest.1)
  {
    assert [SendRaw(raw)] + [] == [SendRaw(raw)];
    assert Attempt(raw, net, timeout, attempt, c) == (Retry(c.(lastError := Some(e))), [SendRaw(raw)]);
  }

  /** A send the node rejects as "known" after an earlier send returned a
      hash: the sender waits on that earlier hash, and a receipt for it ends
      the exchange with no further send or pause. */
  lemma KnownWaitsOnEarlierHash(raw: Bytes, net: Network, timeout: real, poll: real, maxRetries: int,
                                attempt: nat, c: Carry, e: TxError, rc: string)
    requires attempt < maxRetries && net.send(attempt) == SendFailed(e) && Classify(e) == AlreadyKnown
    requires c.txHash != "" && net.wait(c.waits) == Mined(rc)
    ensures Loop(raw, net, timeout, poll, maxRetries, attempt, c)
         == (Ok(rc), [SendRaw(raw), WaitReceipt(c.txHash, timeout)])
  {
    assert Handle(net, timeout, e, c) == (Returned(rc), [WaitReceipt(c.txHash, timeout)]);
    assert [SendRaw(raw)] + [WaitReceipt(c.txHash, timeout)] == [SendRaw(raw), WaitReceipt(c.txHash, timeout)];
    assert Attempt(raw, net, timeout, attempt, c) == (Returned(rc), [SendRaw(raw), WaitReceipt(c.txHash, timeout)]);
  }

  /** A "known" rejection before any send returned a hash: nothing is waited
      on, the last error stays what it was, and the next attempt follows
      after the usual pause. */
  lemma KnownWithoutHashRetries(raw: Bytes, net: Network, timeout: real, poll: real, maxRetries: int,
                                attempt: nat, c: Carry, e: TxError)
    requires attempt < maxRetries && net.send(attempt) == SendFailed(e) && Classify(e) == AlreadyKnown
    requires c.txHash == ""
    ensures var rest := Loop(raw, net, timeout, poll, maxRetries, attempt + 1, c);
            Loop(raw, net, timeout, poll, maxRetries, attempt, c)
            == (rest.0, [SendRaw(raw), Sleep(Backoff(poll, attempt + 1))] + rest.1)
  {
    assert [SendRaw(raw)] + [] == [SendRaw(raw)];
    assert Attempt(raw, net, timeout, attempt, c) == (Retry(c), [SendRaw(raw)]);
    var rest := Loop(raw, net, timeout, poll, maxRetries, attempt + 1, c);
    assert [SendRaw(raw)] + [Sleep(Backoff(poll, attempt + 1))] + rest.1
        == [SendRaw(raw), Sleep(Backoff(poll, attempt + 1))] + rest.1;
  }

  /** The whole exchange: the pauses are `poll`, `2 * poll`, ... in order,
      there are at most `maxRetries` sends, all of the given bytes, and an
      exhausted exchange made every one of them. */
  lemma ExchangeSchedule(raw: Option<Bytes>, net: Network, timeout: real, poll: real, maxRetries: int)
    ensures var (r, t) := Exchange(raw, net, timeout, poll, maxRetries);
            && (r == Err(MissingRawBytes) <==> raw.None? || raw.value == [])
            && Sends(t) <= Max(0, maxRetries)
            && (forall k :: 0 <= k < |Pauses(t)| ==> Pauses(t)[k] == Backoff(poll, k + 1))
            && (raw.Some? ==> SendsOnly(t, raw.value))
            && (r.Err? && r.error.Exhausted? ==> Sends(t) == Max(0, maxRetries) && r.error.attempts == maxRetries)
  {
    if raw.Some? && raw.value != [] {
      var c := Carry(0, None, "");
      LoopCounts(raw.value, net, timeout, poll, maxRetries, 0, c);
      LoopSendsRaw(raw.value, net, timeout, poll, maxRetries, 0, c);
      var t := Exchange(raw, net, timeout, poll, maxRetries).1;
      forall k | 0 <= k < |Pauses(t)|
        ensures Pauses(t)[k] == Backoff(poll, k + 1)
      {
        ScheduleAt(poll, 0, |Pauses(t)|, k);
      }
    }
  }

  /** With no attempts allowed, nothing is sent and the exchange gives up at once. */
  lemma NoAttempts(raw: Bytes, net: Network, timeout: real, poll: real, maxRetries: int)
    requires raw != [] && maxRetries <= 0
    ensures Exchange(Some(raw), net, timeout, poll, maxRetries) == (Err(Exhausted(maxRetries, None)), [])
  {
  }

  /** Two receipt waits time out, the third attempt is mined: the sender
      pauses `poll` then `2 * poll` between the attempts. */
  lemma TimeoutsThenMined(raw: Bytes, timeout: real)
    requires raw != []
    ensures var net := Network(_ => Sent("0xa"), j => if j < 2 then WaitFailed(TimeExhausted) else Mined("rcpt"));
            Exchange(Some(raw), net, timeout, 2.0, 5)
            == (Ok("rcpt"), [SendRaw(raw), WaitReceipt("0xa", timeout), Sleep(2.0),
                             SendRaw(raw), WaitReceipt("0xa", timeout), Sleep(4.0),
                             SendRaw(raw), WaitReceipt("0xa", timeout)])
  {
    var net := Network(_ => Sent("0xa"), j => if j < 2 then WaitFailed(TimeExhausted) else Mined("rcpt"));
    var c0 := Carry(0, None, "");
    var c1 := Carry(1, Some(TimeExhausted), "0xa");
    var c2 := Carry(2, Some(TimeExhausted), "0xa");
    var sentCalls := [SendRaw(raw), WaitReceipt("0xa", timeout)];
    assert net.send(0) == Sent("0xa") && net.wait(0) == WaitFailed(TimeExhausted);
    assert sentCalls + [] == sentCalls;
    assert Attempt(raw, net, timeout, 0, c0) == (Retry(c1), sentCalls);
    assert Attempt(raw, net, timeout, 1, c1) == (Retry(c2), sentCalls);
    assert Attempt(raw, net, timeout, 2, c2) == (Returned("rcpt"), sentCalls);
    assert Loop(raw, net, timeout, 2.0, 5, 2, c2) == (Ok("rcpt"), sentCalls);
    assert Backoff(2.0, 2) == 4.0 && Backoff(2.0, 1) == 2.0;
    assert Loop(raw, net, timeout, 2.0, 5, 1, c1) == (Ok("rcpt"), sentCalls + [Sleep(4.0)] + sentCalls);
    assert Loop(raw, net, timeout, 2.0, 5, 0, c0)
        == (Ok("rcpt"), sentCalls + [Sleep(2.0)] + (sentCalls + [Sleep(4.0)] + sentCalls));
    assert sentCalls + [Sleep(2.0)] + (sentCalls + [Sleep(4.0)] + sentCalls)
        == [SendRaw(raw), WaitReceipt("0xa", timeout), Sleep(2.0),
            SendRaw(raw), WaitReceipt("0xa", timeout), Sleep(4.0),
            SendRaw(raw), WaitReceipt("0xa", timeout)];
  }

  /** The node reports "already known" for a resend: the sender waits on the
      hash of the earlier send instead of counting the error. */
  lemma AlreadyKnownWaitsOnEarlierHash(raw: Bytes, timeout: real, poll: real)
    requires raw != []
    ensures var net := Network(i => if i == 0 then Sent("0xa") else SendFailed(ValueError("already known")),
                               j => if j == 0 then WaitFailed(TimeExhausted) else Mined("rcpt"));
            Exchange(Some(raw), net, timeout, poll, 3)
            == (Ok("rcpt"), [SendRaw(raw), WaitReceipt("0xa", timeout), Sleep(Backoff(poll, 1)),
                             SendRaw(raw), WaitReceipt("0xa", timeout)])
  {
    var net := Network(i => if i == 0 then Sent("0xa") else SendFailed(ValueError("already known")),
                       j => if j == 0 then WaitFailed(TimeExhausted) else Mined("rcpt"));
    var c1 := Carry(1, Some(TimeExhausted), "0xa");
    assert Contains("already known", "already known");
    assert Classify(ValueError("already known")) == AlreadyKnown;
    var sentCalls := [SendRaw(raw), WaitReceipt("0xa", timeout)];
    assert net.send(0) == Sent("0xa") && net.wait(0) == WaitFailed(TimeExhausted);
    assert sentCalls + [] == sentCalls;
    assert Attempt(raw, net, timeout, 0, Carry(0, None, "")) == (Retry(c1), sentCalls);
    assert net.send(1) == SendFailed(ValueError("already known")) && net.wait(1) == Mined("rcpt");
    assert Handle(net, timeout, ValueError("already known"), c1) == (Returned("rcpt"), [WaitReceipt("0xa", timeout)]);
    assert [SendRaw(raw)] + [WaitReceipt("0xa", timeout)] == sentCalls;
    assert Attempt(raw, net, timeout, 1, c1) == (Returned("rcpt"), sentCalls);
    assert Loop(raw, net, timeout, poll, 3, 1, c1) == (Ok("rcpt"), sentCalls);
    assert Loop(raw, net, timeout, poll, 3, 0, Carry(0, None, ""))
        == (Ok("rcpt"), sentCalls + [Sleep(Backoff(poll, 1))] + sentCalls);
    assert sentCalls + [Sleep(Backoff(poll, 1))] + sentCalls
        == [SendRaw(raw), WaitReceipt("0xa", timeout), Sleep(Backoff(poll, 1)),
            SendRaw(raw), WaitReceipt("0xa", timeout)];
  }
}
