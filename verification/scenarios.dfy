/**
  Sequences of `add_*` calls on a fresh heap-free logger, followed by a
  dispatch pass: allocation hands out slots 0, 1, 2, ... in call order,
  the pool overflows after exactly `n` records, and the pass replays the
  records in the order they were added.
 */
module Scenarios {
  import opened Types
  import opened SlotAllocator
  import opened NoStdLogger
  import opened Dispatch

  /** One call of an `add_*` entry point, with its arguments. */
  datatype Request =
    | MarkerRequest(optMessage: Option<Message>, optId: Option<USize>)
    | LogRequest(message: Message, id: USize)
    | WarningRequest(message: Message, id: USize)
    | ErrorRequest(message: Message, id: USize)

  /** A stored record: what lands in one slot's message, id and kind. */
  datatype Record = Record(message: Message, id: USize, kind: LoggingTypeNS)

  /** The record a request stores, with `add_marker`'s defaults filled in. */
  function Stored(req: Request): Record {
    match req
    case MarkerRequest(m, id) => Record(m.GetOr(MarkerPlace()), id.GetOr(0), Marker)
    case LogRequest(m, id) => Record(m, id, Log)
    case WarningRequest(m, id) => Record(m, id, Warning)
    case ErrorRequest(m, id) => Record(m, id, Error)
  }

  /** Dispatches a request to its entry point. */
  function Submit(lg: LoggerNS, req: Request): (r: Added)
    requires lg.WellFormed()
    ensures AppendedAtLowestFree(lg, Stored(req).message, Stored(req).id, Stored(req).kind, r)
  {
    match req
    case MarkerRequest(m, id) => AddMarker(lg, m, id)
    case LogRequest(m, id) => AddLog(lg, m, id)
    case WarningRequest(m, id) => AddWarning(lg, m, id)
    case ErrorRequest(m, id) => AddError(lg, m, id)
  }

  /** The logger after a run of requests, and each request's result in order. */
  datatype Session = Session(logger: LoggerNS, results: seq<Result<nat>>)

  /** Submits `reqs` one after another, starting from `lg`. */
  function Run(lg: LoggerNS, reqs: seq<Request>): (s: Session)
    requires lg.WellFormed()
    ensures s.logger.WellFormed() && s.logger.Capacity() == lg.Capacity()
    ensures |s.results| == |reqs|
  {
    if |reqs| == 0 then Session(lg, [])
    else
      var s := Run(lg, reqs[..|reqs| - 1]);
      var a := Submit(s.logger, reqs[|reqs| - 1]);
      Session(a.logger, s.results + [a.result])
  }

  /**
    `lg` holds the records of `reqs` in slots 0 .. |reqs|-1, in order, and
    every slot from |reqs| on is still free.
   */
  ghost predicate HoldsInOrder(lg: LoggerNS, reqs: seq<Request>)
    requires lg.WellFormed()
  {
    && |reqs| <= lg.Capacity()
    && (forall i :: 0 <= i < lg.Capacity() ==> lg.freeSlots[i] == (i >= |reqs|))
    && forall i :: 0 <= i < |reqs| ==>
      Record(lg.log[i], lg.logId[i], lg.logType[i]) == Stored(reqs[i])
  }

  /**
    On a logger holding `done` in order with room to spare, the next request
    lands in slot |done| and the logger then holds `done + [req]` in order.
   */
  lemma SubmitExtends(lg: LoggerNS, done: seq<Request>, req: Request)
    requires lg.WellFormed() && HoldsInOrder(lg, done) && |done| < lg.Capacity()
    ensures Submit(lg, req).result == Ok(|done|)
    ensures HoldsInOrder(Submit(lg, req).logger, done + [req])
  {
    var a := Submit(lg, req);
    assert IsLowestFree(lg.freeSlots, |done|);
    assert !AllOccupied(lg.freeSlots);
    LowestFreeIsUnique(lg.freeSlots, a.result.value, |done|);
    var after := a.logger;
    var all := done + [req];
    forall i | 0 <= i < |all|
      ensures Record(after.log[i], after.logId[i], after.logType[i]) == Stored(all[i])
    {
      if i < |done| {
        assert all[i] == done[i];
      }
    }
  }

  /**
    From a fresh logger of capacity `n`, up to `n` requests all succeed,
    the k-th one in slot k, and the records sit in slots 0, 1, ... in order.
   */
  lemma {:induction false} RunFromFresh(n: nat, reqs: seq<Request>)
    requires |reqs| <= n
    ensures Run(NewLoggerNS(n), reqs).results == seq(|reqs|, k => Ok(k))
    ensures HoldsInOrder(Run(NewLoggerNS(n), reqs).logger, reqs)
    decreases |reqs|
  {
    if |reqs| > 0 {
      var prefix := reqs[..|reqs| - 1];
      RunFromFresh(n, prefix);
      var s := Run(NewLoggerNS(n), prefix);
      SubmitExtends(s.logger, prefix, reqs[|reqs| - 1]);
      assert prefix + [reqs[|reqs| - 1]] == reqs;
    }
  }

  /**
    After exactly `n` requests on a fresh logger of capacity `n`, the next
    request, whatever its kind, fails with `BufferEntryOverflow` and leaves
    the logger as it was.
   */
  lemma CapacityExhausted(n: nat, reqs: seq<Request>, next: Request)
    requires |reqs| == n
    ensures var lg := Run(NewLoggerNS(n), reqs).logger;
            Submit(lg, next) == Added(lg, Err(BufferEntryOverflow))
  {
    RunFromFresh(n, reqs);
  }

  /** The invocation a pass makes for a stored record. */
  function CallOf(rec: Record): Call {
    Call(if rec.kind == Error then Crasher else Printer, rec.message, rec.id, rec.kind)
  }

  /** The id of the last Error request, if any. */
  function LastErrorRequest(reqs: seq<Request>): (r: Option<USize>)
    ensures r.Some? <==> exists k :: 0 <= k < |reqs| && reqs[k].ErrorRequest?
  {
    if |reqs| == 0 then None
    else if reqs[|reqs| - 1].ErrorRequest? then Some(reqs[|reqs| - 1].id)
    else LastErrorRequest(reqs[..|reqs| - 1])
  }

  lemma {:induction false} OccupiedBelowInOrder(lg: LoggerNS, reqs: seq<Request>, hi: nat)
    requires lg.WellFormed() && HoldsInOrder(lg, reqs) && hi <= lg.Capacity()
    ensures OccupiedBelow(lg, hi) == seq(if hi < |reqs| then hi else |reqs|, k => k)
    decreases hi
  {
    if hi > 0 {
      OccupiedBelowInOrder(lg, reqs, hi - 1);
      if hi <= |reqs| {
        assert lg.Occupied(hi - 1);
        assert seq(hi - 1, k => k) + [hi - 1] == seq(hi, k => k);
      } else {
        assert !lg.Occupied(hi - 1);
      }
    }
  }

  lemma {:induction false} LastErrorInOrder(lg: LoggerNS, reqs: seq<Request>, hi: nat)
    requires lg.WellFormed() && HoldsInOrder(lg, reqs) && |reqs| <= hi <= lg.Capacity()
    ensures LastErrorId(lg, hi) == LastErrorRequest(reqs)
    decreases hi
  {
    if hi > |reqs| {
      LastErrorInOrder(lg, reqs, hi - 1);
    } else if |reqs| > 0 {
      var prefix := reqs[..|reqs| - 1];
      var last := |reqs| - 1;
      assert Stored(reqs[last]).kind == Error <==> reqs[last].ErrorRequest?;
      if !reqs[last].ErrorRequest? {
        var shorter := lg.(freeSlots := lg.freeSlots[last := true]);
        assert HoldsInOrder(shorter, prefix);
        LastErrorInOrder(shorter, prefix, hi - 1);
        LastErrorSlotAgree(lg, shorter, hi - 1);
      }
    }
  }

  /** Two loggers with the same records and occupancy below `hi` agree on the last Error. */
  lemma {:induction false} LastErrorSlotAgree(a: LoggerNS, b: LoggerNS, hi: nat)
    requires a.WellFormed() && b.WellFormed() && hi <= a.Capacity() && hi <= b.Capacity()
    requires forall i :: 0 <= i < hi ==> a.freeSlots[i] == b.freeSlots[i] && a.logType[i] == b.logType[i] && a.logId[i] == b.logId[i]
    ensures LastErrorId(a, hi) == LastErrorId(b, hi)
  {
    if hi > 0 {
      LastErrorSlotAgree(a, b, hi - 1);
    }
  }

  /**
    Dispatch order is insertion order: after up to `n` requests on a fresh
    logger of capacity `n`, a pass whose printer accepts every non-Error
    record invokes one callback per request, in request order, and ends
    with the id of the last Error request, or `Ok(())` when there is none.
   */
  lemma InsertionOrder(n: nat, reqs: seq<Request>, printer: PrinterFn)
    requires |reqs| <= n
    requires forall k :: 0 <= k < |reqs| && Stored(reqs[k]).kind != Error ==>
      printer(Stored(reqs[k]).message, Stored(reqs[k]).id, Stored(reqs[k]).kind).Ok?
    ensures var r := ParseLogger(Run(NewLoggerNS(n), reqs).logger, printer);
            r.calls == seq(|reqs|, k requires 0 <= k < |reqs| => CallOf(Stored(reqs[k])))
            && r.result == Verdict(LastErrorRequest(reqs))
  {
    RunFromFresh(n, reqs);
    var lg := Run(NewLoggerNS(n), reqs).logger;
    forall j | 0 <= j < lg.Capacity()
      ensures !PrinterFailsAt(lg, printer, j)
    {
      if j < |reqs| {
        assert Record(lg.log[j], lg.logId[j], lg.logType[j]) == Stored(reqs[j]);
      }
    }
    var r := ParseLogger(lg, printer);
    assert r == Parsed(CallsFor(lg, OccupiedBelow(lg, n)), Verdict(LastErrorId(lg, n)));
    OccupiedBelowInOrder(lg, reqs, n);
    CallsInOrder(lg, reqs);
    LastErrorInOrder(lg, reqs, n);
  }

  /** The calls for slots 0 .. |reqs|-1 are the calls for the requests' records. */
  lemma CallsInOrder(lg: LoggerNS, reqs: seq<Request>)
    requires lg.WellFormed() && HoldsInOrder(lg, reqs)
    ensures CallsFor(lg, seq(|reqs|, k => k))
         == seq(|reqs|, k requires 0 <= k < |reqs| => CallOf(Stored(reqs[k])))
  {
    forall k | 0 <= k < |reqs|
      ensures CallFor(lg, k) == CallOf(Stored(reqs[k]))
    {
      assert Record(lg.log[k], lg.logId[k], lg.logType[k]) == Stored(reqs[k]);
    }
  }

  /**
    The ordering example: records with ids 5, 6 and 7 are handed to the
    callbacks in the order 5, 6, 7.
   */
  lemma OrderingExample(n: nat, m: Message, printer: PrinterFn)
    requires 3 <= n
    requires printer(m, 5, Log).Ok? && printer(m, 6, Warning).Ok?
    ensures var r := ParseLogger(Run(NewLoggerNS(n), [LogRequest(m, 5), WarningRequest(m, 6), ErrorRequest(m, 7)]).logger, printer);
            && |r.calls| == 3
            && r.calls[0].id == 5 && r.calls[1].id == 6 && r.calls[2].id == 7
            && r.calls[2].target == Crasher
  {
    InsertionOrder(n, [LogRequest(m, 5), WarningRequest(m, 6), ErrorRequest(m, 7)], printer);
  }

  /**
    Last error wins: Error 10, then a Log, then Error 20 makes the pass
    report `InvalidIndex(20)`, not 10.
   */
  lemma LastErrorWinsExample(n: nat, m: Message, printer: PrinterFn)
    requires 3 <= n
    requires printer(m, 1, Log).Ok?
    ensures ParseLogger(Run(NewLoggerNS(n), [ErrorRequest(m, 10), LogRequest(m, 1), ErrorRequest(m, 20)]).logger, printer).result
         == Err(InvalidIndex(20))
  {
    InsertionOrder(n, [ErrorRequest(m, 10), LogRequest(m, 1), ErrorRequest(m, 20)], printer);
  }

  /** A fresh logger has nothing to dispatch: no callback runs and the pass succeeds. */
  lemma FreshLoggerParsesClean(n: nat, printer: PrinterFn)
    ensures ParseLogger(NewLoggerNS(n), printer) == Parsed([], Ok(()))
  {
    InsertionOrder(n, [], printer);
  }
}
