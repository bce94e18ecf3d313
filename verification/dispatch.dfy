/**
  The dispatch pass (`parse_logger`) of the heap-free logger. It walks the
  occupied slots in ascending index order, hands Marker/Log/Warning records
  to a printer that may fail and Error records to a crasher, aborts at the
  first printer failure, and otherwise reports the id of the last Error.

  The pass is pure: it returns the sequence of callback invocations it made
  (the trace) together with its result, and the logger is not touched.
 */
module Dispatch {
  import opened Types
  import opened NoStdLogger

  /** Which of the two callbacks was invoked. */
  datatype Callback = Printer | Crasher

  /** One callback invocation with the arguments it received. */
  datatype Call = Call(target: Callback, message: Message, id: USize, kind: LoggingTypeNS)

  /** The outcome of a pass: callbacks invoked, in order, and the result. */
  datatype Parsed = Parsed(calls: seq<Call>, result: Result<()>)

  /** The printer callback; its error value is discarded by the pass. */
  type PrinterFn = (Message, USize, LoggingTypeNS) -> Result<()>

  /** The invocation a pass makes for the occupied slot `i`. */
  function CallFor(lg: LoggerNS, i: nat): Call
    requires lg.WellFormed() && i < lg.Capacity()
  {
    Call(if lg.logType[i] == Error then Crasher else Printer, lg.log[i], lg.logId[i], lg.logType[i])
  }

  /** The invocations for the given slots, in the given order. */
  function CallsFor(lg: LoggerNS, slots: seq<nat>): seq<Call>
    requires lg.WellFormed()
    requires forall k :: 0 <= k < |slots| ==> slots[k] < lg.Capacity()
  {
    seq(|slots|, k requires 0 <= k < |slots| => CallFor(lg, slots[k]))
  }

  /** Slot `i` holds an Error record. */
  predicate IsErrorRecord(lg: LoggerNS, i: nat)
    requires lg.WellFormed() && i < lg.Capacity()
  {
    lg.Occupied(i) && lg.logType[i] == Error
  }

  /** Slot `i` holds a non-Error record that the printer rejects. */
  predicate PrinterFailsAt(lg: LoggerNS, printer: PrinterFn, i: nat)
    requires lg.WellFormed() && i < lg.Capacity()
  {
    lg.Occupied(i) && lg.logType[i] != Error && printer(lg.log[i], lg.logId[i], lg.logType[i]).Err?
  }

  /** The occupied slots below `hi`, in ascending order, each exactly once. */
  function OccupiedBelow(lg: LoggerNS, hi: nat): (s: seq<nat>)
    requires lg.WellFormed() && hi <= lg.Capacity()
    ensures forall k :: 0 <= k < |s| ==> s[k] < hi && lg.Occupied(s[k])
    ensures forall k, l :: 0 <= k < l < |s| ==> s[k] < s[l]
    ensures forall i :: 0 <= i < hi && lg.Occupied(i) ==> i in s
  {
    if hi == 0 then []
    else OccupiedBelow(lg, hi - 1) + (if lg.Occupied(hi - 1) then [hi - 1] else [])
  }

  /** The highest Error slot below `hi`, if there is one. */
  function LastErrorSlot(lg: LoggerNS, hi: nat): (r: Option<nat>)
    requires lg.WellFormed() && hi <= lg.Capacity()
    ensures r.Some? ==> r.value < hi && IsErrorRecord(lg, r.value)
    ensures r.Some? ==> forall k :: r.value < k < hi ==> !IsErrorRecord(lg, k)
    ensures r.None? ==> forall k :: 0 <= k < hi ==> !IsErrorRecord(lg, k)
  {
    if hi == 0 then None
    else if IsErrorRecord(lg, hi - 1) then Some(hi - 1)
    else LastErrorSlot(lg, hi - 1)
  }

  /** The id of the highest Error slot below `hi`. */
  function LastErrorId(lg: LoggerNS, hi: nat): Option<USize>
    requires lg.WellFormed() && hi <= lg.Capacity()
  {
    match LastErrorSlot(lg, hi)
    case None => None
    case Some(s) => Some(lg.logId[s])
  }

  /** How a completed pass ends, given the id of the last Error it saw. */
  function Verdict(lastError: Option<USize>): (r: Result<()>)
    ensures r.Ok? <==> lastError.None?
    ensures r.Err? ==> r.error == InvalidIndex(lastError.value)
  {
    match lastError
    case None => Ok(())
    case Some(id) => Err(InvalidIndex(id))
  }

  /**
    The loop of `parse_logger` from index `i` on, with `lastError` the id of
    the last Error seen and `calls` the invocations made so far.
   */
  function ParseFrom(lg: LoggerNS, printer: PrinterFn, i: nat,
                     lastError: Option<USize>, calls: seq<Call>): (r: Parsed)
    requires lg.WellFormed() && i <= lg.Capacity()
    ensures calls <= r.calls
    ensures |r.calls| <= |calls| + (lg.Capacity() - i)
    ensures lastError.Some? ==> r.result.Err?
    decreases lg.Capacity() - i
  {
    if i == lg.Capacity() then Parsed(calls, Verdict(lastError))
    else if !lg.Occupied(i) then ParseFrom(lg, printer, i + 1, lastError, calls)
    else
      var call := CallFor(lg, i);
      match lg.logType[i]
      case Error =>
        ParseFrom(lg, printer, i + 1, Some(lg.logId[i]), calls + [call])
      case _ =>
        if printer(lg.log[i], lg.logId[i], lg.logType[i]).Err? then
          Parsed(calls + [call], Err(BufferEntryOverflow))
        else
          ParseFrom(lg, printer, i + 1, lastError, calls + [call])
  }

  lemma OccupiedBelowStep(lg: LoggerNS, i: nat)
    requires lg.WellFormed() && i < lg.Capacity()
    ensures CallsFor(lg, OccupiedBelow(lg, i + 1))
         == CallsFor(lg, OccupiedBelow(lg, i)) + (if lg.Occupied(i) then [CallFor(lg, i)] else [])
  {
  }

  /** One iteration of the loop that does not abort keeps the loop invariant. */
  lemma ParseFromStep(lg: LoggerNS, printer: PrinterFn, i: nat,
                      lastError: Option<USize>, calls: seq<Call>)
    requires lg.WellFormed() && i < lg.Capacity()
    requires calls == CallsFor(lg, OccupiedBelow(lg, i))
    requires lastError == LastErrorId(lg, i)
    requires !PrinterFailsAt(lg, printer, i)
    ensures ParseFrom(lg, printer, i, lastError, calls)
         == ParseFrom(lg, printer, i + 1, LastErrorId(lg, i + 1), CallsFor(lg, OccupiedBelow(lg, i + 1)))
  {
    OccupiedBelowStep(lg, i);
    if IsErrorRecord(lg, i) {
      assert LastErrorId(lg, i + 1) == Some(lg.logId[i]);
    } else {
      assert LastErrorSlot(lg, i + 1) == LastErrorSlot(lg, i);
      if lg.Occupied(i) {
        assert printer(lg.log[i], lg.logId[i], lg.logType[i]).Ok?;
        assert ParseFrom(lg, printer, i, lastError, calls)
            == ParseFrom(lg, printer, i + 1, lastError, calls + [CallFor(lg, i)]);
      } else {
        assert OccupiedBelow(lg, i + 1) == OccupiedBelow(lg, i);
      }
    }
  }

  /**
    The loop invariant of `parse_logger`, abort case: having made the calls
    for the occupied slots below `i` and remembering the id of the last
    Error below `i`, the pass stops at the first printer failure `f` at or
    above `i`, with the calls for the occupied slots up to `f` and no more.
   */
  lemma {:induction false} ParseFromAborts(lg: LoggerNS, printer: PrinterFn, i: nat,
                                           lastError: Option<USize>, calls: seq<Call>, f: nat)
    requires lg.WellFormed() && i <= f < lg.Capacity()
    requires calls == CallsFor(lg, OccupiedBelow(lg, i))
    requires lastError == LastErrorId(lg, i)
    requires PrinterFailsAt(lg, printer, f)
    requires forall j :: i <= j < f ==> !PrinterFailsAt(lg, printer, j)
    ensures ParseFrom(lg, printer, i, lastError, calls)
         == Parsed(CallsFor(lg, OccupiedBelow(lg, f + 1)), Err(BufferEntryOverflow))
    decreases f - i
  {
    if i == f {
      OccupiedBelowStep(lg, i);
    } else {
      ParseFromStep(lg, printer, i, lastError, calls);
      ParseFromAborts(lg, printer, i + 1, LastErrorId(lg, i + 1), CallsFor(lg, OccupiedBelow(lg, i + 1)), f);
    }
  }

  /**
    The loop invariant of `parse_logger`, completion case: when the printer
    accepts every record at or above `i`, the pass makes the calls for all
    occupied slots and ends with the verdict for the last Error overall.
   */
  lemma {:induction false} ParseFromCompletes(lg: LoggerNS, printer: PrinterFn, i: nat,
                                              lastError: Option<USize>, calls: seq<Call>)
    requires lg.WellFormed() && i <= lg.Capacity()
    requires calls == CallsFor(lg, OccupiedBelow(lg, i))
    requires lastError == LastErrorId(lg, i)
    requires forall j :: i <= j < lg.Capacity() ==> !PrinterFailsAt(lg, printer, j)
    ensures ParseFrom(lg, printer, i, lastError, calls)
         == Parsed(CallsFor(lg, OccupiedBelow(lg, lg.Capacity())), Verdict(LastErrorId(lg, lg.Capacity())))
    decreases lg.Capacity() - i
  {
    if i < lg.Capacity() {
      ParseFromStep(lg, printer, i, lastError, calls);
      ParseFromCompletes(lg, printer, i + 1, LastErrorId(lg, i + 1), CallsFor(lg, OccupiedBelow(lg, i + 1)));
    }
  }

  /** The whole pass from slot 0, in both of its cases. */
  lemma ParseFromStartCorrect(lg: LoggerNS, printer: PrinterFn)
    requires lg.WellFormed()
    ensures forall f :: 0 <= f < lg.Capacity() && PrinterFailsAt(lg, printer, f)
                        && (forall j :: 0 <= j < f ==> !PrinterFailsAt(lg, printer, j)) ==>
      ParseFrom(lg, printer, 0, None, [])
        == Parsed(CallsFor(lg, OccupiedBelow(lg, f + 1)), Err(BufferEntryOverflow))
    ensures (forall j :: 0 <= j < lg.Capacity() ==> !PrinterFailsAt(lg, printer, j)) ==>
      ParseFrom(lg, printer, 0, None, [])
        == Parsed(CallsFor(lg, OccupiedBelow(lg, lg.Capacity())), Verdict(LastErrorId(lg, lg.Capacity())))
  {
    forall f | 0 <= f < lg.Capacity() && PrinterFailsAt(lg, printer, f)
               && (forall j :: 0 <= j < f ==> !PrinterFailsAt(lg, printer, j))
    {
      ParseFromAborts(lg, printer, 0, None, [], f);
    }
    if forall j :: 0 <= j < lg.Capacity() ==> !PrinterFailsAt(lg, printer, j) {
      ParseFromCompletes(lg, printer, 0, None, []);
    }
  }

  /**
    `parse_logger`. If the printer fails at some occupied non-Error slot,
    the pass ends at the lowest such slot with `BufferEntryOverflow`, having
    invoked callbacks exactly for the occupied slots up to and including it.
    Otherwise it invokes callbacks for every occupied slot in ascending
    order and ends with `InvalidIndex(id)` for the id of the highest Error
    slot, or `Ok(())` when there is none.
   */
  function ParseLogger(lg: LoggerNS, printer: PrinterFn): (r: Parsed)
    requires lg.WellFormed()
    ensures forall f :: 0 <= f < lg.Capacity() && PrinterFailsAt(lg, printer, f)
                        && (forall j :: 0 <= j < f ==> !PrinterFailsAt(lg, printer, j)) ==>
      r == Parsed(CallsFor(lg, OccupiedBelow(lg, f + 1)), Err(BufferEntryOverflow))
    ensures (forall j :: 0 <= j < lg.Capacity() ==> !PrinterFailsAt(lg, printer, j)) ==>
      r == Parsed(CallsFor(lg, OccupiedBelow(lg, lg.Capacity())), Verdict(LastErrorId(lg, lg.Capacity())))
  {
    ParseFromStartCorrect(lg, printer);
    ParseFrom(lg, printer, 0, None, [])
  }
}
