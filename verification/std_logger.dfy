/**
  The heap-backed logger: three vectors (message, id, kind) that grow in
  lockstep, and a parse pass that ends in a panic naming the last Error
  entry. Only the panic/no-panic decision and the entry it names are
  modelled; the console output is not.
 */
module StdLogger {
  import Types

  /** Message of the marker every new logger starts with. */
  const InitMark: string := "Logging Enabled"
  /** Id of that marker, and of a marker added without an id. */
  const InitMarkId: Types.USize := 0

  datatype LoggingType = Error | Warning | Log | Marker

  datatype Logger = Logger(log: seq<string>, logId: seq<Types.USize>, logType: seq<LoggingType>) {
    /** The three vectors have the same length. */
    predicate InLockstep() {
      |log| == |logId| == |logType|
    }
  }

  /**
    `after` is `before` with one entry (message, id, kind) pushed onto the
    end of each vector, the existing entries untouched.
   */
  ghost predicate Pushed(before: Logger, after: Logger, message: string, id: Types.USize, kind: LoggingType)
    requires before.InLockstep()
  {
    var n := |before.log|;
    && after.InLockstep()
    && |after.log| == n + 1
    && after.log[..n] == before.log && after.logId[..n] == before.logId && after.logType[..n] == before.logType
    && after.log[n] == message && after.logId[n] == id && after.logType[n] == kind
  }

  /** `new_logger`: a logger holding the single initial marker. */
  function NewLogger(): (lg: Logger)
    ensures lg.InLockstep() && |lg.log| == 1
    ensures lg.log[0] == InitMark && lg.logId[0] == InitMarkId && lg.logType[0] == Marker
  {
    Logger([InitMark], [InitMarkId], [Marker])
  }

  /** The push the four `add_*` methods share. */
  function Push(lg: Logger, message: string, id: Types.USize, kind: LoggingType): (r: Logger)
    requires lg.InLockstep()
    ensures Pushed(lg, r, message, id, kind)
  {
    Logger(lg.log + [message], lg.logId + [id], lg.logType + [kind])
  }

  /** `add_marker`: a missing message becomes `InitMark`, a missing id `InitMarkId`. */
  function AddMarker(lg: Logger, message: Types.Option<string>, id: Types.Option<Types.USize>): (r: Logger)
    requires lg.InLockstep()
    ensures Pushed(lg, r, message.GetOr(InitMark), id.GetOr(InitMarkId), Marker)
  {
    Push(lg, message.GetOr(InitMark), id.GetOr(InitMarkId), Marker)
  }

  function AddLog(lg: Logger, message: string, id: Types.USize): (r: Logger)
    requires lg.InLockstep()
    ensures Pushed(lg, r, message, id, Log)
  {
    Push(lg, message, id, Log)
  }

  function AddWarning(lg: Logger, message: string, id: Types.USize): (r: Logger)
    requires lg.InLockstep()
    ensures Pushed(lg, r, message, id, Warning)
  {
    Push(lg, message, id, Warning)
  }

  function AddError(lg: Logger, message: string, id: Types.USize): (r: Logger)
    requires lg.InLockstep()
    ensures Pushed(lg, r, message, id, Error)
  {
    Push(lg, message, id, Error)
  }

  /** `idx` is an Error entry and no later entry is one. */
  predicate IsLastError(lg: Logger, idx: int)
    requires lg.InLockstep()
  {
    0 <= idx < |lg.logType| && lg.logType[idx] == Error
    && forall k :: idx < k < |lg.logType| ==> lg.logType[k] != Error
  }

  /** No entry is an Error. */
  predicate NoErrors(lg: Logger)
    requires lg.InLockstep()
  {
    forall k :: 0 <= k < |lg.logType| ==> lg.logType[k] != Error
  }

  /** The loop of `parse_logger` from entry `i` on, `last` the last Error index so far. */
  function ScanFrom(lg: Logger, i: nat, last: Types.Option<nat>): (r: Types.Option<nat>)
    requires lg.InLockstep() && i <= |lg.log|
    ensures last.Some? ==> r.Some?
    ensures r.Some? && r != last ==> i <= r.value < |lg.log| && lg.logType[r.value] == Error
    decreases |lg.log| - i
  {
    if i == |lg.log| then last
    else ScanFrom(lg, i + 1, if lg.logType[i] == Error then Types.Some(i) else last)
  }

  /** Loop invariant: `last` is the last Error index below `i`, or None if there is none. */
  lemma {:induction false} ScanFromFindsLastError(lg: Logger, i: nat, last: Types.Option<nat>)
    requires lg.InLockstep() && i <= |lg.log|
    requires last.None? ==> forall k :: 0 <= k < i ==> lg.logType[k] != Error
    requires last.Some? ==> last.value < i && lg.logType[last.value] == Error
                            && forall k :: last.value < k < i ==> lg.logType[k] != Error
    ensures ScanFrom(lg, i, last).None? <==> NoErrors(lg)
    ensures ScanFrom(lg, i, last).Some? ==> IsLastError(lg, ScanFrom(lg, i, last).value)
    decreases |lg.log| - i
  {
    if i < |lg.log| {
      ScanFromFindsLastError(lg, i + 1, if lg.logType[i] == Error then Types.Some(i) else last);
    }
  }

  /** The entry the final panic reports. */
  datatype Panic = Panic(message: string, id: Types.USize)

  /**
    The decision of `parse_logger`: it panics exactly when some entry is an
    Error, and the panic names the message and id of the last such entry.
   */
  function ParseLogger(lg: Logger): (r: Types.Option<Panic>)
    requires lg.InLockstep()
    ensures r.None? <==> NoErrors(lg)
    ensures r.Some? ==> exists idx :: IsLastError(lg, idx) && r.value == Panic(lg.log[idx], lg.logId[idx])
  {
    ScanFromFindsLastError(lg, 0, Types.None);
    match ScanFrom(lg, 0, Types.None)
    case None => Types.None
    case Some(idx) => Types.Some(Panic(lg.log[idx], lg.logId[idx]))
  }

  /** A new logger holds only its initial marker, so parsing it does not panic. */
  lemma NewLoggerDoesNotPanic()
    ensures ParseLogger(NewLogger()).None?
  {
  }

  /** Adding an Error makes it the one the next parse panics with. */
  lemma AddErrorIsReported(lg: Logger, message: string, id: Types.USize)
    requires lg.InLockstep()
    ensures ParseLogger(AddError(lg, message, id)) == Types.Some(Panic(message, id))
  {
    var after := AddError(lg, message, id);
    var r := ParseLogger(after);
    assert !NoErrors(after) by {
      assert after.logType[|lg.log|] == Error;
    }
    var idx :| IsLastError(after, idx) && r.value == Panic(after.log[idx], after.logId[idx]);
    assert idx == |lg.log|;
  }

  /** Adding a Marker, Log or Warning leaves the parse decision as it was. */
  lemma AddNonErrorKeepsDecision(lg: Logger, message: string, id: Types.USize, kind: LoggingType)
    requires lg.InLockstep() && kind != Error
    ensures ParseLogger(Push(lg, message, id, kind)) == ParseLogger(lg)
  {
    var after := Push(lg, message, id, kind);
    var n := |lg.log|;
    assert forall k :: 0 <= k < n ==> after.logType[k] == lg.logType[k] && after.log[k] == lg.log[k] && after.logId[k] == lg.logId[k] by {
      assert after.logType[..n] == lg.logType && after.log[..n] == lg.log && after.logId[..n] == lg.logId;
    }
    assert NoErrors(after) <==> NoErrors(lg);
    if !NoErrors(lg) {
      var a := ParseLogger(after);
      var b := ParseLogger(lg);
      var i :| IsLastError(after, i) && a.value == Panic(after.log[i], after.logId[i]);
      var j :| IsLastError(lg, j) && b.value == Panic(lg.log[j], lg.logId[j]);
      assert i < n;
    }
  }
}
