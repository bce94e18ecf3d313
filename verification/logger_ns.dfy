/**
  The record store of the heap-free logger: four parallel fixed-size arrays
  (message, id, kind, free flag) indexed by slot, and the four `add_*`
  entry points that acquire a slot and write a record into it.
 */
module NoStdLogger {
  import opened Types
  import opened SlotAllocator

  /** The logger. Capacity is the (common) length of the four arrays. */
  datatype LoggerNS = LoggerNS(
    log: seq<Message>,
    logId: seq<USize>,
    logType: seq<LoggingTypeNS>,
    freeSlots: seq<bool>)
  {
    function Capacity(): nat {
      |freeSlots|
    }

    /** The four arrays have the same length, as Rust's array types force. */
    predicate WellFormed() {
      |log| == |logId| == |logType| == |freeSlots|
    }

    predicate Occupied(i: nat)
      requires i < Capacity()
    {
      !freeSlots[i]
    }
  }

  /** A fresh logger of capacity `n`. */
  function NewLoggerNS(n: nat): (lg: LoggerNS)
    ensures lg.WellFormed() && lg.Capacity() == n
    ensures forall i :: 0 <= i < n ==>
      && lg.freeSlots[i]
      && lg.log[i] == ZeroMessage()
      && lg.logId[i] == 0
      && lg.logType[i] == Marker
  {
    LoggerNS(seq(n, _ => ZeroMessage()), seq(n, _ => 0), seq(n, _ => Marker), seq(n, _ => true))
  }

  /** What an `add_*` call returns: the logger afterwards and the slot or error. */
  datatype Added = Added(logger: LoggerNS, result: Result<nat>)

  /**
    `after` is `before` with the record (message, id, kind) written at `slot`,
    that slot marked occupied, and every other slot left exactly as it was.
   */
  ghost predicate WritesOnly(before: LoggerNS, after: LoggerNS, slot: nat,
                             message: Message, id: USize, kind: LoggingTypeNS)
    requires before.WellFormed()
  {
    && after.WellFormed()
    && after.Capacity() == before.Capacity()
    && slot < before.Capacity()
    && after.log[slot] == message
    && after.logId[slot] == id
    && after.logType[slot] == kind
    && !after.freeSlots[slot]
    && forall i :: 0 <= i < before.Capacity() && i != slot ==>
      && after.log[i] == before.log[i]
      && after.logId[i] == before.logId[i]
      && after.logType[i] == before.logType[i]
      && after.freeSlots[i] == before.freeSlots[i]
  }

  /**
    The contract shared by every `add_*` entry point: on success the slot
    returned is the lowest free one and only it changes; the call fails with
    `BufferEntryOverflow` exactly when no slot is free, and then the logger
    is unchanged.
   */
  ghost predicate AppendedAtLowestFree(lg: LoggerNS, message: Message, id: USize,
                                       kind: LoggingTypeNS, r: Added)
    requires lg.WellFormed()
  {
    match r.result
    case Ok(slot) => IsLowestFree(lg.freeSlots, slot) && WritesOnly(lg, r.logger, slot, message, id, kind)
    case Err(e) => e == BufferEntryOverflow && AllOccupied(lg.freeSlots) && r.logger == lg
  }

  /** The body the four `add_*` entry points share, with the kind as a parameter. */
  function Append(lg: LoggerNS, message: Message, id: USize, kind: LoggingTypeNS): (r: Added)
    requires lg.WellFormed()
    ensures AppendedAtLowestFree(lg, message, id, kind, r)
  {
    var acquired := GetNextAvailableSlot(lg.freeSlots);
    match acquired.slot
    case None => Added(lg, Err(BufferEntryOverflow))
    case Some(slot) =>
      Added(LoggerNS(lg.log[slot := message], lg.logId[slot := id],
                     lg.logType[slot := kind], acquired.free),
            Ok(slot))
  }

  /** The placeholder text of a marker added without a message. */
  const MarkerPlaceText: string := "Marker Place"

  /** The byte values of an ASCII string, as `c_char`s. */
  function AsciiBytes(s: string): (b: seq<CChar>)
    requires forall i :: 0 <= i < |s| ==> s[i] as int < 128
    ensures |b| == |s|
    ensures forall i :: 0 <= i < |s| ==> b[i] == s[i] as int
  {
    seq(|s|, i requires 0 <= i < |s| => s[i] as int)
  }

  /** The copy loop of `add_marker`: writes `bytes[i..]` over `arr` from index `i`. */
  function CopyBytes(arr: seq<CChar>, bytes: seq<CChar>, i: nat): (r: seq<CChar>)
    requires i <= |bytes| <= |arr|
    ensures |r| == |arr|
    ensures forall k :: i <= k < |bytes| ==> r[k] == bytes[k]
    ensures forall k :: 0 <= k < |arr| && (k < i || |bytes| <= k) ==> r[k] == arr[k]
    decreases |bytes| - i
  {
    if i == |bytes| then arr else CopyBytes(arr[i := bytes[i]], bytes, i + 1)
  }

  /** The default marker message: "Marker Place" followed by zeros. */
  function MarkerPlace(): (m: Message)
    ensures m[..|MarkerPlaceText|] == AsciiBytes(MarkerPlaceText)
    ensures forall k :: |MarkerPlaceText| <= k < MaxLogLength ==> m[k] == 0
  {
    CopyBytes(ZeroMessage(), AsciiBytes(MarkerPlaceText), 0)
  }

  /** `add_marker`: a missing message becomes `MarkerPlace()`, a missing id becomes 0. */
  function AddMarker(lg: LoggerNS, message: Option<Message>, id: Option<USize>): (r: Added)
    requires lg.WellFormed()
    ensures message.Some? ==> AppendedAtLowestFree(lg, message.value, id.GetOr(0), Marker, r)
    ensures message.None? ==> AppendedAtLowestFree(lg, MarkerPlace(), id.GetOr(0), Marker, r)
  {
    Append(lg, message.GetOr(MarkerPlace()), id.GetOr(0), Marker)
  }

  function AddLog(lg: LoggerNS, message: Message, id: USize): (r: Added)
    requires lg.WellFormed()
    ensures AppendedAtLowestFree(lg, message, id, Log, r)
  {
    Append(lg, message, id, Log)
  }

  function AddWarning(lg: LoggerNS, message: Message, id: USize): (r: Added)
    requires lg.WellFormed()
    ensures AppendedAtLowestFree(lg, message, id, Warning, r)
  {
    Append(lg, message, id, Warning)
  }

  function AddError(lg: LoggerNS, message: Message, id: USize): (r: Added)
    requires lg.WellFormed()
    ensures AppendedAtLowestFree(lg, message, id, Error, r)
  {
    Append(lg, message, id, Error)
  }
}
