# mini_log heap-free logger — Dafny model

This project models the core of `mini_log`, a small Rust logging library. The core is the
heap-free logger `no_std_logger::LoggerNS`. It has three parts:

- **Slot allocator.** `get_next_avaliable_slot` scans a fixed array of free flags. It hands out the
  lowest free slot and clears that one flag. When every slot is occupied it hands out nothing.
- **Record store.** Four parallel fixed-size arrays hold, per slot, the message, the id, the kind
  and the free flag. The entry points `add_marker`, `add_log`, `add_warning` and `add_error` each
  acquire a slot and write a record into it. When no slot is free they return
  `Err(BufferEntryOverflow)`.
- **Dispatch pass.** `parse_logger` walks the occupied slots in ascending index order. It hands
  Marker, Log and Warning records to a `printer` callback that may fail, and Error records to a
  `crasher` callback. The first printer failure aborts the pass with `Err(BufferEntryOverflow)`.
  Otherwise the pass ends with `Err(InvalidIndex(id))`, where `id` is the id of the highest-index
  Error record, or with `Ok(())` when there is none. The payload of `InvalidIndex` is a record id,
  not a slot index, despite the variant's name.

The doc comments of the heap-free logger say that parsing a logger holding an Error "will crash the
program" and "will panic!" (src/lib.rs:175-177, 297-299). The code of its `parse_logger` does not
panic: it returns `Err(InvalidIndex(id))` (src/lib.rs:342-343). The model follows the code.

The heap-backed `std_logger::Logger` is modelled too, limited to its three lockstep vectors and the
decision its `parse_logger` makes: it panics exactly when some entry is an Error, and it names the
last such entry.

Everything is pure. The capacity `N` of the heap-free logger is a parameter: it is the common
length of the four arrays, where the source fixes it at 1024. A message is an opaque buffer of
exactly 1024 `c_char`s. `parse_logger` returns the sequence of callback invocations it made, the
trace, together with its result.

Modules, one per component:

- `Types` (`types.dfy`): `USize`, `CChar`, `Message`, `Option`, `OverflowError`, `Result`, `LoggingTypeNS`.
- `SlotAllocator` (`slot_allocator.dfy`): the free-flag scan.
- `NoStdLogger` (`logger_ns.dfy`): `LoggerNS`, `new_logger_ns` and the four `add_*` entry points.
- `Dispatch` (`dispatch.dfy`): `parse_logger` and its loop invariant.
- `Scenarios` (`scenarios.dfy`): runs of `add_*` calls on a fresh logger, followed by a pass.
- `StdLogger` (`std_logger.dfy`): the heap-backed variant.

## Model

| member | source | states |
|---|---|---|
| `SlotAllocator.FirstFreeFrom` | src/lib.rs:221-228 | The scan from index `from` finds a free slot with no free slot between `from` and it, or reports that none from `from` on is free. |
| `SlotAllocator.GetNextAvailableSlot` | src/lib.rs:220-229 | A slot is handed out exactly when some flag is set. The slot handed out is the lowest free one, only its flag is cleared, and when none is free the flags are unchanged. |
| `SlotAllocator.LowestFreeIsUnique` | src/lib.rs:220-229 | The lowest free slot is unique, so allocation is deterministic. |
| `SlotAllocator.AcquireConsumesOneSlot` | src/lib.rs:220-229 | Acquiring on a pool that is not full lowers the number of free slots by exactly one. |
| `NoStdLogger.NewLoggerNS` | src/lib.rs:208-216 | A fresh logger has every slot free, every message all zeros, every id 0 and every kind Marker. |
| `NoStdLogger.Append` | src/lib.rs:269-276 | On success the result is `Ok(slot)` for the lowest free slot, and only that slot's message, id, kind and free flag change. The call fails with `BufferEntryOverflow` exactly when no slot is free, and then the logger is unchanged. |
| `NoStdLogger.CopyBytes` | src/lib.rs:241-243 | The copy loop writes the given bytes from index `i` on and leaves every other position of the buffer as it was. |
| `NoStdLogger.MarkerPlace` | src/lib.rs:238-246 | The default marker message starts with the ASCII bytes of "Marker Place" and is zero from byte 12 on. |
| `NoStdLogger.AddMarker` | src/lib.rs:233-260 | Like `Append` with kind Marker. A missing message is stored as the "Marker Place" buffer and a missing id as 0; a supplied message or id is stored as given. |
| `NoStdLogger.AddLog` | src/lib.rs:264-277 | Like `Append` with kind Log: lowest free slot, nothing else changes, overflow leaves the logger unchanged. |
| `NoStdLogger.AddWarning` | src/lib.rs:281-294 | Like `Append` with kind Warning. |
| `NoStdLogger.AddError` | src/lib.rs:301-314 | Like `Append` with kind Error. |
| `Dispatch.OccupiedBelow` | src/lib.rs:326-327 | The slots the pass visits below `hi` are exactly the occupied ones, in strictly ascending order. |
| `Dispatch.LastErrorSlot` | src/lib.rs:334-337 | The highest occupied Error slot below `hi`, or none when there is no occupied Error slot below `hi`. |
| `Dispatch.Verdict` | src/lib.rs:342-346 | The end-of-pass rule: success exactly when no Error was seen, otherwise `InvalidIndex` carrying the remembered id. That the remembered id is the last Error's is stated by `Dispatch.ParseFromCompletes`. |
| `Dispatch.ParseFrom` | src/lib.rs:326-340 | The loop from slot `i` on. It only ever extends the trace made so far, by at most one call per remaining slot, and once an Error has been seen the pass can no longer succeed. Its full contract is in `Dispatch.ParseFromAborts` and `Dispatch.ParseFromCompletes`. |
| `Dispatch.ParseFromStep` | src/lib.rs:326-340 | One loop iteration that does not abort extends the trace by the call for slot `i`, if `i` is occupied, and updates the last Error id. |
| `Dispatch.ParseFromAborts` | src/lib.rs:329-332 | From the loop invariant at `i`, the pass stops at the first printer failure `f` at or above `i` with `BufferEntryOverflow`. The trace is then the calls for the occupied slots up to `f` and no later slot. |
| `Dispatch.ParseFromCompletes` | src/lib.rs:326-346 | From the loop invariant at `i`, when the printer never fails the pass calls back for every occupied slot and ends with the verdict for the last Error. |
| `Dispatch.ParseFromStartCorrect` | src/lib.rs:320-347 | The whole pass from slot 0 satisfies both cases of the abort/complete characterisation. |
| `Dispatch.ParseLogger` | src/lib.rs:320-347 | The first printer failure aborts the pass with `BufferEntryOverflow`, after callbacks for the occupied slots up to it only. With no failure, there is one callback per occupied slot in ascending order: crasher for Error, printer otherwise. The pass then ends with `InvalidIndex(id)` for the highest occupied Error slot's id, or `Ok(())`. The logger is not an output. |
| `Scenarios.Submit` | src/lib.rs:233-314 | Each kind of request goes to its entry point with the shared append contract, `add_marker`'s defaults filled in. |
| `Scenarios.Run` | src/lib.rs:233-314 | A run of requests keeps the logger well formed at the same capacity and yields one result per request. |
| `Scenarios.SubmitExtends` | src/lib.rs:269-273 | On a logger holding `k` records in slots `0..k-1` with room left, the next add succeeds with slot `k` and appends its record in order. |
| `Scenarios.RunFromFresh` | src/lib.rs:220-229 | From a fresh logger of capacity `N`, up to `N` adds succeed with slots 0, 1, 2, … in call order. The records then sit in those slots, and every later slot stays free. |
| `Scenarios.CapacityExhausted` | src/lib.rs:274-276 | After exactly `N` adds on a fresh logger of capacity `N`, the next add of any kind returns `Err(BufferEntryOverflow)` and leaves the logger unchanged. |
| `Scenarios.InsertionOrder` | src/lib.rs:320-347 | After up to `N` adds on a fresh logger, a pass whose printer accepts every record calls back once per add, in add order. It ends with the id of the last Error added, or `Ok(())`. |
| `Scenarios.OrderingExample` | src/lib.rs:326-340 | Records with ids 5, 6, 7 reach the callbacks in the order 5, 6, 7, and the Error one goes to the crasher. |
| `Scenarios.LastErrorWinsExample` | src/lib.rs:334-346 | Error 10, then a Log, then Error 20 makes the pass report `InvalidIndex(20)`, not 10. |
| `Scenarios.FreshLoggerParsesClean` | src/lib.rs:208-216 | A fresh logger dispatches nothing and the pass returns `Ok(())`. |
| `StdLogger.NewLogger` | src/lib.rs:67-73 | A new heap-backed logger holds exactly one entry: the "Logging Enabled" marker with id 0. |
| `StdLogger.Push` | src/lib.rs:80-82 | One entry is pushed onto each of the three vectors in lockstep, and the earlier entries are untouched. |
| `StdLogger.AddMarker` | src/lib.rs:77-83 | Pushes a Marker. A missing message becomes "Logging Enabled" and a missing id becomes 0. |
| `StdLogger.AddLog` | src/lib.rs:86-90 | Pushes a Log entry with the given message and id. |
| `StdLogger.AddWarning` | src/lib.rs:93-97 | Pushes a Warning entry with the given message and id. |
| `StdLogger.AddError` | src/lib.rs:100-104 | Pushes an Error entry with the given message and id. |
| `StdLogger.ScanFrom` | src/lib.rs:115-137 | The loop of the heap-backed `parse_logger`. Once an Error has been remembered some index stays remembered, and a newly remembered index is an Error entry at or after `i`. That it ends at the last Error is stated by `StdLogger.ScanFromFindsLastError`. |
| `StdLogger.ScanFromFindsLastError` | src/lib.rs:113-137 | Loop invariant of the scan: the index it ends with is the last Error entry, and it ends with none exactly when there is no Error entry. |
| `StdLogger.ParseLogger` | src/lib.rs:112-145 | The pass panics exactly when some entry is an Error. The panic names the message and id of the last Error entry. |
| `StdLogger.NewLoggerDoesNotPanic` | src/lib.rs:67-73 | Parsing a new logger does not panic. |
| `StdLogger.AddErrorIsReported` | src/lib.rs:134-143 | After `add_error(m, id)`, the next parse panics naming `(m, id)`. |
| `StdLogger.AddNonErrorKeepsDecision` | src/lib.rs:139-144 | Pushing a Marker, Log or Warning does not change what the next parse decides. |

## Left out

- Slot release and message truncation are not modelled. The source has neither operation: the only state change of a slot is `get_next_avaliable_slot` clearing its flag, and messages are always exactly 1024 `c_char`s.
- `InvalidIndex` only ever carries the last Error's id. No operation in the code checks an index against the capacity, so no out-of-range error path exists to model.
- Dispatch order is ascending slot index, as in the code. Without a release it coincides with insertion order (`Scenarios.InsertionOrder`).
- The capacity is a parameter `N` instead of `MAX_LOG_ENTRIES = 1024`. The model's free-flag array has length `N`, and the scan runs over that length. This is a generalisation the source itself cannot be built with: `new_logger_ns` writes the literal 1024 for every array (src/lib.rs:210-214), and `add_marker` and `add_log` store a `[c_char; MAX_LOG_ENTRIES]` into a `[c_char; MAX_LOG_LENGTH]` slot, which type-checks only while the two constants are equal. For `N = 1024` the model is the source's logger.
- `add_marker` and `add_log` type their message as `[c_char; MAX_LOG_ENTRIES]` (src/lib.rs:235, 266), while `add_warning` and `add_error` spell out `[c_char; 1024]` (src/lib.rs:283, 303). All of these are 1024 in the source, so every message is modelled with the one length `MaxLogLength`.
- `c_char` is taken as a signed byte. The only bytes the model itself writes are ASCII, so the choice does not matter. C-string termination is not modelled.
- Returned slot indices are `nat` rather than `usize`. They are always below the capacity.
- `Dispatch.ParseLogger`: the printer is a pure function of its arguments. A Rust `Fn` with interior mutability, whose answer depends on earlier calls, is not covered.
- `Dispatch.ParseLogger`: both callbacks are assumed to return normally. A printer or crasher that panics or never returns would end `parse_logger` at its slot, with no later callback and no result; that behaviour is not modelled. Under this assumption the crasher, which returns `()`, has no effect on the pass beyond being called, so the trace records the call and the crasher is not a parameter.
- Console output (`println!`/`eprintln!`) and the `panic!` of `std_logger::parse_logger` are not modelled. Only the decision is: whether the pass panics, and with which entry's message and id.
- The thread, `Arc`, `Mutex` and `mpsc` tests exercise concurrency wiring, not logic, and are left out.
- The `cfg(feature = "no_std")` attribute plumbing is left out.
- The `TEST_*` constants of the heap-backed logger are test fixtures and are not modelled.
