# Mount registry and logging front end

A Dafny model of two pieces of a game server's core:

- **The mount registry** (`src/game/mount_manager.h`, `src/game/mount_manager.cpp`).
  A `CMountProto` wraps one row of the mount prototype table: vnum, name,
  locale name, movement speed, level and a fixed array of bonus applies.
  `CMountManager` loads the table into two indexes: one by vnum and one by
  non-empty name. When two rows share a key, the row loaded later wins.
  Lookups return the prototype or null, and iteration walks the vnum index
  in ascending vnum order.
- **The logging front end** (`src/libthecore/log.cpp`). Four loggers write to
  five sinks:
  - `syserr` writes to syserr.txt and log.txt;
  - `packet` writes to packets.txt and log.txt;
  - `instance` writes to instance.txt and log.txt;
  - `syslog` writes to the rotating syslog sink only.

  A process-wide flag makes `log_init` and `log_destroy` idempotent. The same
  flag turns each entry point into a no-op while logging is not set up.
  `_format` expands a message into a per-thread buffer and returns a
  clamped view of it.

Files:

- `wrappers.dfy`: the `Option` type, standing in for nullable pointers.
- `mount_manager.dfy`: module `MountManager`.
  - `MountProto` is a class with a constant `table`.
  - `Manager` is a class with the two index maps and a ghost sequence
    `loaded`: the prototypes allocated by the last `Initialize`, in table
    order.
  - `Manager.Valid()` ties the maps to `VnumIndex(loaded)` and
    `NameIndex(loaded)`. These folds are proved equal to "last row with the
    key wins" (the slot maps `VnumSlots` and `NameSlots`).
- `log.dfy`: module `Log`. The observable state is a `Facility` value:
  - the build, the set-up flag, and the records each sink received;
  - pure transitions `Init`, `Destroy` and `Emit`, plus one step per entry
    point;
  - the class `LogFacility`, whose methods are proved equal to those
    transitions and to keep the invariant `Consistent`.

  `Consistent` says:
  - every record in a sink was routed there and let through by its logger's
    threshold;
  - each dedicated file is exactly its logger's part of log.txt, in order.

Parameters and abstractions:

- `MountManager.ApplyNone` stands for `APPLY_NONE`. Its value is left
  unspecified, because the header defining it is not part of this model.
  `MOUNT_APPLY_MAX_NUM` is the length of a row's `applies` sequence.
- The vnum is an unsigned 32-bit value (`DWord`). Speed, level and apply
  type are bytes.
- Names and locale names, and the argument of the lookup by name, are C
  strings (`CString`, text without a NUL character), so `strlen` is their
  length.
- The build configuration (`_DEBUG` or not) is the parameter `Build`.
- What `vsnprintf` produces from the format and its arguments is the
  parameter `Expansion`: either the full expanded text or a failure.

## Model

| member | source | states |
|---|---|---|
| MountManager.MountProto.constructor | src/game/mount_manager.cpp:70-78 | A new prototype holds a copy of the given table row. |
| MountManager.MountProto.GetVnum | src/game/mount_manager.h:22 | Definition only, no contract: the vnum of the row the prototype holds. |
| MountManager.MountProto.GetName | src/game/mount_manager.h:23 | Definition only, no contract: the name of the row, a C string that may be empty. |
| MountManager.MountProto.GetLocaleName | src/game/mount_manager.h:24 | Definition only, no contract: the locale name of the row. |
| MountManager.MountProto.GetMovSpeed | src/game/mount_manager.h:25 | Definition only, no contract: the movement speed of the row, a byte. |
| MountManager.MountProto.GetLevel | src/game/mount_manager.h:26 | Definition only, no contract: the level of the row, a byte. |
| MountManager.MountProto.GetApply | src/game/mount_manager.cpp:20-32 | Returns an apply exactly when the index is within the applies array and that apply's type is not APPLY_NONE. The returned apply is the one at that index. |
| MountManager.MountProto.GetApplyCount | src/game/mount_manager.cpp:34-45 | The count is the number of indexes for which GetApply returns an apply, so it lies between 0 and MOUNT_APPLY_MAX_NUM. |
| MountManager.ActiveCount | src/game/mount_manager.cpp:38-42 | The number of non-APPLY_NONE applies never exceeds the number of applies. |
| MountManager.ActiveCountIsSlotCount | src/game/mount_manager.cpp:38-42 | The counting loop's tally equals the size of the set of active slots. |
| MountManager.VnumSlotsLastWins | src/game/mount_manager.cpp:81 | A vnum is indexed iff some loaded row has it. The indexed row has that vnum, and no later row has it. |
| MountManager.NameSlotsLastWins | src/game/mount_manager.cpp:84-85 | A name is indexed iff it is non-empty and some loaded row has it. The indexed row is the last row with that name. |
| MountManager.VnumSlotsKeys | src/game/mount_manager.cpp:81 | The keys of the vnum index are exactly the vnums of the loaded rows. |
| MountManager.VnumsAtMostEntries | src/game/mount_manager.cpp:68-81 | There are no more distinct vnums than rows. |
| MountManager.VnumSlotsSize | src/game/mount_manager.cpp:108 | The vnum index size reported after loading equals the number of distinct vnums, which is at most the number of rows. |
| MountManager.ShadowedEntryReachableByName | src/game/mount_manager.cpp:81-85 | Suppose a row is overridden by a later row with the same vnum, and it is the last row with its non-empty name. Then the name index still leads to it, although the vnum index does not. |
| MountManager.VnumIndex | src/game/mount_manager.cpp:68-81 | Definition only, no contract: the vnum map after the prototypes are inserted in order, each under its vnum, overwriting. `Manager.Valid` is defined by it. Its properties are stated by VnumIndexFollowsSlots, VnumIndexKeysMatch, LoadStep and VnumIndexSize. |
| MountManager.NameIndex | src/game/mount_manager.cpp:83-85 | Definition only, no contract: the name map after the same inserts, where prototypes with an empty name are skipped. `Manager.Valid` is defined by it. Its properties are stated by NameIndexFollowsSlots and LoadStep. |
| MountManager.VnumIndexFollowsSlots | src/game/mount_manager.cpp:68-81 | Loading the rows one by one into the vnum map gives, for each vnum, the prototype of the last row with that vnum. |
| MountManager.NameIndexFollowsSlots | src/game/mount_manager.cpp:83-85 | Loading the rows one by one into the name map gives, for each non-empty name, the prototype of the last row with that name. |
| MountManager.VnumIndexKeysMatch | src/game/mount_manager.cpp:81 | Every prototype in the vnum index is stored under its own vnum. |
| MountManager.LoadStep | src/game/mount_manager.cpp:80-85 | Loading one more prototype overwrites its vnum's entry. It overwrites its name's entry too when the name is non-empty, and changes nothing else. |
| MountManager.VnumIndexSize | src/game/mount_manager.cpp:108 | The vnum index has one entry per distinct loaded vnum, so at most one per row. |
| MountManager.Ascending | src/game/mount_manager.h:95-101 | Lists a set of vnums in strictly ascending order, each element exactly once. |
| MountManager.InOrderAscending | src/game/mount_manager.h:95-101 | An in-order walk of the vnum map visits keys in strictly ascending order and visits one entry per key. |
| MountManager.InOrderValues | src/game/mount_manager.h:95-101 | Each visited pair is a key of the map together with its value. |
| MountManager.InOrderCovers | src/game/mount_manager.h:95-101 | Every key of the map is visited. |
| MountManager.Manager.constructor | src/game/mount_manager.cpp:51-53 | A new manager has both indexes empty and nothing loaded. |
| MountManager.Manager.Destroy | src/game/mount_manager.cpp:112-124 | Both indexes become empty, and the registry no longer holds any prototype. |
| MountManager.Manager.Load | src/game/mount_manager.cpp:70-85 | Allocates a fresh prototype holding the row and appends it to the loaded prototypes. The indexes stay exactly the folds of the loaded prototypes. |
| MountManager.Manager.Initialize | src/game/mount_manager.cpp:60-110 | Always returns true. It first clears the indexes. Then it loads one fresh, distinct prototype per row `0..size-1`, so none for a size of 0 or less. Afterwards the indexes are the last-wins folds of those prototypes, and the vnum index holds one entry per distinct vnum. |
| MountManager.Manager.Get | src/game/mount_manager.cpp:126-134 | Returns null iff no loaded prototype has the vnum. Otherwise returns the prototype of the last row with that vnum. |
| MountManager.Manager.GetByName | src/game/mount_manager.cpp:136-147 | Returns null for a null or empty name, and iff no loaded prototype has the name. Otherwise returns the prototype of the last row with that name. |
| MountManager.Manager.Iteration | src/game/mount_manager.h:95-101 | From begin to end, the walk visits every vnum of the index, in strictly ascending order. Each vnum is visited once, with the prototype stored under it, and that prototype's vnum is the key. |
| Log.Route | src/libthecore/log.cpp:37-78 | Definition only, no contract: the sinks each logger is built with, in order. syserr, packet and instance have their own file and then log.txt. syslog has only the rotating sink. Its properties are stated by RoutingTable. |
| Log.Threshold | src/libthecore/log.cpp:80-89 | Definition only, no contract: syslog, packet and instance are set to debug in a debug build and to info otherwise. syserr keeps the library default, info. Its properties are stated by ReleaseSysLogFilter, DebugSysLogFilter and FixedLevelsPass. |
| Log.SysLogLevel | src/libthecore/log.cpp:125-132 | Level 1 maps to debug, levels 2 and 3 map to trace, and every other integer maps to info, so no level above info is produced. |
| Log.Init | src/libthecore/log.cpp:26-96 | Definition only, no contract: nothing when already set up, otherwise set up with every sink freshly opened. Its properties are stated by InitIdempotent, ReinitAfterDestroy and InitConsistent. |
| Log.Destroy | src/libthecore/log.cpp:98-105 | Definition only, no contract: nothing when not set up, otherwise the flag is cleared. Its properties are stated by DestroyIdempotent and DestroyConsistent. |
| Log.Deliver | src/libthecore/log.cpp:37-68 | Definition only, no contract: appends a record to each sink of a route. Its properties are stated by EmitDelivers, DeliverAdmitted and DeliverKeepsTee. |
| Log.Emit | src/libthecore/log.cpp:117 | Definition only, no contract: one log call on a logger. Nothing happens when the facility is not set up or the level is below the logger's threshold; otherwise the record is delivered along the logger's route. Its properties are stated by EmitDelivers and EmitConsistent. |
| Log.SysErrStep | src/libthecore/log.cpp:107-118 | Definition only, no contract: _sys_err as one error-level log call on syserr that carries the caller's location. Its properties are stated by EntryPointsGuarded and FixedLevelsPass. |
| Log.SysLogStep | src/libthecore/log.cpp:120-135 | Definition only, no contract: _sys_log as one log call on syslog at the mapped level. Its properties are stated by EntryPointsGuarded, ReleaseSysLogFilter and DebugSysLogFilter. |
| Log.SysPacketStep | src/libthecore/log.cpp:137-143 | Definition only, no contract: _sys_packet as one info-level log call on packet. Its properties are stated by EntryPointsGuarded and FixedLevelsPass. |
| Log.SysInstanceStep | src/libthecore/log.cpp:145-151 | Definition only, no contract: _sys_instance as one info-level log call on instance. Its properties are stated by EntryPointsGuarded and FixedLevelsPass. |
| Log.InitIdempotent | src/libthecore/log.cpp:26-96 | log_init always ends set up, keeps the build, and does nothing when already set up. Calling it twice is the same as calling it once. |
| Log.DestroyIdempotent | src/libthecore/log.cpp:98-105 | log_destroy always ends torn down and keeps what was written. It does nothing when not set up. Calling it twice is the same as calling it once. |
| Log.ReinitAfterDestroy | src/libthecore/log.cpp:26-105 | log_init after log_destroy performs a full setup again with freshly truncated sinks. This differs from log_init on a set-up facility whose sinks hold records. |
| Log.EntryPointsGuarded | src/libthecore/log.cpp:107-151 | While not set up, _sys_err, _sys_log, _sys_packet and _sys_instance change nothing. |
| Log.ReleaseSysLogFilter | src/libthecore/log.cpp:120-135 | In a release build, a _sys_log call is written iff its level is not 1, 2 or 3. |
| Log.DebugSysLogFilter | src/libthecore/log.cpp:81-84 | In a debug build, a _sys_log call is written iff its level is not 2 or 3. |
| Log.FixedLevelsPass | src/libthecore/log.cpp:80-89 | In either build, error records on syserr pass, and so do info records on packet and instance. |
| Log.RoutingTable | src/libthecore/log.cpp:33-78 | Every logger writes to its own sink first. syserr, packet and instance then write to log.txt, and syslog does not. log.txt is the only sink two loggers share. |
| Log.EmitDelivers | src/libthecore/log.cpp:33-78 | A log call that passes its threshold on a set-up facility appends its record to exactly the sinks of its logger. Every other call leaves every sink unchanged. |
| Log.InitConsistent | src/libthecore/log.cpp:26-96 | log_init keeps the sink invariant. |
| Log.DestroyConsistent | src/libthecore/log.cpp:98-105 | log_destroy keeps the sink invariant. |
| Log.DeliverAdmitted | src/libthecore/log.cpp:33-78 | After a delivery, every record in every sink is routed to that sink and passes its logger's threshold. |
| Log.DeliverKeepsTee | src/libthecore/log.cpp:37-68 | After a delivery, syserr.txt, packets.txt and instance.txt each still equal their logger's records in log.txt, in order. |
| Log.EmitConsistent | src/libthecore/log.cpp:107-151 | Each entry point keeps the sink invariant. |
| Log.CombinedLogHasNoSyslog | src/libthecore/log.cpp:70-78 | log.txt never holds a syslog record. |
| Log.SinksRespectThresholds | src/libthecore/log.cpp:80-89 | No sink holds a record below its logger's threshold. In a release build, the syslog sink holds only info records. |
| Log.LogFacility.constructor | src/libthecore/log.cpp:24 | Before log_init, logging is not set up and nothing has been written. |
| Log.LogFacility.LogInit | src/libthecore/log.cpp:26-96 | The new state is Init of the old state, and the sink invariant holds. |
| Log.LogFacility.LogDestroy | src/libthecore/log.cpp:98-105 | The new state is Destroy of the old state, and the sink invariant holds. |
| Log.LogFacility.Write | src/libthecore/log.cpp:117 | A logger's log call: the new state is Emit of the old state, and the sink invariant holds. |
| Log.LogFacility.SysErr | src/libthecore/log.cpp:107-118 | The new state is the _sys_err step: one error record carrying the caller's location, on syserr, or nothing while not set up. |
| Log.LogFacility.SysLog | src/libthecore/log.cpp:120-135 | The new state is the _sys_log step at the mapped level, or nothing while not set up. |
| Log.LogFacility.SysPacket | src/libthecore/log.cpp:137-143 | The new state is the _sys_packet step: one info record on packet, or nothing while not set up. |
| Log.LogFacility.SysInstance | src/libthecore/log.cpp:145-151 | The new state is the _sys_instance step: one info record on instance, or nothing while not set up. |
| Log.ReportedLength | src/libthecore/log.cpp:159 | vsnprintf's `int` result is non-negative exactly when the expansion succeeded and its length fits in an `int` (at most 2147483647). In that case the result is the expansion's length. |
| Log.FormatView | src/libthecore/log.cpp:153-162 | The view's length is the reported length clamped to 0..4096. A negative report gives an empty view: a failure, or an expansion too long for an `int`. A text shorter than 4096 is returned whole. A text of 4096 or more characters gives its first 4095 characters followed by the terminator. |
| Log.IntendedView | src/libthecore/log.cpp:156-161 | The corrected view is vsnprintf given the whole 4097-character buffer. Its length is the reported length clamped to 0..4096, the same as the view as written. |
| Log.IntendedViewIsPrefix | src/libthecore/log.cpp:156-161 | The corrected view is always a prefix of the expansion. It is the whole text when the text has at most 4096 characters, and its first 4096 characters otherwise. It is empty when the length does not fit in an `int`. |
| Log.FormatViewAgainstIntended | src/libthecore/log.cpp:159-161 | The view as written equals the corrected view when the reported length is below 4096. Otherwise it has the corrected view's first 4095 characters followed by the terminator. |
| Log.FormatViewAddsTerminator | src/libthecore/log.cpp:159-161 | A 4096-character expansion with no terminator in it comes back as a view that ends in a terminator and is not a prefix of the expansion. The corrected view of the same input is the whole expansion. |
| Log.Format | src/libthecore/log.cpp:153-162 | Returns the view FormatView describes, and that view is the front of the buffer. When the reported length is non-negative, it writes the first n characters of the expansion into the 4097-character buffer, with n the length clamped to 4095. It puts the terminator at position n and leaves every later position as it was. |

## Left out

- Memory: `new` and `delete` of prototypes are not modelled. So are the `!proto` branch (an allocation that returns null) and the destructor. Allocation in Dafny always succeeds. After Destroy, no index refers to any prototype.
- MountManager.Manager.Initialize: the `sys_log` diagnostics it emits are not modelled. These are the per-mount and per-apply lines at `mount_manager.cpp:65,88-105,108`. The mount registry is modelled separately from the logging state.
- MountManager.Manager.Iteration: the map iterator `begin()`/`end()` is modelled as the ghost sequence of the pairs it visits. Mutation through the iterator's non-const `second` is not modelled.
- The values of `APPLY_NONE` and `MOUNT_APPLY_MAX_NUM`, and the layout of `TMountTable`: they are defined in a header outside the model. The fixed width of the name fields is not modelled: a name is the C string before its terminator.
- Table entries past `size` and a `size` larger than the table: the source reads past the array, so `Initialize` requires `size <= |table|`.
- Log: the spdlog thread pool, asynchronous delivery, the queue size and overflow policy are not modelled. Delivery is a synchronous append.
- Log: logger registration, `flush_every`, the `atexit` hook, `spdlog::shutdown` flushing, output patterns and timestamps are not modelled. These touch I/O or the clock and do not change which records reach which sink.
- Log.Init: the model has no failing file creation. In the source, a sink file that cannot be opened ends `log_init` with an exception before the flag is set at `log.cpp:95`, so logging stays not set up. Log.InitIdempotent's "always ends set up" holds only when every sink opens.
- Log: the rotation policy of the syslog rotating sink is not modelled (its source is not part of this model). The sink is a sequence of records.
- Log.LogFacility.LogInit: reopening the sinks is modelled as starting all five sinks empty. The four file sinks are opened with truncation. The rotating sink's contents after re-creation depend on its unmodelled policy.
- Log.Threshold: log.cpp never sets the syserr threshold, so it is modelled as the library's default level, info.
- Log.Format: the expansion of a format string with C varargs is abstracted as the `Expansion` parameter. The length `vsnprintf` reports is that expansion's length when it fits in an `int`, and negative otherwise (POSIX's EOVERFLOW); both negative cases give an empty view. The contract does not constrain the buffer after a negative report. What vsnprintf writes then is not specified; the model writes nothing.
- Log.Format: the buffer is `thread_local`. One buffer is modelled, passed in by the caller. The `sys_err`/`sys_log`/`sys_packet`/`sys_instance` macros of `log.h` compose `_format` with the entry points. They are not modelled separately; the entry points take the text directly.
- The comment at `log.cpp:33` says log.txt receives all logs. The code does not route syslog to log.txt, and the model follows the code (Log.CombinedLogHasNoSyslog).

## Findings

| source | as written | input that shows it | evidently intended | confidence | as-written member | corrected member |
|---|---|---|---|---|---|---|
| src/libthecore/log.cpp:159-161 | `vsnprintf` gets size 4096, so it stores at most 4095 characters plus a terminator. Yet the view length is clamped to 4096. An over-long message therefore comes back with the terminator as its last character, and that NUL is passed on to the sinks. | an expansion of 4096 or more characters, e.g. 4096 times `a` | the message truncated to capacity, with nothing added. The buffer is declared with `BUFFER_SIZE + 1` characters (`log.cpp:156`), which points to passing that full size to `vsnprintf`: the view then holds up to 4096 characters of the text. | medium, not executed | Log.FormatViewAddsTerminator | Log.IntendedView |

`Log.Format` and `Log.FormatView` keep the behaviour as written.
`Log.FormatViewAgainstIntended` states exactly how it differs from the corrected view.
Nothing else in the model consumes a formatted view.
