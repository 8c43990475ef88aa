/**
 * The logging front end (src/libthecore/log.cpp).
 *
 * Four loggers ("syserr", "packet", "instance", "syslog") write to five
 * sinks.  A process-wide flag makes setup and teardown idempotent and turns
 * every entry point into a no-op while the facility is not set up.  Delivery,
 * which the library performs on a worker thread, is modelled as a synchronous
 * append of the record to every sink of its logger, in the logger's order.
 */
module Log {
  import opened Wrappers

  // ---------------------------------------------------------------------
  // Levels, loggers, sinks
  // ---------------------------------------------------------------------

  /** The severities in use, lowest first. */
  datatype Level = Trace | Debug | Info | Warn | Err

  function Severity(l: Level): nat
  {
    match l
    case Trace => 0
    case Debug => 1
    case Info => 2
    case Warn => 3
    case Err => 4
  }

  /** A logger lets a record through when its level is at least the logger's threshold. */
  predicate Passes(level: Level, threshold: Level)
  {
    Severity(level) >= Severity(threshold)
  }

  datatype Logger = SyserrLogger | PacketLogger | InstanceLogger | SyslogLogger

  /** syserr.txt, packets.txt, instance.txt, the combined log.txt, and the rotating syslog sink. */
  datatype Sink = SyserrTxt | PacketsTxt | InstanceTxt | LogTxt | SyslogRotate

  const AllSinks: set<Sink> := {SyserrTxt, PacketsTxt, InstanceTxt, LogTxt, SyslogRotate}

  /** The build configuration: whether _DEBUG is defined. */
  datatype Build = Release | DebugBuild

  /** The sinks each logger is built with, in the order it writes to them. */
  function Route(l: Logger): seq<Sink>
  {
    match l
    case SyserrLogger => [SyserrTxt, LogTxt]
    case PacketLogger => [PacketsTxt, LogTxt]
    case InstanceLogger => [InstanceTxt, LogTxt]
    case SyslogLogger => [SyslogRotate]
  }

  /** The threshold a logger starts with when no level is set on it. */
  const LibraryDefaultLevel: Level := Info

  /**
   * Each logger's threshold after setup: syslog, packet and instance are set
   * to debug in a debug build and to info otherwise; syserr is never set.
   */
  function Threshold(l: Logger, b: Build): Level
  {
    match l
    case SyserrLogger => LibraryDefaultLevel
    case _ => if b == DebugBuild then Debug else Info
  }

  /** The severity _sys_log gives to its integer level. */
  function SysLogLevel(level: int): (l: Level)
    ensures level == 1 ==> l == Debug
    ensures level == 2 || level == 3 ==> l == Trace
    ensures l == Info <==> level != 1 && level != 2 && level != 3
    ensures Severity(l) <= Severity(Info)
  {
    match level
    case 1 => Debug
    case 2 => Trace
    case 3 => Trace
    case _ => Info
  }

  // ---------------------------------------------------------------------
  // Records and the facility's observable state
  // ---------------------------------------------------------------------

  /** The caller's position that _sys_err attaches to its record. */
  datatype SourceLocation = SourceLocation(file: string, line: int, functionName: string)

  datatype Record = Record(logger: Logger, level: Level, text: string, location: Option<SourceLocation>)

  /**
   * The facility as far as it can be observed: whether it is set up, and
   * the records each sink of the current setup has received.
   */
  datatype Facility = Facility(build: Build, initialized: bool, sinks: map<Sink, seq<Record>>)

  /** Every sink freshly opened: the four files are opened with truncation. */
  function EmptySinks(): map<Sink, seq<Record>>
  {
    map s | s in AllSinks :: []
  }

  /** log_init: nothing when already set up, otherwise a full setup. */
  function Init(f: Facility): Facility
  {
    if f.initialized then f else Facility(f.build, true, EmptySinks())
  }

  /** log_destroy: nothing when not set up, otherwise the flag is cleared; written records stay written. */
  function Destroy(f: Facility): Facility
  {
    if !f.initialized then f else f.(initialized := false)
  }

  /** Appends `r` to every sink of `route`. */
  function Deliver(sinks: map<Sink, seq<Record>>, route: seq<Sink>, r: Record): map<Sink, seq<Record>>
  {
    map s | s in sinks :: if s in route then sinks[s] + [r] else sinks[s]
  }

  /** One call of a logger: filtered by its threshold, then written to each of its sinks. */
  function Emit(f: Facility, l: Logger, level: Level, text: string, location: Option<SourceLocation>): Facility
  {
    if !f.initialized || !Passes(level, Threshold(l, f.build)) then f
    else f.(sinks := Deliver(f.sinks, Route(l), Record(l, level, text, location)))
  }

  /** _sys_err: an error-level record on syserr, carrying the caller's location. */
  function SysErrStep(f: Facility, text: string, location: SourceLocation): Facility
  {
    Emit(f, SyserrLogger, Err, text, Some(location))
  }

  /** _sys_log: a record on syslog at the severity its integer level maps to. */
  function SysLogStep(f: Facility, level: int, text: string): Facility
  {
    Emit(f, SyslogLogger, SysLogLevel(level), text, None)
  }

  /** _sys_packet: an info-level record on packet. */
  function SysPacketStep(f: Facility, text: string): Facility
  {
    Emit(f, PacketLogger, Info, text, None)
  }

  /** _sys_instance: an info-level record on instance. */
  function SysInstanceStep(f: Facility, text: string): Facility
  {
    Emit(f, InstanceLogger, Info, text, None)
  }

  // ---------------------------------------------------------------------
  // Lifecycle
  // ---------------------------------------------------------------------

  /** log_init twice is log_init once, and it always ends set up. */
  lemma InitIdempotent(f: Facility)
    ensures Init(Init(f)) == Init(f)
    ensures Init(f).initialized && Init(f).build == f.build
    ensures f.initialized ==> Init(f) == f
  {
  }

  /** log_destroy twice is log_destroy once; it ends torn down and keeps what was written. */
  lemma DestroyIdempotent(f: Facility)
    ensures Destroy(Destroy(f)) == Destroy(f)
    ensures !Destroy(f).initialized && Destroy(f).sinks == f.sinks && Destroy(f).build == f.build
    ensures !f.initialized ==> Destroy(f) == f
  {
  }

  /**
   * Teardown is not terminal: log_init after log_destroy performs the whole
   * setup again (and reopens the sinks), whereas log_init on a set-up
   * facility keeps what was written.
   */
  lemma ReinitAfterDestroy(f: Facility)
    ensures Init(Destroy(f)) == Facility(f.build, true, EmptySinks())
    ensures f.initialized && f.sinks != EmptySinks() ==> Init(Destroy(f)) != Init(f)
  {
  }

  /** Every entry point is a no-op unless the facility is set up. */
  lemma EntryPointsGuarded(f: Facility, level: int, text: string, location: SourceLocation)
    requires !f.initialized
    ensures SysErrStep(f, text, location) == f
    ensures SysLogStep(f, level, text) == f
    ensures SysPacketStep(f, text) == f
    ensures SysInstanceStep(f, text) == f
  {
  }

  // ---------------------------------------------------------------------
  // Levels and routing
  // ---------------------------------------------------------------------

  /** In a release build _sys_log drops levels 1, 2 and 3 and lets every other level through. */
  lemma ReleaseSysLogFilter(level: int)
    ensures Passes(SysLogLevel(level), Threshold(SyslogLogger, Release)) <==> level != 1 && level != 2 && level != 3
  {
  }

  /** In a debug build _sys_log drops exactly levels 2 and 3 (mapped to trace). */
  lemma DebugSysLogFilter(level: int)
    ensures Passes(SysLogLevel(level), Threshold(SyslogLogger, DebugBuild)) <==> level != 2 && level != 3
  {
  }

  /** Error records on syserr and info records on packet and instance pass in both builds. */
  lemma FixedLevelsPass(b: Build)
    ensures Passes(Err, Threshold(SyserrLogger, b))
    ensures Passes(Info, Threshold(PacketLogger, b))
    ensures Passes(Info, Threshold(InstanceLogger, b))
  {
  }

  /** The dedicated sink of each logger. */
  function Dedicated(l: Logger): Sink
  {
    Route(l)[0]
  }

  /**
   * Every logger writes to its own sink first; syserr, packet and instance
   * then write to log.txt, syslog does not; only log.txt is shared.
   */
  lemma RoutingTable(l: Logger, m: Logger, s: Sink)
    ensures |Route(l)| >= 1 && Route(l)[0] == Dedicated(l)
    ensures LogTxt in Route(l) <==> l != SyslogLogger
    ensures l != SyslogLogger ==> Route(l) == [Dedicated(l), LogTxt]
    ensures l != m && s in Route(l) && s in Route(m) ==> s == LogTxt
  {
  }

  /** With the sinks of a setup in place, a call appends its record to its logger's sinks and nowhere else. */
  lemma EmitDelivers(f: Facility, l: Logger, level: Level, text: string, location: Option<SourceLocation>, s: Sink)
    requires f.sinks.Keys == AllSinks
    ensures Emit(f, l, level, text, location).sinks.Keys == AllSinks
    ensures Emit(f, l, level, text, location).sinks[s] ==
      if f.initialized && Passes(level, Threshold(l, f.build)) && s in Route(l)
      then f.sinks[s] + [Record(l, level, text, location)]
      else f.sinks[s]
  {
  }

  // ---------------------------------------------------------------------
  // What the sinks can hold
  // ---------------------------------------------------------------------

  /** The records of `rs` that came from logger `l`, in order. */
  function FromLogger(rs: seq<Record>, l: Logger): seq<Record>
  {
    if rs == [] then []
    else
      var last := rs[|rs| - 1];
      FromLogger(rs[..|rs| - 1], l) + (if last.logger == l then [last] else [])
  }

  lemma FromLoggerAppend(rs: seq<Record>, r: Record, l: Logger)
    ensures FromLogger(rs + [r], l) == FromLogger(rs, l) + (if r.logger == l then [r] else [])
  {
    assert (rs + [r])[..|rs|] == rs;
  }

  /** The levels each entry point can produce on each logger. */
  predicate LevelOfLogger(l: Logger, level: Level)
  {
    match l
    case SyserrLogger => level == Err
    case PacketLogger => level == Info
    case InstanceLogger => level == Info
    case SyslogLogger => Severity(level) <= Severity(Info)
  }

  /** A record may sit in sink `s` of a facility built as `b`. */
  predicate Admitted(b: Build, s: Sink, r: Record)
  {
    && s in Route(r.logger)
    && LevelOfLogger(r.logger, r.level)
    && Passes(r.level, Threshold(r.logger, b))
    && (r.location.Some? <==> r.logger == SyserrLogger)
  }

  /**
   * What every reachable state satisfies: all five sinks exist, each holds
   * only records its loggers route to it and let through, and each
   * dedicated file is exactly its logger's part of log.txt, in the same order.
   */
  ghost predicate Consistent(f: Facility)
  {
    && f.sinks.Keys == AllSinks
    && (forall s, i | s in f.sinks && 0 <= i < |f.sinks[s]| :: Admitted(f.build, s, f.sinks[s][i]))
    && Tee(f.sinks)
  }

  lemma InitConsistent(f: Facility)
    requires Consistent(f)
    ensures Consistent(Init(f))
  {
  }

  lemma DestroyConsistent(f: Facility)
    requires Consistent(f)
    ensures Consistent(Destroy(f))
  {
  }

  /** A delivered record is admitted to each sink it lands in, and the records already there stay. */
  lemma DeliverAdmitted(f: Facility, l: Logger, level: Level, text: string, location: Option<SourceLocation>)
    requires Consistent(f)
    requires LevelOfLogger(l, level) && Passes(level, Threshold(l, f.build))
    requires location.Some? <==> l == SyserrLogger
    ensures var g := Deliver(f.sinks, Route(l), Record(l, level, text, location));
      forall s, i | s in g && 0 <= i < |g[s]| :: Admitted(f.build, s, g[s][i])
  {
    var g := Deliver(f.sinks, Route(l), Record(l, level, text, location));
    forall s, i | s in g && 0 <= i < |g[s]| ensures Admitted(f.build, s, g[s][i]) {
      if i < |f.sinks[s]| {
        assert g[s][i] == f.sinks[s][i];
      }
    }
  }

  /** Each dedicated file is exactly its logger's part of log.txt, in the same order. */
  predicate Tee(sinks: map<Sink, seq<Record>>)
    requires sinks.Keys == AllSinks
  {
    && sinks[SyserrTxt] == FromLogger(sinks[LogTxt], SyserrLogger)
    && sinks[PacketsTxt] == FromLogger(sinks[LogTxt], PacketLogger)
    && sinks[InstanceTxt] == FromLogger(sinks[LogTxt], InstanceLogger)
  }

  /** Delivering a record keeps each dedicated file equal to its logger's part of log.txt. */
  lemma DeliverKeepsTee(sinks: map<Sink, seq<Record>>, r: Record)
    requires sinks.Keys == AllSinks && Tee(sinks)
    ensures Deliver(sinks, Route(r.logger), r).Keys == AllSinks
    ensures Tee(Deliver(sinks, Route(r.logger), r))
  {
    var g := Deliver(sinks, Route(r.logger), r);
    var combined := sinks[LogTxt];
    if r.logger == SyslogLogger {
      assert g[LogTxt] == combined;
      assert g[SyserrTxt] == sinks[SyserrTxt];
      assert g[PacketsTxt] == sinks[PacketsTxt];
      assert g[InstanceTxt] == sinks[InstanceTxt];
    } else {
      assert g[LogTxt] == combined + [r];
      FromLoggerAppend(combined, r, SyserrLogger);
      FromLoggerAppend(combined, r, PacketLogger);
      FromLoggerAppend(combined, r, InstanceLogger);
    }
  }

  /** Every entry point keeps the facility consistent. */
  lemma EmitConsistent(f: Facility, l: Logger, level: Level, text: string, location: Option<SourceLocation>)
    requires Consistent(f)
    requires LevelOfLogger(l, level)
    requires location.Some? <==> l == SyserrLogger
    ensures Consistent(Emit(f, l, level, text, location))
  {
    if f.initialized && Passes(level, Threshold(l, f.build)) {
      DeliverAdmitted(f, l, level, text, location);
      DeliverKeepsTee(f.sinks, Record(l, level, text, location));
    }
  }

  /** log.txt never receives a syslog record, although it is described as receiving all logs. */
  lemma CombinedLogHasNoSyslog(f: Facility)
    requires Consistent(f)
    ensures forall i | 0 <= i < |f.sinks[LogTxt]| :: f.sinks[LogTxt][i].logger != SyslogLogger
  {
  }

  /** No sink holds a record below its logger's threshold; in a release build syslog holds only info records. */
  lemma SinksRespectThresholds(f: Facility)
    requires Consistent(f)
    ensures forall s, i | s in f.sinks && 0 <= i < |f.sinks[s]| ::
      Passes(f.sinks[s][i].level, Threshold(f.sinks[s][i].logger, f.build))
    ensures f.build == Release ==> forall i | 0 <= i < |f.sinks[SyslogRotate]| :: f.sinks[SyslogRotate][i].level == Info
  {
  }

  // ---------------------------------------------------------------------
  // The facility object
  // ---------------------------------------------------------------------

  /** The process-wide logging state: the setup flag and the sinks of the current setup. */
  class LogFacility {
    const build: Build
    var initialized: bool
    var sinks: map<Sink, seq<Record>>

    function State(): Facility
      reads this
    {
      Facility(build, initialized, sinks)
    }

    ghost predicate Valid()
      reads this
    {
      Consistent(State())
    }

    /** Before log_init: not set up, nothing written. */
    constructor (b: Build)
      ensures Valid() && State() == Facility(b, false, EmptySinks())
    {
      build := b;
      initialized := false;
      sinks := EmptySinks();
    }

    method LogInit()
      requires Valid()
      modifies this
      ensures Valid() && State() == Init(old(State()))
    {
      if initialized {
        return;
      }
      // building the loggers opens every sink afresh
      sinks := EmptySinks();
      initialized := true;
    }

    method LogDestroy()
      requires Valid()
      modifies this
      ensures Valid() && State() == Destroy(old(State()))
    {
      if !initialized {
        return;
      }
      initialized := false;
    }

    /** A logger's log call: the threshold check, then the sinks written in order. */
    method Write(l: Logger, level: Level, text: string, location: Option<SourceLocation>)
      requires Valid() && initialized
      requires LevelOfLogger(l, level)
      requires location.Some? <==> l == SyserrLogger
      modifies this
      ensures Valid() && State() == Emit(old(State()), l, level, text, location)
    {
      EmitConsistent(State(), l, level, text, location);
      if Passes(level, Threshold(l, build)) {
        sinks := Deliver(sinks, Route(l), Record(l, level, text, location));
      }
    }

    method SysErr(text: string, location: SourceLocation)
      requires Valid()
      modifies this
      ensures Valid() && State() == SysErrStep(old(State()), text, location)
    {
      if !initialized {
        return;
      }
      Write(SyserrLogger, Err, text, Some(location));
    }

    method SysLog(level: int, text: string)
      requires Valid()
      modifies this
      ensures Valid() && State() == SysLogStep(old(State()), level, text)
    {
      if !initialized {
        return;
      }
      Write(SyslogLogger, SysLogLevel(level), text, None);
    }

    method SysPacket(text: string)
      requires Valid()
      modifies this
      ensures Valid() && State() == SysPacketStep(old(State()), text)
    {
      if !initialized {
        return;
      }
      Write(PacketLogger, Info, text, None);
    }

    method SysInstance(text: string)
      requires Valid()
      modifies this
      ensures Valid() && State() == SysInstanceStep(old(State()), text)
    {
      if !initialized {
        return;
      }
      Write(InstanceLogger, Info, text, None);
    }
  }

  // ---------------------------------------------------------------------
  // _format
  // ---------------------------------------------------------------------

  /** The size _format passes to vsnprintf; its buffer has one more character. */
  const BufferSize: nat := 4096

  /** What vsnprintf makes of the format and its arguments: the full expansion, or an error. */
  datatype Expansion = Expanded(text: string) | Failed

  /** The largest value of the `int` that holds vsnprintf's result. */
  const IntMax: int := 0x7fff_ffff

  /**
   * vsnprintf's return value: the length of the full expansion, or a
   * negative number on an error and on an expansion too long for an `int`.
   */
  function ReportedLength(e: Expansion): (len: int)
    ensures len >= 0 <==> e.Expanded? && |e.text| <= IntMax
    ensures len >= 0 ==> len == |e.text|
  {
    match e
    case Expanded(t) => if |t| <= IntMax then |t| else -1
    case Failed => -1
  }

  function Clamp(x: int, lo: int, hi: int): int
    requires lo <= hi
  {
    if x < lo then lo else if x > hi then hi else x
  }

  /**
   * The text _format returns.  vsnprintf stores at most BufferSize - 1
   * characters and a terminator, and the view has the clamped reported
   * length, so an over-long expansion yields its first BufferSize - 1
   * characters followed by the terminator.
   */
  function FormatView(e: Expansion): (v: string)
    ensures |v| == Clamp(ReportedLength(e), 0, BufferSize)
    ensures ReportedLength(e) < 0 ==> v == []
    ensures 0 <= ReportedLength(e) < BufferSize ==> v == e.text
    ensures ReportedLength(e) >= BufferSize ==>
      v[..BufferSize - 1] == e.text[..BufferSize - 1] && v[BufferSize - 1] == '\0'
  {
    var len := ReportedLength(e);
    if len < 0 then []
    else if len < BufferSize then e.text
    else e.text[..BufferSize - 1] + ['\0']
  }

  /**
   * What an over-long expansion evidently should give: vsnprintf given the
   * whole buffer, so the view holds as many characters of the text as it is
   * long, and nothing else.
   */
  function IntendedView(e: Expansion): (v: string)
    ensures |v| == Clamp(ReportedLength(e), 0, BufferSize)
  {
    var len := ReportedLength(e);
    if len < 0 then []
    else if len <= BufferSize then e.text
    else e.text[..BufferSize]
  }

  /** The intended view is always a prefix of the expansion. */
  lemma IntendedViewIsPrefix(e: Expansion)
    requires e.Expanded?
    ensures IntendedView(e) <= e.text
    ensures |IntendedView(e)| ==
      if |e.text| > IntMax then 0 else if |e.text| <= BufferSize then |e.text| else BufferSize
  {
  }

  /**
   * The view as written agrees with the intended one except on an expansion
   * of BufferSize characters or more, where its last character is the
   * terminator instead of the text's.
   */
  lemma FormatViewAgainstIntended(e: Expansion)
    ensures ReportedLength(e) < BufferSize ==> FormatView(e) == IntendedView(e)
    ensures ReportedLength(e) >= BufferSize ==>
      FormatView(e) == IntendedView(e)[..BufferSize - 1] + ['\0']
  {
  }

  /**
   * A 4096-character expansion without any terminator in it comes back as
   * a view that is not a prefix of the expansion and ends in a terminator,
   * where the intended view is the whole expansion.
   */
  lemma {:induction false} FormatViewAddsTerminator()
    ensures var e := Expanded(seq(BufferSize, _ => 'a'));
      && '\0' !in e.text
      && FormatView(e)[BufferSize - 1] == '\0'
      && !(FormatView(e) <= e.text)
      && IntendedView(e) == e.text
  {
    var e := Expanded(seq(BufferSize, _ => 'a'));
    assert e.text[BufferSize - 1] == 'a';
  }

  /**
   * _format over the calling thread's buffer: vsnprintf stores the first
   * characters of the expansion that fit and a terminator after them, and
   * leaves the rest of the buffer alone; the view is the front of the buffer
   * with the clamped length.
   */
  method Format(buffer: array<char>, e: Expansion) returns (view: string)
    requires buffer.Length == BufferSize + 1
    modifies buffer
    ensures view == FormatView(e)
    ensures view == buffer[..|view|]
    ensures ReportedLength(e) >= 0 ==>
      var n := Clamp(ReportedLength(e), 0, BufferSize - 1);
      && buffer[..n] == e.text[..n]
      && buffer[n] == '\0'
      && buffer[n + 1..] == old(buffer[n + 1..])
  {
    var len := ReportedLength(e);
    if len >= 0 {
      var t := e.text;
      var n := if len < BufferSize then len else BufferSize - 1;
      forall k | 0 <= k < n {
        buffer[k] := t[k];
      }
      buffer[n] := '\0';
    }
    view := buffer[..Clamp(len, 0, BufferSize)];
  }
}
