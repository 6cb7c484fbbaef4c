/**
 * The logger object: its constructor defaults (FrusterLogger.js:13-25) and the wrapping
 * step of `_attachRemoteLogs` (lines 53-73), which replaces each forwarded level's
 * function by one that first calls the original and then publishes on the bus.
 */
module FrusterLogger {
  import opened Wrappers
  import opened JsValues
  import opened Constants
  import opened LevelRouter
  import opened BusPublisher

  /** Both kinds of entry go to the same subject (lines 172-173). */
  const AuditLogSubject: string := "log"
  const RemoteLogSubject: string := "log"

  /** The constructor's default parameters (line 13). */
  const DefaultLogLevel: string := "info"
  const DefaultTimestampTimezone: string := "Europe/Stockholm"
  const DefaultRemoteLogLevel: string := "error"

  /** The `data` a wrapper hands to `_publishOnBus`: `{level, msg}` or `{userId, msg, payload, level}`. */
  datatype LogEntry =
    | LevelEntry(level: string, msgs: seq<Value>)
    | AuditEntry(userId: Value, message: Value, payload: Value, level: string)

  /**
   * What a log call does that can be observed: a call of the base level function with
   * its arguments (what that function then prints is the base logger's business), or a
   * publish attempt on the bus.
   */
  datatype Event =
    | BaseLogCall(level: string, args: seq<Value>)
    | Publish(attempt: Attempt<LogEntry>)

  /**
   * What the property `this[level]` holds: nothing callable, the level function the
   * base logger installed, or a wrapper around whatever was there before (`superLog`).
   */
  datatype Handler =
    | NotAFunction
    | Base(level: string)
    | Wrapped(level: string, superLog: Handler)

  /** The result of a call: its events in order, how it ended, and the next id ordinal. */
  datatype Outcome = Outcome(trace: seq<Event>, completion: Completion, nextSerial: nat)

  /** `this[name]`; reading a property that does not exist yields `undefined`. */
  function Lookup(handlers: map<string, Handler>, name: string): (h: Handler)
    ensures name in handlers ==> h == handlers[name]
    ensures name !in handlers ==> h == NotAFunction
  {
    if name in handlers then handlers[name] else NotAFunction
  }

  /** The handler a chain of wrappers finally delegates to. */
  function Innermost(h: Handler): Handler {
    match h
    case Wrapped(_, superLog) => Innermost(superLog)
    case _ => h
  }

  /**
   * `levelsToAttach.forEach(...)`: for each listed level, in order, read the current
   * function and store a wrapper around it. Nothing else in the object changes.
   */
  function Attach(levels: seq<string>, handlers: map<string, Handler>): (r: map<string, Handler>)
    ensures r.Keys == handlers.Keys + set n | n in levels
    ensures forall n :: n in handlers && n !in levels ==> r[n] == handlers[n]
    decreases |levels|
  {
    if |levels| == 0 then handlers
    else
      var n := levels[0];
      Attach(levels[1..], handlers[n := Wrapped(n, Lookup(handlers, n))])
  }

  /** A level listed once is wrapped exactly once, around the function it had before. */
  lemma {:induction false} AttachWrapsOnce(levels: seq<string>, handlers: map<string, Handler>, n: string)
    requires NoDuplicates(levels)
    requires n in levels
    ensures Lookup(Attach(levels, handlers), n) == Wrapped(n, Lookup(handlers, n))
  {
    var next := handlers[levels[0] := Wrapped(levels[0], Lookup(handlers, levels[0]))];
    if levels[0] == n {
      assert n !in levels[1..];
    } else {
      assert n in levels[1..];
      assert Lookup(next, n) == Lookup(handlers, n);
      AttachWrapsOnce(levels[1..], next, n);
    }
  }

  /**
   * `[${userId}] ${msg}`: the single string an audit call hands to the base function.
   * The rendered user id sits between `[` and `] `, and the rendered message follows.
   */
  function AuditLine(userId: Value, msg: Value): (r: string)
    ensures |r| == |Render(userId)| + |Render(msg)| + 3
    ensures r[0] == '[' && r[1..|Render(userId)| + 1] == Render(userId)
    ensures r[|Render(userId)| + 1..|Render(userId)| + 3] == "] "
    ensures r[|Render(userId)| + 3..] == Render(msg)
  {
    "[" + Render(userId) + "] " + Render(msg)
  }

  /** The position of the first `c` in `s`, if there is one. */
  function IndexOfChar(s: string, c: char): (r: Option<nat>)
    ensures r.Some? ==> r.value < |s| && s[r.value] == c && c !in s[..r.value]
    ensures r.None? ==> c !in s
  {
    if |s| == 0 then None
    else if s[0] == c then Some(0)
    else match IndexOfChar(s[1..], c)
      case None => None
      case Some(k) =>
        assert s[..k + 1] == [s[0]] + s[1..][..k];
        Some(k + 1)
  }

  /** The first `c` of `s` is at position `j`. */
  lemma IndexOfCharAt(s: string, c: char, j: nat)
    requires j < |s| && s[j] == c && c !in s[..j]
    ensures IndexOfChar(s, c) == Some(j)
  {
    assert s[j] in s;
  }

  /** Reads a line of the form `[userId] msg` back into its two parts, cutting at the first `]`. */
  function SplitAuditLine(line: string): Option<(string, string)> {
    if |line| == 0 || line[0] != '[' then None
    else match IndexOfChar(line[1..], ']')
      case None => None
      case Some(j) =>
        if j + 2 < |line| && line[j + 2] == ' ' then Some((line[1..j + 1], line[j + 3..])) else None
  }

  /**
   * When the rendered user id holds no `]`, the audit line determines the user id and the
   * message it was built from.
   */
  lemma AuditLineRoundTrip(userId: Value, msg: Value)
    requires ']' !in Render(userId)
    ensures SplitAuditLine(AuditLine(userId, msg)) == Some((Render(userId), Render(msg)))
  {
    var u := Render(userId);
    var line := AuditLine(userId, msg);
    var rest := line[1..];
    assert rest[..|u|] == u;
    assert rest[|u|] == ']';
    IndexOfCharAt(rest, ']', |u|);
  }

  /** The publish attempts as trace events. */
  function Publishes(attempts: seq<Attempt<LogEntry>>): (r: seq<Event>)
    ensures |r| == |attempts|
    ensures forall i :: 0 <= i < |r| ==> r[i] == Publish(attempts[i])
  {
    if |attempts| == 0 then [] else [Publish(attempts[0])] + Publishes(attempts[1..])
  }

  /**
   * Every publish in the trace carries an id ordinal in [lo, hi), and the ordinals
   * strictly increase along the trace: no two publishes share a `reqId`.
   */
  predicate FreshIds(trace: seq<Event>, lo: nat, hi: nat) {
    && (forall i :: 0 <= i < |trace| && trace[i].Publish? ==>
          lo <= trace[i].attempt.envelope.reqId.serial < hi)
    && (forall i, j :: 0 <= i < j < |trace| && trace[i].Publish? && trace[j].Publish? ==>
          trace[i].attempt.envelope.reqId.serial < trace[j].attempt.envelope.reqId.serial)
  }

  lemma FreshIdsAppend(t1: seq<Event>, t2: seq<Event>, a: nat, b: nat, c: nat)
    requires a <= b <= c
    requires FreshIds(t1, a, b) && FreshIds(t2, b, c)
    ensures FreshIds(t1 + t2, a, c)
  {
    var t := t1 + t2;
    forall i, j | 0 <= i < j < |t| && t[i].Publish? && t[j].Publish?
      ensures t[i].attempt.envelope.reqId.serial < t[j].attempt.envelope.reqId.serial
    {
      if j < |t1| {
        assert t[i] == t1[i] && t[j] == t1[j];
      } else if i >= |t1| {
        assert t[i] == t2[i - |t1|] && t[j] == t2[j - |t1|];
      } else {
        assert t[i] == t1[i] && t[j] == t2[j - |t1|];
      }
    }
    forall i | 0 <= i < |t| && t[i].Publish?
      ensures a <= t[i].attempt.envelope.reqId.serial < c
    {
      if i < |t1| {
        assert t[i] == t1[i];
      } else {
        assert t[i] == t2[i - |t1|];
      }
    }
  }

  /**
   * Calls the function a handler stands for. A wrapper for `audit` takes
   * `(userId, msg, payload)`, writes `[userId] msg` through `superLog` and publishes
   * `{userId, msg, payload, level}`; any other wrapper passes its arguments unchanged to
   * `superLog` and publishes `{level, msg}`. Publishing happens only after `superLog`
   * returned, and never makes the call throw; calling something that is not a function throws.
   */
  function Run(h: Handler, args: seq<Value>, bus: Bus, serial: nat): (o: Outcome)
    ensures o.completion == Threw <==> Innermost(h) == NotAFunction
    ensures serial <= o.nextSerial
    ensures !IsConnected(bus) ==> o.nextSerial == serial && forall e :: e in o.trace ==> e.BaseLogCall?
    ensures o.completion == Returned ==> |o.trace| > 0 && o.trace[0].BaseLogCall?
    decreases h
  {
    match h
    case NotAFunction => Outcome([], Threw, serial)
    case Base(level) => Outcome([BaseLogCall(level, args)], Returned, serial)
    case Wrapped(level, superLog) =>
      var isAudit := level == AuditLevelName;
      var superArgs := if isAudit then [Str(AuditLine(Arg(args, 0), Arg(args, 1)))] else args;
      var inner := Run(superLog, superArgs, bus, serial);
      if inner.completion == Threw then inner
      else
        var data := if isAudit then AuditEntry(Arg(args, 0), Arg(args, 1), Arg(args, 2), level)
                    else LevelEntry(level, args);
        var subject := if isAudit then AuditLogSubject else RemoteLogSubject;
        var p := PublishOnBus(bus, subject, data, inner.nextSerial);
        Outcome(inner.trace + Publishes(p.attempts), Returned, p.nextSerial)
  }

  /** Each publish of a call draws a new id: ordinals from `serial` on, increasing. */
  lemma {:induction false} RunDrawsFreshIds(h: Handler, args: seq<Value>, bus: Bus, serial: nat)
    ensures FreshIds(Run(h, args, bus, serial).trace, serial, Run(h, args, bus, serial).nextSerial)
  {
    match h
    case NotAFunction =>
    case Base(_) =>
    case Wrapped(level, superLog) =>
      var isAudit := level == AuditLevelName;
      var superArgs := if isAudit then [Str(AuditLine(Arg(args, 0), Arg(args, 1)))] else args;
      var inner := Run(superLog, superArgs, bus, serial);
      RunDrawsFreshIds(superLog, superArgs, bus, serial);
      if inner.completion == Returned {
        var data := if isAudit then AuditEntry(Arg(args, 0), Arg(args, 1), Arg(args, 2), level)
                    else LevelEntry(level, args);
        var subject := if isAudit then AuditLogSubject else RemoteLogSubject;
        var p := PublishOnBus(bus, subject, data, inner.nextSerial);
        var published := Publishes(p.attempts);
        if |p.attempts| == 1 {
          assert p.attempts[0] in p.attempts;
        }
        assert FreshIds(published, inner.nextSerial, p.nextSerial);
        FreshIdsAppend(inner.trace, published, serial, inner.nextSerial, p.nextSerial);
      }
  }

  /** The calls of base level functions in a trace, in order. */
  function BaseLogCalls(trace: seq<Event>): seq<Event> {
    if |trace| == 0 then []
    else (if trace[0].BaseLogCall? then [trace[0]] else []) + BaseLogCalls(trace[1..])
  }

  lemma {:induction false} BaseLogCallsAppend(t1: seq<Event>, t2: seq<Event>)
    ensures BaseLogCalls(t1 + t2) == BaseLogCalls(t1) + BaseLogCalls(t2)
  {
    if |t1| == 0 {
      assert t1 + t2 == t2;
    } else {
      assert (t1 + t2)[0] == t1[0];
      assert (t1 + t2)[1..] == t1[1..] + t2;
      BaseLogCallsAppend(t1[1..], t2);
    }
  }

  lemma {:induction false} NoBaseLogCallsInPublishes(attempts: seq<Attempt<LogEntry>>)
    ensures BaseLogCalls(Publishes(attempts)) == []
  {
    if |attempts| > 0 {
      assert Publishes(attempts)[0].Publish?;
      assert Publishes(attempts)[1..] == Publishes(attempts[1..]);
      NoBaseLogCallsInPublishes(attempts[1..]);
    }
  }

  /**
   * The state of the bus changes only what is published: whether the call returns or
   * throws, and every call of a base level function it makes, are the same for every bus.
   */
  lemma {:induction false} BusOnlyAffectsPublishing(h: Handler, args: seq<Value>, bus1: Bus, bus2: Bus, serial: nat)
    ensures Run(h, args, bus1, serial).completion == Run(h, args, bus2, serial).completion
    ensures BaseLogCalls(Run(h, args, bus1, serial).trace) == BaseLogCalls(Run(h, args, bus2, serial).trace)
  {
    match h
    case NotAFunction =>
    case Base(_) =>
    case Wrapped(level, superLog) =>
      var isAudit := level == AuditLevelName;
      var superArgs := if isAudit then [Str(AuditLine(Arg(args, 0), Arg(args, 1)))] else args;
      BusOnlyAffectsPublishing(superLog, superArgs, bus1, bus2, serial);
      var inner1 := Run(superLog, superArgs, bus1, serial);
      var inner2 := Run(superLog, superArgs, bus2, serial);
      if inner1.completion == Returned {
        var data := if isAudit then AuditEntry(Arg(args, 0), Arg(args, 1), Arg(args, 2), level)
                    else LevelEntry(level, args);
        var subject := if isAudit then AuditLogSubject else RemoteLogSubject;
        var p1 := PublishOnBus(bus1, subject, data, inner1.nextSerial);
        var p2 := PublishOnBus(bus2, subject, data, inner2.nextSerial);
        BaseLogCallsAppend(inner1.trace, Publishes(p1.attempts));
        BaseLogCallsAppend(inner2.trace, Publishes(p2.attempts));
        NoBaseLogCallsInPublishes(p1.attempts);
        NoBaseLogCallsInPublishes(p2.attempts);
      }
  }

  /** The logger's configuration, fixed at construction (lines 20-22). */
  datatype Config = Config(logLevel: string, timestampTimezone: string, remoteLogLevel: string)

  /** A logger: its configuration and the function stored under each level name. */
  datatype Logger = Logger(config: Config, handlers: map<string, Handler>)

  /** The level functions the base logger installs, one per declared level. */
  function BaseHandlers(): (r: map<string, Handler>)
    ensures forall n :: n in r <==> n in LevelNames
    ensures forall n :: n in r ==> r[n] == Base(n)
  {
    map n | n in LevelNames :: Base(n)
  }

  /**
   * The logger has one function per declared level; each level of `forwarded` holds a
   * single wrapper around its base function, and every other level keeps its base function.
   */
  ghost predicate Wired(l: Logger, forwarded: seq<string>) {
    && (forall n :: n in l.handlers <==> n in LevelNames)
    && (forall n :: n in l.handlers && n in forwarded ==> l.handlers[n] == Wrapped(n, Base(n)))
    && (forall n :: n in l.handlers && n !in forwarded ==> l.handlers[n] == Base(n))
  }

  /** Wrapping a list of distinct declared levels over the base functions wires exactly those levels. */
  lemma AttachWires(config: Config, levels: seq<string>)
    requires NoDuplicates(levels)
    requires forall n :: n in levels ==> n in LevelNames
    ensures Wired(Logger(config, Attach(levels, BaseHandlers())), levels)
  {
    var base := BaseHandlers();
    var handlers := Attach(levels, base);
    forall n | n in handlers && n in levels
      ensures handlers[n] == Wrapped(n, Base(n))
    {
      AttachWrapsOnce(levels, base, n);
    }
  }

  /** The forwarding set of any threshold lists declared levels only, each once. */
  lemma ForwardingIsDeclared(remoteLogLevel: string)
    ensures NoDuplicates(ForwardingFor(remoteLogLevel))
    ensures forall n :: n in ForwardingFor(remoteLogLevel) ==> n in LevelNames
  {
    var threshold := RankOf(Levels, remoteLogLevel);
    LevelNamesInOrder();
    LevelNamesDistinct();
    MandatoryLevelsRanked();
    ForwardSetNoDuplicates(threshold, Levels);
    forall n | n in ForwardingFor(remoteLogLevel)
      ensures n in LevelNames
    {
      ForwardSetMembership(threshold, Levels, n);
    }
  }

  /**
   * `new FrusterLogger(logLevel, timestampTimezone, remoteLogLevel)`: None stands for an
   * argument that is omitted or `undefined`, which takes the default (`null` does not).
   * The result is wired for the forwarding set of its threshold.
   */
  function Construct(logLevel: Option<string>, timestampTimezone: Option<string>,
                     remoteLogLevel: Option<string>): (l: Logger)
    ensures l.config.logLevel == (if logLevel.Some? then logLevel.value else "info")
    ensures l.config.timestampTimezone == (if timestampTimezone.Some? then timestampTimezone.value else "Europe/Stockholm")
    ensures l.config.remoteLogLevel == (if remoteLogLevel.Some? then remoteLogLevel.value else "error")
    ensures Wired(l, ForwardingFor(l.config.remoteLogLevel))
    ensures remoteLogLevel.None? ==> ForwardingFor(l.config.remoteLogLevel) == ["error", "remote", "audit"]
  {
    var config := Config(logLevel.GetOr(DefaultLogLevel),
                         timestampTimezone.GetOr(DefaultTimestampTimezone),
                         remoteLogLevel.GetOr(DefaultRemoteLogLevel));
    ForwardingIsDeclared(config.remoteLogLevel);
    AttachWires(config, ForwardingFor(config.remoteLogLevel));
    ErrorThresholdIsReal();
    Logger(config, Attach(ForwardingFor(config.remoteLogLevel), BaseHandlers()))
  }

  /** Calls the logger's function for level `name`. */
  function Invoke(l: Logger, name: string, args: seq<Value>, bus: Bus, serial: nat): Outcome
    requires name in l.handlers
  {
    Run(l.handlers[name], args, bus, serial)
  }

  /** No call of a level function on a wired logger throws, whatever the bus does. */
  lemma CallsNeverThrow(l: Logger, forwarded: seq<string>, name: string, args: seq<Value>, bus: Bus, serial: nat)
    requires Wired(l, forwarded) && name in l.handlers
    ensures Invoke(l, name, args, bus, serial).completion == Returned
  {
  }

  /** A level outside the forwarding set behaves exactly like its base function: one base call, no publish. */
  lemma UnforwardedLevelUntouched(l: Logger, forwarded: seq<string>, name: string, args: seq<Value>, bus: Bus, serial: nat)
    requires Wired(l, forwarded) && name in l.handlers && name !in forwarded
    ensures Invoke(l, name, args, bus, serial) == Outcome([BaseLogCall(name, args)], Returned, serial)
  {
  }

  /**
   * A forwarded level other than `audit` first writes its arguments unchanged to the base
   * function, then, if the bus is connected, makes one publish of `{level, msg}` on "log"
   * with a fresh id. A throwing publish is recorded and the call still returns.
   */
  lemma ForwardedLevelPublishes(l: Logger, forwarded: seq<string>, name: string, args: seq<Value>, bus: Bus, serial: nat)
    requires Wired(l, forwarded) && name in l.handlers && name in forwarded && name != AuditLevelName
    ensures Invoke(l, name, args, bus, serial).completion == Returned
    ensures Invoke(l, name, args, bus, serial).trace ==
      [BaseLogCall(name, args)] +
      (if IsConnected(bus)
       then [Publish(Attempt("log", Envelope(ReqId(serial), LevelEntry(name, args)), bus.publishThrows))]
       else [])
  {
    assert l.handlers[name] == Wrapped(name, Base(name));
    var inner := Run(Base(name), args, bus, serial);
    assert inner == Outcome([BaseLogCall(name, args)], Returned, serial);
    var p := PublishOnBus(bus, RemoteLogSubject, LevelEntry(name, args), serial);
    var expected := if IsConnected(bus)
      then [Publish(Attempt("log", Envelope(ReqId(serial), LevelEntry(name, args)), bus.publishThrows))]
      else [];
    if IsConnected(bus) {
      assert p.attempts[0] in p.attempts;
    }
    assert Publishes(p.attempts) == expected;
    assert Invoke(l, name, args, bus, serial) == Outcome(inner.trace + Publishes(p.attempts), Returned, p.nextSerial);
  }

  /**
   * `audit(userId, msg, payload)` writes the single line `[userId] msg` (the payload is not
   * written), then, if the bus is connected, publishes `{userId, msg, payload, level}` on "log".
   */
  lemma AuditCallPublishes(l: Logger, forwarded: seq<string>, args: seq<Value>, bus: Bus, serial: nat)
    requires Wired(l, forwarded) && AuditLevelName in forwarded
    ensures "audit" in l.handlers
    ensures Invoke(l, "audit", args, bus, serial).completion == Returned
    ensures Invoke(l, "audit", args, bus, serial).trace ==
      [BaseLogCall("audit", [Str("[" + Render(Arg(args, 0)) + "] " + Render(Arg(args, 1)))])] +
      (if IsConnected(bus)
       then [Publish(Attempt("log", Envelope(ReqId(serial),
               AuditEntry(Arg(args, 0), Arg(args, 1), Arg(args, 2), "audit")), bus.publishThrows))]
       else [])
  {
    assert LevelNames[3] == "audit";
    assert l.handlers["audit"] == Wrapped("audit", Base("audit"));
    var line := [Str(AuditLine(Arg(args, 0), Arg(args, 1)))];
    var inner := Run(Base("audit"), line, bus, serial);
    assert inner == Outcome([BaseLogCall("audit", line)], Returned, serial);
    var data := AuditEntry(Arg(args, 0), Arg(args, 1), Arg(args, 2), AuditLevelName);
    var p := PublishOnBus(bus, AuditLogSubject, data, serial);
    var expected := if IsConnected(bus)
      then [Publish(Attempt("log", Envelope(ReqId(serial), data), bus.publishThrows))]
      else [];
    if IsConnected(bus) {
      assert p.attempts[0] in p.attempts;
    }
    assert Publishes(p.attempts) == expected;
    assert Invoke(l, "audit", args, bus, serial) == Outcome(inner.trace + Publishes(p.attempts), Returned, p.nextSerial);
  }

  /**
   * A call of the logger: the level function's name, its arguments, and the state of the
   * module-level `bus` when the call is made. That state can change between calls: the
   * lazy `require` may succeed later, and `bus.request` is read again on every publish.
   */
  datatype Call = Call(name: string, args: seq<Value>, bus: Bus)

  /**
   * A sequence of log calls, each against the bus state it sees; a call that throws ends
   * the sequence. Ids are only drawn by calls that find the bus connected.
   */
  function RunCalls(l: Logger, calls: seq<Call>, serial: nat): (o: Outcome)
    requires forall i :: 0 <= i < |calls| ==> calls[i].name in l.handlers
    ensures serial <= o.nextSerial
    ensures (forall i :: 0 <= i < |calls| ==> !IsConnected(calls[i].bus)) ==>
      o.nextSerial == serial && forall e :: e in o.trace ==> e.BaseLogCall?
  {
    if |calls| == 0 then Outcome([], Returned, serial)
    else
      var first := Invoke(l, calls[0].name, calls[0].args, calls[0].bus, serial);
      if first.completion == Threw then first
      else
        var rest := RunCalls(l, calls[1..], first.nextSerial);
        Outcome(first.trace + rest.trace, rest.completion, rest.nextSerial)
  }

  lemma {:induction false} RunCallsDrawsFreshIds(l: Logger, calls: seq<Call>, serial: nat)
    requires forall i :: 0 <= i < |calls| ==> calls[i].name in l.handlers
    ensures FreshIds(RunCalls(l, calls, serial).trace, serial, RunCalls(l, calls, serial).nextSerial)
  {
    if |calls| > 0 {
      var first := Invoke(l, calls[0].name, calls[0].args, calls[0].bus, serial);
      RunDrawsFreshIds(l.handlers[calls[0].name], calls[0].args, calls[0].bus, serial);
      if first.completion == Returned {
        var rest := RunCalls(l, calls[1..], first.nextSerial);
        RunCallsDrawsFreshIds(l, calls[1..], first.nextSerial);
        FreshIdsAppend(first.trace, rest.trace, serial, first.nextSerial, rest.nextSerial);
      }
    }
  }

  /** Across any sequence of calls, whatever the bus does between them, no two publishes share a `reqId`. */
  lemma ReqIdsAreFresh(l: Logger, calls: seq<Call>, serial: nat, i: nat, j: nat)
    requires forall k :: 0 <= k < |calls| ==> calls[k].name in l.handlers
    requires i < j < |RunCalls(l, calls, serial).trace|
    requires RunCalls(l, calls, serial).trace[i].Publish?
    requires RunCalls(l, calls, serial).trace[j].Publish?
    ensures RunCalls(l, calls, serial).trace[i].attempt.envelope.reqId !=
            RunCalls(l, calls, serial).trace[j].attempt.envelope.reqId
  {
    RunCallsDrawsFreshIds(l, calls, serial);
  }

  /** With every argument omitted, the configuration takes the defaults and threshold `error`. */
  lemma DefaultConstruction()
    ensures Construct(None, None, None).config == Config("info", "Europe/Stockholm", "error")
    ensures Wired(Construct(None, None, None), ["error", "remote", "audit"])
  {
  }

  /**
   * Under the default forwarding set, `error` holds one wrapper around its base function
   * and `info` keeps its base function.
   */
  lemma DefaultWiring(l: Logger)
    requires Wired(l, ["error", "remote", "audit"])
    ensures "error" in l.handlers && l.handlers["error"] == Wrapped("error", Base("error"))
    ensures "info" in l.handlers && l.handlers["info"] == Base("info")
  {
    assert LevelNames[0] == "error" && LevelNames[4] == "info";
  }

  /** Threshold `warn` wires `error`, `warn`, `remote` and `audit`, whatever the other arguments. */
  lemma WarnThresholdConstruction(logLevel: Option<string>, timestampTimezone: Option<string>)
    ensures Wired(Construct(logLevel, timestampTimezone, Some("warn")), ["error", "warn", "remote", "audit"])
  {
    WarnThresholdForwarding();
  }

  /** Under threshold `warn`, `info("hello")` only reaches the base function, even with a connected bus. */
  lemma WarnThresholdInfoCall(l: Logger, bus: Bus)
    requires Wired(l, ["error", "warn", "remote", "audit"])
    requires IsConnected(bus)
    ensures "info" in l.handlers
    ensures Invoke(l, "info", [Str("hello")], bus, 0).trace == [BaseLogCall("info", [Str("hello")])]
  {
    assert LevelNames[4] == "info";
    UnforwardedLevelUntouched(l, ["error", "warn", "remote", "audit"], "info", [Str("hello")], bus, 0);
  }

  /** Under threshold `warn`, `error("x")` reaches the base function and then publishes `{level, msg}`. */
  lemma WarnThresholdErrorCall(l: Logger, bus: Bus)
    requires Wired(l, ["error", "warn", "remote", "audit"])
    requires IsConnected(bus) && !bus.publishThrows
    ensures "error" in l.handlers
    ensures Invoke(l, "error", [Str("x")], bus, 0).trace ==
      [BaseLogCall("error", [Str("x")]),
       Publish(Attempt("log", Envelope(ReqId(0), LevelEntry("error", [Str("x")])), false))]
  {
    var fwd := ["error", "warn", "remote", "audit"];
    assert fwd[0] == "error";
    assert LevelNames[0] == "error";
    ForwardedLevelPublishes(l, fwd, "error", [Str("x")], bus, 0);
  }

  /** The template literal renders string operands as they are. */
  lemma AuditLineExample()
    ensures "[" + Render(Str("u1")) + "] " + Render(Str("did thing")) == "[u1] did thing"
  {
  }

  /** `audit("u1", "did thing", {x: 1})` writes `[u1] did thing` and publishes all three values. */
  lemma AuditExample(l: Logger, forwarded: seq<string>, payload: Value)
    requires Wired(l, forwarded) && AuditLevelName in forwarded
    ensures "audit" in l.handlers
    ensures Invoke(l, "audit", [Str("u1"), Str("did thing"), payload], Present(true, false), 0).trace ==
      [BaseLogCall("audit", [Str("[u1] did thing")]),
       Publish(Attempt("log", Envelope(ReqId(0), AuditEntry(Str("u1"), Str("did thing"), payload, "audit")), false))]
  {
    var args := [Str("u1"), Str("did thing"), payload];
    assert Arg(args, 0) == Str("u1") && Arg(args, 1) == Str("did thing") && Arg(args, 2) == payload;
    AuditLineExample();
    AuditCallPublishes(l, forwarded, args, Present(true, false), 0);
    var write := BaseLogCall("audit", [Str("[u1] did thing")]);
    var publish := Publish(Attempt("log", Envelope(ReqId(0), AuditEntry(Str("u1"), Str("did thing"), payload, "audit")), false));
    assert Invoke(l, "audit", args, Present(true, false), 0).trace == [write] + [publish];
    assert [write] + [publish] == [write, publish];
  }

  /**
   * Why each level may be listed only once: wrapping a level twice would make one call
   * publish twice, and an audit wrapper around another would garble the logged line.
   */
  lemma WrappingTwicePublishesTwice(handlers: map<string, Handler>)
    requires "remote" in handlers && handlers["remote"] == Base("remote")
    ensures var h := Attach(["remote", "remote"], handlers);
      && "remote" in h
      && h["remote"] == Wrapped("remote", Wrapped("remote", Base("remote")))
      && |Run(h["remote"], [Str("x")], Present(true, false), 0).trace| == 3
  {
  }
}
