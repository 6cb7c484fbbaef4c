# fruster-log: the remote-forwarding level router

A Dafny model of the part of fruster-log that decides which log levels go to the message bus and how.
`FrusterLogger` extends a winston logger. At construction it reads the rank of the configured
`remoteLogLevel` from the `levels` table and collects every level at least that severe. It then
adds `remote` and `audit` when they are missing. Each collected level's function is replaced by a
wrapper. The wrapper first calls the original function and then publishes the entry on the bus
subject `"log"`. Publishing is best effort: it happens only when the bus module is loaded and
exposes `request`, each publish carries a fresh `reqId`, and an exception that `bus.publish`
throws synchronously is swallowed.

Modules, one per file:

- `Wrappers` (`wrappers.dfy`): `Option`.
- `JsValues` (`js_values.dfy`): the JavaScript values a caller passes to a log function. It also
  models how a template literal renders them, and whether a call returns or throws.
- `Constants` (`constants.dfy`): the `levels` and `levelColors` tables of `constants.js`. It also
  models the property read `levels[name]` (`RankOf`).
- `LevelRouter` (`level_router.dfy`): the forwarding set of `_attachRemoteLogs`, lines 34-51.
  `ForwardSet` works over any threshold and table. `ForwardingFor` applies it to the real table.
- `BusPublisher` (`bus_publisher.dfy`): `_publishOnBus`, lines 76-97.
- `FrusterLogger` (`fruster_logger.dfy`): the wrapping step (lines 53-73), the constructor (lines
  13-25) and the subjects (lines 172-173). A level function is a `Handler`:
  - `Base(level)` is the function the base logger installed;
  - `Wrapped(level, superLog)` is a wrapper around the previous value of the property;
  - `NotAFunction` is a property that is missing.

  Calling a handler (`Run`) yields a trace of events. `BaseLogCall(level, args)` means the base
  level function was called with `args`. `Publish(attempt)` means one call of `bus.publish` was
  made. The call's `Outcome` holds this trace, whether the call returned or threw, and the next
  id counter.

Conventions:

- `uuid.v4()` is abstracted as a counter. The n-th id drawn is `ReqId(n)`, so "fresh" means "a
  serial not used before". Callers thread the counter through (`serial` in, `nextSerial` out).
- The state of the lazily required bus module is a parameter, `Bus`:
  - `Absent`: the `require` failed or never ran;
  - `Present(hasRequest, publishThrows)`: the module is loaded, with or without a truthy
    `request`, and its `publish` does or does not throw.
- `Wired(l, forwarded)` says that a logger has one function per declared level:
  - each level listed in `forwarded` holds exactly one wrapper around its base function;
  - every other level keeps its base function.

  `Construct` guarantees `Wired(l, ForwardingFor(l.config.remoteLogLevel))`. The call lemmas
  assume only `Wired`.
- Four small members define JavaScript or base-logger behaviour rather than promise anything:
  - `JsValues.Arg` is a positional argument, `undefined` when missing (line 57);
  - `FrusterLogger.Lookup` is the property read `this[level]`, which gives a non-function
    when the property is missing (line 54);
  - `FrusterLogger.BaseHandlers` is the base logger's one function per declared level
    (lines 14-19);
  - `BusPublisher.IsConnected` is the test `bus && !!bus.request` (line 86).

  The lemmas about wrapping, audit calls and publishing state what follows from them.

Facts about the code that the model follows:

- The envelope field is `reqId` (line 91).
- "Connected" means the bus module is loaded and `bus.request` is truthy (line 86).
- A level whose base function is missing still gets a wrapper, installed around `undefined`
  (lines 54-57). Calling it throws before anything is published (`NotAFunction` in `Run`).
  For the real table this cannot happen, because the base logger installs a function for
  every declared level.
- The forwarding set is an ordered list. Its order is the order in which the wrappers are
  installed.

## Model

| member | source | states |
|---|---|---|
| Constants.LevelNamesInOrder | constants.js:3-24 | `Object.keys(levels)` lists error, warn, remote, audit, info, debug, silly, in that order |
| Constants.LevelNamesDistinct | constants.js:3-24 | no level name occurs twice in the table |
| Constants.RanksStrictlyIncrease | constants.js:3-24 | ranks strictly increase along the declaration order |
| Constants.LevelRanks | constants.js:3-24 | `levels[name]` is 0, 1, 2, 3, 4, 5 and 7 for error, warn, remote, audit, info, debug and silly |
| Constants.AllRanksIn | constants.js:3-24 | every rank in the table is one of 0, 1, 2, 3, 4, 5, 7 |
| Constants.RankSixIsUnused | constants.js:20-23 | ranks are not contiguous: no level has rank 6, although debug has 5 and silly has 7 |
| Constants.ErrorHasMinimumRank | constants.js:5 | `error` has rank 0, the smallest rank in the table |
| Constants.EveryLevelHasColor | constants.js:3-34 | `levels` and `levelColors` name the same levels in the same order, and every level has a colour |
| Constants.MandatoryLevelsRanked | constants.js:11-14 | `remote` and `audit` are declared, with warn < remote < audit < info by rank |
| Constants.RankOf | FrusterLogger.js:35 | `levels[name]` is defined exactly when the name is declared, and is then the rank of that entry |
| Constants.RankOfEntry | FrusterLogger.js:35 | in a table with distinct names, looking up an entry's name yields that entry's rank |
| Constants.ColorOf | constants.js:26-34 | a colour is found exactly when some entry of the colour table has that name, and it is that entry's colour |
| LevelRouter.AtOrAbove | FrusterLogger.js:40-41 | the rank filter keeps at most one name per table entry (what it keeps is stated by the next rows) |
| LevelRouter.AtOrAboveKeepsEligible | FrusterLogger.js:40-41 | the rank filter drops no level whose rank is at most the threshold |
| LevelRouter.AtOrAbovePositions | FrusterLogger.js:40-41 | each kept name is the name of a table entry whose rank is at most the threshold, at strictly increasing table positions |
| LevelRouter.AtOrAboveMembership | FrusterLogger.js:40-41 | a name is kept iff `levels[name]` is defined and at most the threshold |
| LevelRouter.AtOrAboveKeepsTableOrder | FrusterLogger.js:40-41 | kept names appear in declaration order |
| LevelRouter.AtOrAboveNoDuplicates | FrusterLogger.js:40-41 | the filter repeats no name |
| LevelRouter.SortedFilterIsPrefix | FrusterLogger.js:40-41 | when ranks increase along the table, filtering at the k-th level's rank keeps exactly the first k+1 names |
| LevelRouter.Ranked | FrusterLogger.js:38-42 | with `levels[remoteLogLevel]` undefined nothing is rank-selected; otherwise at most one name per table entry |
| LevelRouter.WithMandatory | FrusterLogger.js:45-51 | after the two pushes, the list contains both `remote` and `audit` |
| LevelRouter.WithMandatoryAppendsMissing | FrusterLogger.js:45-51 | the pushes leave the existing list unchanged and append exactly the missing mandatory levels |
| LevelRouter.MissingShape | FrusterLogger.js:45-51 | at most two levels are appended, and when there are two they are `remote` then `audit` |
| LevelRouter.ForwardSet | FrusterLogger.js:34-51 | the forwarding set always contains `remote` and `audit`, whatever the threshold |
| LevelRouter.ForwardSetMembership | FrusterLogger.js:38-51 | a level is forwarded iff it is `remote`, it is `audit`, or the threshold is defined and the level's rank is at most it |
| LevelRouter.ForwardSetSplit | FrusterLogger.js:38-51 | the set is the rank-selected levels followed by the missing mandatory levels, and none of the appended levels passes the rank test |
| LevelRouter.ForwardSetTail | FrusterLogger.js:38-51 | positions before the end of the rank-selected prefix hold rank-selected levels; later positions hold only appended mandatory levels |
| LevelRouter.ForwardSetNoDuplicates | FrusterLogger.js:38-51 | no level appears twice in the forwarding set |
| LevelRouter.ForwardSetSelectedFirst | FrusterLogger.js:40-51 | every level before a rank-selected level is itself rank-selected and declared earlier in the table |
| LevelRouter.ForwardSetMandatoryLast | FrusterLogger.js:45-51 | once a level fails the rank test, the only level after it is `audit`, and the failing level is `remote` |
| LevelRouter.NoThresholdForwardsMandatoryOnly | FrusterLogger.js:36-51 | with no threshold rank, the set is exactly `[remote, audit]` |
| LevelRouter.UnknownThresholdForwardsMandatoryOnly | FrusterLogger.js:35-51 | an undeclared `remoteLogLevel` does not fail; it forwards exactly `[remote, audit]` |
| LevelRouter.DeclaredThresholdRanksPrefix | FrusterLogger.js:35-42 | a declared threshold selects by rank exactly the levels declared up to and including it |
| LevelRouter.ForwardingByIndex | FrusterLogger.js:35-51 | the forwarding set of the k-th declared level is its prefix of the table plus the missing mandatory levels |
| LevelRouter.ErrorThresholdIsReal | FrusterLogger.js:38-51 | threshold `error` (rank 0) is a real threshold: it forwards `[error, remote, audit]` |
| LevelRouter.WarnThresholdForwarding | FrusterLogger.js:35-51 | threshold `warn` forwards `[error, warn, remote, audit]` |
| LevelRouter.RemoteThresholdForwarding | FrusterLogger.js:35-51 | threshold `remote` forwards `[error, warn, remote, audit]`; only `audit` is appended |
| LevelRouter.AuditThresholdForwarding | FrusterLogger.js:35-51 | threshold `audit` forwards `[error, warn, remote, audit]` and appends nothing |
| LevelRouter.InfoThresholdForwarding | FrusterLogger.js:35-51 | threshold `info` forwards the first five declared levels |
| LevelRouter.DebugThresholdForwarding | FrusterLogger.js:35-51 | threshold `debug` forwards every level except `silly` |
| LevelRouter.SillyThresholdForwarding | FrusterLogger.js:35-51 | threshold `silly` forwards every level in declaration order |
| LevelRouter.ForwardingFor | FrusterLogger.js:35-51 | for any `remoteLogLevel`, declared or not, the levels to wrap include `remote` and `audit` |
| BusPublisher.PublishOnBus | FrusterLogger.js:76-97 | at most one publish; exactly one iff the bus is loaded and has `request`; it goes to the given subject with `{reqId, data}` and a fresh id; a throwing publish is recorded but not propagated |
| JsValues.NatToDecimal | FrusterLogger.js:58 | the decimal digits of a natural number read back as that number and have no leading zero |
| JsValues.Render | FrusterLogger.js:58 | `${v}` renders a string as itself, and a safe integer as decimal digits that read back as its value, after a `-` when negative |
| FrusterLogger.AuditLine | FrusterLogger.js:58 | the audit line is `[`, the rendered user id, `] `, then the rendered message |
| FrusterLogger.AuditLineRoundTrip | FrusterLogger.js:58 | when the rendered user id holds no `]`, cutting the audit line at its first `]` gives back the rendered user id and message |
| FrusterLogger.Attach | FrusterLogger.js:53-54 | installing wrappers adds properties only for listed levels and leaves every unlisted property as it was |
| FrusterLogger.AttachWrapsOnce | FrusterLogger.js:53-73 | a level listed once ends up with exactly one wrapper around the function it had before |
| FrusterLogger.Run | FrusterLogger.js:53-73 | a call throws iff its innermost function is missing; with no connected bus it only calls base functions and draws no id; a call that returns starts with a base call |
| FrusterLogger.RunDrawsFreshIds | FrusterLogger.js:91 | the publishes of one call carry ids drawn from the counter, strictly increasing, so no id repeats |
| FrusterLogger.BusOnlyAffectsPublishing | FrusterLogger.js:86-96 | the bus state changes only what is published: completion and base calls are the same for every bus |
| FrusterLogger.AttachWires | FrusterLogger.js:53-73 | wrapping a duplicate-free list of declared levels wires exactly those levels |
| FrusterLogger.ForwardingIsDeclared | FrusterLogger.js:34-51 | every forwarding set lists declared levels only, each once |
| FrusterLogger.Construct | FrusterLogger.js:13-25 | omitted arguments default to `info`, `Europe/Stockholm`, `error`; the logger is wired for its threshold's forwarding set; the default set is `[error, remote, audit]` |
| FrusterLogger.CallsNeverThrow | FrusterLogger.js:53-97 | no level function of a wired logger throws, whatever the bus does |
| FrusterLogger.UnforwardedLevelUntouched | FrusterLogger.js:53-73 | a level outside the forwarding set makes one base call with its arguments and publishes nothing |
| FrusterLogger.ForwardedLevelPublishes | FrusterLogger.js:64-71 | a forwarded non-audit level first passes its arguments unchanged to the base function, then, if connected, publishes `{level, msg}` on `"log"` with the next id |
| FrusterLogger.AuditCallPublishes | FrusterLogger.js:56-63 | `audit(u, m, p)` hands the single string `[u] m` to the base function (the payload is not logged), then, if connected, publishes `{userId, msg, payload, level: "audit"}` on `"log"` |
| FrusterLogger.RunCalls | FrusterLogger.js:53-97 | a sequence of calls, each seeing the bus as it is at that moment, never moves the id counter backwards, and draws no id and publishes nothing when no call finds the bus connected |
| FrusterLogger.RunCallsDrawsFreshIds | FrusterLogger.js:77-91 | across a sequence of calls, each seeing its own bus state, publish ids strictly increase |
| FrusterLogger.ReqIdsAreFresh | FrusterLogger.js:77-91 | however the bus state changes between calls, no two publishes in a sequence of calls share a `reqId` |
| FrusterLogger.DefaultConstruction | FrusterLogger.js:13 | with every argument omitted, the configuration is `info`, `Europe/Stockholm`, `error`, and the logger forwards `[error, remote, audit]` |
| FrusterLogger.DefaultWiring | FrusterLogger.js:13-73 | under the default set, `error` holds one wrapper around its base function and `info` keeps its base function |
| FrusterLogger.WarnThresholdConstruction | FrusterLogger.js:13-51 | a logger built with threshold `warn` forwards `[error, warn, remote, audit]` |
| FrusterLogger.WarnThresholdInfoCall | FrusterLogger.js:53-73 | under threshold `warn`, `info("hello")` only reaches the base function, even with a connected bus |
| FrusterLogger.WarnThresholdErrorCall | FrusterLogger.js:64-71 | under threshold `warn`, `error("x")` reaches the base function and then publishes `{level: "error", msg: ["x"]}` with id 0 |
| FrusterLogger.AuditLineExample | FrusterLogger.js:58 | the template literal renders string operands as they are: `[u1] did thing` |
| FrusterLogger.AuditExample | FrusterLogger.js:56-63 | `audit("u1", "did thing", payload)` logs `[u1] did thing` and publishes all three values with level `audit` |
| FrusterLogger.WrappingTwicePublishesTwice | FrusterLogger.js:53-73 | listing a level twice would wrap it twice and make one call publish twice, which is why the list must be duplicate-free |

## Left out

- The winston base class: level filtering by `logLevel`, the console transport, colours and
  `exitOnError` (lines 14-19, 127-138). This is library behaviour the source does not show.
  The base function appears only as the `BaseLogCall` event, and `logLevel` is only stored.
- `_getTimestamp` and moment-timezone (lines 144-147): wall-clock time and the timezone
  database. `timestampTimezone` is only stored.
- `enablePapertrailLogging` (lines 107-125): a network syslog transport.
- The lazy `require("fruster-bus")` and its memo in a module-level variable (lines 77-82). The
  bus state after that step is part of each call (`Call.bus`), so it may differ from one call
  to the next.
- `uuid.v4()` randomness: replaced by a counter. The model proves ids are distinct. It does not
  model their format.
- The prototype stubs `audit` and `remote` (lines 156-169). The base logger installs an own
  function for every declared level, so the wrappers wrap those functions, not the stubs.
- `index.js` and `fruster-log.d.ts`: the singleton wiring from a configuration module that is
  not part of this model, the process-wide rejection hook, and type declarations.
- JsValues.Render: numbers are safe integers only (magnitude at most 2^53 - 1), which
  JavaScript writes out in plain decimal. Fractions, `NaN`, infinities, values written in
  exponent form (such as `1e21`), symbols and objects with their own `toString` are not
  modelled.
- Constants.RankOf: a `remoteLogLevel` that names an inherited property of a plain object
  (`toString`, `constructor`) is treated like an undeclared name. In the source
  `levels[name]` is then a function or an object (`__proto__`), not `undefined`, but every
  rank comparison with it is false. The forwarding set is therefore `[remote, audit]` in both cases.
- FrusterLogger.RunCalls: a call that throws ends the sequence, as an uncaught exception
  would. Calls that catch and continue are not modelled.
- FrusterLogger.CallsNeverThrow: rests on two assumptions. The base level function installed
  by winston is taken never to throw. Every argument renders without throwing, because
  `Value` has no symbols or objects with a throwing `toString`. In JavaScript,
  `audit(Symbol("u"), "m")` throws a TypeError in the template literal of line 58, before
  the base function runs.
- BusPublisher.PublishOnBus: only a synchronous throw of `bus.publish` is modelled, which the
  try/catch of lines 89-96 catches. If `bus.publish` returns a promise, the source ignores
  it, and a rejection of that promise is not caught there. Asynchronous failures are not
  modelled.
