# Error codes, HTTP error responses, log options and graceful shutdown — a Dafny model

This project models the core of a Go toolkit for services:

- **`errors`** (`errors.dfy`, module `Errors`): the process-wide registry `codes` from
  business code to `Coder`, seeded by `init` with the unknown coder (code 1, status 500,
  "An internal server error occurred"); its two insertion policies `Register` (overwrite)
  and `MustRegister` (must be new), both refusing code 0; `ParseCoder`, which resolves an
  error to a coder by looking at the top-level `*withCode` only and falls back to the
  `unknownCoder` constant; and `IsCode`, which walks the chain of `*withCode` causes.
- **`code`** and **`bcode`** (`code.dfy`, `bcode.dfy`): the `ErrCode` coder and the
  validated `register` helper (status whitelist {200, 400, 401, 403, 404, 500}, first
  optional reference or "", then `MustRegister`). The two packages hold the same logic;
  `BCode.SameAsCodeRegistration` proves that their effects coincide.
- **`core`** (`core.dfy`): `WriteResponse` as a function from (registry, error, data) to
  the one response written: 200 with the data, or the resolved coder's status with the
  `ErrResponse` envelope, whose `reference` field is left out of the JSON when empty.
- **`shutdown`** (`shutdown.dfy`): the `GracefulShutdown` coordinator as a class with the
  fields `callbacks`, `managers` and `errorHandler`. Managers, callbacks and the handler
  are given by scripted results; `Start`, `ReportError` and `StartShutdown` return the
  trace of events they cause (hook calls, callback invocations, errors handed to the
  handler). The concurrent callback tasks of `StartShutdown` are run one at a time in an
  order chosen nondeterministically; the order is returned and proved to be a permutation.
- **`log`** (`log.dfy`): the `Options` defaults of `NewOptions` and the two checks of
  `Validate`: the level, which must be a level name in any letter case or empty, then the
  format, compared without regard to case; and the text of the two error messages.

Modelling choices:

- A value of the `Coder` interface is modelled by what its four methods return
  (`Errors.Coder`); `defaultCoder` and the two `ErrCode` structs are datatypes with an
  `AsCoder()` view. `defaultCoder` reports a stored status of 0 as 500 (its doc comment
  says 200; the code returns 500, and the model follows the code); `ErrCode` applies no default.
- A Go `error` is `Option<Error>`, `None` being nil; `Error` is `WithCode(code, cause)`
  (the `*withCode` type, whose definition and the `WrapC` constructor are not part of this
  model) or `Plain(text)` for every other error.
- A panic during registration is an explicit `Panic` outcome that leaves the map unchanged.
- The registry is passed to `ParseCoder`, `WriteResponse` and the `register` helpers
  instead of being read from a global.
- The status whitelist is checked only by `code` and `bcode`; `errors.Register` accepts any
  status. The invariant "every registered coder has an allowed status"
  (`Code.StatusesAllowed`) is therefore proved only for registries built from `init` by the
  validated registration, where `Core.StatusIsAlwaysAllowed` then holds.

## Model

| member | source | states |
|---|---|---|
| `Errors.DefaultCoder.HTTPStatus` | errors/code.go:50-58 | never 0; a stored 0 reads as 500, any other stored status reads unchanged |
| `Errors.DefaultCoder.Code` | errors/code.go:41-43 | returns the stored business code; proved in `Errors.DefaultCoderView` |
| `Errors.DefaultCoder.String` | errors/code.go:46-48 | returns the stored external message; proved in `Errors.DefaultCoderView` |
| `Errors.DefaultCoder.Reference` | errors/code.go:61-63 | returns the stored reference; proved in `Errors.DefaultCoderView` |
| `Errors.DefaultCoderView` | errors/code.go:40-63 | code, message and reference come back unchanged; every coder with a non-zero status is the view of the `defaultCoder` holding its values; a stored 0 looks exactly like a stored 500 |
| `Errors.Unknown` | errors/code.go:9-16 | the fallback coder has code 1, status 500, message "An internal server error occurred" and reference "" |
| `Errors.InitialCodes` | errors/code.go:132-134 | after `init` the registry holds key 1 only, mapped to the unknown coder |
| `Errors.Registry.constructor` | errors/code.go:132-134 | `init` leaves the registry holding only the unknown coder, and the registry invariant holds |
| `Errors.RegisterInto` | errors/code.go:69-80 | code 0 panics (reserved); otherwise the coder is stored under its code, overwriting, and every other key is untouched |
| `Errors.MustRegisterInto` | errors/code.go:82-96 | panics exactly on code 0 or a code already present; otherwise adds exactly that one key, all old entries kept |
| `Errors.MustRegisterRefinesRegister` | errors/code.go:71-96 | where `MustRegister` succeeds it has the same effect as `Register` |
| `Errors.RegistrationKeepsWellKeyed` | errors/code.go:71-96 | both policies keep every key equal to its coder's code and keep 0 out |
| `Errors.Registry.Register` | errors/code.go:69-80 | the method's new map is `RegisterInto` of the old one; a panic leaves it unchanged; the invariant is kept |
| `Errors.Registry.MustRegister` | errors/code.go:82-96 | the method's new map is `MustRegisterInto` of the old one; a panic leaves it unchanged; the invariant is kept |
| `Errors.ParseCoder` | errors/code.go:98-113 | nil exactly for nil; the registered coder for a top-level coded error with a registered code; the unknown coder otherwise |
| `Errors.ParseCoderIgnoresCause` | errors/code.go:106-112 | the result does not depend on the cause of the top-level error |
| `Errors.ParseCoderFallbackIsConstant` | errors/code.go:106-112 | an unrecognised error resolves to the constant, not to whatever key 1 holds |
| `Errors.InitialRegistryResolvesToUnknown` | errors/code.go:101-134 | with the registry of `init`, every non-nil error resolves to the unknown coder |
| `Errors.ParseCoderAfterRegistration` | errors/code.go:71-112 | after a successful registration of `c`, an error with `c`'s code resolves to `c` |
| `Errors.ResolvedCoderCarriesCode` | errors/code.go:98-113 | over a registry whose keys are the codes of their coders, a resolved coder never has code 0, and a registered coded error resolves to a coder with its own code |
| `Errors.IsCode` | errors/code.go:116-130 | false for nil and for any error other than `*withCode`; true when the top-level code matches; the whole chain is characterised by `Errors.IsCodeIffOnChain` |
| `Errors.IsCodeIffOnChain` | errors/code.go:115-130 | `IsCode(err, k)` holds exactly when `k` is on the unbroken chain of coded causes from the top |
| `Errors.PlainHasNoCode` | errors/code.go:116-130 | nil and plain errors have no code, and nothing below a plain link is seen |
| `Errors.WrapAllChain` | errors/mocks_test.go:20-33 | nested wrapping puts the wrapping codes, outermost first, in front of the chain |
| `Errors.IsCodeFindsEveryWrapping` | errors/code.go:115-130 | a code given at any wrapping level is found, whatever the innermost error |
| `Errors.LoadConfigErrorCodes` | errors/mocks_test.go:5-33 | the EOF, InvalidJson, ConfigurationNotValid chain: top-level coder resolved, all three codes found, an unused one not |
| `Code.AccessorsAreFaithful` | code/code.go:23-43 | the four accessors return the fields unchanged: the fields read back from them exactly, status 0 included |
| `Code.StatusDiffersFromDefaultCoder` | code/code.go:39-43 | `ErrCode` and `defaultCoder` with the same fields report different statuses exactly when the stored status is 0 |
| `Code.FirstRef` | code/code.go:51-54 | the stored reference is the first optional reference, or "" when none is given |
| `Code.Registration` | code/code.go:45-64 | a status outside the whitelist panics first; then code 0 or a present code panics; otherwise exactly the new key holds an `ErrCode` with the given fields |
| `Code.RegistrationKeepsStatusesAllowed` | code/code.go:45-63 | `init` and validated registration keep every stored status in the whitelist |
| `Code.InitialRegistryRejectsCodeOne` | code/code.go:63 | registering code 1 on the registry of `init` always panics, and with an allowed status the panic is that the code already exists |
| `Code.Register` | code/code.go:45-64 | the method's effect is `Registration`; a panic leaves the registry unchanged |
| `BCode.AccessorsAreFaithful` | bcode/bcode.go:23-43 | the accessors return the fields unchanged, the same coder a `code.ErrCode` with those fields gives |
| `BCode.Registration` | bcode/bcode.go:45-64 | status whitelist first, then zero or duplicate code panics; otherwise stores the given fields under the code only |
| `BCode.SameAsCodeRegistration` | bcode/bcode.go:45-64 | the two packages' `register` helpers have the same effect on every registry |
| `BCode.Register` | bcode/bcode.go:45-64 | the method's effect is `Registration`; a panic leaves the registry unchanged |
| `Core.WriteResponse` | core/core.go:25-39 | nil error: status 200 with the data; otherwise the resolved coder's status and an envelope of its code, message and reference |
| `Core.UnrecognisedErrorIsInternal` | core/core.go:28-33 | a plain or unregistered error gets 500 with code 1 and "An internal server error occurred" |
| `Core.RegisteredErrorUsesItsCoder` | core/core.go:28-33 | a registered coded error gets its coder's status and envelope, whatever its cause |
| `Core.StatusIsAlwaysAllowed` | core/core.go:28-29 | over a registry with whitelisted statuses, every response status is whitelisted |
| `Core.KnownErrorScenario` | core/core.go:25-39 | after registering (1001, 404, "User not found"), an error with code 1001 gets 404 and that envelope with an empty reference |
| `Core.EnvelopeFields` | core/core.go:10-20 | the JSON object has `code` and `message`, and `reference` only when non-empty |
| `Core.EnvelopeRoundTrip` | core/core.go:19 | the `reference` key is present exactly when non-empty, and the envelope reads back unchanged |
| `Shutdown.Reported` | shutdown/shutdown.go:107-112 | one call of the handler exactly when there is both an error and a handler, nothing otherwise |
| `Shutdown.ShutdownCallback.OnShutdown` | shutdown/shutdown.go:15-17 | the `ShutdownFunc` adapter: the callback's result is its function applied to the manager's name; `Shutdown.DispatchShape` shows a task reports exactly that result |
| `Shutdown.GracefulShutdown.New` | shutdown/shutdown.go:59-65 | no callbacks, no managers, no error handler |
| `Shutdown.GracefulShutdown.Start` | shutdown/shutdown.go:67-77 | managers started in registration order; stops at and returns the first error; nil after starting them all |
| `Shutdown.GracefulShutdown.AddShutdownManager` | shutdown/shutdown.go:79-82 | appends exactly one manager at the end; the rest of the state is unchanged |
| `Shutdown.GracefulShutdown.AddShutdownCallback` | shutdown/shutdown.go:84-94 | appends exactly one callback at the end; the rest of the state is unchanged |
| `Shutdown.GracefulShutdown.SetErrorHandler` | shutdown/shutdown.go:96-105 | replaces the handler with the one given, nil included (no handler afterwards); callbacks and managers unchanged |
| `Shutdown.GracefulShutdown.ReportError` | shutdown/shutdown.go:107-112 | produces exactly the events of `Reported` for the current handler |
| `Shutdown.GracefulShutdown.StartShutdown` | shutdown/shutdown.go:114-134 | the callback order is a permutation of the callbacks, and the trace is start hook, callback tasks in that order, finish hook, each error reported |
| `Shutdown.DispatchShape` | shutdown/shutdown.go:122-128 | one callback task invokes that callback once, with the manager's name, and reports only `OnShutdown`'s error |
| `Shutdown.CallbackPhaseInvokes` | shutdown/shutdown.go:122-131 | the callback phase invokes the callbacks in exactly the order the tasks ran |
| `Shutdown.CallbackPhaseReports` | shutdown/shutdown.go:127 | the callback phase hands every callback error, and only those, to the handler if one is set |
| `Shutdown.CallbackPhaseKinds` | shutdown/shutdown.go:122-128 | the callback phase holds only invocations with the manager's name and error reports |
| `Shutdown.ShutdownPhaseOrder` | shutdown/shutdown.go:118-134 | `ShutdownStart` first and once, `ShutdownFinish` once, every callback strictly between them |
| `Shutdown.CallbacksInvokedExactlyOnce` | shutdown/shutdown.go:121-131 | every registered callback is invoked exactly once, whatever the callbacks return, and no other |
| `Shutdown.HookShape` | shutdown/shutdown.go:119-133 | a manager hook invokes no callback and reports its own error if a handler is set |
| `Shutdown.ShutdownErrorsReported` | shutdown/shutdown.go:118-134 | the handler receives the start error, the callback errors and the finish error, in that order, and nothing else; none without a handler |
| `Shutdown.SingleFailure` | shutdown/shutdown.go:126-128 | with one failing callback, its error is the only callback failure |
| `Shutdown.OneFailingCallback` | shutdown/shutdown.go:118-134 | with hooks that succeed and one failing callback, the handler receives exactly that error |
| `Shutdown.FailingCallbackIsSurfaced` | shutdown/shutdown.go:114-134 | callbacks ok, failing, ok: each runs once and the handler receives exactly the one error |
| `Log.NewOptions` | log/options.go:39-50 | level "info", format "console", outputs ["stdout"] and ["stderr"], all flags false, empty name |
| `Log.IsLevelName` | log/options.go:56-59 | the level check; characterised by `Log.LevelCheckIgnoresCase` |
| `Log.LevelCheckIgnoresCase` | log/options.go:56-59 | the level passes exactly when it is empty or equals one of the seven level names up to letter case |
| `Log.LevelExamples` | log/options.go:29-59 | "info", "Debug", "WARN" and "" pass; "test" and "trace" fail |
| `Log.ToLower` | log/options.go:61 | same length, each ASCII letter lower-cased and every other character kept |
| `Log.IsFormatName` | log/options.go:61-62 | the format check; a format that passes has the length of one of the two names; characterised by `Log.FormatCheckIgnoresCase` |
| `Log.FormatCheckIgnoresCase` | log/options.go:61-64 | the format passes exactly when it equals "console" or "json" up to letter case |
| `Log.FormatExamples` | log/options.go:61-64 | "console", "JSON", "Json", "CoNsOlE" pass; "text", "" and "jsonl" fail |
| `Log.OptionError.Message` | log/options.go:57-63 | a message starts with the prefix of the check that failed and ends with the closing quote of the offending value |
| `Log.EscapeInjective` | log/options.go:63 | quoting loses nothing: different values give different quoted text |
| `Log.MessageIdentifiesError` | log/options.go:57-63 | two errors with the same message are the same error: same check, same offending value |
| `Log.TestMessages` | log/options_test.go:20 | the two messages for the value "test" read `unrecognized level: "test"` and `not a valid log format: "test"` |
| `Log.Validate` | log/options.go:52-67 | at most two errors: one level error exactly when the level is unrecognised, one format error exactly when the format fails, level error first |
| `Log.ValidateDefaults` | log/options.go:39-67 | the default options validate with no error |
| `Log.ValidateZeroValue` | log/options.go:53-67 | zero-valued options give exactly one error, the format error for "" (the empty level passes) |
| `Log.ValidateTestOptions` | log/options_test.go:9-22 | level and format "test" give the messages `unrecognized level: "test"` then `not a valid log format: "test"` |

## Left out

- shutdown/shutdownmanagers/posixsignal/posixsignal.go is not part of this model: signal subscription, its background task and `os.Exit` are process control; managers stay abstract.
- Goroutines and the wait group of `StartShutdown`: the callback tasks run one after another in a nondeterministically chosen order, each reporting its own error right after it runs; overlapping tasks, the thread-safety of the handler and concurrent `StartShutdown` calls are not modelled.
- `Shutdown.GracefulShutdown.Start`: a manager's `Start` is given by its scripted result only; a manager that calls back into the coordinator from its `Start` (registering callbacks, starting a shutdown) is not modelled.
- The `codeMux` lock and unsynchronised reads of `codes`: concurrency discipline, not behaviour.
- The `gin` JSON write and the `log.Errorf` call of `WriteResponse`: foreign calls; only the (status, body) result is modelled, with the envelope as a list of JSON fields.
- The `ErrorFunc` adapter (`OnError` calling the wrapped function): a handler call is recorded as an `ErrorHandled` event naming the handler and the error; the function itself and what it does are not modelled.
- Panic messages: panics are the `Panic` values `ReservedCode`, `AlreadyExists(code)` and `StatusNotAllowed(status)`, not their text.
- Formatting of `*withCode` and its developer message, and `WrapC`: their definitions are not part of this model; `WithCode(code, cause)` stands for what `WrapC` returns.
- Coder identity: two coder values whose four accessors agree are the same coder in this model; Go's pointer identity of `*ErrCode` is not modelled.
- Go's 64-bit `int` for codes and statuses: codes are unbounded integers; no arithmetic is done on them.
- `Log.IsLevelName`: the level parser is outside the repository; it is modelled as accepting the empty string and the seven level names in any ASCII letter case ("debug", "Debug", "DEBUG", …), which covers the capitalised names of the field's documentation.
- `Log.ToLower`: lower-cases ASCII letters only; Unicode case mapping is not modelled, so a level or format spelled with a non-ASCII letter that Unicode lower-cases to an ASCII one is rejected by the model.
- `Log.Quote`: escapes double quote and backslash only; other escapes of Go's `%q` are not modelled.
- `Log.Validate`: the options are a value, so that validation leaves them unchanged holds by construction rather than being proved of a mutable struct.
- `AddFlags` (flag binding), `Options.String` (JSON encoding) and `Build` (does nothing), the `gubrak.Includes` call (plain sequence membership instead), and the commented-out `init` block of code/code.go.
