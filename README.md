# logtrace in Dafny

A model of `logtrace`, a logrus hook that attaches a stack trace to every log
entry that carries an error. When logrus fires the hook on an entry, the hook
looks up the error under the entry's `"error"` field. It takes that error's
program counters from one of three sources, in priority order:

1. the stack a merry error carries;
2. the `Callers()` list of the first error in the unwrap chain that has that method;
3. a stack captured on the spot, if the hook's `CaptureStackIfMissing` is set.

Each program counter is resolved to a `StackFrame` (file, line, function,
package). If the list is non-empty, it is stored under the hook's key.

Files:

- `text.dfy` (module `Text`): the single-character forms of Go's
  `strings.LastIndex`, `strings.Index` and `strings.Replace(s, old, new, -1)`
  that the frame builder uses.
- `logtrace.dfy` (module `Logtrace`): the hook configuration and its default,
  the symbol-name splitting of `newStackFrame`, the retrieval order of
  `retrieveProgramCounters`, the frame-building loop of `retrieveStackFrames`
  (written over an array), and `Fire` (written as a method on a logrus entry
  object whose `Data` map it reassigns).

Inputs the model takes as parameters:

- **The process symbol table.** A `SymbolTable` is a pair of functions: one
  stands for `runtime.FuncForPC` (`None` is a nil `*Func`), the other for
  `(*Func).FileLine`. The model says nothing about what they return.
- **An error.** An `Error` records three things:
  - `merryStack`: what `merry.Stack` reports for the error;
  - `callers`: the result of its `Callers()` method, if its type has one;
  - `cause`: what its `Unwrap()` returns.
- **The stack captured at the call.** `captured` stands for
  `merry.Stack(merry.WrapSkipping(err, 6))`.

Go slices of program counters are `PcSlice`. This keeps the nil slice apart
from an empty one, as the `stack != nil` test in the source does. `uintptr` is
the 64-bit range. `programCounter - 1` wraps around at zero, as Go's unsigned
subtraction does.

## Model

| member | source | states |
|---|---|---|
| `Logtrace.DefaultLogtraceHook` | logtrace.go:31-37 | the default hook has a non-empty key, so it never fails on its configuration, and it captures a stack when the error carries none |
| `Logtrace.DefaultLogtraceHookProperties` | logtrace.go:25-37 | the default hook's key is "stacktrace"; capture is on; its levels are logrus's AllLevels, so each of the seven levels appears exactly once |
| `Logtrace.Levels` | logtrace.go:39-41 | the levels the hook fires for; `LevelsIsConfigured` states that they are the configured list |
| `Logtrace.LevelsIsConfigured` | logtrace.go:39-41 | `Levels()` returns the configured `LogLevels` list unchanged |
| `Text.LastIndexOf` | logtrace.go:83 | -1 exactly when the character does not occur; otherwise the position of an occurrence with none after it |
| `Text.IndexOf` | logtrace.go:87 | -1 exactly when the character does not occur; otherwise the position of an occurrence with none before it |
| `Text.ReplaceChar` | logtrace.go:92 | same length; each centre dot becomes exactly one '.'; every other character is kept in place; no centre dot remains |
| `Logtrace.ReturnAddressAdjust` | logtrace.go:68-70 | the result plus one is the program counter, modulo 2^64 (uintptr wrap-around) |
| `Logtrace.CutAtLastSlash` | logtrace.go:83-86 | package + rest is the name; the rest is the text after the last '/' and contains no '/'; the package is empty exactly when the name has no '/', and otherwise ends in '/' |
| `Logtrace.CutAtFirstPeriod` | logtrace.go:87-90 | with a '.' in the rest: package + "." + function gives back the old package + rest; the package grows by the '.'-free text before the first '.'. Without a '.': nothing changes |
| `Logtrace.SplitSymbolName` | logtrace.go:83-90 | the two cuts in the source's order: the last '/' first, then the first '.' after it; `SplitSymbolRoundTrip`, `SplitSymbolShape`, `SplitOfJoin` and `SplitOfJoinNoSlash` state what the parts are |
| `Logtrace.SplitSymbolRoundTrip` | logtrace.go:83-90 | Package + "." + raw function is the name when a '.' follows the last '/'; otherwise Package + raw function is the name |
| `Logtrace.SplitSymbolShape` | logtrace.go:83-90 | the raw function contains no '/'; the package's text after its last '/' contains no '.'; a name with neither '/' nor '.' gives package "" and the whole name as the function |
| `Logtrace.SplitOfJoin` | logtrace.go:81-90 | dir + "/" + segment + "." + function, with a '/'- and '.'-free segment and a '/'-free function, splits into package dir + "/" + segment and that function, even when dir contains dots |
| `Logtrace.SplitOfJoinNoSlash` | logtrace.go:83-90 | a name without '/', segment + "." + function with a '.'-free segment, splits into package segment and that function (as `main.main` gives package `main`) |
| `Logtrace.NewStackFrame` | logtrace.go:62-100 | no function for the pc gives the all-empty frame; otherwise file and line come from FileLine at pc - 1, and Package and Function come from the split name with centre dots replaced; Function never contains a centre dot or '/' |
| `Logtrace.NewStackFrameRoundTrip` | logtrace.go:72-99 | for a resolved pc whose name has no centre dot, the frame's Package and Function (joined by "." when a '.' follows the last '/') give back the symbol name |
| `Logtrace.CentreDotExample` | logtrace.go:75-92 | the comment's example `*T·ptrmethod` becomes `*T.ptrmethod` |
| `Logtrace.AsCallersCarrier` | logtrace.go:110-112 | `errors.As` to the `Callers()` interface, then the call; `AsCallersCarrierIsFirst` states which error of the chain it answers for |
| `Logtrace.AsCallersCarrierIsFirst` | logtrace.go:110-112 | the search finds nothing exactly when no error of the unwrap chain has `Callers()`; otherwise it returns the `Callers()` result of the first error in the chain that has the method |
| `Logtrace.RetrieveProgramCounters` | logtrace.go:102-120 | a non-nil merry stack is returned whatever else the error carries; otherwise the `Callers()` result of the first carrier in the unwrap chain; otherwise the captured stack if capture is on, and nil if not |
| `Logtrace.ResolveAll` | logtrace.go:129-133 | one frame per program counter; frame i is `newStackFrame(pcs[i])` |
| `Logtrace.StackFramesOf` | logtrace.go:122-134 | the value `retrieveStackFrames` returns; `RetrieveStackFrames` states that its loop computes exactly this |
| `Logtrace.RetrieveStackFrames` | logtrace.go:122-134 | nil or no pcs gives the empty sequence; otherwise the length equals len(pcs) and element i is `newStackFrame(pcs[i])`, in order |
| `Logtrace.Message` | logtrace.go:138-145 | the text of each failure, never empty; `MessagesDistinct` gives both texts and shows they differ |
| `Logtrace.MessagesDistinct` | logtrace.go:138-145 | the two failures have different messages; the key error's text is exactly "The key of the hook must be set to a non empty string." and the other's is exactly "The value in the error field of the given logrus entry is not an error!" |
| `Logtrace.FireOn` | logtrace.go:137-152 | a failure leaves Data unchanged; success adds at most the hook's key; every other field keeps its value; a new or changed value under the key is the frame list of the entry's error |
| `Logtrace.Entry.constructor` | logtrace.go:137 | a logrus entry, reduced to its `Data` map, starts with the given fields |
| `Logtrace.Fire` | logtrace.go:136-152 | the returned error and the entry's new Data are those of `FireOn` on the old Data |
| `Logtrace.FireEmptyKeyFails` | logtrace.go:138-140 | an empty key gives the configuration error and leaves Data unchanged, whatever the entry holds |
| `Logtrace.FireWithoutErrorIsNoOp` | logtrace.go:141-151 | with no error field, Fire succeeds and leaves Data unchanged |
| `Logtrace.FireNonErrorFails` | logtrace.go:141-145 | a non-error value under the error field gives the "not an error" failure, with Data unchanged |
| `Logtrace.FireAttachesTrace` | logtrace.go:146-149 | a non-empty frame list is stored under the key and every other field keeps its value, the original error included (when the key is not "error"); an empty list leaves Data unchanged |
| `Logtrace.FireCarriedStack` | logtrace.go:106-112 | an error with a non-empty merry stack, or with a non-empty `Callers()` list and no merry stack, gets one frame per pc, in order, under the key |
| `Logtrace.FireNoStackNoCapture` | logtrace.go:116-119 | an error with neither kind of stack, with capture off, leaves the entry without the key |
| `Logtrace.FireNoStackCaptures` | logtrace.go:113-115 | an error with neither kind of stack, with capture on, gets the frames of the captured stack, beginning with the frame of its first pc |
| `Logtrace.TracebackHookCases` | logtrace_test.go:85-121 | the five cases of the hook test: a plain error with capture off succeeds without a trace; the plain error with capture on, and a go-errors error or a merry error with capture off, succeed with a trace; the hook with an empty key fails with the key error and changes nothing; in every case the error field keeps the logged error |
| `Logtrace.NonErrorErrorCase` | logtrace_test.go:123-132 | the string "foo" under the error field gives the "not an error" failure with its exact message |

## Left out

- `runtime.FuncForPC` and `(*Func).FileLine` read the process symbol table. They are the two uninterpreted functions of `SymbolTable`, and nothing is assumed about what they return.
- The internals of `merry.Stack`, including how it searches wrapped errors, are not modelled. The model only has its outcome for the logged error, `Error.merryStack`.
- `merry.WrapSkipping(err, 6)` captures a live call stack, and its skip count depends on call depth. Its outcome is the `captured` parameter.
- `errors.As` is modelled as a walk down a single `Unwrap()` chain. Custom `As(any) bool` methods and multi-error `Unwrap() []error` trees are not modelled.
- A logrus entry is reduced to its `Data` map. `WithField` is modelled as the copy of that map with the one field set. Its check against function-typed values never applies to a frame slice, so it is left out.
- `Level` has only the seven named logrus levels. `logrus.Level` is a `uint32`, and other values of it cannot be expressed in the model.
- Level filtering and hook registration belong to logrus and are left out. `LogLevels` is only stored and returned.
- The errors that `merry.Errorf` returns carry a stack of their own, which is not modelled. Only which of the two failures occurred is modelled, with its message text.
- Strings are sequences of code points, not UTF-8 bytes. The cuts at the ASCII characters '/' and '.' and the replacement of the centre dot agree with Go's byte-wise functions on valid UTF-8 names. Byte offsets themselves are not modelled.
- `uintptr` is modelled as 64 bits. 32-bit platforms are not modelled.
- Everything in logtrace_test.go beyond the asserted outcomes is left out: capturing stderr with `os.Pipe`, the void writer and the validating formatter.
- The idempotence of the symbol resolver is not stated as a separate lemma. `NewStackFrame` is a function of the symbol table and the pc, so two calls with the same arguments give the same frame by construction.

## Overwriting under the hook's key

Fire is meant to only add one field and to leave other fields alone. The code stores the trace with `WithField(hook.Key, …)`. That replaces any value already under the key, so a hook whose key is `"error"` replaces the error itself. The model follows the code. `FireAttachesTrace` keeps the original error only when the key is not `"error"`.
