/** A logrus hook that attaches a stack trace, taken from the error a log
    entry carries, to that entry. The Go runtime's symbol table, the merry and
    go-errors error libraries and logrus itself are replaced by abstract
    inputs: a symbol table given as two functions, an error described by the
    stack capabilities it offers, and an entry reduced to its field map. */
module Logtrace {
  import opened Text

  datatype Option<T> = None | Some(value: T)

  /** Go's uintptr on a 64-bit platform. */
  const UintptrLimit: int := 0x1_0000_0000_0000_0000
  newtype Uintptr = x: int | 0 <= x < 0x1_0000_0000_0000_0000

  /** A Go slice of program counters; Nil is the nil slice, which the source
      tells apart from a non-nil one. */
  datatype PcSlice = Nil | Pcs(elems: seq<Uintptr>)

  // ---------------------------------------------------------------------
  // Hook configuration
  // ---------------------------------------------------------------------

  /** logrus.Level, in the order of logrus.AllLevels. */
  datatype Level = PanicLevel | FatalLevel | ErrorLevel | WarnLevel | InfoLevel | DebugLevel | TraceLevel

  const AllLevels: seq<Level> := [PanicLevel, FatalLevel, ErrorLevel, WarnLevel, InfoLevel, DebugLevel, TraceLevel]

  /** logrus.ErrorKey, the field under which logrus's WithError stores the error. */
  const ErrorKey: string := "error"

  datatype LogtraceHook = LogtraceHook(Key: string, LogLevels: seq<Level>, CaptureStackIfMissing: bool)

  /** DefaultLogtraceHook(): a hook whose key is set, so it never fails on
      its configuration, and which captures a stack when the error has none. */
  function DefaultLogtraceHook(): (h: LogtraceHook)
    ensures h.Key != "" && h.CaptureStackIfMissing
  {
    LogtraceHook("stacktrace", AllLevels, true)
  }

  /** The levels logrus should fire the hook for. */
  function Levels(hook: LogtraceHook): seq<Level>
  {
    hook.LogLevels
  }

  /** The default hook writes under "stacktrace", fires on every level exactly
      once, and captures a stack for errors that carry none. */
  lemma DefaultLogtraceHookProperties()
    ensures DefaultLogtraceHook().Key == "stacktrace"
    ensures DefaultLogtraceHook().CaptureStackIfMissing
    ensures Levels(DefaultLogtraceHook()) == AllLevels
    ensures forall l: Level :: l in Levels(DefaultLogtraceHook())
    ensures forall i, j :: 0 <= i < j < |Levels(DefaultLogtraceHook())| ==>
              Levels(DefaultLogtraceHook())[i] != Levels(DefaultLogtraceHook())[j]
  {
    var levels := Levels(DefaultLogtraceHook());
    forall l: Level
      ensures l in levels
    {
      match l
      case PanicLevel => assert levels[0] == l;
      case FatalLevel => assert levels[1] == l;
      case ErrorLevel => assert levels[2] == l;
      case WarnLevel => assert levels[3] == l;
      case InfoLevel => assert levels[4] == l;
      case DebugLevel => assert levels[5] == l;
      case TraceLevel => assert levels[6] == l;
    }
  }

  /** Levels hands back the configured list itself, whatever the hook. */
  lemma LevelsIsConfigured(hook: LogtraceHook)
    ensures Levels(hook) == hook.LogLevels
    ensures |Levels(hook)| == |hook.LogLevels|
  {
  }

  // ---------------------------------------------------------------------
  // Symbol resolution: newStackFrame
  // ---------------------------------------------------------------------

  /** What runtime.FuncForPC hands back: a function known by its qualified name. */
  datatype Func = Func(name: string)

  /** The process symbol table: runtime.FuncForPC (None for a nil *Func) and
      (*Func).FileLine. Neither is specified. */
  datatype SymbolTable = SymbolTable(funcForPc: Uintptr -> Option<Func>, fileLine: (Func, Uintptr) -> (string, int))

  datatype StackFrame = StackFrame(File: string, Line: int, Function: string, Package: string)

  /** The zero StackFrame, returned when no function owns a program counter. */
  const EmptyFrame: StackFrame := StackFrame("", 0, "", "")

  /** programCounter - 1 in uintptr arithmetic, which wraps around at zero. */
  function ReturnAddressAdjust(pc: Uintptr): (r: Uintptr)
    ensures (r as int + 1) % UintptrLimit == pc as int
  {
    if pc == 0 then (UintptrLimit - 1) as Uintptr else pc - 1
  }

  /** A qualified symbol name cut into the package and the function as it
      stands in the name, before centre dots are replaced. */
  datatype SymbolParts = SymbolParts(pkg: string, rawFunction: string)

  /** The text after the last '/' of a name (the whole name if there is none). */
  function AfterLastSlash(name: string): string
  {
    name[LastIndexOf(name, '/') + 1..]
  }

  /** The first cut of newStackFrame: everything up to the last '/' and the
      '/' itself go to the package; the rest stays as the name. */
  function CutAtLastSlash(name: string): (parts: SymbolParts)
    ensures parts.pkg + parts.rawFunction == name
    ensures parts.rawFunction == AfterLastSlash(name) && '/' !in parts.rawFunction
    ensures parts.pkg == "" <==> '/' !in name
    ensures parts.pkg != "" ==> parts.pkg[|parts.pkg| - 1] == '/'
  {
    var lastSlash := LastIndexOf(name, '/');
    if lastSlash >= 0 then
      assert name == name[..lastSlash] + "/" + name[lastSlash + 1..];
      SymbolParts(name[..lastSlash] + "/", name[lastSlash + 1..])
    else SymbolParts("", name)
  }

  /** The second cut: the name's text before its first '.' is appended to the
      package; the text after it is the function. Without a '.' nothing moves. */
  function CutAtFirstPeriod(parts: SymbolParts): (r: SymbolParts)
    ensures '.' in parts.rawFunction ==> r.pkg + "." + r.rawFunction == parts.pkg + parts.rawFunction
    ensures '.' in parts.rawFunction ==>
              && |parts.pkg| <= |r.pkg| && r.pkg[..|parts.pkg|] == parts.pkg
              && '.' !in r.pkg[|parts.pkg|..]
              && r.pkg[|parts.pkg|..] + "." + r.rawFunction == parts.rawFunction
    ensures '.' !in parts.rawFunction ==> r == parts
  {
    var name := parts.rawFunction;
    var period := IndexOf(name, '.');
    if period >= 0 then
      assert name == name[..period] + "." + name[period + 1..];
      var r := SymbolParts(parts.pkg + name[..period], name[period + 1..]);
      assert r.pkg[|parts.pkg|..] == name[..period];
      r
    else parts
  }

  /** The cuts of newStackFrame, in the order the source makes them. */
  function SplitSymbolName(name: string): SymbolParts
  {
    CutAtFirstPeriod(CutAtLastSlash(name))
  }

  /** newStackFrame(programCounter). */
  function NewStackFrame(sym: SymbolTable, pc: Uintptr): (frame: StackFrame)
    ensures sym.funcForPc(pc).None? ==> frame == EmptyFrame
    ensures sym.funcForPc(pc).Some? ==>
              (frame.File, frame.Line) == sym.fileLine(sym.funcForPc(pc).value, ReturnAddressAdjust(pc))
    ensures sym.funcForPc(pc).Some? ==>
              && frame.Package == SplitSymbolName(sym.funcForPc(pc).value.name).pkg
              && frame.Function == ReplaceChar(SplitSymbolName(sym.funcForPc(pc).value.name).rawFunction, CentreDot, '.')
    ensures CentreDot !in frame.Function && '/' !in frame.Function
  {
    match sym.funcForPc(pc)
    case None => EmptyFrame
    case Some(f) =>
      var (file, line) := sym.fileLine(f, ReturnAddressAdjust(pc));
      var parts := SplitSymbolName(f.name);
      SplitSymbolShape(f.name);
      StackFrame(file, line, ReplaceChar(parts.rawFunction, CentreDot, '.'), parts.pkg)
  }

  /** The split loses nothing: the package, the '.' that was cut (when there
      was one after the last '/') and the raw function give back the name. */
  lemma SplitSymbolRoundTrip(name: string)
    ensures '.' in AfterLastSlash(name) ==>
              SplitSymbolName(name).pkg + "." + SplitSymbolName(name).rawFunction == name
    ensures '.' !in AfterLastSlash(name) ==>
              SplitSymbolName(name).pkg + SplitSymbolName(name).rawFunction == name
  {
  }

  /** The shape of the two segments: the raw function holds no '/', the last
      segment of the package holds no '.', and a name with neither '/' nor '.'
      is all function. */
  lemma SplitSymbolShape(name: string)
    ensures '/' !in SplitSymbolName(name).rawFunction
    ensures var pkg := SplitSymbolName(name).pkg;
            '.' !in pkg[LastIndexOf(pkg, '/') + 1..]
    ensures '/' !in name && '.' !in name ==> SplitSymbolName(name) == SymbolParts("", name)
  {
    var first := CutAtLastSlash(name);
    var parts := SplitSymbolName(name);
    var dir, pkg := first.pkg, parts.pkg;
    var head := if '.' in first.rawFunction then pkg[|dir|..] else "";
    assert pkg == dir + head;
    assert '/' !in head && '.' !in head;
    if dir != "" {
      assert pkg[|dir| - 1] == '/' && pkg[|dir|..] == head;
      LastIndexOfAt(pkg, '/', |dir| - 1);
    } else {
      assert pkg == head;
    }
  }

  /** When the name has no centre dot the frame's names give back the symbol
      name: Package + "." + Function, or Package + Function when no '.' follows
      the last '/'. */
  lemma NewStackFrameRoundTrip(sym: SymbolTable, pc: Uintptr)
    requires sym.funcForPc(pc).Some? && CentreDot !in sym.funcForPc(pc).value.name
    ensures var frame := NewStackFrame(sym, pc);
            var name := sym.funcForPc(pc).value.name;
            if '.' in AfterLastSlash(name) then frame.Package + "." + frame.Function == name
            else frame.Package + frame.Function == name
  {
    var name := sym.funcForPc(pc).value.name;
    var parts := SplitSymbolName(name);
    SplitSymbolRoundTrip(name);
    var raw := parts.rawFunction;
    assert raw == name[|name| - |raw|..];
    assert ReplaceChar(raw, CentreDot, '.') == raw;
  }

  /** The converse of the round trip: a name built from a directory, a last
      path segment without '.' and a function without '/' splits back into the
      package and that function. */
  lemma SplitOfJoin(dir: string, segment: string, fn: string)
    requires '/' !in segment && '.' !in segment && '/' !in fn
    ensures SplitSymbolName(dir + "/" + segment + "." + fn) == SymbolParts(dir + "/" + segment, fn)
  {
    var rest := segment + "." + fn;
    var name := dir + "/" + segment + "." + fn;
    assert name == dir + "/" + rest;
    assert name[|dir|] == '/' && name[|dir| + 1..] == rest;
    LastIndexOfAt(name, '/', |dir|);
    assert CutAtLastSlash(name) == SymbolParts(dir + "/", rest);
    assert rest[|segment|] == '.' && rest[..|segment|] == segment;
    IndexOfAt(rest, '.', |segment|);
    assert rest[|segment| + 1..] == fn;
  }

  /** A symbol of a package path without a '/', as "main.main": the text
      before the first '.' is the package and the rest is the function. */
  lemma SplitOfJoinNoSlash(segment: string, fn: string)
    requires '/' !in segment && '.' !in segment && '/' !in fn
    ensures SplitSymbolName(segment + "." + fn) == SymbolParts(segment, fn)
  {
    var name := segment + "." + fn;
    assert '/' !in name;
    assert CutAtLastSlash(name) == SymbolParts("", name);
    assert name[|segment|] == '.' && name[..|segment|] == segment;
    IndexOfAt(name, '.', |segment|);
    assert name[|segment| + 1..] == fn;
  }

  /** The receiver of the example method in newStackFrame's own comment,
      "*T\U{00B7}ptrmethod", reads "*T.ptrmethod" once its centre dot is replaced. */
  lemma CentreDotExample(raw: string)
    requires raw == "*T\U{00B7}ptrmethod"
    ensures ReplaceChar(raw, CentreDot, '.') == "*T.ptrmethod"
  {
    var r := ReplaceChar(raw, CentreDot, '.');
    var expected := "*T.ptrmethod";
    assert |r| == |expected|;
    forall i | 0 <= i < |expected|
      ensures r[i] == expected[i]
    {
      assert r[i] == if raw[i] == CentreDot then '.' else raw[i];
    }
  }

  // ---------------------------------------------------------------------
  // Stack retrieval: retrieveProgramCounters, retrieveStackFrames
  // ---------------------------------------------------------------------

  /** An error value, described by the stack capabilities it offers:
      merryStack is what merry.Stack reports for it; callers is the result of
      its Callers() method when its dynamic type has one; cause is what its
      Unwrap() returns, if anything. */
  datatype Error = Error(merryStack: PcSlice, callers: Option<PcSlice>, cause: Option<Error>)

  /** The error followed by the errors its Unwrap chain reaches, in order. */
  function UnwrapChain(err: Error): (chain: seq<Error>)
    ensures |chain| > 0 && chain[0] == err
    decreases err
  {
    [err] + (if err.cause.Some? then UnwrapChain(err.cause.value) else [])
  }

  /** errors.As(err, &errorWithCallers), followed by the Callers() call: the
      Callers() result of the first error in the chain that has the method. */
  function AsCallersCarrier(err: Error): Option<PcSlice>
    decreases err
  {
    if err.callers.Some? then err.callers
    else if err.cause.Some? then AsCallersCarrier(err.cause.value)
    else None
  }

  /** Position i of the chain is the first error with a Callers() method. */
  ghost predicate FirstCarrierAt(chain: seq<Error>, i: int)
  {
    && 0 <= i < |chain|
    && chain[i].callers.Some?
    && forall j :: 0 <= j < i ==> chain[j].callers.None?
  }

  /** No error of the chain has a Callers() method. */
  ghost predicate NoCarrier(chain: seq<Error>)
  {
    forall i :: 0 <= i < |chain| ==> chain[i].callers.None?
  }

  /** The search of errors.As finds the first carrier of the unwrap chain, and
      finds nothing exactly when no error of the chain is a carrier. */
  lemma {:induction false} AsCallersCarrierIsFirst(err: Error)
    ensures AsCallersCarrier(err).None? <==> NoCarrier(UnwrapChain(err))
    ensures AsCallersCarrier(err).Some? ==>
              exists i :: FirstCarrierAt(UnwrapChain(err), i) && UnwrapChain(err)[i].callers == AsCallersCarrier(err)
    decreases err
  {
    var chain := UnwrapChain(err);
    if err.callers.Some? {
      assert FirstCarrierAt(chain, 0);
    } else if err.cause.Some? {
      var tail := UnwrapChain(err.cause.value);
      AsCallersCarrierIsFirst(err.cause.value);
      assert AsCallersCarrier(err) == AsCallersCarrier(err.cause.value);
      assert chain == [err] + tail;
      if AsCallersCarrier(err).Some? {
        var i :| FirstCarrierAt(tail, i) && tail[i].callers == AsCallersCarrier(err);
        assert chain[i + 1] == tail[i];
        forall j | 0 <= j < i + 1
          ensures chain[j].callers.None?
        {
          if j > 0 { assert chain[j] == tail[j - 1]; }
        }
        assert FirstCarrierAt(chain, i + 1);
        assert !NoCarrier(chain);
      } else {
        assert NoCarrier(tail);
        forall i | 0 <= i < |chain|
          ensures chain[i].callers.None?
        {
          if i > 0 {
            assert chain[i] == tail[i - 1];
          } else {
            assert chain[0] == err;
          }
        }
        assert NoCarrier(chain);
      }
    } else {
      assert chain == [err];
      assert NoCarrier(chain);
    }
  }

  /** retrieveProgramCounters(err), with captured standing for
      merry.Stack(merry.WrapSkipping(err, 6)), a stack captured at this call. */
  function RetrieveProgramCounters(hook: LogtraceHook, err: Error, captured: PcSlice): (pcs: PcSlice)
    ensures err.merryStack != Nil ==> pcs == err.merryStack
    ensures err.merryStack == Nil ==>
              forall i :: FirstCarrierAt(UnwrapChain(err), i) ==> pcs == UnwrapChain(err)[i].callers.value
    ensures err.merryStack == Nil && NoCarrier(UnwrapChain(err)) ==>
              pcs == (if hook.CaptureStackIfMissing then captured else Nil)
  {
    AsCallersCarrierIsFirst(err);
    if err.merryStack != Nil then err.merryStack
    else match AsCallersCarrier(err)
      case Some(callers) => callers
      case None => if hook.CaptureStackIfMissing then captured else Nil
  }

  /** The frames of a list of program counters, one per counter, in order. */
  function ResolveAll(sym: SymbolTable, pcs: seq<Uintptr>): (frames: seq<StackFrame>)
    ensures |frames| == |pcs|
    ensures forall i :: 0 <= i < |pcs| ==> frames[i] == NewStackFrame(sym, pcs[i])
  {
    if |pcs| == 0 then []
    else
      var rest := ResolveAll(sym, pcs[1..]);
      assert forall i :: 1 <= i < |pcs| ==> rest[i - 1] == NewStackFrame(sym, pcs[i]);
      [NewStackFrame(sym, pcs[0])] + rest
  }

  /** What retrieveStackFrames(err) returns, as a value. */
  function StackFramesOf(sym: SymbolTable, hook: LogtraceHook, err: Error, captured: PcSlice): seq<StackFrame>
  {
    match RetrieveProgramCounters(hook, err, captured)
    case Nil => []
    case Pcs(s) => if |s| == 0 then [] else ResolveAll(sym, s)
  }

  /** retrieveStackFrames(err): resolve every retrieved program counter into
      a freshly allocated array, by index. */
  method RetrieveStackFrames(sym: SymbolTable, hook: LogtraceHook, err: Error, captured: PcSlice)
    returns (frames: seq<StackFrame>)
    ensures RetrieveProgramCounters(hook, err, captured).Nil? ==> frames == []
    ensures RetrieveProgramCounters(hook, err, captured).Pcs? ==>
              var pcs := RetrieveProgramCounters(hook, err, captured).elems;
              |frames| == |pcs| && forall i :: 0 <= i < |pcs| ==> frames[i] == NewStackFrame(sym, pcs[i])
    ensures frames == StackFramesOf(sym, hook, err, captured)
  {
    var pcs := RetrieveProgramCounters(hook, err, captured);
    if pcs.Nil? || |pcs.elems| == 0 {
      return [];
    }
    var s := pcs.elems;
    var result := new StackFrame[|s|];
    for idx := 0 to |s|
      invariant forall j :: 0 <= j < idx ==> result[j] == NewStackFrame(sym, s[j])
    {
      result[idx] := NewStackFrame(sym, s[idx]);
    }
    frames := result[..];
    assert frames == ResolveAll(sym, s);
  }

  // ---------------------------------------------------------------------
  // The hook: Fire
  // ---------------------------------------------------------------------

  datatype HookError = KeyNotSet | NotAnError

  /** The text merry.Errorf is given for each failure. */
  function Message(e: HookError): (text: string)
    ensures |text| > 0
  {
    match e
    case KeyNotSet => "The key of the hook must be set to a non empty string."
    case NotAnError => "The value in the error field of the given logrus entry is not an error!"
  }

  /** The two failures are told apart by their messages, and each has the
      exact text that logrus prints after "Failed to fire hook: ". */
  lemma MessagesDistinct()
    ensures Message(KeyNotSet) != Message(NotAnError)
    ensures Message(KeyNotSet) == "The key of the hook must be set to a non empty string."
    ensures Message(NotAnError) == "The value in the error field of the given logrus entry is not an error!"
  {
    assert |Message(KeyNotSet)| != |Message(NotAnError)|;
  }

  /** Fire's error result: Ok is the nil error. */
  datatype Outcome = Ok | Fail(error: HookError)

  /** A value in a logrus entry's Data: an error, the frames this hook
      attaches, or any other value (nil included: an interface holding nil is
      not an error). */
  datatype Value = ErrorValue(err: Error) | FramesValue(frames: seq<StackFrame>) | OtherValue(text: string)

  /** The outcome of Fire together with the entry's Data afterwards. */
  datatype Fired = Fired(outcome: Outcome, data: map<string, Value>)

  /** Fire(entry) on an entry with the given Data. On success it adds at most
      the hook's key; every other field keeps its value; a failure changes
      nothing. */
  function FireOn(hook: LogtraceHook, data: map<string, Value>, sym: SymbolTable, captured: PcSlice): (r: Fired)
    ensures r.outcome.Fail? ==> r.data == data
    ensures r.data.Keys <= data.Keys + {hook.Key}
    ensures forall k :: k in data && k != hook.Key ==> k in r.data && r.data[k] == data[k]
    ensures hook.Key in r.data && (hook.Key !in data || r.data[hook.Key] != data[hook.Key]) ==>
              r.outcome == Ok && ErrorKey in data && data[ErrorKey].ErrorValue?
              && r.data[hook.Key] == FramesValue(StackFramesOf(sym, hook, data[ErrorKey].err, captured))
  {
    if hook.Key == "" then Fired(Fail(KeyNotSet), data)
    else if ErrorKey !in data then Fired(Ok, data)
    else match data[ErrorKey]
      case ErrorValue(err) =>
        var stack := StackFramesOf(sym, hook, err, captured);
        if |stack| > 0 then Fired(Ok, data[hook.Key := FramesValue(stack)]) else Fired(Ok, data)
      case _ => Fired(Fail(NotAnError), data)
  }

  /** The part of a logrus.Entry the hook sees and changes. */
  class Entry {
    var Data: map<string, Value>

    constructor (data: map<string, Value>)
      ensures Data == data
    {
      Data := data;
    }
  }

  /** Fire(entry), called by logrus for each entry at one of the hook's levels. */
  method Fire(hook: LogtraceHook, entry: Entry, sym: SymbolTable, captured: PcSlice) returns (outcome: Outcome)
    modifies entry
    ensures outcome == FireOn(hook, old(entry.Data), sym, captured).outcome
    ensures entry.Data == FireOn(hook, old(entry.Data), sym, captured).data
  {
    if hook.Key == "" {
      return Fail(KeyNotSet);
    }
    if ErrorKey in entry.Data {
      var errRaw := entry.Data[ErrorKey];
      if !errRaw.ErrorValue? {
        return Fail(NotAnError);
      }
      var stack := RetrieveStackFrames(sym, hook, errRaw.err, captured);
      if |stack| > 0 {
        entry.Data := entry.Data[hook.Key := FramesValue(stack)];
      }
    }
    return Ok;
  }

  // ---------------------------------------------------------------------
  // Properties of Fire
  // ---------------------------------------------------------------------

  /** An empty key fails with the configuration error, whatever the entry holds. */
  lemma FireEmptyKeyFails(hook: LogtraceHook, data: map<string, Value>, sym: SymbolTable, captured: PcSlice)
    requires hook.Key == ""
    ensures FireOn(hook, data, sym, captured) == Fired(Fail(KeyNotSet), data)
  {
  }

  /** An entry without an error field is left alone and Fire succeeds. */
  lemma FireWithoutErrorIsNoOp(hook: LogtraceHook, data: map<string, Value>, sym: SymbolTable, captured: PcSlice)
    requires hook.Key != "" && ErrorKey !in data
    ensures FireOn(hook, data, sym, captured) == Fired(Ok, data)
  {
  }

  /** A non-error value under the error field fails with the type error. */
  lemma FireNonErrorFails(hook: LogtraceHook, data: map<string, Value>, sym: SymbolTable, captured: PcSlice)
    requires hook.Key != "" && ErrorKey in data && !data[ErrorKey].ErrorValue?
    ensures FireOn(hook, data, sym, captured) == Fired(Fail(NotAnError), data)
  {
  }

  /** A non-empty trace is stored under the key; every other field, the
      original error among them, keeps its value. An empty trace changes nothing. */
  lemma FireAttachesTrace(hook: LogtraceHook, data: map<string, Value>, sym: SymbolTable, captured: PcSlice, err: Error)
    requires hook.Key != "" && ErrorKey in data && data[ErrorKey] == ErrorValue(err)
    ensures var frames := StackFramesOf(sym, hook, err, captured);
            var r := FireOn(hook, data, sym, captured);
            && r.outcome == Ok
            && (|frames| > 0 ==> r.data == data[hook.Key := FramesValue(frames)])
            && (|frames| > 0 && hook.Key != ErrorKey ==> r.data[ErrorKey] == ErrorValue(err))
            && (|frames| == 0 ==> r.data == data)
  {
  }

  /** An error carrying a non-empty stack, of either kind, gets one frame per
      program counter, in order, under the key. */
  lemma FireCarriedStack(hook: LogtraceHook, data: map<string, Value>, sym: SymbolTable, captured: PcSlice, err: Error, pcs: seq<Uintptr>)
    requires hook.Key != "" && ErrorKey in data && data[ErrorKey] == ErrorValue(err)
    requires err.merryStack == Pcs(pcs) || (err.merryStack == Nil && AsCallersCarrier(err) == Some(Pcs(pcs)))
    requires |pcs| > 0
    ensures var r := FireOn(hook, data, sym, captured);
            && r.outcome == Ok && hook.Key in r.data && r.data[hook.Key].FramesValue?
            && |r.data[hook.Key].frames| == |pcs|
            && forall i :: 0 <= i < |pcs| ==> r.data[hook.Key].frames[i] == NewStackFrame(sym, pcs[i])
  {
    assert RetrieveProgramCounters(hook, err, captured) == Pcs(pcs);
  }

  /** An error carrying no stack, with capture switched off, leaves the entry
      without the key. */
  lemma FireNoStackNoCapture(hook: LogtraceHook, data: map<string, Value>, sym: SymbolTable, captured: PcSlice, err: Error)
    requires hook.Key != "" && hook.Key !in data && ErrorKey in data && data[ErrorKey] == ErrorValue(err)
    requires err.merryStack == Nil && AsCallersCarrier(err) == None && !hook.CaptureStackIfMissing
    ensures FireOn(hook, data, sym, captured) == Fired(Ok, data)
    ensures hook.Key !in FireOn(hook, data, sym, captured).data
  {
  }

  /** An error carrying no stack, with capture switched on, gets the frames of
      the stack captured at the call. */
  lemma FireNoStackCaptures(hook: LogtraceHook, data: map<string, Value>, sym: SymbolTable, err: Error, pcs: seq<Uintptr>)
    requires hook.Key != "" && ErrorKey in data && data[ErrorKey] == ErrorValue(err)
    requires err.merryStack == Nil && AsCallersCarrier(err) == None && hook.CaptureStackIfMissing
    requires |pcs| > 0
    ensures var r := FireOn(hook, data, sym, Pcs(pcs));
            && r.outcome == Ok && hook.Key in r.data
            && r.data[hook.Key] == FramesValue(ResolveAll(sym, pcs))
            && r.data[hook.Key].frames[0] == NewStackFrame(sym, pcs[0])
  {
  }

  /** The cases of TestErrorTracebackHook, on an entry made by WithError:
      a plain error with capture off gets no trace; the same error with
      capture on, a go-errors error and a merry error (both with capture off)
      get one; the hook with an empty key fails and changes nothing. Every
      case keeps the logged error under the error field. */
  lemma TracebackHookCases(sym: SymbolTable, captured: seq<Uintptr>, stack: seq<Uintptr>)
    requires |captured| > 0 && |stack| > 0
    ensures var plain := Error(Nil, None, None);
            var goerr := Error(Nil, Some(Pcs(stack)), None);
            var merryErr := Error(Pcs(stack), None, None);
            var off := LogtraceHook("test_stacktrace", AllLevels, false);
            var on := LogtraceHook("test_stacktrace", AllLevels, true);
            var broken := LogtraceHook("", AllLevels, false);
            var r1 := FireOn(off, map[ErrorKey := ErrorValue(plain)], sym, Pcs(captured));
            var r2 := FireOn(on, map[ErrorKey := ErrorValue(plain)], sym, Pcs(captured));
            var r3 := FireOn(off, map[ErrorKey := ErrorValue(goerr)], sym, Pcs(captured));
            var r4 := FireOn(off, map[ErrorKey := ErrorValue(merryErr)], sym, Pcs(captured));
            var r5 := FireOn(broken, map[ErrorKey := ErrorValue(merryErr)], sym, Pcs(captured));
            && r1.outcome == Ok && "test_stacktrace" !in r1.data && r1.data[ErrorKey] == ErrorValue(plain)
            && r2.outcome == Ok && "test_stacktrace" in r2.data && r2.data[ErrorKey] == ErrorValue(plain)
            && r3.outcome == Ok && "test_stacktrace" in r3.data && r3.data[ErrorKey] == ErrorValue(goerr)
            && r4.outcome == Ok && "test_stacktrace" in r4.data && r4.data[ErrorKey] == ErrorValue(merryErr)
            && r5 == Fired(Fail(KeyNotSet), map[ErrorKey := ErrorValue(merryErr)])
  {
    var plain := Error(Nil, None, None);
    var goerr := Error(Nil, Some(Pcs(stack)), None);
    assert AsCallersCarrier(plain) == None;
    assert AsCallersCarrier(goerr) == Some(Pcs(stack));
  }

  /** TestErrorTracebackHookNonErrorError: a string under the error field. */
  lemma NonErrorErrorCase(sym: SymbolTable, captured: PcSlice)
    ensures var hook := LogtraceHook("test_stacktrace", AllLevels, false);
            var data := map[ErrorKey := OtherValue("foo")];
            FireOn(hook, data, sym, captured) == Fired(Fail(NotAnError), data)
            && Message(NotAnError) == "The value in the error field of the given logrus entry is not an error!"
  {
  }
}
