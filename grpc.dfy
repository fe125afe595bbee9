/** The options of the gRPC server interceptors in grpc/options.go: the
 *  table from gRPC status codes to log levels, the option setters and
 *  their evaluation, and the one-pair maps that log a call's duration.
 */
module GrpcOptions {
  import opened Bytes
  import opened Data
  import opened Lager

  // -----------------------------------------------------------------------
  // Codes and levels
  // -----------------------------------------------------------------------

  /** codes.Code, a uint32; the named codes are those of gRPC. */
  newtype Code = c: int | 0 <= c < 0x1_0000_0000

  const OK: Code := 0
  const Canceled: Code := 1
  const Unknown: Code := 2
  const InvalidArgument: Code := 3
  const DeadlineExceeded: Code := 4
  const NotFound: Code := 5
  const AlreadyExists: Code := 6
  const PermissionDenied: Code := 7
  const ResourceExhausted: Code := 8
  const FailedPrecondition: Code := 9
  const Aborted: Code := 10
  const OutOfRange: Code := 11
  const Unimplemented: Code := 12
  const Internal: Code := 13
  const Unavailable: Code := 14
  const DataLoss: Code := 15
  const Unauthenticated: Code := 16

  /** The codes logged at Info: the caller's own doing, or no failure. */
  const InfoCodes: set<Code> := {OK, Canceled, InvalidArgument, NotFound, AlreadyExists, Unauthenticated}

  /** The codes logged at Warn. */
  const WarnCodes: set<Code> :=
    {DeadlineExceeded, PermissionDenied, ResourceExhausted, FailedPrecondition, Aborted, OutOfRange, Unavailable}

  const LetterI: byte := 73
  const LetterW: byte := 87
  const LetterE: byte := 69
  const LetterF: byte := 70

  /** DefaultCodeToLevel() as written: Info and Warn codes as above, every
   *  other code, named or not, 'E'. */
  function DefaultCodeToLevel(code: Code): (r: byte)
    ensures code in InfoCodes ==> r == LetterI
    ensures code in WarnCodes ==> r == LetterW
    ensures code !in InfoCodes && code !in WarnCodes ==> r == LetterE
  {
    match code
    case 0 => LetterI   // OK
    case 1 => LetterI   // Canceled
    case 2 => LetterE   // Unknown
    case 3 => LetterI   // InvalidArgument
    case 4 => LetterW   // DeadlineExceeded
    case 5 => LetterI   // NotFound
    case 6 => LetterI   // AlreadyExists
    case 7 => LetterW   // PermissionDenied
    case 16 => LetterI  // Unauthenticated
    case 8 => LetterW   // ResourceExhausted
    case 9 => LetterW   // FailedPrecondition
    case 10 => LetterW  // Aborted
    case 11 => LetterW  // OutOfRange
    case 12 => LetterE  // Unimplemented
    case 13 => LetterE  // Internal
    case 14 => LetterW  // Unavailable
    case 15 => LetterE  // DataLoss
    case _ => LetterE
  }

  /** Every letter the table gives is one Level() accepts: Info, Warn or
   *  Exit. */
  lemma DefaultLevelsAccepted(code: Code)
    ensures var r := DefaultCodeToLevel(code);
      LevelOf(r).Some? && LevelName(LevelOf(r).value)[0] == r &&
      LevelName(LevelOf(r).value) in {Names[1], Names[3], Names[6]}
  {
    var r := DefaultCodeToLevel(code);
    LevelOfOnlyInitials(r);
    assert Initials[1] == LetterE && Initials[3] == LetterW && Initials[6] == LetterI;
  }

  /** As written, an Internal error is logged at Exit, the level whose
   *  logging ends the process, where the interceptor tests expect FAIL. */
  lemma InternalExits()
    ensures LevelOf(DefaultCodeToLevel(Internal)) == Some(Exit)
    ensures LevelName(Exit) != LevelName(Fail)
  {
    assert Names[1] != Names[2] by {
      assert Names[1][1] != Names[2][1];
    }
  }

  /** The table as intended: the Fail level where the code above writes
   *  'E'. */
  function CodeToLevel(code: Code): (r: byte)
    ensures code in InfoCodes ==> r == LetterI
    ensures code in WarnCodes ==> r == LetterW
    ensures code !in InfoCodes && code !in WarnCodes ==> r == LetterF
  {
    var lev := DefaultCodeToLevel(code);
    if lev == LetterE then LetterF else lev
  }

  /** The intended table never picks a level that stops the process
   *  (Panic or Exit), gives FAIL for Internal, and agrees with the written
   *  one on every code that one does not send to Exit. */
  lemma CodeToLevelNeverStops(code: Code)
    ensures LevelOf(CodeToLevel(code)).Some? && LevelOf(CodeToLevel(code)).value >= Fail
    ensures code == Internal ==> LevelName(LevelOf(CodeToLevel(code)).value) == LevelName(Fail)
    ensures DefaultCodeToLevel(code) != LetterE ==> CodeToLevel(code) == DefaultCodeToLevel(code)
  {
  }

  // -----------------------------------------------------------------------
  // Options
  // -----------------------------------------------------------------------

  /** An `error`: nil, or its message. */
  type Error = Option<Text>

  /** grpc_logging.Decider: whether to log a call to the named method. */
  type Decider = (Text, Error) -> bool

  /** grpc_logging.ErrorToCode. */
  type ErrorToCode = Error -> Code

  /** DurationToField: a duration, in nanoseconds, to the pairs logged. */
  type DurationToField = int64 -> AMap

  /** MessageProducer: from message, level letter, code, error and
   *  duration pairs, the log line it writes. */
  type MessageProducer = (Text, byte, Code, Error, AMap) -> Text

  /** `options`. */
  datatype Options = Options(levelFunc: Code -> byte, shouldLog: Decider, codeFunc: ErrorToCode,
                             durationFunc: DurationToField, messageFunc: MessageProducer,
                             timestampFormat: Text)

  /** An Option, by the With*() call that made it. */
  datatype ServerOpt =
    | WithDecider(decider: Decider)
    | WithLevels(levels: Code -> byte)
    | WithCodes(codes: ErrorToCode)
    | WithDurationField(durations: DurationToField)
    | WithMessageProducer(producer: MessageProducer)
    | WithTimestampFormat(format: Text)

  /** Which field of `options` a setter writes. */
  datatype Field = LevelFunc | ShouldLog | CodeFunc | DurationFunc | MessageFunc | TimestampFormat

  function Target(o: ServerOpt): Field {
    match o
    case WithDecider(_) => ShouldLog
    case WithLevels(_) => LevelFunc
    case WithCodes(_) => CodeFunc
    case WithDurationField(_) => DurationFunc
    case WithMessageProducer(_) => MessageFunc
    case WithTimestampFormat(_) => TimestampFormat
  }

  /** The two option sets agree on field `f`. */
  ghost predicate SameField(a: Options, b: Options, f: Field) {
    match f
    case LevelFunc => a.levelFunc == b.levelFunc
    case ShouldLog => a.shouldLog == b.shouldLog
    case CodeFunc => a.codeFunc == b.codeFunc
    case DurationFunc => a.durationFunc == b.durationFunc
    case MessageFunc => a.messageFunc == b.messageFunc
    case TimestampFormat => a.timestampFormat == b.timestampFormat
  }

  /** What calling the option's closure does to `options`: it writes its
   *  own field and leaves the other five alone. */
  function ApplyOpt(c: Options, o: ServerOpt): (r: Options)
    ensures forall f | f != Target(o) :: SameField(r, c, f)
  {
    match o
    case WithDecider(d) => c.(shouldLog := d)
    case WithLevels(l) => c.(levelFunc := l)
    case WithCodes(e) => c.(codeFunc := e)
    case WithDurationField(d) => c.(durationFunc := d)
    case WithMessageProducer(m) => c.(messageFunc := m)
    case WithTimestampFormat(t) => c.(timestampFormat := t)
  }

  /** The options after applying `opts` in order to `c`. */
  function Evaluate(c: Options, opts: seq<ServerOpt>): Options {
    if opts == [] then c else ApplyOpt(Evaluate(c, opts[..|opts| - 1]), opts[|opts| - 1])
  }

  /** The last option that writes a field decides it. */
  lemma {:induction false} LaterOptionWins(c: Options, opts: seq<ServerOpt>, i: nat)
    requires i < |opts|
    requires forall j | i < j < |opts| :: Target(opts[j]) != Target(opts[i])
    ensures SameField(Evaluate(c, opts), ApplyOpt(c, opts[i]), Target(opts[i]))
    decreases |opts|
  {
    var last := |opts| - 1;
    if i < last {
      assert opts[..last][i] == opts[i];
      LaterOptionWins(c, opts[..last], i);
    } else {
      AppliedField(Evaluate(c, opts[..last]), c, opts[i]);
    }
  }

  /** An option writes the same value into its field whatever it is
   *  applied to. */
  lemma AppliedField(a: Options, b: Options, o: ServerOpt)
    ensures SameField(ApplyOpt(a, o), ApplyOpt(b, o), Target(o))
  {
  }

  /** A field no option writes keeps the value it started with. */
  lemma {:induction false} UntouchedField(c: Options, opts: seq<ServerOpt>, f: Field)
    requires forall j | 0 <= j < |opts| :: Target(opts[j]) != f
    ensures SameField(Evaluate(c, opts), c, f)
    decreases |opts|
  {
    if opts != [] {
      var last := |opts| - 1;
      UntouchedField(c, opts[..last], f);
      var before := Evaluate(c, opts[..last]);
      assert SameField(ApplyOpt(before, opts[last]), before, f);
    }
  }

  /** The foreign defaults: grpc_logging's DefaultDeciderMethod and
   *  DefaultErrorToCode, the message producer, and the float conversion
   *  of a duration to milliseconds. */
  datatype Foreign = Foreign(decider: Decider, errorToCode: ErrorToCode, producer: MessageProducer,
                             millis: int64 -> Value, show: Formatter)

  /** time.RFC3339 */
  const RFC3339: Text := Lit("2006-01-02T15:04:05Z07:00")

  /** `defaultOptions`, with the level table as written. */
  function DefaultOptions(f: Foreign): Options {
    Options(DefaultCodeToLevel, f.decider, f.errorToCode, d => DurationToTimeMillisField(f.millis(d), f.show),
            f.producer, RFC3339)
  }

  /** `*options` */
  class OptionsRef {
    var value: Options

    constructor(value: Options)
      ensures this.value == value
    {
      this.value := value;
    }

    /** Calling an Option on the pointer. */
    method Call(o: ServerOpt)
      modifies this
      ensures value == ApplyOpt(old(value), o)
    {
      value := ApplyOpt(value, o);
    }
  }

  /** evaluateServerOpt(): a fresh copy of the defaults, with the level
   *  table set again, then every option applied in order. */
  method EvaluateServerOpt(f: Foreign, opts: seq<ServerOpt>) returns (r: OptionsRef)
    ensures fresh(r)
    ensures r.value == Evaluate(DefaultOptions(f), opts)
  {
    r := new OptionsRef(DefaultOptions(f));
    r.value := r.value.(levelFunc := DefaultCodeToLevel);
    for i := 0 to |opts|
      invariant r.value == Evaluate(DefaultOptions(f), opts[..i])
    {
      r.Call(opts[i]);
      assert opts[..i + 1][..i] == opts[..i];
    }
    assert opts[..|opts|] == opts;
  }

  /** Without options, the interceptors take DefaultCodeToLevel as written:
   *  an Internal status logs at Exit, and Info and Warn codes as listed. */
  lemma DefaultsExitOnInternal(f: Foreign, code: Code)
    ensures Evaluate(DefaultOptions(f), []).levelFunc(Internal) == LetterE
    ensures code in InfoCodes ==> Evaluate(DefaultOptions(f), []).levelFunc(code) == LetterI
    ensures code in WarnCodes ==> Evaluate(DefaultOptions(f), []).levelFunc(code) == LetterW
  {
    InternalExits();
  }

  // -----------------------------------------------------------------------
  // Duration fields
  // -----------------------------------------------------------------------

  /** "grpc.time_ms" and "grpc.duration" */
  const TimeMsKey: Text := [103, 114, 112, 99, 46, 116, 105, 109, 101, 95, 109, 115]
  const DurationKey: Text := [103, 114, 112, 99, 46, 100, 117, 114, 97, 116, 105, 111, 110]

  /** DurationToTimeMillisField(): Pairs("grpc.time_ms", millis), the
   *  milliseconds as given. */
  function DurationToTimeMillisField(millis: Value, show: Formatter): (r: AMap)
    ensures r == Ref(KVPairs([TimeMsKey], [millis]))
  {
    OnePair(TimeMsKey, millis, show);
    AddPairsSpec(NilMap, [Str(TimeMsKey), millis], show)
  }

  /** DurationToDurationField(): Pairs("grpc.duration", duration). */
  function DurationToDurationField(duration: Value, show: Formatter): (r: AMap)
    ensures r == Ref(KVPairs([DurationKey], [duration]))
  {
    OnePair(DurationKey, duration, show);
    AddPairsSpec(NilMap, [Str(DurationKey), duration], show)
  }
}
