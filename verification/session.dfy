/**
 The per-run fuzzing state and the error-handling primitives of the record
 dispatcher.

 The state keeps the parts of the run's data that the record handlers
 touch: the option values the transfer engine has accepted, the eleven
 response slots, the upload cursor, the singleton-option tracker and the
 fabricated socket's state. The engine's `setopt` is not modelled; it is an
 oracle that answers 0 (accepted) or a nonzero error code.

 The tracker is a flat array of 300 flags indexed by the option identifier
 modulo 1000. Only options whose index falls inside the array can be
 tracked.
 */
module Session {
  import opened Bytes

  /** Number of scripted response slots. */
  const TLV_MAX_NUM_RESPONSES: nat := 11

  /** Number of flags in the singleton-option tracker. */
  const FUZZ_CURLOPT_TRACKER_SPACE: nat := 300

  /** The return code of a failed check. */
  const FCHECK_FAILED: int := 255

  /** The tracker slot of an engine option identifier. */
  function Slot(opt: nat): nat {
    opt % 1000
  }

  /** An engine option identifier whose tracker slot lies inside the
      tracker array. */
  type TrackedOpt = opt: nat | Slot(opt) < FUZZ_CURLOPT_TRACKER_SPACE witness 0

  /** A value handed to the engine: a NUL-terminated string or an integer. */
  datatype OptValue = StrValue(bytes: seq<byte>) | LongValue(n: u32)

  /** The engine's `setopt`, as seen from the harness: a status code for
      every option and value, 0 meaning accepted. */
  type SetOpt = (nat, OptValue) -> int

  /** A scripted response: a view of `dataLen` bytes. */
  datatype Response = Response(data: seq<byte>, dataLen: nat)

  /** The fabricated socket's lifecycle. */
  datatype SockState = SockClosed | SockOpen | SockShutdown

  /** The run's data as the record handlers see it. `easy` is the engine
      handle's configuration: each option mapped to the value it last
      accepted. */
  datatype FuzzData = FuzzData(
    easy: map<nat, OptValue>,
    responses: seq<Response>,
    responseIndex: int,
    upload1Data: seq<byte>,
    upload1DataLen: nat,
    upload1DataWritten: nat,
    options: seq<bool>,
    serverFdState: SockState)

  /** The run's data with fixed-size arrays of the declared sizes. */
  type Fuzz = f: FuzzData
    | |f.responses| == TLV_MAX_NUM_RESPONSES && |f.options| == FUZZ_CURLOPT_TRACKER_SPACE
    witness FuzzData(map[], seq(11, _ => Response([], 0)), 0, [], 0, 0, seq(300, _ => false), SockClosed)

  /** The zeroed state a run starts from. */
  function Initial(): (f: Fuzz)
    ensures f.easy == map[]
    ensures forall i :: 0 <= i < FUZZ_CURLOPT_TRACKER_SPACE ==> !f.options[i]
    ensures forall i :: 0 <= i < TLV_MAX_NUM_RESPONSES ==> f.responses[i].dataLen == 0
  {
    FuzzData(map[], seq(TLV_MAX_NUM_RESPONSES, _ => Response([], 0)), 0, [], 0, 0,
             seq(FUZZ_CURLOPT_TRACKER_SPACE, _ => false), SockClosed)
  }

  /** Whether the tracker records `opt` (or an option sharing its slot) as set. */
  predicate IsSet(f: Fuzz, opt: TrackedOpt) {
    f.options[Slot(opt)]
  }

  /** The state after a record handler ran, with its return code. On a
      nonzero code the run stops. */
  datatype Outcome = Outcome(rc: int, fuzz: Fuzz)

  /** Everything but the engine configuration and the tracker is as before. */
  predicate SameButOptions(f: Fuzz, g: Fuzz) {
    && g.responses == f.responses
    && g.responseIndex == f.responseIndex
    && g.upload1Data == f.upload1Data
    && g.upload1DataLen == f.upload1DataLen
    && g.upload1DataWritten == f.upload1DataWritten
    && g.serverFdState == f.serverFdState
  }

  /** `g` is `f` with the engine having accepted `v` for `opt`: the option
      holds `v` and is marked in the tracker, no other option is added or
      changed, no other tracker flag moves, and nothing else changes. */
  predicate OptionApplied(f: Fuzz, g: Fuzz, opt: TrackedOpt, v: OptValue) {
    && IsSet(g, opt)
    && opt in g.easy && g.easy[opt] == v
    && (forall k :: k in f.easy && k != opt ==> k in g.easy && g.easy[k] == f.easy[k])
    && (forall k :: k in g.easy ==> k in f.easy || k == opt)
    && (forall i :: 0 <= i < FUZZ_CURLOPT_TRACKER_SPACE && i != Slot(opt) ==>
          g.options[i] == f.options[i])
    && SameButOptions(f, g)
  }

  /** The set-once check: fails with 255, leaving the state alone, when the
      tracker already records `opt` as set. */
  function CheckOptionUnset(f: Fuzz, opt: TrackedOpt): (o: Outcome)
    ensures o.fuzz == f
    ensures o.rc == 0 <==> !IsSet(f, opt)
    ensures o.rc != 0 ==> o.rc == FCHECK_FAILED
  {
    if f.options[Slot(opt)] then Outcome(FCHECK_FAILED, f) else Outcome(0, f)
  }

  /** Hands `v` to the engine for `opt`. A nonzero answer stops the handler
      with exactly that code; only if the engine accepts the value is the
      tracker slot marked. */
  function SetOption(f: Fuzz, opt: TrackedOpt, v: OptValue, setopt: SetOpt): (o: Outcome)
    ensures o.rc == setopt(opt, v)
    ensures o.rc != 0 ==> o.fuzz == f
    ensures o.rc == 0 ==> OptionApplied(f, o.fuzz, opt, v)
  {
    var code := setopt(opt, v);
    if code != 0 then Outcome(code, f)
    else
      var g: Fuzz := f.(easy := f.easy[opt := v], options := f.options[Slot(opt) := true]);
      Outcome(0, g)
  }

  /** Two options whose identifiers agree modulo 1000 share one tracker
      slot: once one is set, the other counts as set too. */
  lemma SharedSlotAliases(f: Fuzz, a: TrackedOpt, b: TrackedOpt, v: OptValue, setopt: SetOpt)
    requires a % 1000 == b % 1000
    requires setopt(a, v) == 0
    ensures IsSet(SetOption(f, a, v, setopt).fuzz, b)
    ensures CheckOptionUnset(SetOption(f, a, v, setopt).fuzz, b).rc == FCHECK_FAILED
  {
  }

  /** Options in different slots do not disturb each other's tracker flag. */
  lemma DistinctSlotsIndependent(f: Fuzz, a: TrackedOpt, b: TrackedOpt, v: OptValue, setopt: SetOpt)
    requires a % 1000 != b % 1000
    ensures IsSet(SetOption(f, a, v, setopt).fuzz, b) == IsSet(f, b)
  {
  }
}
