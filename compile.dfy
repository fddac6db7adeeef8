/**
 * The compile step run by the compile kernel when the cache has no entry for
 * a computation's key.
 *
 * It first normalises the configuration and rejects unsupported options,
 * then acquires the device, loads the HLO snapshot, builds the executable
 * build options (running the device-assignment builder when the
 * configuration carries an assignment), and finally asks the XLA compiler
 * for exactly one executable.
 *
 * The device accessor, the snapshot loader and the compiler are not part of
 * this model; they are the fields of a `Backend` value. Which of them the
 * step reaches, and in what order, is recorded as a list of `Step`s.
 */
module CompileOp {
  import opened XrtStatus
  import DeviceAssignment

  /** The part of the computation's configuration that the compile step inspects. */
  datatype Config = Config(
    numReplicas: int,
    numCoresPerReplica: int,
    perCoreProgramShapes: nat,
    deviceAssignment: Option<DeviceAssignment.Grid>)

  datatype ComputationProto<Snapshot> = ComputationProto(config: Config, hloSnapshot: Snapshot)

  datatype DeviceRef = DeviceRef(ordinal: int)

  /** The build options handed to the compiler (layouts, allocator and debug options are not modelled). */
  datatype BuildOptions = BuildOptions(
    deviceOrdinal: int,
    numReplicas: int,
    deviceAssignment: Option<seq<seq<int>>>)

  /** The outside collaborators of the compile step. */
  datatype Backend<!Snapshot, !Computation, Executable> = Backend(
    device: Result<DeviceRef>,
    loadSnapshot: Snapshot -> Result<Computation>,
    compile: (Computation, BuildOptions) -> Result<seq<Executable>>)

  /** The steps past the configuration checks, in the order the compile step takes them. */
  datatype Step = AcquireDevice | LoadSnapshot | BuildDeviceAssignment | InvokeCompiler

  datatype CompileOutcome<Executable> = CompileOutcome(result: Result<Executable>, steps: seq<Step>)

  /** Cores per replica after clamping the configured value to at least one. */
  function EffectiveCoresPerReplica(configured: int): (n: int)
    ensures n >= 1
    ensures configured >= 1 ==> n == configured
    ensures configured < 1 ==> n == 1
  {
    if configured < 1 then 1 else configured
  }

  /** Replica count, with the proto default 0 read as one. */
  function EffectiveReplicas(configured: int): (n: int)
    ensures n != 0
    ensures configured != 0 ==> n == configured
    ensures configured == 0 ==> n == 1
  {
    if configured != 0 then configured else 1
  }

  /** The two configuration checks, made in order before anything else happens. */
  function ConfigGate(config: Config): (status: Status)
    ensures status.Ok? <==> config.numCoresPerReplica <= 1 && config.perCoreProgramShapes == 0
    ensures config.numCoresPerReplica > 1 ==> status == Failed(Internal(SingleCorePerReplica))
    ensures config.numCoresPerReplica <= 1 && config.perCoreProgramShapes != 0 ==>
      status == Failed(Internal(NoPerCoreProgramShapes))
  {
    if EffectiveCoresPerReplica(config.numCoresPerReplica) != 1 then Failed(Internal(SingleCorePerReplica))
    else if config.perCoreProgramShapes != 0 then Failed(Internal(NoPerCoreProgramShapes))
    else Ok
  }

  /** A device assignment can only be sized when the replica count is not negative. */
  predicate Sizable(config: Config)
  {
    config.deviceAssignment.Some? ==> config.numReplicas >= 0
  }

  /**
   * The build options for `device`: its ordinal, the normalised replica count
   * and, when the configuration carries one, the device-assignment matrix for
   * one core per replica; or the builder's InvalidArgument error.
   */
  function BuildOptionsFor(config: Config, device: DeviceRef): (options: Result<BuildOptions>)
    requires ConfigGate(config).Ok? && Sizable(config)
    ensures options.Failure? <==>
      config.deviceAssignment.Some? &&
      !DeviceAssignment.ValidGrid(config.deviceAssignment.value, EffectiveReplicas(config.numReplicas), 1)
    ensures options.Failure? ==>
      DeviceAssignment.FirstViolation(config.deviceAssignment.value, EffectiveReplicas(config.numReplicas), 1).Some? &&
      options.error == InvalidArgument(
        DeviceAssignment.FirstViolation(config.deviceAssignment.value, EffectiveReplicas(config.numReplicas), 1).value.error)
    ensures options.Success? ==>
      options.value.deviceOrdinal == device.ordinal &&
      options.value.numReplicas == EffectiveReplicas(config.numReplicas) &&
      (options.value.deviceAssignment.Some? <==> config.deviceAssignment.Some?)
    ensures options.Success? && config.deviceAssignment.Some? ==>
      var matrix := options.value.deviceAssignment.value;
      |matrix| == EffectiveReplicas(config.numReplicas) &&
      forall r :: 0 <= r < |matrix| ==> matrix[r] == [config.deviceAssignment.value[0][r][3]]
  {
    var replicas := EffectiveReplicas(config.numReplicas);
    match config.deviceAssignment
    case None => Success(BuildOptions(device.ordinal, replicas, None))
    case Some(grid) =>
      match DeviceAssignment.AssignmentOf(grid, replicas, EffectiveCoresPerReplica(config.numCoresPerReplica))
      case Failure(e) => Failure(e)
      case Success(matrix) =>
        assert forall r :: 0 <= r < |matrix| ==> matrix[r] == [grid[0][r][3]] by {
          forall r | 0 <= r < |matrix| ensures matrix[r] == [grid[0][r][3]] {
            assert |matrix[r]| == 1;
          }
        }
        Success(BuildOptions(device.ordinal, replicas, Some(matrix)))
  }

  /** The full order of steps for a configuration that passes every check. */
  function StepOrder(config: Config): seq<Step>
  {
    [AcquireDevice, LoadSnapshot] +
    (if config.deviceAssignment.Some? then [BuildDeviceAssignment] else []) +
    [InvokeCompiler]
  }

  /** Whether the compile step gets as far as calling the compiler. */
  predicate ReachesCompiler<Snapshot, Computation, Executable>(
    proto: ComputationProto<Snapshot>,
    backend: Backend<Snapshot, Computation, Executable>)
  {
    && Sizable(proto.config)
    && ConfigGate(proto.config).Ok?
    && backend.device.Success?
    && backend.loadSnapshot(proto.hloSnapshot).Success?
    && BuildOptionsFor(proto.config, backend.device.value).Success?
  }

  /** What the compiler returns when the compile step calls it. */
  function CompilerOutput<Snapshot, Computation, Executable>(
    proto: ComputationProto<Snapshot>,
    backend: Backend<Snapshot, Computation, Executable>): Result<seq<Executable>>
    requires ReachesCompiler(proto, backend)
  {
    backend.compile(backend.loadSnapshot(proto.hloSnapshot).value,
                    BuildOptionsFor(proto.config, backend.device.value).value)
  }

  /**
   * Whether a device assignment can be sized by the time the compile step
   * would build it: only a configuration that passes the checks, with a
   * device and a loaded snapshot, gets that far.
   */
  predicate SizableWhenBuilt<Snapshot, Computation, Executable>(
    proto: ComputationProto<Snapshot>,
    backend: Backend<Snapshot, Computation, Executable>)
  {
    ConfigGate(proto.config).Ok? && backend.device.Success? && backend.loadSnapshot(proto.hloSnapshot).Success? ==>
      Sizable(proto.config)
  }

  /**
   * Compiles `proto` with `backend`. The configuration checks run before any
   * outside call; errors of the device accessor, the snapshot loader, the
   * device-assignment builder and the compiler are returned unchanged and stop
   * the step there; the device assignment is built only when the
   * configuration has one; the compile succeeds exactly when the compiler
   * returns exactly one executable, which is the result.
   */
  function Compile<Snapshot, Computation, Executable>(
    proto: ComputationProto<Snapshot>,
    backend: Backend<Snapshot, Computation, Executable>): (out: CompileOutcome<Executable>)
    requires SizableWhenBuilt(proto, backend)
    ensures |out.steps| <= |StepOrder(proto.config)| && out.steps == StepOrder(proto.config)[..|out.steps|]
    ensures out.steps == [] <==> ConfigGate(proto.config).Failed?
    ensures ConfigGate(proto.config).Failed? ==> out.result == Failure(ConfigGate(proto.config).error)
    ensures BuildDeviceAssignment in out.steps ==> proto.config.deviceAssignment.Some?
    ensures InvokeCompiler in out.steps <==> ReachesCompiler(proto, backend)
    ensures InvokeCompiler in out.steps && proto.config.deviceAssignment.Some? ==>
      DeviceAssignment.ValidGrid(proto.config.deviceAssignment.value, EffectiveReplicas(proto.config.numReplicas), 1)
    ensures out.result.Success? ==>
      && out.steps == StepOrder(proto.config)
      && ReachesCompiler(proto, backend)
      && CompilerOutput(proto, backend) == Success([out.result.value])
    ensures ReachesCompiler(proto, backend) && CompilerOutput(proto, backend).Success? ==>
      (|CompilerOutput(proto, backend).value| != 1 ==> out.result == Failure(Internal(SingleExecutable)))
    ensures ReachesCompiler(proto, backend) && CompilerOutput(proto, backend).Success? ==>
      (|CompilerOutput(proto, backend).value| == 1 ==> out.result == Success(CompilerOutput(proto, backend).value[0]))
    ensures ReachesCompiler(proto, backend) && CompilerOutput(proto, backend).Failure? ==>
      out.result == Failure(CompilerOutput(proto, backend).error)
    ensures ConfigGate(proto.config).Ok? && backend.device.Failure? ==>
      out == CompileOutcome(Failure(backend.device.error), [AcquireDevice])
    ensures
      (ConfigGate(proto.config).Ok? && backend.device.Success? && backend.loadSnapshot(proto.hloSnapshot).Failure?) ==>
      out == CompileOutcome(Failure(backend.loadSnapshot(proto.hloSnapshot).error), [AcquireDevice, LoadSnapshot])
    ensures
      (&& ConfigGate(proto.config).Ok? && backend.device.Success?
       && backend.loadSnapshot(proto.hloSnapshot).Success?
       && BuildOptionsFor(proto.config, backend.device.value).Failure?) ==>
      out == CompileOutcome(Failure(BuildOptionsFor(proto.config, backend.device.value).error),
                            [AcquireDevice, LoadSnapshot, BuildDeviceAssignment])
  {
    var config := proto.config;
    match ConfigGate(config)
    case Failed(e) => CompileOutcome(Failure(e), [])
    case Ok =>
      match backend.device
      case Failure(e) => CompileOutcome(Failure(e), [AcquireDevice])
      case Success(device) =>
        match backend.loadSnapshot(proto.hloSnapshot)
        case Failure(e) => CompileOutcome(Failure(e), [AcquireDevice, LoadSnapshot])
        case Success(computation) =>
          var built := if config.deviceAssignment.Some? then [BuildDeviceAssignment] else [];
          match BuildOptionsFor(config, device)
          case Failure(e) => CompileOutcome(Failure(e), [AcquireDevice, LoadSnapshot] + built)
          case Success(options) =>
            var steps := [AcquireDevice, LoadSnapshot] + built + [InvokeCompiler];
            match backend.compile(computation, options)
            case Failure(e) => CompileOutcome(Failure(e), steps)
            case Success(executables) =>
              if |executables| != 1 then CompileOutcome(Failure(Internal(SingleExecutable)), steps)
              else
                assert executables == [executables[0]];
                CompileOutcome(Success(executables[0]), steps)
  }

  /** Two cores per replica are refused as an Internal error, with no outside call made. */
  lemma TwoCoresRefusedBeforeCompiler<Snapshot, Computation, Executable>(
    proto: ComputationProto<Snapshot>,
    backend: Backend<Snapshot, Computation, Executable>)
    requires proto.config.numCoresPerReplica == 2
    ensures Compile(proto, backend) == CompileOutcome(Failure(Internal(SingleCorePerReplica)), [])
  {
  }
}
