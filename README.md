# XRT compile and release kernels in Dafny

This project models the sequential logic of TensorFlow's XRT compile and
release kernels (`tensorflow/compiler/xrt/kernels/xrt_compile_ops.cc`):

- **Device-assignment builder** (`device_assignment.dfy`, module `DeviceAssignment`).
  The input is a grid indexed computation device → replica → mesh coordinates
  `(x, y, z, core)`. The builder checks it in loop order: the computation count first,
  then for each computation its replica count, then each tuple's arity, then its first
  three coordinates. On success it writes each tuple's core id into a
  replicas × cores `array2` that the caller has sized. `GenerateDeviceAssignment` is
  the imperative builder. It is proved against `FirstViolation`, a pure function that
  gives the first violation in loop order. That function is in turn proved equivalent
  to the declarative `ValidGrid` (`AcceptsIffValid`, `ReportsFirstViolation`).
  `AssignmentOf` is the same builder as a value, for use by the compile step.
- **Cache-key derivation** (`cache_key.dfy`, module `CacheKey`). The deterministic
  serializer and the 64-bit fingerprint are parameters. The decimal rendering of the
  fingerprint (`absl::StrCat` of a `uint64`) is modelled exactly, and it is proved
  to read back to the fingerprint. So two keys are equal exactly when the two
  fingerprints are.
- **Compile step** (`compile.dfy`, module `CompileOp`). It models the configuration
  checks, the normalisation of the replica and core counts, the building of the
  device assignment and the single-executable check of `XRTCompileOp::Compile`. The
  device accessor, the snapshot loader and the XLA compiler are fields of a `Backend`
  value. Which of them the step reaches, and in what order, is returned as a list of
  `Step`s, so "checked before any outside call" is a statement about that list.
- **Release kernel** (`release.dfy`, module `ReleaseOp`). The compilation cache is a
  class holding a table from uid to outstanding references. `Release` fails with
  NotFound on an unknown uid. `ReleaseCompilationRefs` is the loop of
  `XRTReleaseCompilationRefOp::Compute`, proved against `ReleaseBatch`, which stops
  at the first failure.

`status.dfy` (module `XrtStatus`) holds the status codes. InvalidArgument carries the
builder's reason. Internal carries the TF_RET_CHECK condition that failed.

`TF_RET_CHECK` reports Internal, so an unsupported number of cores per replica is an
Internal error (`ConfigGate`, `TwoCoresRefusedBeforeCompiler`). The per-core program
shapes check (line 130) does not depend on the core count.

## Model

| member | source | states |
|---|---|---|
| `DeviceAssignment.GenerateDeviceAssignment` | tensorflow/compiler/xrt/kernels/xrt_compile_ops.cc:54-93 | returns InvalidArgument with the first violation in loop order, else Ok. Cell (r, c) holds the core id of tuple (c, r) for every cell written before the stop point, so every cell on success. Every other cell keeps its old value. |
| `DeviceAssignment.FirstNonZeroFinds` | tensorflow/compiler/xrt/kernels/xrt_compile_ops.cc:83-88 | the mesh-prefix scan reports nothing iff coordinates n..2 are zero. Otherwise it names the first non-zero index and its value. |
| `DeviceAssignment.CoordinateViolationIff` | tensorflow/compiler/xrt/kernels/xrt_compile_ops.cc:78-88 | a tuple is rejected iff it is not four entries with zero x, y, z. An arity error is reported exactly when the arity is wrong. Otherwise the error names the first non-zero prefix coordinate. |
| `DeviceAssignment.ReplicaViolationFinds` | tensorflow/compiler/xrt/kernels/xrt_compile_ops.cc:76-90 | the replica scan from r finds nothing iff every tuple from r on is well formed. Otherwise it finds the first bad tuple, and every tuple before it is well formed. |
| `DeviceAssignment.ComputationViolationFinds` | tensorflow/compiler/xrt/kernels/xrt_compile_ops.cc:65-91 | the computation scan from c finds nothing iff every computation from c on is valid. Otherwise the reported position is bad for the stated reason, and every computation before it is valid. |
| `DeviceAssignment.AcceptsIffValid` | tensorflow/compiler/xrt/kernels/xrt_compile_ops.cc:57-92 | the builder accepts a grid if and only if it has num_cores_per_replica computations, each with num_replicas single-chip tuples. |
| `DeviceAssignment.ReportsFirstViolation` | tensorflow/compiler/xrt/kernels/xrt_compile_ops.cc:57-88 | a computation-count mismatch is reported before any replica entry is examined. Otherwise the reported error is that of the first bad position in (c outer, r inner) order. |
| `DeviceAssignment.ReplicaCountMismatchRejected` | tensorflow/compiler/xrt/kernels/xrt_compile_ops.cc:69-75 | any computation device whose replica count differs from num_replicas makes the builder return InvalidArgument. |
| `DeviceAssignment.MalformedCoordinatesRejected` | tensorflow/compiler/xrt/kernels/xrt_compile_ops.cc:76-88 | any tuple without 4 entries, or with a non-zero x, y or z, makes the builder return InvalidArgument. |
| `DeviceAssignment.AssignmentOf` | tensorflow/compiler/xrt/kernels/xrt_compile_ops.cc:54-93 | succeeds iff the grid is valid. The matrix is num_replicas × num_cores_per_replica with entry [r][c] the core id of tuple (c, r). A failure carries the first violation as InvalidArgument. |
| `DeviceAssignment.BuildAssignmentMatrix` | tensorflow/compiler/xrt/kernels/xrt_compile_ops.cc:170-176 | a fresh num_replicas × num_cores_per_replica matrix filled by the builder. The status and, on success, every cell agree with `AssignmentOf`. |
| `DeviceAssignment.TwoReplicaExample` | tensorflow/compiler/xrt/kernels/xrt_compile_ops.cc:89 | two replicas on one core with core ids 5 and 7 give the matrix [[5], [7]]. |
| `DeviceAssignment.NonZeroMeshExample` | tensorflow/compiler/xrt/kernels/xrt_compile_ops.cc:83-87 | the tuple (1, 0, 0, 3) is rejected as InvalidArgument naming index 0 and value 1. |
| `CacheKey.Decimal` | tensorflow/compiler/xrt/kernels/xrt_compile_ops.cc:117 | the rendering of a fingerprint is a non-empty digit string with no leading zero. It starts with '0' only for zero. |
| `CacheKey.ParseDecimalOfDecimal` | tensorflow/compiler/xrt/kernels/xrt_compile_ops.cc:117 | reading the decimal rendering back gives the fingerprint. |
| `CacheKey.DecimalInjective` | tensorflow/compiler/xrt/kernels/xrt_compile_ops.cc:117 | two fingerprints render to the same key iff they are equal. |
| `CacheKey.CompilationCacheKey` | tensorflow/compiler/xrt/kernels/xrt_compile_ops.cc:110-119 | if serialization fails, the result is Internal and there is no key. Otherwise the key is a canonical decimal numeral whose value is the fingerprint of the serialized bytes. |
| `CacheKey.KeyDependsOnlyOnBytes` | tensorflow/compiler/xrt/kernels/xrt_compile_ops.cc:112-117 | computations with equal serializations get equal keys (or the same error). |
| `CacheKey.KeysEqualIffFingerprintsEqual` | tensorflow/compiler/xrt/kernels/xrt_compile_ops.cc:116-117 | two serializable computations share a key exactly when their bytes share a fingerprint. |
| `CompileOp.EffectiveCoresPerReplica` | tensorflow/compiler/xrt/kernels/xrt_compile_ops.cc:128 | `std::max(x, 1)`: a positive setting is kept, and any setting below one becomes exactly one. |
| `CompileOp.EffectiveReplicas` | tensorflow/compiler/xrt/kernels/xrt_compile_ops.cc:132-133 | a non-zero setting is kept, and 0 becomes exactly 1. |
| `CompileOp.ConfigGate` | tensorflow/compiler/xrt/kernels/xrt_compile_ops.cc:128-130 | the checks pass iff at most one core per replica is configured and there are no per-core program shapes. The core check is made first. Each failure is its own Internal error. |
| `CompileOp.BuildOptionsFor` | tensorflow/compiler/xrt/kernels/xrt_compile_ops.cc:161-177 | fails iff a device assignment is present and invalid for the normalised replica count and one core, and the error is the builder's InvalidArgument for the first violation. Options carry the device ordinal and the normalised replica count. A matrix is present iff the config has an assignment, and its row r is that replica's core id. |
| `CompileOp.Compile` | tensorflow/compiler/xrt/kernels/xrt_compile_ops.cc:123-186 | outside steps follow the fixed order, and none happens when a config check fails, which returns that check's error. A device, snapshot or builder error is returned unchanged and stops the step there, with the exact steps taken. The assignment is built only when configured. The compiler is reached only with a valid assignment, and its error is returned unchanged. The step succeeds exactly when the compiler returns one executable, which is the result; any other count gives Internal. |
| `CompileOp.TwoCoresRefusedBeforeCompiler` | tensorflow/compiler/xrt/kernels/xrt_compile_ops.cc:128-129 | two cores per replica fail with Internal and no outside step at all. |
| `ReleaseOp.ReleaseHandle` | tensorflow/compiler/xrt/kernels/xrt_compile_ops.cc:274 | an unknown uid gives NotFound. Otherwise the uid loses one reference and is dropped at zero. No other entry changes. |
| `ReleaseOp.ReleaseBatch` | tensorflow/compiler/xrt/kernels/xrt_compile_ops.cc:272-276 | every count in the table stays positive. A failed batch fails with NotFound for one of its own handles. |
| `ReleaseOp.ReleaseBatchAppend` | tensorflow/compiler/xrt/kernels/xrt_compile_ops.cc:272-276 | handles are processed in order: releasing a + b is releasing a, then b unless a failed. |
| `ReleaseOp.StopsAtFirstUnknown` | tensorflow/compiler/xrt/kernels/xrt_compile_ops.cc:272-276 | at the first unknown handle the batch fails with its NotFound. Earlier releases stay applied and later handles are untouched. |
| `ReleaseOp.FailureIsFirstUnknown` | tensorflow/compiler/xrt/kernels/xrt_compile_ops.cc:272-276 | every failed batch failed at a handle k that the releases of handles[..k] left absent. Those releases all succeeded, and their table is the final one. |
| `ReleaseOp.ReleaseCheckedOutHandle` | tensorflow/compiler/xrt/kernels/xrt_compile_ops.cc:272-276 | a handle with n references is still present with one reference after n - 1 releases, and gone after n. No other entry changes. |
| `ReleaseOp.CompilationCache.constructor` | tensorflow/compiler/xrt/kernels/xrt_compile_ops.cc:265-268 | the cache starts with the given table of positive counts. |
| `ReleaseOp.CompilationCache.Release` | tensorflow/compiler/xrt/kernels/xrt_compile_ops.cc:274 | succeeds iff the uid is present. A failure is NotFound and leaves the table unchanged. A success leaves the table that ReleaseHandle gives. |
| `ReleaseOp.ReleaseCompilationRefs` | tensorflow/compiler/xrt/kernels/xrt_compile_ops.cc:270-276 | the final table and status are those of ReleaseBatch on the initial table and the handles in input order. |

## Left out

- CompileOp.Compile: requires a non-negative num_replicas only on the path that reaches the construction of the device-assignment matrix (lines 171-172): the config checks pass, the device is acquired, the snapshot loads and an assignment is present. For a negative count there, the source constructs an `xla::DeviceAssignment` with a negative dimension, and that class is not part of this model.
- CompileOp.BuildOptionsFor: requires a non-negative num_replicas when an assignment is present, for the same reason. `Compile` calls it only on that path.
- CompileOp.BuildOptionsFor: argument layouts, result layout, the allocator and debug options (lines 153-169) are not modelled. They are built by foreign XLA calls.
- The compilation cache's internals (`CompileIfKeyAbsent`, `Lookup`, eviction and single-flight compilation) are not modelled. xrt_compilation_cache is not part of this model, and its single-flight behaviour is concurrency. For the release kernel the cache is a table of reference counts, and an entry is dropped when its count reaches zero.
- `XRTCompileOp::Compute` is not modelled (lines 188-239). That covers the tensor input checks, parsing via `ParseFromTString`, the call into the cache, the entry lookup and the program-shape output. This is I/O glue around the cache.
- The device accessor, `LoadSnapshot` and the XLA compiler are external. They appear only as the fields of `CompileOp.Backend`.
- `SerializeToBufferDeterministic`, `ByteSizeLong` and `Fingerprint64` are library code and appear only as parameters. A serialization that does not fill the computed size is one `None` result.
- Status messages are modelled as structured error values carrying the same numbers, not as text.
- Integer fields (`int32` counts, `int64` handles) are unbounded integers in the model. Each value the code compares or stores is within range and nothing is computed on it. The fingerprint is an explicit unsigned 64-bit type.
- Metrics timers, VLOG and kernel registration (lines 190, 262, 281-299) have no behaviour to model.
