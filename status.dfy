/**
 * Status values shared by the compile and release kernels.
 *
 * The kernels report failures through a status object whose code is one of
 * InvalidArgument (a malformed device assignment), Internal (a failed
 * TF_RET_CHECK) or NotFound (an unknown compilation handle). Errors raised by
 * the device accessor, the snapshot loader and the XLA compiler are arbitrary
 * `Error` values chosen by those collaborators, passed through unchanged.
 */
module XrtStatus {

  /** Why a device-assignment grid was rejected; every reason is reported as InvalidArgument. */
  datatype AssignmentError =
    | WrongComputationCount(numCoresPerReplica: int, computationDevices: nat)
    | WrongReplicaCount(numReplicas: int, replicaDevices: nat)
    | WrongCoordinateArity(entries: nat)
    | NonZeroMeshCoordinate(index: nat, value: int)

  /** The condition of a TF_RET_CHECK that did not hold; each is reported as Internal. */
  datatype FailedCheck =
    | SingleCorePerReplica
    | NoPerCoreProgramShapes
    | DeterministicSerialization
    | SingleExecutable

  datatype Error =
    | InvalidArgument(reason: AssignmentError)
    | Internal(check: FailedCheck)
    | NotFound(uid: int)

  /** The outcome of an operation that produces no value. */
  datatype Status = Ok | Failed(error: Error)

  /** The outcome of an operation that produces a value of type T. */
  datatype Result<T> = Success(value: T) | Failure(error: Error)

  /** A value that may be absent. */
  datatype Option<T> = None | Some(value: T)
}
