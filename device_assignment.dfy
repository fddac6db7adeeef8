/**
 * The device-assignment builder of the compile kernel.
 *
 * A device-assignment grid is indexed computation device -> replica -> mesh
 * coordinates (x, y, z, core). The builder checks the grid against the
 * replica and core counts, in loop order, and on success writes the core id
 * of tuple (c, r) into cell (r, c) of a replicas x cores matrix that the
 * caller has sized.
 */
module DeviceAssignment {
  import opened XrtStatus

  /** computation device -> replica -> mesh coordinates */
  type Grid = seq<seq<seq<int>>>

  /** The place where the builder stops, and why. Cells before (c, r) in loop order have been written. */
  datatype Violation = Violation(c: nat, r: nat, error: AssignmentError)

  // ----- Reference definition: what a valid grid is -----

  /** A single-chip mesh address: four entries, the first three zero. */
  predicate WellFormedCoordinates(coords: seq<int>)
  {
    |coords| == 4 && coords[0] == 0 && coords[1] == 0 && coords[2] == 0
  }

  /** One computation device: exactly `numReplicas` well-formed tuples. */
  predicate ValidComputation(devices: seq<seq<int>>, numReplicas: int)
  {
    |devices| == numReplicas &&
    forall r :: 0 <= r < |devices| ==> WellFormedCoordinates(devices[r])
  }

  /** The whole grid: `numCoresPerReplica` computation devices, each valid. */
  predicate ValidGrid(grid: Grid, numReplicas: int, numCoresPerReplica: int)
  {
    |grid| == numCoresPerReplica &&
    forall c :: 0 <= c < |grid| ==> ValidComputation(grid[c], numReplicas)
  }

  // ----- The builder's checks, in the order it makes them -----

  /** The first of coords[n..3] that is non-zero. */
  function FirstNonZero(coords: seq<int>, n: nat): Option<AssignmentError>
    requires n <= 3 < |coords|
    decreases 3 - n
  {
    if n == 3 then None
    else if coords[n] != 0 then Some(NonZeroMeshCoordinate(n, coords[n]))
    else FirstNonZero(coords, n + 1)
  }

  /** The error the builder reports for one coordinate tuple, if any. */
  function CoordinateViolation(coords: seq<int>): Option<AssignmentError>
  {
    if |coords| != 4 then Some(WrongCoordinateArity(|coords|))
    else FirstNonZero(coords, 0)
  }

  /** The first bad tuple among devices[r..], with its replica index. */
  function ReplicaViolation(devices: seq<seq<int>>, r: nat): Option<(nat, AssignmentError)>
    requires r <= |devices|
    decreases |devices| - r
  {
    if r == |devices| then None
    else match CoordinateViolation(devices[r])
      case Some(e) => Some((r, e))
      case None => ReplicaViolation(devices, r + 1)
  }

  /** The first violation among computation devices grid[c..]. */
  function ComputationViolation(grid: Grid, numReplicas: int, c: nat): Option<Violation>
    requires c <= |grid|
    decreases |grid| - c
  {
    if c == |grid| then None
    else if |grid[c]| != numReplicas then Some(Violation(c, 0, WrongReplicaCount(numReplicas, |grid[c]|)))
    else match ReplicaViolation(grid[c], 0)
      case Some((r, e)) => Some(Violation(c, r, e))
      case None => ComputationViolation(grid, numReplicas, c + 1)
  }

  /** The violation the builder reports for the grid, or None when it accepts it. */
  function FirstViolation(grid: Grid, numReplicas: int, numCoresPerReplica: int): Option<Violation>
  {
    if numCoresPerReplica != |grid| then
      Some(Violation(0, 0, WrongComputationCount(numCoresPerReplica, |grid|)))
    else ComputationViolation(grid, numReplicas, 0)
  }

  /** Whether the builder has written matrix cell (r, c) when it stops at `v`. */
  predicate Assigned(v: Option<Violation>, r: int, c: int)
  {
    v.None? || c < v.value.c || (c == v.value.c && r < v.value.r)
  }

  /** The status the builder returns when it stops at `v`. */
  function StatusOf(v: Option<Violation>): (s: Status)
    ensures s.Ok? <==> v.None?
  {
    match v
    case None => Ok
    case Some(violation) => Failed(InvalidArgument(violation.error))
  }

  // ----- Lemmas connecting the check order to the reference definition -----

  lemma {:induction false} FirstNonZeroFinds(coords: seq<int>, n: nat)
    requires n <= 3 < |coords|
    ensures FirstNonZero(coords, n).None? <==> forall k :: n <= k < 3 ==> coords[k] == 0
    ensures FirstNonZero(coords, n).Some? ==>
      var e := FirstNonZero(coords, n).value;
      e.NonZeroMeshCoordinate? && n <= e.index < 3 && coords[e.index] == e.value && e.value != 0 &&
      forall k :: n <= k < e.index ==> coords[k] == 0
    decreases 3 - n
  {
    if n < 3 && coords[n] == 0 {
      FirstNonZeroFinds(coords, n + 1);
    }
  }

  /** A tuple is rejected exactly when it is not a single-chip address, and the error names the first offence. */
  lemma CoordinateViolationIff(coords: seq<int>)
    ensures CoordinateViolation(coords).None? <==> WellFormedCoordinates(coords)
    ensures CoordinateViolation(coords) == Some(WrongCoordinateArity(|coords|)) <==> |coords| != 4
    ensures CoordinateViolation(coords).Some? && |coords| == 4 ==>
      var e := CoordinateViolation(coords).value;
      e.NonZeroMeshCoordinate? && e.index < 3 && coords[e.index] == e.value && e.value != 0 &&
      forall k :: 0 <= k < e.index ==> coords[k] == 0
  {
    if |coords| == 4 {
      FirstNonZeroFinds(coords, 0);
    }
  }

  lemma {:induction false} ReplicaViolationFinds(devices: seq<seq<int>>, r: nat)
    requires r <= |devices|
    ensures ReplicaViolation(devices, r).None? <==>
      forall k :: r <= k < |devices| ==> WellFormedCoordinates(devices[k])
    ensures ReplicaViolation(devices, r).Some? ==>
      var (k, e) := ReplicaViolation(devices, r).value;
      r <= k < |devices| && CoordinateViolation(devices[k]) == Some(e) &&
      forall j :: r <= j < k ==> WellFormedCoordinates(devices[j])
    decreases |devices| - r
  {
    if r < |devices| {
      CoordinateViolationIff(devices[r]);
      ReplicaViolationFinds(devices, r + 1);
    }
  }

  lemma {:induction false} ComputationViolationFinds(grid: Grid, numReplicas: int, c: nat)
    requires c <= |grid|
    ensures ComputationViolation(grid, numReplicas, c).None? <==>
      forall k :: c <= k < |grid| ==> ValidComputation(grid[k], numReplicas)
    ensures ComputationViolation(grid, numReplicas, c).Some? ==>
      var v := ComputationViolation(grid, numReplicas, c).value;
      c <= v.c < |grid| &&
      (forall j :: c <= j < v.c ==> ValidComputation(grid[j], numReplicas)) &&
      ViolationAt(grid, numReplicas, v)
    decreases |grid| - c
  {
    if c < |grid| {
      ReplicaViolationFinds(grid[c], 0);
      ComputationViolationFinds(grid, numReplicas, c + 1);
    }
  }

  /** Position (v.c, v.r) of the grid really is bad, for the reason v gives. */
  predicate ViolationAt(grid: Grid, numReplicas: int, v: Violation)
    requires v.c < |grid|
  {
    if |grid[v.c]| != numReplicas then
      v.r == 0 && v.error == WrongReplicaCount(numReplicas, |grid[v.c]|)
    else
      v.r < |grid[v.c]| &&
      (forall j :: 0 <= j < v.r ==> WellFormedCoordinates(grid[v.c][j])) &&
      CoordinateViolation(grid[v.c][v.r]) == Some(v.error)
  }

  /** The builder accepts a grid if and only if the grid is valid. */
  lemma AcceptsIffValid(grid: Grid, numReplicas: int, numCoresPerReplica: int)
    ensures FirstViolation(grid, numReplicas, numCoresPerReplica).None? <==>
            ValidGrid(grid, numReplicas, numCoresPerReplica)
  {
    ComputationViolationFinds(grid, numReplicas, 0);
  }

  /**
   * The reported violation is the first one in loop order: a computation
   * count mismatch before anything else; otherwise every computation device
   * before v.c is valid and position (v.c, v.r) is bad for the stated reason.
   */
  lemma ReportsFirstViolation(grid: Grid, numReplicas: int, numCoresPerReplica: int)
    requires FirstViolation(grid, numReplicas, numCoresPerReplica).Some?
    ensures var v := FirstViolation(grid, numReplicas, numCoresPerReplica).value;
      if |grid| != numCoresPerReplica then
        v == Violation(0, 0, WrongComputationCount(numCoresPerReplica, |grid|))
      else
        v.c < |grid| &&
        (forall j :: 0 <= j < v.c ==> ValidComputation(grid[j], numReplicas)) &&
        ViolationAt(grid, numReplicas, v)
  {
    ComputationViolationFinds(grid, numReplicas, 0);
  }

  /** A computation device with the wrong number of replicas makes the builder fail. */
  lemma ReplicaCountMismatchRejected(grid: Grid, numReplicas: int, numCoresPerReplica: int, c: nat)
    requires c < |grid| && |grid[c]| != numReplicas
    ensures StatusOf(FirstViolation(grid, numReplicas, numCoresPerReplica)).Failed?
    ensures StatusOf(FirstViolation(grid, numReplicas, numCoresPerReplica)).error.InvalidArgument?
  {
    AcceptsIffValid(grid, numReplicas, numCoresPerReplica);
  }

  /** A tuple that is not a single-chip address makes the builder fail. */
  lemma MalformedCoordinatesRejected(grid: Grid, numReplicas: int, numCoresPerReplica: int, c: nat, r: nat)
    requires c < |grid| && r < |grid[c]| && !WellFormedCoordinates(grid[c][r])
    ensures StatusOf(FirstViolation(grid, numReplicas, numCoresPerReplica)).Failed?
    ensures StatusOf(FirstViolation(grid, numReplicas, numCoresPerReplica)).error.InvalidArgument?
  {
    AcceptsIffValid(grid, numReplicas, numCoresPerReplica);
  }

  /**
   * The matrix the builder produces, as a value: row r, column c holds the
   * core id of tuple (c, r); or the InvalidArgument error of the first violation.
   */
  function AssignmentOf(grid: Grid, numReplicas: nat, numCoresPerReplica: nat): (res: Result<seq<seq<int>>>)
    ensures res.Success? <==> ValidGrid(grid, numReplicas, numCoresPerReplica)
    ensures res.Failure? ==>
      FirstViolation(grid, numReplicas, numCoresPerReplica).Some? &&
      res.error == InvalidArgument(FirstViolation(grid, numReplicas, numCoresPerReplica).value.error)
    ensures res.Success? ==>
      |res.value| == numReplicas &&
      forall r :: 0 <= r < numReplicas ==>
        |res.value[r]| == numCoresPerReplica &&
        forall c :: 0 <= c < numCoresPerReplica ==> res.value[r][c] == grid[c][r][3]
  {
    AcceptsIffValid(grid, numReplicas, numCoresPerReplica);
    match FirstViolation(grid, numReplicas, numCoresPerReplica)
    case Some(v) => Failure(InvalidArgument(v.error))
    case None =>
      Success(seq(numReplicas, r requires 0 <= r < numReplicas =>
        seq(numCoresPerReplica, c requires 0 <= c < numCoresPerReplica => grid[c][r][3])))
  }

  /** Two replicas on one core: ((0,0,0,5)) and ((0,0,0,7)) give [[5], [7]]. */
  lemma TwoReplicaExample()
    ensures AssignmentOf([[[0, 0, 0, 5], [0, 0, 0, 7]]], 2, 1) == Success([[5], [7]])
  {
    var res := AssignmentOf([[[0, 0, 0, 5], [0, 0, 0, 7]]], 2, 1);
    assert ValidComputation([[0, 0, 0, 5], [0, 0, 0, 7]], 2);
    assert ValidGrid([[[0, 0, 0, 5], [0, 0, 0, 7]]], 2, 1);
    assert |res.value| == 2 && |res.value[0]| == 1 && |res.value[1]| == 1;
    assert res.value[0][0] == 5 && res.value[1][0] == 7;
    assert res.value[0] == [5] && res.value[1] == [7];
    assert res.value == [[5], [7]];
  }

  /** A non-zero first mesh coordinate is rejected, naming index 0. */
  lemma NonZeroMeshExample()
    ensures AssignmentOf([[[1, 0, 0, 3]]], 1, 1) == Failure(InvalidArgument(NonZeroMeshCoordinate(0, 1)))
  {
  }

  // ----- The builder itself -----

  /**
   * Checks `grid` in loop order (computation c outer, replica r inner) and
   * writes the core id of each accepted tuple (c, r) into m[r, c]. On the
   * first violation it returns InvalidArgument and leaves the cells it has
   * not reached untouched.
   */
  method GenerateDeviceAssignment(grid: Grid, numReplicas: int, numCoresPerReplica: int, m: array2<int>)
    returns (status: Status)
    requires m.Length0 == numReplicas && m.Length1 == numCoresPerReplica
    modifies m
    ensures status == StatusOf(FirstViolation(grid, numReplicas, numCoresPerReplica))
    ensures forall r, c :: 0 <= r < m.Length0 && 0 <= c < m.Length1 ==>
      if Assigned(FirstViolation(grid, numReplicas, numCoresPerReplica), r, c) then
        c < |grid| && r < |grid[c]| && |grid[c][r]| == 4 && m[r, c] == grid[c][r][3]
      else
        m[r, c] == old(m[r, c])
  {
    if numCoresPerReplica != |grid| {
      return Failed(InvalidArgument(WrongComputationCount(numCoresPerReplica, |grid|)));
    }
    var c := 0;
    while c < |grid|
      invariant 0 <= c <= |grid|
      invariant forall j :: 0 <= j < c ==> ValidComputation(grid[j], numReplicas)
      invariant ComputationViolation(grid, numReplicas, c) == FirstViolation(grid, numReplicas, numCoresPerReplica)
      invariant forall r, j :: 0 <= r < m.Length0 && 0 <= j < m.Length1 ==>
        if j < c then m[r, j] == grid[j][r][3] else m[r, j] == old(m[r, j])
    {
      var devices := grid[c];
      if numReplicas != |devices| {
        return Failed(InvalidArgument(WrongReplicaCount(numReplicas, |devices|)));
      }
      var r := 0;
      while r < |devices|
        invariant 0 <= r <= |devices|
        invariant forall k :: 0 <= k < r ==> WellFormedCoordinates(devices[k])
        invariant ReplicaViolation(devices, r) == ReplicaViolation(devices, 0)
        invariant forall i, j :: 0 <= i < m.Length0 && 0 <= j < m.Length1 ==>
          if j < c || (j == c && i < r) then m[i, j] == grid[j][i][3] else m[i, j] == old(m[i, j])
      {
        var coords := devices[r];
        if |coords| != 4 {
          return Failed(InvalidArgument(WrongCoordinateArity(|coords|)));
        }
        var n := 0;
        while n < 3
          invariant 0 <= n <= 3
          invariant FirstNonZero(coords, n) == FirstNonZero(coords, 0)
        {
          if coords[n] != 0 {
            return Failed(InvalidArgument(NonZeroMeshCoordinate(n, coords[n])));
          }
          n := n + 1;
        }
        m[r, c] := coords[3];
        r := r + 1;
      }
      c := c + 1;
    }
    return Ok;
  }

  /**
   * The compile step's use of the builder: a fresh num_replicas x
   * num_cores_per_replica matrix filled by GenerateDeviceAssignment. The status
   * and, on success, every cell agree with AssignmentOf.
   */
  method BuildAssignmentMatrix(grid: Grid, numReplicas: nat, numCoresPerReplica: nat)
    returns (status: Status, m: array2<int>)
    ensures fresh(m)
    ensures m.Length0 == numReplicas && m.Length1 == numCoresPerReplica
    ensures status.Ok? <==> AssignmentOf(grid, numReplicas, numCoresPerReplica).Success?
    ensures status.Failed? ==> status.error == AssignmentOf(grid, numReplicas, numCoresPerReplica).error
    ensures status.Ok? ==>
      forall r, c :: 0 <= r < numReplicas && 0 <= c < numCoresPerReplica ==>
        m[r, c] == AssignmentOf(grid, numReplicas, numCoresPerReplica).value[r][c]
  {
    m := new int[numReplicas, numCoresPerReplica];
    status := GenerateDeviceAssignment(grid, numReplicas, numCoresPerReplica, m);
  }
}
