/**
 * The release kernel: it gives back a batch of compilation handles to the
 * process-wide compilation cache, one at a time and in input order, and stops
 * at the first handle the cache does not know.
 *
 * The cache itself (compile-if-absent, lookup, eviction) is not part of this
 * model. Here it is only what the release kernel relies on: a table from
 * handle (uid) to the number of outstanding references. Releasing a handle
 * takes one reference away and drops the entry when none is left; releasing
 * an unknown handle fails with NotFound and changes nothing.
 */
module ReleaseOp {
  import opened XrtStatus

  /** uid -> outstanding references */
  type RefTable = map<int, nat>

  /** Every entry in the table has at least one outstanding reference. */
  predicate LiveCounts(refs: RefTable)
  {
    forall uid :: uid in refs ==> refs[uid] >= 1
  }

  /** The table after one release of `uid`, or NotFound when the table has no such handle. */
  function ReleaseHandle(refs: RefTable, uid: int): (res: Result<RefTable>)
    requires LiveCounts(refs)
    ensures res.Failure? <==> uid !in refs
    ensures res.Failure? ==> res.error == NotFound(uid)
    ensures res.Success? ==>
      && LiveCounts(res.value)
      && (refs[uid] == 1 ==> uid !in res.value)
      && (refs[uid] > 1 ==> uid in res.value && res.value[uid] == refs[uid] - 1)
      && (forall other :: other != uid ==> (other in res.value <==> other in refs))
      && (forall other :: other != uid && other in refs ==> res.value[other] == refs[other])
  {
    if uid !in refs then Failure(NotFound(uid))
    else if refs[uid] == 1 then Success(refs - {uid})
    else Success(refs[uid := refs[uid] - 1])
  }

  datatype BatchOutcome = BatchOutcome(refs: RefTable, status: Status)

  /** The table and status after releasing `handles` in order, stopping at the first failure. */
  function ReleaseBatch(refs: RefTable, handles: seq<int>): (out: BatchOutcome)
    requires LiveCounts(refs)
    ensures LiveCounts(out.refs)
    ensures out.status.Failed? ==> out.status.error.NotFound? && out.status.error.uid in handles
    decreases |handles|
  {
    if handles == [] then BatchOutcome(refs, Ok)
    else match ReleaseHandle(refs, handles[0])
      case Failure(e) => BatchOutcome(refs, Failed(e))
      case Success(next) => ReleaseBatch(next, handles[1..])
  }

  /** Releasing a + b is releasing a, then, unless that failed, releasing b. */
  lemma {:induction false} ReleaseBatchAppend(refs: RefTable, a: seq<int>, b: seq<int>)
    requires LiveCounts(refs)
    ensures ReleaseBatch(refs, a + b) ==
      var first := ReleaseBatch(refs, a);
      if first.status.Ok? then ReleaseBatch(first.refs, b) else first
    decreases |a|
  {
    if a == [] {
      assert a + b == b;
    } else {
      assert (a + b)[0] == a[0] && (a + b)[1..] == a[1..] + b;
      match ReleaseHandle(refs, a[0])
      case Failure(_) =>
      case Success(next) => ReleaseBatchAppend(next, a[1..], b);
    }
  }

  /**
   * When handles[k] is the first handle the cache does not know, the batch
   * fails with NotFound(handles[k]); the releases of handles[..k] stay
   * applied and handles[k+1..] are not touched.
   */
  lemma {:induction false} StopsAtFirstUnknown(refs: RefTable, handles: seq<int>, k: nat)
    requires LiveCounts(refs) && k < |handles|
    requires ReleaseBatch(refs, handles[..k]).status.Ok?
    requires handles[k] !in ReleaseBatch(refs, handles[..k]).refs
    ensures ReleaseBatch(refs, handles) ==
      BatchOutcome(ReleaseBatch(refs, handles[..k]).refs, Failed(NotFound(handles[k])))
  {
    var first := ReleaseBatch(refs, handles[..k]);
    assert handles == handles[..k] + handles[k..];
    ReleaseBatchAppend(refs, handles[..k], handles[k..]);
    assert handles[k..][0] == handles[k];
    assert ReleaseHandle(first.refs, handles[k]) == Failure(NotFound(handles[k]));
    assert ReleaseBatch(first.refs, handles[k..]) == BatchOutcome(first.refs, Failed(NotFound(handles[k])));
  }

  /**
   * A failed batch failed at some handle handles[k]: everything before it was
   * released, the table is the one those releases left, and handles[k] was
   * not in it.
   */
  lemma {:induction false} FailureIsFirstUnknown(refs: RefTable, handles: seq<int>)
    requires LiveCounts(refs)
    requires ReleaseBatch(refs, handles).status.Failed?
    ensures exists k :: (
      && 0 <= k < |handles|
      && ReleaseBatch(refs, handles[..k]) == BatchOutcome(ReleaseBatch(refs, handles).refs, Ok)
      && handles[k] !in ReleaseBatch(refs, handles).refs
      && ReleaseBatch(refs, handles).status == Failed(NotFound(handles[k])))
    decreases |handles|
  {
    var out := ReleaseBatch(refs, handles);
    match ReleaseHandle(refs, handles[0])
    case Failure(_) =>
      assert handles[..0] == [];
    case Success(next) =>
      FailureIsFirstUnknown(next, handles[1..]);
      var k :| 0 <= k < |handles[1..]| &&
        ReleaseBatch(next, handles[1..][..k]) == BatchOutcome(out.refs, Ok) &&
        handles[1..][k] !in out.refs &&
        out.status == Failed(NotFound(handles[1..][k]));
      assert handles[..k + 1][0] == handles[0] && handles[..k + 1][1..] == handles[1..][..k];
      assert ReleaseBatch(refs, handles[..k + 1]) == BatchOutcome(out.refs, Ok);
  }

  /** n copies of uid. */
  function Repeat(uid: int, n: nat): (s: seq<int>)
    ensures |s| == n && forall i :: 0 <= i < n ==> s[i] == uid
  {
    if n == 0 then [] else [uid] + Repeat(uid, n - 1)
  }

  /**
   * A handle checked out n times survives n - 1 releases with one reference
   * left, and is gone after the n-th; no other entry changes.
   */
  lemma {:induction false} ReleaseCheckedOutHandle(refs: RefTable, uid: int, n: nat)
    requires LiveCounts(refs) && uid in refs && refs[uid] == n
    ensures ReleaseBatch(refs, Repeat(uid, n - 1)) == BatchOutcome(refs[uid := 1], Ok)
    ensures ReleaseBatch(refs, Repeat(uid, n)) == BatchOutcome(refs - {uid}, Ok)
    decreases n
  {
    if n == 1 {
      assert Repeat(uid, 1) == [uid];
      assert refs[uid := 1] == refs;
    } else {
      var next := refs[uid := n - 1];
      assert ReleaseHandle(refs, uid) == Success(next);
      ReleaseCheckedOutHandle(next, uid, n - 1);
      assert next[uid := 1] == refs[uid := 1];
      assert next - {uid} == refs - {uid};
    }
  }

  /** The handle table that the release kernel works against. */
  class CompilationCache {
    var refs: RefTable

    ghost predicate Valid()
      reads this
    {
      LiveCounts(refs)
    }

    constructor (initial: RefTable)
      requires LiveCounts(initial)
      ensures Valid() && refs == initial
    {
      refs := initial;
    }

    /** Gives back one reference to `uid`, or fails with NotFound leaving the table as it was. */
    method Release(uid: int) returns (status: Status)
      requires Valid()
      modifies this
      ensures Valid()
      ensures status.Ok? <==> uid in old(refs)
      ensures status.Failed? ==> status == Failed(NotFound(uid)) && refs == old(refs)
      ensures status.Ok? ==> ReleaseHandle(old(refs), uid) == Success(refs)
    {
      if uid !in refs {
        return Failed(NotFound(uid));
      }
      if refs[uid] == 1 {
        refs := refs - {uid};
      } else {
        refs := refs[uid := refs[uid] - 1];
      }
      return Ok;
    }
  }

  /**
   * The release kernel: releases `handles` against `cache` in order and
   * returns the first failure, if any.
   */
  method ReleaseCompilationRefs(cache: CompilationCache, handles: seq<int>) returns (status: Status)
    requires cache.Valid()
    modifies cache
    ensures cache.Valid()
    ensures BatchOutcome(cache.refs, status) == ReleaseBatch(old(cache.refs), handles)
  {
    var i := 0;
    while i < |handles|
      invariant 0 <= i <= |handles|
      invariant cache.Valid()
      invariant ReleaseBatch(old(cache.refs), handles) == ReleaseBatch(cache.refs, handles[i..])
    {
      ghost var before := cache.refs;
      assert handles[i..][0] == handles[i] && handles[i..][1..] == handles[i + 1..];
      var released := cache.Release(handles[i]);
      if released.Failed? {
        assert cache.refs == before;
        return released;
      }
      i := i + 1;
    }
    return Ok;
  }
}
