/** evaluateDiskImportStatus (pkg/controllers/migration/helper.go:15-45) and its exact meaning. */
module DiskVerdict {
  import opened Wrappers
  import opened Conditions
  import opened ImportTypes

  predicate Ready(d: DiskInfo) { Has(d.conds, ImageReady) }
  predicate Failed(d: DiskInfo) { Has(d.conds, ImageFailed) }
  predicate Submitted(d: DiskInfo) { Has(d.conds, ImageSubmitted) }

  predicate AllReady(disks: seq<DiskInfo>) { forall i :: 0 <= i < |disks| ==> Ready(disks[i]) }
  predicate AllSubmitted(disks: seq<DiskInfo>) { forall i :: 0 <= i < |disks| ==> Submitted(disks[i]) }
  predicate NoneFailed(disks: seq<DiskInfo>) { forall i :: 0 <= i < |disks| ==> !Failed(disks[i]) }

  /** The first index from i on whose disk is not ready, the length if there is none. */
  function FirstNotReady(disks: seq<DiskInfo>, i: nat): (p: nat)
    requires i <= |disks|
    ensures i <= p <= |disks|
    ensures forall j :: i <= j < p ==> Ready(disks[j])
    ensures p < |disks| ==> !Ready(disks[p])
    decreases |disks| - i
  {
    if i == |disks| || !Ready(disks[i]) then i else FirstNotReady(disks, i + 1)
  }

  function FirstFailed(disks: seq<DiskInfo>, i: nat): (f: nat)
    requires i <= |disks|
    ensures i <= f <= |disks|
    ensures forall j :: i <= j < f ==> !Failed(disks[j])
    ensures f < |disks| ==> Failed(disks[f])
    decreases |disks| - i
  {
    if i == |disks| || Failed(disks[i]) then i else FirstFailed(disks, i + 1)
  }

  /** The verdict in terms of the first not-ready and the first failed disk. */
  function Verdict(disks: seq<DiskInfo>): Option<Phase> {
    var p, f := FirstNotReady(disks, 0), FirstFailed(disks, 0);
    if p != f then None else if p == |disks| then Some(DiskImagesReady) else Some(DiskImagesFailed)
  }

  /** The counting loop. The counters stop being per-disk counts at the first not-ready or failed disk. */
  method EvaluateDiskImportStatus(disks: seq<DiskInfo>) returns (r: Option<Phase>)
    ensures r == Verdict(disks)
  {
    var ok, failed := true, false;
    var failedCount, passedCount := 0, 0;
    var p, f := FirstNotReady(disks, 0), FirstFailed(disks, 0);
    for i := 0 to |disks|
      invariant ok == (i <= p) && failed == (f < i)
      invariant passedCount == if i <= p then i else p
      invariant failedCount == if f < i then i - f else 0
    {
      var ready := ConditionExists(disks[i].conds, ImageReady, ConditionTrue);
      ok := ready && ok;
      if ok {
        passedCount := passedCount + 1;
      }
      var bad := ConditionExists(disks[i].conds, ImageFailed, ConditionTrue);
      failed := bad || failed;
      if failed {
        failedCount := failedCount + 1;
      }
    }
    if |disks| != failedCount + passedCount {
      return None;
    }
    if ok {
      return Some(DiskImagesReady);
    }
    if failed {
      return Some(DiskImagesFailed);
    }
    return None;
  }

  /** Ready is answered exactly when every disk is ready and none failed. */
  lemma ReadyVerdictExact(disks: seq<DiskInfo>)
    ensures Verdict(disks) == Some(DiskImagesReady) <==> AllReady(disks) && NoneFailed(disks)
  {
    var p, f := FirstNotReady(disks, 0), FirstFailed(disks, 0);
    if p == f == |disks| {
      assert AllReady(disks) && NoneFailed(disks);
    }
  }

  /** Failed is answered exactly when the disks before some disk are ready and not failed and it is failed
      and not ready; what comes after it is never looked at. */
  lemma FailedVerdictExact(disks: seq<DiskInfo>)
    ensures Verdict(disks) == Some(DiskImagesFailed) <==>
            exists k :: 0 <= k < |disks| && AllReady(disks[..k]) && NoneFailed(disks[..k])
                        && Failed(disks[k]) && !Ready(disks[k])
  {
    var p, f := FirstNotReady(disks, 0), FirstFailed(disks, 0);
    if p == f < |disks| {
      assert AllReady(disks[..p]) && NoneFailed(disks[..p]) && Failed(disks[p]) && !Ready(disks[p]);
    }
    if k :| 0 <= k < |disks| && AllReady(disks[..k]) && NoneFailed(disks[..k]) && Failed(disks[k]) && !Ready(disks[k]) {
      assert forall j :: 0 <= j < k ==> Ready(disks[j]) && !Failed(disks[j]) by {
        forall j | 0 <= j < k ensures Ready(disks[j]) && !Failed(disks[j]) {
          assert disks[..k][j] == disks[j];
        }
      }
      assert p == k && f == k;
    }
  }

  /** When every disk is either ready or failed, the verdict is always given and says whether one failed. */
  lemma VerdictDecided(disks: seq<DiskInfo>)
    requires forall i :: 0 <= i < |disks| ==> Ready(disks[i]) != Failed(disks[i])
    ensures Verdict(disks) == Some(if NoneFailed(disks) then DiskImagesReady else DiskImagesFailed)
  {
    var p, f := FirstNotReady(disks, 0), FirstFailed(disks, 0);
    if f < |disks| {
      assert !NoneFailed(disks);
    }
  }

  /** A failed first disk is enough for the failed verdict: the disks after it are not waited for. */
  lemma FailedDoesNotWait(failed: DiskInfo, pending: DiskInfo)
    requires Failed(failed) && !Ready(failed) && !Ready(pending) && !Failed(pending)
    ensures Verdict([failed, pending]) == Some(DiskImagesFailed)
    ensures Verdict([pending, failed]) == None
  {
    assert FirstNotReady([failed, pending], 0) == 0 && FirstFailed([failed, pending], 0) == 0;
    var late := [pending, failed];
    assert !Failed(late[0]) && Failed(late[1]);
    assert FirstNotReady(late, 0) == 0 && FirstFailed(late, 0) == 1;
  }
}
