/** When an import can still get on: conditions on the images that are there, exact in both directions. */
module GettingThrough {
  import opened Wrappers
  import opened Conditions
  import opened Creation
  import opened ImportTypes
  import opened DiskVerdict
  import opened DiskImages
  import opened PassHistory
  import opened PowerAndExport
  import opened Reconciler
  import opened ImportMachine
  import opened ImportInvariants
  import opened ImportSystem
  import opened ImageStore
  import opened Progress
  import opened Resubmission

  /** Every call works and the source is off at once; a deleted image lingers or not. */
  function Answering(name: string, lingers: bool): Answers {
    Answers(
      PowerSpec(false, false, 0), PreflightOk, ClientOk, true, name, 0, true, Some(true), 0, 0,
      [ExportedDisk("disk", 1, "", "")], true, 0, 0,
      i => DiskAnswers(Fresh, true, "image", false, CallAnswer(true, true), true, CallAnswer(true, true), lingers,
                       true, CallAnswer(true, true), CallAnswer(true, true), 0, 0),
      true, true, CallAnswer(true, true), Some(true))
  }

  predicate ImagesMade(disks: seq<DiskInfo>, out: Outside) {
    forall i :: 0 <= i < |disks| ==> disks[i].image in out.used
  }

  lemma RunOneMore(cfg: Config, w: World, steps: seq<Step>, s: Step)
    ensures Run(cfg, w, steps + [s]) == Apply(cfg, Run(cfg, w, steps), s)
  {
    assert (steps + [s])[..|steps|] == steps;
  }

  // ---------------------------------------------------------------- the clean-up

  predicate FailedImagesThere(disks: seq<DiskInfo>, out: Outside) {
    forall j :: 0 <= j < |disks| && Failed(disks[j]) ==> disks[j].image in out.images
  }

  predicate FailedImagesDiffer(disks: seq<DiskInfo>) {
    forall j, k :: 0 <= j < k < |disks| && Failed(disks[j]) && Failed(disks[k]) ==> disks[j].image != disks[k].image
  }

  lemma {:induction false} LingeringCleanWorks(st: Status, out: Outside, name: string, i: nat)
    requires FailedImagesThere(st.disks, out)
    ensures CleanFrom(st, out, Answering(name, true), i).err == NoError
    decreases |st.disks| - i
  {
    if i < |st.disks| {
      if !Failed(st.disks[i]) {
        LingeringCleanWorks(st, out, name, i + 1);
      } else {
        var (deleted, _) := DeleteImage(out, st.disks[i].image, Answering(name, true).disk(i));
        var d := st.disks[i].(conds := Drop(st.disks[i].conds, ImageFailed, ConditionTrue));
        LingeringCleanWorks(st.(disks := st.disks[i := d]), deleted, name, i + 1);
      }
    }
  }

  /** A clean-up pass can succeed exactly when the image of every failed disk is still there. */
  lemma CleanCanSucceed(st: Status, out: Outside)
    ensures (exists a: Answers :: CleanFrom(st, out, a, 0).err == NoError) <==> FailedImagesThere(st.disks, out)
  {
    if FailedImagesThere(st.disks, out) {
      LingeringCleanWorks(st, out, "", 0);
    }
    if a: Answers :| CleanFrom(st, out, a, 0).err == NoError {
      forall j | 0 <= j < |st.disks| && Failed(st.disks[j]) ensures st.disks[j].image in out.images {
        if st.disks[j].image !in out.images {
          OrphanBlocksClean(st, out, a, 0, j);
        }
      }
    }
  }

  /** Some continuation changes the status. */
  ghost predicate MovesOn(cfg: Config, w: World) {
    exists more: seq<Step> :: Run(cfg, w, more).log != w.log
  }

  lemma CleanedMovesOn(cfg: Config, w: World)
    requires w.log != [] && Current(w).phase == DiskImagesFailed && FailedImagesThere(Current(w).disks, w.out)
    ensures MovesOn(cfg, w)
  {
    LingeringCleanWorks(Current(w), w.out, "", 0);
    var s := Reconcile(|w.log| - 1, Answering("", true), true);
    RunOneMore(cfg, w, [], s);
    assert |Run(cfg, w, [] + [s]).log| == |w.log| + 1;
  }

  /** So an import in DiskImagesFailed can ever move on exactly when the image of every failed disk is there. */
  lemma MovesOnIffImagesThere(cfg: Config, w: World)
    requires w.log != [] && NamesUsed(w.out)
    requires Current(w).phase == DiskImagesFailed && ImagesMade(Current(w).disks, w.out)
    ensures MovesOn(cfg, w) <==> FailedImagesThere(Current(w).disks, w.out)
  {
    if FailedImagesThere(Current(w).disks, w.out) {
      CleanedMovesOn(cfg, w);
    } else {
      forall more: seq<Step> ensures Run(cfg, w, more).log == w.log {
        LostDeleteWedges(cfg, w, more);
      }
    }
  }

  /** The failed disks from i on have images that are there and differ. */
  predicate Cleanable(disks: seq<DiskInfo>, images: set<string>, i: nat) {
    && (forall j :: i <= j < |disks| && Failed(disks[j]) ==> disks[j].image in images)
    && (forall j, k :: i <= j < k < |disks| && Failed(disks[j]) && Failed(disks[k]) ==>
                         disks[j].image != disks[k].image)
  }

  lemma {:induction false} PromptCleanWorks(st: Status, out: Outside, name: string, i: nat)
    requires Cleanable(st.disks, out.images.Keys, i)
    ensures CleanFrom(st, out, Answering(name, false), i).err == NoError
    decreases |st.disks| - i
  {
    if i < |st.disks| {
      if !Failed(st.disks[i]) {
        PromptCleanWorks(st, out, name, i + 1);
      } else {
        var (deleted, _) := DeleteImage(out, st.disks[i].image, Answering(name, false).disk(i));
        var d := st.disks[i].(conds := Drop(st.disks[i].conds, ImageFailed, ConditionTrue));
        PromptCleanWorks(st.(disks := st.disks[i := d]), deleted, name, i + 1);
      }
    }
  }

  lemma {:induction false} PromptCleanNeeds(st: Status, out: Outside, a: Answers, i: nat)
    requires PromptDeletes(a) && CleanFrom(st, out, a, i).err == NoError
    ensures Cleanable(st.disks, out.images.Keys, i)
    decreases |st.disks| - i
  {
    if i < |st.disks| {
      if !Failed(st.disks[i]) {
        PromptCleanNeeds(st, out, a, i + 1);
      } else {
        var (deleted, _) := DeleteImage(out, st.disks[i].image, a.disk(i));
        var d := st.disks[i].(conds := Drop(st.disks[i].conds, ImageFailed, ConditionTrue));
        var next := st.(disks := st.disks[i := d]);
        PromptCleanNeeds(next, deleted, a, i + 1);
        assert forall j :: i < j < |st.disks| ==> next.disks[j] == st.disks[j];
      }
    }
  }

  /** With prompt deletes it can exactly when, besides, no two failed disks share an image. */
  lemma PromptCleanCanSucceed(st: Status, out: Outside)
    ensures (exists a: Answers :: PromptDeletes(a) && CleanFrom(st, out, a, 0).err == NoError) <==>
            FailedImagesThere(st.disks, out) && FailedImagesDiffer(st.disks)
  {
    if FailedImagesThere(st.disks, out) && FailedImagesDiffer(st.disks) {
      PromptCleanWorks(st, out, "", 0);
      assert PromptDeletes(Answering("", false));
    }
    if a: Answers :| PromptDeletes(a) && CleanFrom(st, out, a, 0).err == NoError {
      PromptCleanNeeds(st, out, a, 0);
    }
  }

  // ---------------------------------------------------------------- the watch

  const IMPORTED := [ImageCond(true, ConditionTrue, "")]

  /** The disk is ready, or its image is there. */
  predicate Supplied(d: DiskInfo, out: Outside) {
    Ready(d) || d.image in out.images
  }

  predicate AllSupplied(disks: seq<DiskInfo>, out: Outside) {
    forall i :: 0 <= i < |disks| ==> Supplied(disks[i], out)
  }

  /** Every image that the disks from lo to hi wait for is imported. */
  predicate AllImported(disks: seq<DiskInfo>, out: Outside, lo: nat, hi: nat) {
    forall i :: lo <= i < hi && i < |disks| && !Ready(disks[i]) ==>
                  disks[i].image in out.images && out.images[disks[i].image].conds == IMPORTED
  }

  lemma ReadImported(d: DiskInfo, out: Outside, da: DiskAnswers)
    ensures var (y, saw) := ReadImage(d, out, IMPORTED, da);
            Ready(y) && (Failed(y) <==> Failed(d)) && saw.images == out.images
  {
    var (y, after) := MarkDisk(d, Log(out, SawImported(d.image)), ImageReady, da);
    MarkedDisk(d, Log(out, SawImported(d.image)), ImageReady, da);
    assert IMPORTED[1..] == [];
    assert ReadImage(y, after, [], da) == (y, after);
  }

  lemma {:induction false} WatchWorks(st: Status, out: Outside, name: string, i: nat)
    requires AllImported(st.disks, out, i, |st.disks|) && NoneFailed(st.disks)
    requires forall j :: 0 <= j < i && j < |st.disks| ==> Ready(st.disks[j])
    ensures var r := RefreshFrom(st, out, Answering(name, true), i);
            r.err == NoError && AllReady(r.st.disks) && NoneFailed(r.st.disks)
    decreases |st.disks| - i
  {
    if i < |st.disks| {
      var x, a := st.disks[i], Answering(name, true);
      if Ready(x) {
        WatchWorks(st, out, name, i + 1);
      } else {
        var (d, saw) := ReadImage(x, out, IMPORTED, a.disk(i));
        ReadImported(x, out, a.disk(i));
        WatchWorks(st.(disks := st.disks[i := d]), saw, name, i + 1);
      }
    }
  }

  /** The images the disks wait for are reported as imported, one after the other. */
  function Imports(disks: seq<DiskInfo>, n: nat): seq<Step>
    requires n <= |disks|
  {
    if n == 0 then []
    else Imports(disks, n - 1) + if Ready(disks[n - 1]) then [] else [ImageChanges(disks[n - 1].image, IMPORTED)]
  }

  lemma ImportOne(cfg: Config, w: World, disks: seq<DiskInfo>, n: nat)
    requires n < |disks| && !Ready(disks[n]) && AllSupplied(disks, w.out) && AllImported(disks, w.out, 0, n)
    ensures var r := Apply(cfg, w, ImageChanges(disks[n].image, IMPORTED));
            r.log == w.log && AllSupplied(disks, r.out) && AllImported(disks, r.out, 0, n + 1)
  {
    var r := Apply(cfg, w, ImageChanges(disks[n].image, IMPORTED));
    assert Supplied(disks[n], w.out);
    forall i | 0 <= i < |disks| ensures Supplied(disks[i], r.out) {
      assert Supplied(disks[i], w.out);
    }
  }

  lemma {:induction false} ImportsRun(cfg: Config, w: World, disks: seq<DiskInfo>, n: nat)
    requires n <= |disks| && AllSupplied(disks, w.out)
    ensures var r := Run(cfg, w, Imports(disks, n));
            r.log == w.log && AllSupplied(disks, r.out) && AllImported(disks, r.out, 0, n)
  {
    if n > 0 {
      var before := Imports(disks, n - 1);
      ImportsRun(cfg, w, disks, n - 1);
      if Ready(disks[n - 1]) {
        assert Imports(disks, n) == before;
      } else {
        RunOneMore(cfg, w, before, ImageChanges(disks[n - 1].image, IMPORTED));
        ImportOne(cfg, Run(cfg, w, before), disks, n - 1);
      }
    }
  }

  predicate ReachesReady(log: seq<Status>, from: nat) {
    exists k :: from <= k < |log| && log[k].phase == DiskImagesReady
  }

  /** Some continuation takes the import to DiskImagesReady. */
  ghost predicate GetsReady(cfg: Config, w: World) {
    exists more: seq<Step> :: ReachesReady(Run(cfg, w, more).log, |w.log|)
  }

  lemma ImportedGetsReady(cfg: Config, w: World)
    requires w.log != [] && Current(w).phase == DiskImagesSubmitted && NoneFailed(Current(w).disks)
    requires AllImported(Current(w).disks, w.out, 0, |Current(w).disks|)
    ensures ReachesReady(Apply(cfg, w, Reconcile(|w.log| - 1, Answering("", true), true)).log, |w.log|)
  {
    var st, a := Current(w), Answering("", true);
    WatchWorks(st, w.out, "", 0);
    var r := RefreshFrom(st, w.out, a, 0);
    ReadyVerdictExact(r.st.disks);
    var after := Apply(cfg, w, Reconcile(|w.log| - 1, a, true));
    assert after.log[|w.log|].phase == DiskImagesReady;
  }

  lemma SuppliedGetsReady(cfg: Config, w: World)
    requires w.log != [] && Current(w).phase == DiskImagesSubmitted && NoneFailed(Current(w).disks)
    requires AllSupplied(Current(w).disks, w.out)
    ensures GetsReady(cfg, w)
  {
    var disks := Current(w).disks;
    var imports := Imports(disks, |disks|);
    ImportsRun(cfg, w, disks, |disks|);
    var last := Reconcile(|w.log| - 1, Answering("", true), true);
    ImportedGetsReady(cfg, Run(cfg, w, imports));
    RunOneMore(cfg, w, imports, last);
    assert ReachesReady(Run(cfg, w, imports + [last]).log, |w.log|);
  }

  lemma DeadNeverReady(cfg: Config, w: World, i: nat)
    requires w.log != [] && Inv(cfg, Current(w)) && NamesUsed(w.out) && Underway(Current(w).phase)
    requires i < |Current(w).disks| && DeadDisk(Current(w).disks[i], Lost(w.out))
    ensures !GetsReady(cfg, w)
  {
    forall more: seq<Step> ensures !ReachesReady(Run(cfg, w, more).log, |w.log|) {
      StuckForever(cfg, w, more);
      BlockedNotReady(Run(cfg, w, more).log, |w.log|);
    }
  }

  lemma BlockedNotReady(log: seq<Status>, from: nat)
    requires from > 0 && AllBlocked(log, from - 1)
    ensures !ReachesReady(log, from)
  {
  }

  // ---------------------------------------------------------------- the way back to the watch

  lemma {:induction false} RunConcat(cfg: Config, w: World, x: seq<Step>, y: seq<Step>)
    ensures Run(cfg, Run(cfg, w, x), y) == Run(cfg, w, x + y)
    decreases |y|
  {
    if y == [] {
      assert x + y == x;
    } else {
      RunConcat(cfg, w, x, y[..|y| - 1]);
      assert (x + y)[..|x + y| - 1] == x + y[..|y| - 1];
    }
  }

  /** All disks are submitted: the import waits for images, or was sent back and comes round to them again. */
  predicate Waits(st: Status) {
    Underway(st.phase) && st.disks != [] && AllSubmitted(st.disks)
  }

  /** The status keeps its disks, and the store its images. */
  predicate SameDisks(w: World, after: World) {
    && w.log != [] && after.log != [] && w.log <= after.log
    && Current(after).disks == Current(w).disks && after.out.images == w.out.images
  }

  lemma ExportAnswers(st: Status, out: Outside)
    ensures ExportStep(st, out, Answering("", true)).err == NoError
  {
  }

  lemma ExportsAgain(cfg: Config, st: Status, out: Outside)
    requires Inv(cfg, st) && st.phase == SourceReady && st.disks != []
    ensures var oc := RunExport(st, out, Answering("", true));
            && oc.write.Some? && oc.write.value.phase == DisksExported && oc.write.value.disks == st.disks
            && oc.out.images == out.images
  {
    var a := Answering("", true);
    var m := StepMoves(st, out, a);
    ExportAnswers(st, out);
    ExportAppends(st, out, a);
  }

  lemma {:induction false} SubmitSkips(cfg: Config, st: Status, out: Outside, a: Answers, i: nat)
    requires AllSubmitted(st.disks)
    ensures SubmitFrom(cfg, st, out, a, i) == Ran(st, out, NoError)
    decreases |st.disks| - i
  {
    if i < |st.disks| {
      SubmitSkips(cfg, st, out, a, i + 1);
    }
  }

  lemma ExportedAgain(cfg: Config, w: World)
    requires w.log != [] && Inv(cfg, Current(w)) && Waits(Current(w)) && Current(w).phase == SourceReady
    ensures var r := Apply(cfg, w, Reconcile(|w.log| - 1, Answering("", true), true));
            SameDisks(w, r) && Current(r).phase == DisksExported
  {
    ExportsAgain(cfg, Current(w), w.out);
  }

  lemma SubmittedAgain(cfg: Config, w: World)
    requires w.log != [] && Waits(Current(w)) && Current(w).phase == DisksExported
    ensures var r := Apply(cfg, w, Reconcile(|w.log| - 1, Answering("", true), true));
            SameDisks(w, r) && Current(r).phase == DiskImagesSubmitted
  {
    SubmitSkips(cfg, Current(w), w.out, Answering("", true), 0);
  }

  /** From anywhere on the way some continuation comes to the watch, with the same disks and images. */
  lemma ComesToWatch(cfg: Config, w: World) returns (steps: seq<Step>)
    requires w.log != [] && Inv(cfg, Current(w)) && Waits(Current(w))
    ensures var r := Run(cfg, w, steps); SameDisks(w, r) && Current(r).phase == DiskImagesSubmitted
  {
    steps := [];
    if Current(w).phase == SourceReady {
      var s := Reconcile(|w.log| - 1, Answering("", true), true);
      ExportedAgain(cfg, w);
      RunOneMore(cfg, w, [], s);
      steps := [] + [s];
    }
    if Current(w).phase != DiskImagesSubmitted {
      var at := Run(cfg, w, steps);
      var s := Reconcile(|at.log| - 1, Answering("", true), true);
      SubmittedAgain(cfg, at);
      RunOneMore(cfg, w, steps, s);
      steps := steps + [s];
    }
  }

  lemma WaitingGetsReady(cfg: Config, w: World)
    requires w.log != [] && Inv(cfg, Current(w)) && Waits(Current(w)) && AllSupplied(Current(w).disks, w.out)
    ensures GetsReady(cfg, w)
  {
    var steps := ComesToWatch(cfg, w);
    var at := Run(cfg, w, steps);
    SuppliedStays(Current(w).disks, w.out, at.out);
    SuppliedGetsReady(cfg, at);
    var more: seq<Step> :| ReachesReady(Run(cfg, at, more).log, |at.log|);
    RunConcat(cfg, w, steps, more);
    assert ReachesReady(Run(cfg, w, steps + more).log, |w.log|);
  }

  lemma SuppliedStays(disks: seq<DiskInfo>, out: Outside, after: Outside)
    requires AllSupplied(disks, out) && after.images == out.images
    ensures AllSupplied(disks, after)
  {
    forall i | 0 <= i < |disks| ensures Supplied(disks[i], after) {
      assert Supplied(disks[i], out);
    }
  }

  lemma GetsReadyFrom(cfg: Config, w: World)
    requires w.log != [] && Inv(cfg, Current(w)) && NamesUsed(w.out)
    requires Waits(Current(w)) && ImagesMade(Current(w).disks, w.out)
    ensures GetsReady(cfg, w) <==> AllSupplied(Current(w).disks, w.out)
  {
    var disks := Current(w).disks;
    if AllSupplied(disks, w.out) {
      WaitingGetsReady(cfg, w);
    } else {
      var i :| 0 <= i < |disks| && !Supplied(disks[i], w.out);
      assert Submitted(disks[i]);
      DeadNeverReady(cfg, w, i);
    }
  }

  /** In every run: an import that waits for its images, or was sent back with all its disks submitted, can still
      get ready exactly when every disk that is not ready still has its image, provided its disks name images that
      were made. So a deleted image that lingers and is imported late does get an import through. */
  lemma GetsReadyIffSupplied(cfg: Config, w: World, steps: seq<Step>)
    requires Start(w) && Run(cfg, w, steps).log != [] && Waits(Current(Run(cfg, w, steps)))
    requires ImagesMade(Current(Run(cfg, w, steps)).disks, Run(cfg, w, steps).out)
    ensures var r := Run(cfg, w, steps); GetsReady(cfg, r) <==> AllSupplied(Current(r).disks, r.out)
  {
    EveryVersionInv(cfg, w, steps);
    RunNamesUsed(cfg, w, steps);
    GetsReadyFrom(cfg, Run(cfg, w, steps));
  }

  /** Every version in DiskImagesSubmitted waits so. */
  lemma SubmittedWaits(cfg: Config, w: World, steps: seq<Step>, v: nat)
    requires Start(w) && v < |Run(cfg, w, steps).log| && Run(cfg, w, steps).log[v].phase == DiskImagesSubmitted
    ensures Waits(Run(cfg, w, steps).log[v])
  {
    EveryVersionInv(cfg, w, steps);
    assert Inv(cfg, Run(cfg, w, steps).log[v]);
  }

  lemma BookedImagesMade(cfg: Config, prior: Labels, st: Status, out: Outside)
    requires AllSubmitted(st.disks)
    requires NamesOnce(prior, out) && DisksMade(cfg, st.disks, prior, out.history)
    ensures ImagesMade(st.disks, out)
  {
    forall i | 0 <= i < |st.disks| ensures st.disks[i].image in out.used {
      assert Submitted(st.disks[i]);
      assert Known(prior, out.history, st.disks[i].image, ImageLabel(cfg, st.disks[i].name));
    }
  }

  /** With a cache that sees the controller's own writes they always do. */
  lemma SeenImagesMade(cfg: Config, w: World, steps: seq<Step>)
    requires Start(w) && LabelsDiffer(cfg, w.out) && StepsSee(cfg, w, steps)
    requires Run(cfg, w, steps).log != [] && Waits(Current(Run(cfg, w, steps)))
    ensures ImagesMade(Current(Run(cfg, w, steps)).disks, Run(cfg, w, steps).out)
  {
    RunIsBooked(cfg, w, steps);
    var r := Run(cfg, w, steps);
    BookedImagesMade(cfg, LabelsOf(w.out.images), r.log[|r.log| - 1], r.out);
  }
}
