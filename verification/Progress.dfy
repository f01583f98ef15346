/** How often the phase can change, and where an import gets stuck. */
module Progress {
  import opened Wrappers
  import opened Conditions
  import opened ImportTypes
  import opened DiskVerdict
  import opened DiskImages
  import opened PowerAndExport
  import opened PassHistory
  import opened Reconciler
  import opened ImportMachine
  import opened ImportInvariants
  import opened ImportSystem
  import opened ImageStore
  import opened RunSafety

  /** A submitted disk that is not ready and whose image is gone: no later pass makes a new image for it. */
  predicate DeadDisk(d: DiskInfo, gone: set<string>) {
    Submitted(d) && !Ready(d) && d.image in gone
  }

  predicate Dead(disks: seq<DiskInfo>, gone: set<string>) {
    exists i :: 0 <= i < |disks| && DeadDisk(disks[i], gone)
  }

  lemma DeadGrows(disks: seq<DiskInfo>, gone: set<string>, more: set<string>)
    requires Dead(disks, gone) && gone <= more
    ensures Dead(disks, more)
  {
    var i :| 0 <= i < |disks| && DeadDisk(disks[i], gone);
    assert DeadDisk(disks[i], more);
  }

  /** The images the controller has deleted, whether or not they linger. */
  function Deleted(h: seq<Event>): set<string> {
    set e | e in h && e.ImageDeleted? :: e.name
  }

  lemma DeletedMeans(h: seq<Event>, n: string)
    ensures n in Deleted(h) <==> ImageDeleted(n) in h
  {
    if ImageDeleted(n) in h {
      assert ImageDeleted(n).name in Deleted(h);
    }
  }

  lemma DeletedGrows(h: seq<Event>, longer: seq<Event>)
    requires h <= longer
    ensures Deleted(h) <= Deleted(longer)
  {
    forall n | n in Deleted(h) ensures n in Deleted(longer) {
      DeletedMeans(h, n);
      var k :| 0 <= k < |h| && h[k] == ImageDeleted(n);
      assert longer[k] == ImageDeleted(n);
      DeletedMeans(longer, n);
    }
  }

  /** A look at the disk's image finds nothing. */
  predicate NotFound(d: DiskInfo, out: Outside, da: DiskAnswers) {
    !da.getOk || d.image !in out.images
  }

  /** No look of a watch pass finds an image that is gone. */
  predicate Misses(disks: seq<DiskInfo>, gone: set<string>, out: Outside, a: Answers) {
    forall i :: 0 <= i < |disks| && disks[i].image in gone ==> NotFound(disks[i], out, a.disk(i))
  }

  /** A disk that is not ready and whose image is not found makes the watch pass fail. */
  lemma {:induction false} MissBlocksWatch(st: Status, out: Outside, a: Answers, i: nat, j: nat)
    requires i <= j < |st.disks| && !Ready(st.disks[j]) && NotFound(st.disks[j], out, a.disk(j))
    ensures RefreshFrom(st, out, a, i).err != NoError
    decreases |st.disks| - i
  {
    var x := st.disks[i];
    if Ready(x) {
      MissBlocksWatch(st, out, a, i + 1, j);
    } else if a.disk(i).getOk && x.image in out.images {
      var (d, saw) := ReadImage(x, out, out.images[x.image].conds, a.disk(i));
      ReadAppends(x, out, out.images[x.image].conds, a.disk(i));
      MissBlocksWatch(st.(disks := st.disks[i := d]), saw, a, i + 1, j);
    }
  }

  // ---------------------------------------------------------------- the rank

  /** The most phase changes still to come. */
  function Rank(p: Phase, dead: bool): nat {
    match p
    case Unset => 8
    case ImportValid => 7
    case SourceReady => if dead then 2 else 6
    case DisksExported => if dead then 1 else 5
    case DiskImagesSubmitted => if dead then 0 else 4
    case DiskImagesFailed => 3
    case DiskImagesReady => 2
    case VirtualMachineCreated => 1
    case VirtualMachineRunning => 0
    case ImportInvalid => 0
    case MigrationFailed => 0
  }

  /** The most times DiskImagesFailed can still lead back to SourceReady. */
  function BackRank(p: Phase, dead: bool): nat {
    match p
    case Unset => 1
    case ImportValid => 1
    case SourceReady => if dead then 0 else 1
    case DisksExported => if dead then 0 else 1
    case DiskImagesSubmitted => if dead then 0 else 1
    case DiskImagesFailed => 1
    case DiskImagesReady => 0
    case VirtualMachineCreated => 0
    case VirtualMachineRunning => 0
    case ImportInvalid => 0
    case MigrationFailed => 0
  }

  function Changes(log: seq<Status>): nat {
    if |log| < 2 then 0
    else Changes(log[..|log| - 1]) + if log[|log| - 1].phase != log[|log| - 2].phase then 1 else 0
  }

  function Backs(log: seq<Status>): nat {
    if |log| < 2 then 0
    else Backs(log[..|log| - 1])
         + if log[|log| - 2].phase == DiskImagesFailed && log[|log| - 1].phase == SourceReady then 1 else 0
  }

  /** Deletes remove their image at once. */
  ghost predicate PromptDeletes(a: Answers) {
    forall i: nat :: !a.disk(i).lingers
  }

  /** An error-free clean-up has deleted the image of every failed disk. */
  lemma {:induction false} CleanDeletes(st: Status, out: Outside, a: Answers, i: nat, j: nat)
    requires i <= j < |st.disks| && Failed(st.disks[j])
    ensures var r := CleanFrom(st, out, a, i); r.err == NoError ==> ImageDeleted(st.disks[j].image) in r.out.history
    decreases |st.disks| - i
  {
    if !Failed(st.disks[i]) {
      CleanDeletes(st, out, a, i + 1, j);
    } else {
      var (deleted, ok) := DeleteImage(out, st.disks[i].image, a.disk(i));
      if ok {
        var d := st.disks[i].(conds := Drop(st.disks[i].conds, ImageFailed, ConditionTrue));
        var next := st.(disks := st.disks[i := d]);
        if i < j {
          CleanDeletes(next, deleted, a, i + 1, j);
        } else {
          assert deleted.history[|deleted.history| - 1] == ImageDeleted(st.disks[j].image);
          CleanAppends(next, deleted, a, i + 1);
        }
      }
    }
  }

  /** After a resubmission the failed disk is dead: the mark is gone, the image too, the submission is not. */
  lemma ResubmitKills(cfg: Config, st: Status, out: Outside, a: Answers)
    requires Inv(cfg, st) && st.phase == DiskImagesFailed
    ensures var oc := Handle(cfg, st, out, a);
            oc.write.Some? ==> Dead(oc.write.value.disks, Deleted(oc.out.history))
  {
    var r := CleanFrom(st, out, a, 0);
    if r.err == NoError {
      var j :| 0 <= j < |st.disks| && Failed(st.disks[j]) && !Ready(st.disks[j]);
      CleanKills(st, out, a, j);
    }
  }

  lemma CleanKills(st: Status, out: Outside, a: Answers, j: nat)
    requires j < |st.disks| && Failed(st.disks[j]) && Submitted(st.disks[j]) && !Ready(st.disks[j])
    ensures var r := CleanFrom(st, out, a, 0); r.err == NoError ==> Dead(r.st.disks, Deleted(r.out.history))
  {
    var r := CleanFrom(st, out, a, 0);
    if r.err == NoError {
      CleanDeletes(st, out, a, 0, j);
      DeletedMeans(r.out.history, st.disks[j].image);
      CleanStays(st, out, a, 0);
      assert CleansDisk(st.disks[j], r.st.disks[j]);
      assert DeadDisk(r.st.disks[j], Deleted(r.out.history));
    }
  }

  lemma SubmitKeepsDead(xs: seq<DiskInfo>, ys: seq<DiskInfo>, gone: set<string>)
    requires SubmitsDisks(xs, ys) && Dead(xs, gone)
    ensures Dead(ys, gone)
  {
    var i :| 0 <= i < |xs| && DeadDisk(xs[i], gone);
    assert SubmitsDisk(xs[i], ys[i]);
    assert DeadDisk(ys[i], gone);
  }

  lemma ExportKeepsDead(cfg: Config, a: Status, b: Status, gone: set<string>)
    requires Inv(cfg, a) && a.phase == SourceReady && Next(cfg, a, b) && Dead(a.disks, gone)
    ensures Dead(b.disks, gone)
  {
    if Exports(a, b) {
      var m :| Moves(a, b.(phase := a.phase), m);
      assert b.disks == a.disks;
    }
  }

  predicate Underway(p: Phase) {
    p == SourceReady || p == DisksExported || p == DiskImagesSubmitted
  }

  /** From a dead status whose image is not found again, a write that does not end the import leaves it dead. */
  lemma WriteKeepsDead(cfg: Config, st: Status, out: Outside, a: Answers, gone: set<string>)
    requires Inv(cfg, st) && Dead(st.disks, gone) && Underway(st.phase)
    requires st.phase == DiskImagesSubmitted ==> Misses(st.disks, gone, out, a)
    ensures var w := Handle(cfg, st, out, a).write; w.Some? ==> Dead(w.value.disks, gone)
    ensures st.phase == DiskImagesSubmitted ==> Handle(cfg, st, out, a).write == None
  {
    if st.phase == DiskImagesSubmitted {
      var j :| 0 <= j < |st.disks| && DeadDisk(st.disks[j], gone);
      MissBlocksWatch(st, out, a, 0, j);
    } else {
      var w := Handle(cfg, st, out, a).write;
      HandleRefinesMachine(cfg, st, out, a);
      if w.Some? {
        if st.phase == SourceReady {
          ExportKeepsDead(cfg, st, w.value, gone);
        } else {
          SubmitKeepsDead(st.disks, w.value.disks, gone);
        }
      }
    }
  }

  /** A change of phase, with a dead disk before and after or not, is paid for by both ranks. */
  predicate Pays(p: Phase, before: bool, q: Phase, after: bool) {
    && Rank(q, after) + (if q != p then 1 else 0) <= Rank(p, before)
    && BackRank(q, after) + (if p == DiskImagesFailed && q == SourceReady then 1 else 0) <= BackRank(p, before)
  }

  lemma EdgePays(p: Phase, before: bool, q: Phase, after: bool)
    requires Edge(p, q)
    requires p == DiskImagesFailed ==> after
    requires Underway(p) && before ==> after && p != DiskImagesSubmitted
    ensures Pays(p, before, q, after)
  {
  }

  /** Each write pays for the phase change, and for the backward edge, that it makes. */
  lemma WritePays(cfg: Config, st: Status, out: Outside, a: Answers)
    requires Inv(cfg, st)
    requires st.phase == DiskImagesSubmitted ==> Misses(st.disks, Deleted(out.history), out, a)
    ensures var oc := Handle(cfg, st, out, a);
            oc.write.Some? ==>
              Pays(st.phase, Dead(st.disks, Deleted(out.history)), oc.write.value.phase,
                   Dead(oc.write.value.disks, Deleted(oc.out.history)))
  {
    var oc := Handle(cfg, st, out, a);
    if oc.write.Some? {
      HandleRefinesMachine(cfg, st, out, a);
      NextFollowsGraph(cfg, st, oc.write.value);
      if st.phase == DiskImagesFailed {
        ResubmitKills(cfg, st, out, a);
      } else if Underway(st.phase) && Dead(st.disks, Deleted(out.history)) {
        DeadWrite(cfg, st, out, a);
      }
      EdgePays(st.phase, Dead(st.disks, Deleted(out.history)), oc.write.value.phase,
               Dead(oc.write.value.disks, Deleted(oc.out.history)));
    }
  }

  lemma DeadWrite(cfg: Config, st: Status, out: Outside, a: Answers)
    requires Inv(cfg, st) && Underway(st.phase) && Dead(st.disks, Deleted(out.history))
    requires st.phase == DiskImagesSubmitted ==> Misses(st.disks, Deleted(out.history), out, a)
    ensures var oc := Handle(cfg, st, out, a);
            oc.write.Some? ==>
              st.phase != DiskImagesSubmitted && Dead(oc.write.value.disks, Deleted(oc.out.history))
  {
    var oc := Handle(cfg, st, out, a);
    WriteKeepsDead(cfg, st, out, a, Deleted(out.history));
    if oc.write.Some? {
      HandleGrowth(cfg, st, out, a);
      DeletedGrows(out.history, oc.out.history);
      DeadGrows(oc.write.value.disks, Deleted(out.history), Deleted(oc.out.history));
    }
  }

  // ---------------------------------------------------------------- over runs

  /** No later watch of the newest version finds an image the controller has deleted: it may linger for a while,
      and it may be reported as not found while it does. */
  predicate StepNeverFinds(w: World, s: Step) {
    s.Reconcile? && s.read < |w.log| && s.read == |w.log| - 1 && Current(w).phase == DiskImagesSubmitted ==>
      Misses(Current(w).disks, Deleted(w.out.history), w.out, s.a)
  }

  /** In this run, a deleted image is never found again. */
  ghost predicate NeverFoundAgain(cfg: Config, w: World, steps: seq<Step>) {
    steps == [] ||
    (var front := steps[..|steps| - 1];
     NeverFoundAgain(cfg, w, front) && StepNeverFinds(Run(cfg, w, front), steps[|steps| - 1]))
  }

  predicate IsDead(w: World)
    requires w.log != []
  {
    Dead(Current(w).disks, Deleted(w.out.history))
  }

  predicate Paid(w: World) {
    && w.log != []
    && Changes(w.log) + Rank(Current(w).phase, IsDead(w)) <= 8
    && Backs(w.log) + BackRank(Current(w).phase, IsDead(w)) <= 1
  }

  lemma PaidSettle(w: World, read: nat, accepted: bool, oc: Outcome)
    requires Paid(w) && w.out.history <= oc.out.history
    requires read == |w.log| - 1 && oc.write.Some? ==>
               Pays(Current(w).phase, IsDead(w), oc.write.value.phase,
                    Dead(oc.write.value.disks, Deleted(oc.out.history)))
    ensures Paid(Settle(w, read, accepted, oc))
  {
    var after := Settle(w, read, accepted, oc);
    if after.log != w.log {
      assert after.log[..|after.log| - 1] == w.log;
    } else if IsDead(w) {
      DeletedGrows(w.out.history, oc.out.history);
      DeadGrows(Current(w).disks, Deleted(w.out.history), Deleted(oc.out.history));
    }
  }

  lemma PaidStep(cfg: Config, w: World, s: Step)
    requires Paid(w) && Inv(cfg, Current(w)) && StepNeverFinds(w, s)
    ensures Paid(Apply(cfg, w, s))
  {
    if s.Reconcile? && s.read < |w.log| {
      HandleGrowth(cfg, w.log[s.read], w.out, s.a);
      if s.read == |w.log| - 1 {
        WritePays(cfg, Current(w), w.out, s.a);
      }
      PaidSettle(w, s.read, s.accepted, Handle(cfg, w.log[s.read], w.out, s.a));
    }
  }

  lemma {:induction false} RunPays(cfg: Config, w: World, steps: seq<Step>)
    requires Start(w) && NeverFoundAgain(cfg, w, steps)
    ensures Paid(Run(cfg, w, steps))
    decreases |steps|
  {
    if steps != [] {
      var front, last := steps[..|steps| - 1], steps[|steps| - 1];
      RunPays(cfg, w, front);
      EveryVersionInv(cfg, w, front);
      PaidStep(cfg, Run(cfg, w, front), last);
    }
  }

  /** A run in which deleted images are never found again changes the phase at most eight times and goes back at
      most once. */
  lemma BoundedPhaseChanges(cfg: Config, w: World, steps: seq<Step>)
    requires Start(w) && NeverFoundAgain(cfg, w, steps)
    ensures Changes(Run(cfg, w, steps).log) <= 8 && Backs(Run(cfg, w, steps).log) <= 1
  {
    RunPays(cfg, w, steps);
  }

  lemma RunFollowsGraph(cfg: Config, w: World, steps: seq<Step>, i: nat)
    requires Start(w) && 0 < i < |Run(cfg, w, steps).log|
    ensures var log := Run(cfg, w, steps).log; Edge(log[i - 1].phase, log[i].phase)
  {
    RunRefinesMachine(cfg, w, steps);
    EveryVersionInv(cfg, w, steps);
    var log := Run(cfg, w, steps).log;
    assert Next(cfg, log[i - 1], log[i]);
    NextFollowsGraph(cfg, log[i - 1], log[i]);
  }

  // ---------------------------------------------------------------- prompt deletes

  ghost predicate Prompt(steps: seq<Step>) {
    forall i :: 0 <= i < |steps| && steps[i].Reconcile? ==> PromptDeletes(steps[i].a)
  }

  /** No deleted image is in the store, and none can come back. */
  predicate DeletedGone(out: Outside) {
    Deleted(out.history) <= out.used - out.images.Keys
  }

  lemma {:induction false} CleanGone(st: Status, out: Outside, a: Answers, i: nat)
    requires DeletedGone(out) && NamesUsed(out) && PromptDeletes(a)
    ensures DeletedGone(CleanFrom(st, out, a, i).out)
    decreases |st.disks| - i
  {
    if i < |st.disks| {
      if !Failed(st.disks[i]) {
        CleanGone(st, out, a, i + 1);
      } else {
        var (deleted, ok) := DeleteImage(out, st.disks[i].image, a.disk(i));
        DeleteGone(out, st.disks[i].image, a.disk(i));
        if ok {
          var d := st.disks[i].(conds := Drop(st.disks[i].conds, ImageFailed, ConditionTrue));
          CleanGone(st.(disks := st.disks[i := d]), deleted, a, i + 1);
        }
      }
    }
  }

  lemma DeleteGone(out: Outside, name: string, da: DiskAnswers)
    requires DeletedGone(out) && NamesUsed(out) && !da.lingers
    ensures var deleted := DeleteImage(out, name, da).0; DeletedGone(deleted) && NamesUsed(deleted)
  {
    var deleted := DeleteImage(out, name, da).0;
    forall n | n in Deleted(deleted.history) ensures n in deleted.used - deleted.images.Keys {
      DeletedMeans(deleted.history, n);
      DeletedMeans(out.history, n);
    }
  }

  /** A pass that deletes nothing brings no deleted image back. */
  lemma EvolveGone(out: Outside, after: Outside)
    requires DeletedGone(out) && Evolves(out, after) && Deleted(after.history) == Deleted(out.history)
    ensures DeletedGone(after)
  {
  }

  predicate NoDeletes(h: seq<Event>, longer: seq<Event>) {
    h <= longer && forall k :: |h| <= k < |longer| ==> !longer[k].ImageDeleted?
  }

  lemma NoDeletesSame(h: seq<Event>, longer: seq<Event>)
    requires NoDeletes(h, longer)
    ensures Deleted(longer) == Deleted(h)
  {
    DeletedGrows(h, longer);
    forall n | n in Deleted(longer) ensures n in Deleted(h) {
      DeletedMeans(longer, n);
      var k :| 0 <= k < |longer| && longer[k] == ImageDeleted(n);
      assert h[k] == ImageDeleted(n);
      DeletedMeans(h, n);
    }
  }

  lemma PassNoDeletes(h: seq<Event>, longer: seq<Event>, k: Kind)
    requires Appends(h, longer, k) && k != Deletes
    ensures NoDeletes(h, longer)
  {
    forall i | |h| <= i < |longer| ensures !longer[i].ImageDeleted? {
      assert OfKind(longer[i], k);
    }
  }

  lemma MakeVmNoDeletes(st: Status, out: Outside, a: Answers)
    ensures NoDeletes(out.history, MakeVm(st, out, a).out.history)
  {
    PvcAppends(st.disks, out, a, 0);
    PassNoDeletes(out.history, PvcFrom(st.disks, out, a, 0).0.history, VolumeMakes);
    CreateVmAppends(st, out, a);
  }

  lemma HandleNoDeletes(cfg: Config, st: Status, out: Outside, a: Answers)
    requires st.phase != DiskImagesFailed
    ensures NoDeletes(out.history, Handle(cfg, st, out, a).out.history)
  {
    var h := Handle(cfg, st, out, a).out.history;
    match st.phase
    case SourceReady =>
      ExportAppends(st, out, a);
      PassNoDeletes(out.history, h, PowerCalls);
    case DisksExported =>
      SubmitAppends(cfg, st, out, a, 0);
      PassNoDeletes(out.history, SubmitFrom(cfg, st, out, a, 0).out.history, ImageMakes);
    case DiskImagesSubmitted =>
      RefreshAppends(st, out, a, 0);
      PassNoDeletes(out.history, h, Looks);
    case DiskImagesReady => MakeVmNoDeletes(st, out, a);
    case VirtualMachineRunning => TidyTouchesImages(cfg, st.disks, out, a, 0);
    case _ =>
  }

  lemma HandleGone(cfg: Config, st: Status, out: Outside, a: Answers)
    requires DeletedGone(out) && NamesUsed(out) && PromptDeletes(a)
    ensures DeletedGone(Handle(cfg, st, out, a).out)
  {
    if st.phase == DiskImagesFailed {
      CleanGone(st, out, a, 0);
    } else {
      HandleNoDeletes(cfg, st, out, a);
      NoDeletesSame(out.history, Handle(cfg, st, out, a).out.history);
      HandleEvolves(cfg, st, out, a);
      EvolveGone(out, Handle(cfg, st, out, a).out);
    }
  }

  lemma {:induction false} RunGone(cfg: Config, w: World, steps: seq<Step>)
    requires Start(w) && Prompt(steps)
    ensures DeletedGone(Run(cfg, w, steps).out)
    decreases |steps|
  {
    if steps != [] {
      var before, s := Run(cfg, w, steps[..|steps| - 1]), steps[|steps| - 1];
      RunGone(cfg, w, steps[..|steps| - 1]);
      RunNamesUsed(cfg, w, steps[..|steps| - 1]);
      if s.Reconcile? && s.read < |before.log| {
        HandleGone(cfg, before.log[s.read], before.out, s.a);
      }
    }
  }

  /** Where deletes take effect at once, deleted images are never found again, so the bound applies. */
  lemma {:induction false} PromptNeverFinds(cfg: Config, w: World, steps: seq<Step>)
    requires Start(w) && Prompt(steps)
    ensures NeverFoundAgain(cfg, w, steps)
    decreases |steps|
  {
    if steps != [] {
      PromptNeverFinds(cfg, w, steps[..|steps| - 1]);
      RunGone(cfg, w, steps[..|steps| - 1]);
    }
  }
}
