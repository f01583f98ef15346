/** How a reconcile changes the stored images: names are never reused, conditions and labels never rewritten. */
module ImageStore {
  import opened Wrappers
  import opened Conditions
  import opened ImportTypes
  import opened DiskVerdict
  import opened DiskImages
  import opened PassHistory
  import opened Reconciler
  import opened ImportMachine
  import opened ImportInvariants
  import opened ImportSystem

  predicate NamesUsed(out: Outside) {
    out.images.Keys <= out.used
  }

  /** Surviving images keep label and conditions; new ones have a name never used before and no condition. */
  ghost predicate Evolves(before: Outside, after: Outside) {
    && before.used <= after.used && NamesUsed(after)
    && forall n :: n in after.images ==>
         if n in before.images then
           after.images[n].tag == before.images[n].tag && after.images[n].conds == before.images[n].conds
         else n !in before.used && after.images[n].conds == []
  }

  lemma EvolvesTrans(a: Outside, b: Outside, c: Outside)
    requires NamesUsed(a) && Evolves(a, b) && Evolves(b, c)
    ensures Evolves(a, c)
  {
  }

  lemma EvolvesSame(a: Outside, b: Outside)
    requires NamesUsed(a) && b.images == a.images && b.used == a.used
    ensures Evolves(a, b)
  {
  }

  lemma CreateEvolves(cfg: Config, d: DiskInfo, out: Outside, da: DiskAnswers)
    requires NamesUsed(out)
    ensures Evolves(out, CheckAndCreate(cfg, d, out, da).1)
  {
  }

  lemma {:induction false} SubmitEvolves(cfg: Config, st: Status, out: Outside, a: Answers, i: nat)
    requires NamesUsed(out)
    ensures Evolves(out, SubmitFrom(cfg, st, out, a, i).out)
    decreases |st.disks| - i
  {
    if i < |st.disks| {
      if Submitted(st.disks[i]) {
        SubmitEvolves(cfg, st, out, a, i + 1);
      } else {
        var (name, made) := CheckAndCreate(cfg, st.disks[i], out, a.disk(i));
        CreateEvolves(cfg, st.disks[i], out, a.disk(i));
        if name.Some? {
          var (d, marked) := MarkDisk(st.disks[i].(image := name.value), made, ImageSubmitted, a.disk(i));
          var next := st.(disks := st.disks[i := d]);
          SubmitEvolves(cfg, next, marked, a, i + 1);
          EvolvesSame(made, marked);
          EvolvesTrans(out, made, marked);
          EvolvesTrans(out, marked, SubmitFrom(cfg, next, marked, a, i + 1).out);
        }
      }
    }
  }

  lemma {:induction false} CleanEvolves(st: Status, out: Outside, a: Answers, i: nat)
    requires NamesUsed(out)
    ensures var r := CleanFrom(st, out, a, i); Evolves(out, r.out) && r.out.images.Keys <= out.images.Keys
    decreases |st.disks| - i
  {
    if i < |st.disks| {
      if !Failed(st.disks[i]) {
        CleanEvolves(st, out, a, i + 1);
      } else {
        var (deleted, ok) := DeleteImage(out, st.disks[i].image, a.disk(i));
        assert Evolves(out, deleted);
        if ok {
          var d := st.disks[i].(conds := Drop(st.disks[i].conds, ImageFailed, ConditionTrue));
          CleanEvolves(st.(disks := st.disks[i := d]), deleted, a, i + 1);
          EvolvesTrans(out, deleted, CleanFrom(st.(disks := st.disks[i := d]), deleted, a, i + 1).out);
        }
      }
    }
  }

  lemma {:induction false} TidyEvolves(cfg: Config, disks: seq<DiskInfo>, out: Outside, a: Answers, i: nat)
    requires NamesUsed(out)
    ensures var t := TidyFrom(cfg, disks, out, a, i).0; Evolves(out, t) && t.images.Keys == out.images.Keys
    decreases |disks| - i
  {
    if i < |disks| {
      var name, da := disks[i].image, a.disk(i);
      if da.getOk && name in out.images && da.update.applied {
        var kept := out.images[name].(owners := OtherOwners(out.images[name].owners, cfg.owner));
        var updated := out.(images := out.images[name := kept]);
        assert Evolves(out, updated);
        if da.update.reported {
          TidyEvolves(cfg, disks, updated, a, i + 1);
          EvolvesTrans(out, updated, TidyFrom(cfg, disks, updated, a, i + 1).0);
        }
      }
    }
  }

  lemma VmKeepsImages(st: Status, out: Outside, a: Answers)
    ensures MakeVm(st, out, a).out.images == out.images && MakeVm(st, out, a).out.used == out.used
  {
    PvcAppends(st.disks, out, a, 0);
  }

  lemma HandleEvolves(cfg: Config, st: Status, out: Outside, a: Answers)
    requires NamesUsed(out)
    ensures Evolves(out, Handle(cfg, st, out, a).out)
  {
    match st.phase
    case SourceReady => ExportAppends(st, out, a);
    case DisksExported => SubmitEvolves(cfg, st, out, a, 0);
    case DiskImagesSubmitted => RefreshAppends(st, out, a, 0);
    case DiskImagesFailed => CleanEvolves(st, out, a, 0);
    case DiskImagesReady => VmKeepsImages(st, out, a);
    case VirtualMachineRunning => TidyEvolves(cfg, st.disks, out, a, 0);
    case _ =>
  }

  /** In every run every stored image has a name the API server generated or started with. */
  lemma {:induction false} RunNamesUsed(cfg: Config, w: World, steps: seq<Step>)
    requires Start(w)
    ensures NamesUsed(Run(cfg, w, steps).out)
    decreases |steps|
  {
    if steps != [] {
      var before, s := Run(cfg, w, steps[..|steps| - 1]), steps[|steps| - 1];
      RunNamesUsed(cfg, w, steps[..|steps| - 1]);
      if s.Reconcile? && s.read < |before.log| {
        HandleEvolves(cfg, before.log[s.read], before.out, s.a);
      }
    }
  }

  // ---------------------------------------------------------------- one verdict per image

  /** An image carries at most one ImageImported condition. */
  ghost predicate OneVerdict(conds: seq<ImageCond>) {
    forall i, j :: 0 <= i < j < |conds| ==> !conds[i].isImported || !conds[j].isImported
  }

  ghost predicate AllOneVerdict(images: map<string, Image>) {
    forall n :: n in images ==> OneVerdict(images[n].conds)
  }

  /** No disk is both ready and failed. */
  ghost predicate Exclusive(disks: seq<DiskInfo>) {
    forall i :: 0 <= i < |disks| ==> !(Ready(disks[i]) && Failed(disks[i]))
  }

  lemma {:induction false} ReadNothing(d: DiskInfo, out: Outside, conds: seq<ImageCond>, da: DiskAnswers)
    requires forall i :: 0 <= i < |conds| ==> !conds[i].isImported
    ensures ReadImage(d, out, conds, da) == (d, out)
    decreases |conds|
  {
    if conds != [] {
      ReadNothing(d, out, conds[1..], da);
    }
  }

  lemma {:induction false} ReadExclusive(d: DiskInfo, out: Outside, conds: seq<ImageCond>, da: DiskAnswers)
    requires OneVerdict(conds) && !Ready(d) && !Failed(d)
    ensures var y := ReadImage(d, out, conds, da).0; !(Ready(y) && Failed(y))
    decreases |conds|
  {
    if conds != [] {
      if SaysImported(conds[0]) {
        MarkedDisk(d, Log(out, SawImported(d.image)), ImageReady, da);
        var (d1, out1) := MarkDisk(d, Log(out, SawImported(d.image)), ImageReady, da);
        ReadNothing(d1, out1, conds[1..], da);
      } else if SaysFailed(conds[0]) {
        MarkedDisk(d, Log(out, SawImportFailed(d.image)), ImageFailed, da);
        var (d1, out1) := MarkDisk(d, Log(out, SawImportFailed(d.image)), ImageFailed, da);
        ReadNothing(d1, out1, conds[1..], da);
      } else {
        ReadExclusive(d, out, conds[1..], da);
      }
    }
  }

  lemma {:induction false} RefreshExclusive(st: Status, out: Outside, a: Answers, i: nat)
    requires AllOneVerdict(out.images) && Exclusive(st.disks)
    requires forall j :: i <= j < |st.disks| ==> !Failed(st.disks[j])
    ensures Exclusive(RefreshFrom(st, out, a, i).st.disks)
    decreases |st.disks| - i
  {
    if i < |st.disks| {
      var x := st.disks[i];
      if Ready(x) {
        RefreshExclusive(st, out, a, i + 1);
      } else if a.disk(i).getOk && x.image in out.images {
        var (d, saw) := ReadImage(x, out, out.images[x.image].conds, a.disk(i));
        ReadExclusive(x, out, out.images[x.image].conds, a.disk(i));
        ReadAppends(x, out, out.images[x.image].conds, a.disk(i));
        RefreshExclusive(st.(disks := st.disks[i := d]), saw, a, i + 1);
      }
    }
  }

  lemma HandleExclusive(cfg: Config, st: Status, out: Outside, a: Answers)
    requires Inv(cfg, st) && AllOneVerdict(out.images) && Exclusive(st.disks)
    ensures var w := Handle(cfg, st, out, a).write; w.Some? ==> Exclusive(w.value.disks)
  {
    if st.phase == DiskImagesSubmitted {
      WatchExclusive(st, out, a);
    } else {
      OtherExclusive(cfg, st, out, a);
    }
  }

  lemma WatchExclusive(st: Status, out: Outside, a: Answers)
    requires AllOneVerdict(out.images) && Exclusive(st.disks) && NoneFailed(st.disks)
    ensures var w := WatchImages(st, out, a).write; w.Some? ==> Exclusive(w.value.disks)
  {
    RefreshExclusive(st, out, a, 0);
  }

  lemma OtherExclusive(cfg: Config, st: Status, out: Outside, a: Answers)
    requires Inv(cfg, st) && st.phase != DiskImagesSubmitted
    ensures var w := Handle(cfg, st, out, a).write; w.Some? ==> Exclusive(w.value.disks)
  {
    HandleInv(cfg, st, out, a);
    var w := Handle(cfg, st, out, a).write;
    if w.Some? {
      NoFailExclusive(cfg, w.value);
    }
  }

  lemma HandleInv(cfg: Config, st: Status, out: Outside, a: Answers)
    requires Inv(cfg, st)
    ensures var w := Handle(cfg, st, out, a).write; w.Some? ==> Inv(cfg, w.value)
    ensures var w := Handle(cfg, st, out, a).write;
            w.Some? && st.phase != DiskImagesSubmitted ==> w.value.phase != DiskImagesFailed
  {
    HandleRefinesMachine(cfg, st, out, a);
    var w := Handle(cfg, st, out, a).write;
    if w.Some? {
      InvNext(cfg, st, w.value);
      NextFollowsGraph(cfg, st, w.value);
    }
  }

  lemma NoFailExclusive(cfg: Config, st: Status)
    requires Inv(cfg, st) && st.phase != DiskImagesFailed
    ensures Exclusive(st.disks)
  {
  }

  // ---------------------------------------------------------------- over runs

  /** Kubernetes keeps at most one condition of a type on every image. */
  ghost predicate TidySteps(w: World, steps: seq<Step>) {
    && AllOneVerdict(w.out.images)
    && forall i :: 0 <= i < |steps| && steps[i].ImageChanges? ==> OneVerdict(steps[i].conds)
  }

  ghost predicate WorldTidy(w: World) {
    && NamesUsed(w.out) && AllOneVerdict(w.out.images)
    && forall i :: 0 <= i < |w.log| ==> Exclusive(w.log[i].disks)
  }

  lemma WorldTidyStep(cfg: Config, w: World, s: Step)
    requires WorldTidy(w) && AllInv(cfg, w.log)
    requires s.ImageChanges? ==> OneVerdict(s.conds)
    ensures WorldTidy(Apply(cfg, w, s))
  {
    if s.Reconcile? && s.read < |w.log| {
      HandleEvolves(cfg, w.log[s.read], w.out, s.a);
      HandleExclusive(cfg, w.log[s.read], w.out, s.a);
      TidySettle(w, s.read, s.accepted, Handle(cfg, w.log[s.read], w.out, s.a));
    }
  }

  lemma TidySettle(w: World, read: nat, accepted: bool, oc: Outcome)
    requires WorldTidy(w) && NamesUsed(oc.out) && AllOneVerdict(oc.out.images)
    requires oc.write.Some? ==> Exclusive(oc.write.value.disks)
    ensures WorldTidy(Settle(w, read, accepted, oc))
  {
  }

  /** In every run in which images carry at most one ImageImported condition, no persisted disk is both ready
      and failed. */
  lemma {:induction false} RunIsTidy(cfg: Config, w: World, steps: seq<Step>)
    requires Start(w) && TidySteps(w, steps)
    ensures WorldTidy(Run(cfg, w, steps))
    decreases |steps|
  {
    if steps != [] {
      var front, last := steps[..|steps| - 1], steps[|steps| - 1];
      RunIsTidy(cfg, w, front);
      EveryVersionInv(cfg, w, front);
      WorldTidyStep(cfg, Run(cfg, w, front), last);
    }
  }
}
