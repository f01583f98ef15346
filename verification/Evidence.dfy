/** What the history and the versions of a run stand for: every event was recorded in a step whose answers and
    whose cluster bear it out, and every version was written by one step, for a reason. */
module Evidence {
  import opened Wrappers
  import opened Conditions
  import opened ImportTypes
  import opened DiskVerdict
  import opened DiskImages
  import opened PassHistory
  import opened Reconciler
  import opened ImportInvariants
  import opened ImportSystem
  import opened RunSafety
  import opened ImageStore
  import opened DiskPasses
  import opened Decisions

  // ---------------------------------------------------------------- events are true

  predicate ImagesOf(disks: seq<DiskInfo>, images: seq<string>) {
    |images| == |disks| && forall i :: 0 <= i < |disks| ==> images[i] == disks[i].image
  }

  /** What an event of a reconcile of this status says, in terms of the answers and of the cluster at the time. */
  ghost predicate True(cfg: Config, e: Event, st: Status, out: Outside, a: Answers) {
    match e
    case ShutdownCalled(ok, _) => st.phase == SourceReady && ok == a.callOk && e in Calls(st, out.now, a)
    case PowerOffCalled(ok, _, spec) =>
      st.phase == SourceReady && ok == a.callOk && spec == a.spec && e in Calls(st, out.now, a)
    case SawPower(off) => st.phase == SourceReady && a.power == Some(off) && e in Calls(st, out.now, a)
    case ExportCalled(n, ok) =>
      st.phase == SourceReady && n == |st.disks| && ok == a.exportOk && e in Calls(st, out.now, a)
    case ImageMade(_, _) => st.phase == DisksExported && MadeTrue(cfg, e, st.disks, out, a)
    case ImageDeleted(_) => st.phase == DiskImagesFailed && DeletedTrue(e, st.disks, out, a)
    case SawImported(_) => st.phase == DiskImagesSubmitted && SawTrue(e, st.disks, out)
    case SawImportFailed(_) => st.phase == DiskImagesSubmitted && SawTrue(e, st.disks, out)
    case PvcMade(_) => st.phase == DiskImagesReady && VolumeTrue(e, st.disks, out, a)
    case VmMade(name, images) =>
      && st.phase == DiskImagesReady && name == st.importedName && ImagesOf(st.disks, images)
      && HasVolumes(st, out, a) && name !in out.vms && a.vmCreate.applied
  }

  lemma ExportTrue(cfg: Config, st: Status, out: Outside, a: Answers, j: nat)
    requires st.phase == SourceReady && |out.history| <= j < |RunExport(st, out, a).out.history|
    ensures True(cfg, RunExport(st, out, a).out.history[j], st, out, a)
  {
    StepCalls(st, out, a);
    var calls := Calls(st, out.now, a);
    assert RunExport(st, out, a).out.history[j] == calls[j - |out.history|];
  }

  lemma SubmitTrue(cfg: Config, st: Status, out: Outside, a: Answers, j: nat)
    requires st.phase == DisksExported && |out.history| <= j < |SubmitImages(cfg, st, out, a).out.history|
    ensures True(cfg, SubmitImages(cfg, st, out, a).out.history[j], st, out, a)
  {
    var r := SubmitFrom(cfg, st, out, a, 0);
    SubmitMakesTruly(cfg, st.disks, out, st, out, a, 0, r);
    assert MadeTrue(cfg, r.out.history[j], st.disks, out, a);
  }

  lemma WatchTrue(cfg: Config, st: Status, out: Outside, a: Answers, j: nat)
    requires st.phase == DiskImagesSubmitted && |out.history| <= j < |WatchImages(st, out, a).out.history|
    ensures True(cfg, WatchImages(st, out, a).out.history[j], st, out, a)
  {
    RefreshMeans(st, out, a);
    assert SawTrue(RefreshFrom(st, out, a, 0).out.history[j], st.disks, out);
  }

  lemma ResubmitTrue(cfg: Config, st: Status, out: Outside, a: Answers, j: nat)
    requires st.phase == DiskImagesFailed && |out.history| <= j < |Resubmit(st, out, a).out.history|
    ensures True(cfg, Resubmit(st, out, a).out.history[j], st, out, a)
  {
    CleanMeans(st, out, a);
    assert DeletedTrue(CleanFrom(st, out, a, 0).out.history[j], st.disks, out, a);
  }

  lemma VmTrue(cfg: Config, st: Status, out: Outside, a: Answers, j: nat)
    requires st.phase == DiskImagesReady && |out.history| <= j < |MakeVm(st, out, a).out.history|
    ensures True(cfg, MakeVm(st, out, a).out.history[j], st, out, a)
  {
    PvcMeans(st.disks, out, a);
    PvcAppends(st.disks, out, a, 0);
    CreateVmAppends(st, out, a);
    MakeVmWrites(st, out, a);
    var ready := PvcFrom(st.disks, out, a, 0).0.history;
    if j < |ready| {
      assert VolumeTrue(ready[j], st.disks, out, a);
    }
  }

  /** Whatever a reconcile records is true. */
  lemma StepTrue(cfg: Config, st: Status, out: Outside, a: Answers, j: nat)
    requires |out.history| <= j < |Handle(cfg, st, out, a).out.history|
    ensures True(cfg, Handle(cfg, st, out, a).out.history[j], st, out, a)
  {
    match st.phase
    case SourceReady => ExportTrue(cfg, st, out, a, j);
    case DisksExported => SubmitTrue(cfg, st, out, a, j);
    case DiskImagesSubmitted => WatchTrue(cfg, st, out, a, j);
    case DiskImagesFailed => ResubmitTrue(cfg, st, out, a, j);
    case DiskImagesReady => VmTrue(cfg, st, out, a, j);
    case _ => QuietHistory(cfg, st, out, a);
  }

  // ---------------------------------------------------------------- over runs

  lemma StepExtends(cfg: Config, w: World, s: Step)
    ensures w.log <= Apply(cfg, w, s).log && w.out.history <= Apply(cfg, w, s).out.history
  {
    if s.Reconcile? && s.read < |w.log| {
      HandleGrowth(cfg, w.log[s.read], w.out, s.a);
    }
  }

  /** A run only adds to the log and the history of its beginning. */
  lemma {:induction false} PrefixExtends(cfg: Config, w: World, steps: seq<Step>, k: nat)
    requires k <= |steps|
    ensures var before, after := Run(cfg, w, steps[..k]), Run(cfg, w, steps);
            before.log <= after.log && before.out.history <= after.out.history
    decreases |steps|
  {
    if k == |steps| {
      assert steps[..k] == steps;
    } else {
      var front := steps[..|steps| - 1];
      PrefixExtends(cfg, w, front, k);
      assert front[..k] == steps[..k];
      StepExtends(cfg, Run(cfg, w, front), steps[|steps| - 1]);
    }
  }

  /** Step s records event j of the history, and it is true of what that step reads and is answered. */
  ghost predicate HappensIn(cfg: Config, w: World, steps: seq<Step>, j: nat, s: nat) {
    && s < |steps| && j < |Run(cfg, w, steps).out.history|
    && var before := Run(cfg, w, steps[..s]);
       && |before.out.history| <= j < |Run(cfg, w, steps[..s + 1]).out.history|
       && steps[s].Reconcile? && steps[s].read < |before.log|
       && True(cfg, Run(cfg, w, steps).out.history[j], before.log[steps[s].read], before.out, steps[s].a)
  }

  lemma HappensLast(cfg: Config, w: World, steps: seq<Step>, j: nat)
    requires steps != [] && |Run(cfg, w, steps[..|steps| - 1]).out.history| <= j < |Run(cfg, w, steps).out.history|
    ensures HappensIn(cfg, w, steps, j, |steps| - 1)
  {
    var before, s := Run(cfg, w, steps[..|steps| - 1]), steps[|steps| - 1];
    assert steps[..|steps| - 1 + 1] == steps;
    StepTrue(cfg, before.log[s.read], before.out, s.a, j);
  }

  lemma HappensEarlier(cfg: Config, w: World, steps: seq<Step>, j: nat, s: nat)
    requires steps != [] && HappensIn(cfg, w, steps[..|steps| - 1], j, s)
    ensures HappensIn(cfg, w, steps, j, s)
  {
    var front := steps[..|steps| - 1];
    assert front[..s] == steps[..s] && front[..s + 1] == steps[..s + 1] && front[s] == steps[s];
    StepExtends(cfg, Run(cfg, w, front), steps[|steps| - 1]);
  }

  /** In every run, every event of the history was recorded by a reconcile that it is true of. */
  lemma {:induction false} EveryEventTrue(cfg: Config, w: World, steps: seq<Step>, j: nat) returns (s: nat)
    requires Start(w) && j < |Run(cfg, w, steps).out.history|
    ensures HappensIn(cfg, w, steps, j, s)
    decreases |steps|
  {
    var front := steps[..|steps| - 1];
    if j < |Run(cfg, w, front).out.history| {
      s := EveryEventTrue(cfg, w, front, j);
      HappensEarlier(cfg, w, steps, j, s);
    } else {
      s := |steps| - 1;
      HappensLast(cfg, w, steps, j);
    }
  }

  lemma HistoryInOrder(cfg: Config, w: World, steps: seq<Step>, k: nat, l: nat)
    requires k <= l <= |steps|
    ensures Run(cfg, w, steps[..k]).out.history <= Run(cfg, w, steps[..l]).out.history
  {
    PrefixExtends(cfg, w, steps[..l], k);
    assert steps[..l][..k] == steps[..k];
  }

  /** Events that come earlier were recorded no later. */
  lemma HappensInOrder(cfg: Config, w: World, steps: seq<Step>, i: nat, s: nat, j: nat, t: nat)
    requires i <= j && HappensIn(cfg, w, steps, i, s) && HappensIn(cfg, w, steps, j, t)
    ensures s <= t
  {
    if t < s {
      HistoryInOrder(cfg, w, steps, t + 1, s);
    }
  }

  /** In the cluster that step s finds, the image carries a true ImageImported condition. */
  ghost predicate ImportedIn(cfg: Config, w: World, steps: seq<Step>, n: string, s: nat) {
    && s < |steps|
    && var images := Run(cfg, w, steps[..s]).out.images;
       n in images && exists c :: c in images[n].conds && c.isImported && c.status == ConditionTrue
  }

  lemma LookFindsImported(cfg: Config, w: World, steps: seq<Step>, j: nat, s: nat, n: string)
    requires HappensIn(cfg, w, steps, j, s) && Run(cfg, w, steps).out.history[j] == SawImported(n)
    ensures ImportedIn(cfg, w, steps, n, s)
  {
    var before := Run(cfg, w, steps[..s]);
    var disks := before.log[steps[s].read].disks;
    var i :| 0 <= i < |disks| && SawImported(n) == SawImported(disks[i].image) && disks[i].image in before.out.images
             && Imported(before.out.images[disks[i].image]);
    var k :| 0 <= k < |before.out.images[n].conds| && before.out.images[n].conds[k].isImported
             && before.out.images[n].conds[k].status == ConditionTrue;
    assert before.out.images[n].conds[k] in before.out.images[n].conds;
  }

  ghost predicate ImportedBy(cfg: Config, w: World, steps: seq<Step>, n: string, t: nat) {
    exists s: nat :: s <= t && ImportedIn(cfg, w, steps, n, s)
  }

  lemma SeenImportedBy(cfg: Config, w: World, steps: seq<Step>, k: nat, t: nat, n: string)
    requires Start(w) && HappensIn(cfg, w, steps, k, t) && SawImported(n) in Run(cfg, w, steps).out.history[..k]
    ensures ImportedBy(cfg, w, steps, n, t)
  {
    var h := Run(cfg, w, steps).out.history;
    var j: nat :| j < k && h[..k][j] == SawImported(n);
    var s := EveryEventTrue(cfg, w, steps, j);
    HappensInOrder(cfg, w, steps, j, s, k, t);
    LookFindsImported(cfg, w, steps, j, s, n);
  }

  /** What the source answered in the step that recorded an event of the power off and the export. */
  ghost predicate Answered(s: Step, e: Event) {
    && s.Reconcile? && s.a.client == ClientOk
    && (IsRequest(e) ==> s.a.callOk)
    && (e == SawPower(true) ==> s.a.power == Some(true))
    && (e.ExportCalled? && e.ok ==> s.a.exportOk)
  }

  lemma PowerEventAnswered(cfg: Config, w: World, steps: seq<Step>, j: nat, s: nat)
    requires HappensIn(cfg, w, steps, j, s)
    requires var e := Run(cfg, w, steps).out.history[j]; IsRequest(e) || e.SawPower? || e.ExportCalled?
    ensures Answered(steps[s], Run(cfg, w, steps).out.history[j])
  {
  }

  /** Whole-run safety, in terms of what the source and the cluster said: a KubeVirt VM is only created in a step t
      that comes after a step whose request the source accepted, a step in which it answered that it is off, and
      one whose export succeeded, and no image of the VM is without a step up to t that found it stored with a true
      ImageImported condition. */
  lemma VmNeedsRealImport(cfg: Config, w: World, steps: seq<Step>, k: nat) returns (r: nat, o: nat, x: nat, t: nat)
    requires Start(w)
    requires k < |Run(cfg, w, steps).out.history| && Run(cfg, w, steps).out.history[k].VmMade?
    ensures r <= o <= x <= t < |steps| && HappensIn(cfg, w, steps, k, t)
    ensures steps[r].Reconcile? && steps[r].a.client == ClientOk && steps[r].a.callOk
    ensures steps[o].Reconcile? && steps[o].a.client == ClientOk && steps[o].a.power == Some(true)
    ensures steps[x].Reconcile? && steps[x].a.client == ClientOk && steps[x].a.exportOk
    ensures forall n :: n in Run(cfg, w, steps).out.history[k].images ==> ImportedBy(cfg, w, steps, n, t)
  {
    var requested, off, exported := VmCreatedOnlyAfterImport(cfg, w, steps, k);
    r, o, x, t := StepsInOrder(cfg, w, steps, requested, off, exported, k);
    PowerEventAnswered(cfg, w, steps, requested, r);
    PowerEventAnswered(cfg, w, steps, off, o);
    PowerEventAnswered(cfg, w, steps, exported, x);
    forall n | n in Run(cfg, w, steps).out.history[k].images ensures ImportedBy(cfg, w, steps, n, t) {
      SeenImportedBy(cfg, w, steps, k, t, n);
    }
  }

  lemma StepsInOrder(cfg: Config, w: World, steps: seq<Step>, a: nat, b: nat, c: nat, d: nat)
    returns (r: nat, o: nat, x: nat, t: nat)
    requires Start(w) && a <= b <= c <= d < |Run(cfg, w, steps).out.history|
    ensures r <= o <= x <= t
    ensures HappensIn(cfg, w, steps, a, r) && HappensIn(cfg, w, steps, b, o)
    ensures HappensIn(cfg, w, steps, c, x) && HappensIn(cfg, w, steps, d, t)
  {
    r := EveryEventTrue(cfg, w, steps, a);
    o := EveryEventTrue(cfg, w, steps, b);
    x := EveryEventTrue(cfg, w, steps, c);
    t := EveryEventTrue(cfg, w, steps, d);
    HappensInOrder(cfg, w, steps, a, r, b, o);
    HappensInOrder(cfg, w, steps, b, o, c, x);
    HappensInOrder(cfg, w, steps, c, x, d, t);
  }

  // ---------------------------------------------------------------- nothing happens unrecorded

  /** Every image, volume and VM that was not there before is recorded. */
  ghost predicate Records(before: Outside, after: Outside) {
    && before.history <= after.history
    && (forall n :: n in after.images && n !in before.images ==> ImageMade(n, after.images[n].tag) in after.history)
    && (forall n :: n in after.pvcs && n !in before.pvcs ==> PvcMade(n) in after.history)
    && (forall n :: n in after.vms && n !in before.vms ==> exists images :: VmMade(n, images) in after.history)
  }

  lemma RecordsTrans(a: Outside, b: Outside, c: Outside)
    requires Records(a, b) && Records(b, c)
    requires forall n :: n in b.images && n in c.images ==> c.images[n].tag == b.images[n].tag
    ensures Records(a, c)
  {
    forall n | n in c.vms && n !in a.vms ensures exists images :: VmMade(n, images) in c.history {
      if n in b.vms {
        var images :| VmMade(n, images) in b.history;
        assert VmMade(n, images) in c.history;
      }
    }
  }

  lemma CreateRecords(cfg: Config, d: DiskInfo, out: Outside, da: DiskAnswers)
    ensures Records(out, CheckAndCreate(cfg, d, out, da).1)
    ensures var made := CheckAndCreate(cfg, d, out, da).1;
            forall n :: n in out.images ==> n in made.images && made.images[n] == out.images[n]
  {
    var made := CheckAndCreate(cfg, d, out, da).1;
    if made != out {
      assert made.history == out.history + [ImageMade(da.generatedName, ImageLabel(cfg, d.name))];
    }
  }

  lemma {:induction false} SubmitRecords(cfg: Config, st: Status, out: Outside, a: Answers, i: nat)
    ensures var r := SubmitFrom(cfg, st, out, a, i);
            Records(out, r.out) && forall n :: n in out.images ==> n in r.out.images && r.out.images[n] == out.images[n]
    decreases |st.disks| - i
  {
    if i < |st.disks| {
      if Submitted(st.disks[i]) {
        SubmitRecords(cfg, st, out, a, i + 1);
      } else {
        var (name, made) := CheckAndCreate(cfg, st.disks[i], out, a.disk(i));
        CreateRecords(cfg, st.disks[i], out, a.disk(i));
        if name.Some? {
          var (d, marked) := MarkDisk(st.disks[i].(image := name.value), made, ImageSubmitted, a.disk(i));
          SubmitRecords(cfg, st.(disks := st.disks[i := d]), marked, a, i + 1);
          RecordsTrans(out, marked, SubmitFrom(cfg, st.(disks := st.disks[i := d]), marked, a, i + 1).out);
        }
      }
    }
  }

  lemma {:induction false} PvcRecords(disks: seq<DiskInfo>, out: Outside, a: Answers, i: nat)
    ensures Records(out, PvcFrom(disks, out, a, i).0)
    decreases |disks| - i
  {
    if i < |disks| {
      var name, da := disks[i].image, a.disk(i);
      if da.getOk && name in out.images {
        if !out.images[name].backingImage || (da.pvcGetOk && name in out.pvcs) {
          PvcRecords(disks, out, a, i + 1);
        } else if da.pvcGetOk && da.pvcCreate.applied {
          var made := Log(out.(pvcs := out.pvcs + {name}), PvcMade(name));
          assert Records(out, made);
          if da.pvcCreate.reported {
            PvcRecords(disks, made, a, i + 1);
            PvcAppends(disks, made, a, i + 1);
            RecordsTrans(out, made, PvcFrom(disks, made, a, i + 1).0);
          }
        }
      }
    }
  }

  lemma VmRecords(st: Status, out: Outside, a: Answers)
    ensures Records(out, CreateVm(st, out, a).0)
  {
    PvcRecords(st.disks, out, a, 0);
    PvcAppends(st.disks, out, a, 0);
    var made := CreateVm(st, out, a).0;
    var ready := PvcFrom(st.disks, out, a, 0).0;
    if made != out && made != ready {
      assert made.history == ready.history + [VmMade(st.importedName, ImageNames(st.disks))];
      forall n | n in made.vms && n !in out.vms ensures exists images :: VmMade(n, images) in made.history {
        assert VmMade(st.importedName, ImageNames(st.disks)) in made.history;
      }
    }
  }

  /** No reconcile makes an image, a volume or a VM without recording it. */
  lemma HandleRecords(cfg: Config, st: Status, out: Outside, a: Answers)
    ensures Records(out, Handle(cfg, st, out, a).out)
  {
    match st.phase
    case SourceReady => ExportAppends(st, out, a);
    case DisksExported => SubmitRecords(cfg, st, out, a, 0);
    case DiskImagesSubmitted => RefreshAppends(st, out, a, 0);
    case DiskImagesFailed =>
      CleanMeans(st, out, a);
      CleanAppends(st, out, a, 0);
    case DiskImagesReady =>
      VmRecords(st, out, a);
      MakeVmWrites(st, out, a);
    case VirtualMachineRunning => TidyMeans(cfg, st.disks, out, a);
    case _ =>
  }

  lemma StepRecords(cfg: Config, start: Outside, w: World, s: Step)
    requires Records(start, w.out) && NamesUsed(w.out)
    ensures Records(start, Apply(cfg, w, s).out)
  {
    if s.Reconcile? {
      if s.read < |w.log| {
        HandleRecords(cfg, w.log[s.read], w.out, s.a);
        HandleEvolves(cfg, w.log[s.read], w.out, s.a);
        RecordsTrans(start, w.out, Handle(cfg, w.log[s.read], w.out, s.a).out);
      }
    } else {
      assert Records(w.out, Apply(cfg, w, s).out);
      RecordsTrans(start, w.out, Apply(cfg, w, s).out);
    }
  }

  /** In every run, every image, volume and VM that was not there at the start is in the history. */
  lemma {:induction false} RunRecords(cfg: Config, w: World, steps: seq<Step>)
    requires Start(w)
    ensures Records(w.out, Run(cfg, w, steps).out)
    decreases |steps|
  {
    if steps != [] {
      var front := steps[..|steps| - 1];
      RunRecords(cfg, w, front);
      RunNamesUsed(cfg, w, front);
      StepRecords(cfg, w.out, Run(cfg, w, front), steps[|steps| - 1]);
    }
  }

  /** So the ordering holds of every KubeVirt VM that the run leaves behind and that was not there at the start. */
  lemma NewVmNeedsRealImport(cfg: Config, w: World, steps: seq<Step>, name: string)
    returns (r: nat, o: nat, x: nat, t: nat, images: seq<string>)
    requires Start(w) && name in Run(cfg, w, steps).out.vms && name !in w.out.vms
    ensures r <= o <= x <= t < |steps|
    ensures steps[r].Reconcile? && steps[r].a.client == ClientOk && steps[r].a.callOk
    ensures steps[o].Reconcile? && steps[o].a.client == ClientOk && steps[o].a.power == Some(true)
    ensures steps[x].Reconcile? && steps[x].a.client == ClientOk && steps[x].a.exportOk
    ensures VmMade(name, images) in Run(cfg, w, steps).out.history
    ensures images != [] && forall n :: n in images ==> ImportedBy(cfg, w, steps, n, t)
  {
    RunRecords(cfg, w, steps);
    var h := Run(cfg, w, steps).out.history;
    images :| VmMade(name, images) in h;
    var k: nat :| k < |h| && h[k] == VmMade(name, images);
    r, o, x, t := VmNeedsRealImport(cfg, w, steps, k);
    var requested, off, exported := VmCreatedOnlyAfterImport(cfg, w, steps, k);
  }

  // ---------------------------------------------------------------- versions have a reason

  /** Step k is the reconcile that wrote version i, from the version before it. */
  ghost predicate Wrote(cfg: Config, w: World, steps: seq<Step>, i: nat, k: nat) {
    && k < |steps| && 0 < i < |Run(cfg, w, steps).log|
    && var before := Run(cfg, w, steps[..k]);
       && before.log == Run(cfg, w, steps).log[..i]
       && steps[k].Reconcile? && steps[k].read == i - 1
       && Handle(cfg, before.log[i - 1], before.out, steps[k].a).write == Some(Run(cfg, w, steps).log[i])
       && Run(cfg, w, steps[..k + 1]).out == Handle(cfg, before.log[i - 1], before.out, steps[k].a).out
  }

  lemma WroteLast(cfg: Config, w: World, steps: seq<Step>, i: nat)
    requires steps != [] && |Run(cfg, w, steps[..|steps| - 1]).log| == i > 0 && |Run(cfg, w, steps).log| > i
    ensures Wrote(cfg, w, steps, i, |steps| - 1)
  {
    assert steps[..|steps| - 1 + 1] == steps;
    var before := Run(cfg, w, steps[..|steps| - 1]);
    assert before.log == Run(cfg, w, steps).log[..i];
  }

  lemma WroteEarlier(cfg: Config, w: World, steps: seq<Step>, i: nat, k: nat)
    requires steps != [] && Wrote(cfg, w, steps[..|steps| - 1], i, k)
    ensures Wrote(cfg, w, steps, i, k)
  {
    var front := steps[..|steps| - 1];
    assert front[..k] == steps[..k] && front[..k + 1] == steps[..k + 1] && front[k] == steps[k];
    StepExtends(cfg, Run(cfg, w, front), steps[|steps| - 1]);
    assert Run(cfg, w, front).log[..i] == Run(cfg, w, steps).log[..i];
  }

  lemma {:induction false} VersionWritten(cfg: Config, w: World, steps: seq<Step>, i: nat) returns (k: nat)
    requires Start(w) && 0 < i < |Run(cfg, w, steps).log|
    ensures Wrote(cfg, w, steps, i, k)
    decreases |steps|
  {
    var front := steps[..|steps| - 1];
    if i < |Run(cfg, w, front).log| {
      k := VersionWritten(cfg, w, front, i);
      WroteEarlier(cfg, w, steps, i, k);
    } else {
      k := |steps| - 1;
      StepExtends(cfg, Run(cfg, w, front), steps[|steps| - 1]);
      RunRefinesMachine(cfg, w, front);
      WroteLast(cfg, w, steps, i);
    }
  }

  /** In every run, an import is only ever persisted as failed with a failed export, or by a step that did not find
      its source; never for a call that merely failed. */
  lemma FailedForAReason(cfg: Config, w: World, steps: seq<Step>, i: nat) returns (k: nat)
    requires Start(w) && i < |Run(cfg, w, steps).log| && Run(cfg, w, steps).log[i].phase == MigrationFailed
    ensures Wrote(cfg, w, steps, i, k)
    ensures Has(Run(cfg, w, steps).log[i].conds, ExportFailed) || steps[k].a.client == NoSource
  {
    RunRefinesMachine(cfg, w, steps);
    k := VersionWritten(cfg, w, steps, i);
    var before := Run(cfg, w, steps[..k]);
    EndsExactly(cfg, before.log[i - 1], before.out, steps[k].a);
  }

  /** And only as invalid by a step whose preflight check failed, whose sanitized name is no DNS label, or that
      found the disk list empty after the export. */
  lemma InvalidForAReason(cfg: Config, w: World, steps: seq<Step>, i: nat) returns (k: nat)
    requires Start(w) && i < |Run(cfg, w, steps).log| && Run(cfg, w, steps).log[i].phase == ImportInvalid
    ensures Wrote(cfg, w, steps, i, k)
    ensures var st, a := Run(cfg, w, steps).log[i - 1], steps[k].a;
            || (st.phase == Unset && a.preflight == PreflightError)
            || (st.phase == ImportValid && a.client == ClientOk && (!a.sanitizeOk || !cfg.isDnsLabel(a.sanitizedName)))
            || (st.phase == DisksExported && st.disks == [])
  {
    RunRefinesMachine(cfg, w, steps);
    k := VersionWritten(cfg, w, steps, i);
    var before := Run(cfg, w, steps[..k]);
    assert before.log[i - 1] == Run(cfg, w, steps).log[i - 1];
    EndsExactly(cfg, before.log[i - 1], before.out, steps[k].a);
  }

  /** A version in DiskImagesReady was written by a step that found each of its disks ready or its image imported,
      and none failed. */
  lemma ReadyForAReason(cfg: Config, w: World, steps: seq<Step>, i: nat) returns (k: nat)
    requires Start(w) && i < |Run(cfg, w, steps).log| && Run(cfg, w, steps).log[i].phase == DiskImagesReady
    ensures Wrote(cfg, w, steps, i, k)
    ensures var disks, out := Run(cfg, w, steps).log[i - 1].disks, Run(cfg, w, steps[..k]).out;
            AllFound(disks, out, steps[k].a) && AllGood(disks, out, |disks|)
  {
    RunRefinesMachine(cfg, w, steps);
    EveryVersionInv(cfg, w, steps);
    k := VersionWritten(cfg, w, steps, i);
    var log, before := Run(cfg, w, steps).log, Run(cfg, w, steps[..k]);
    assert before.log[i - 1] == log[i - 1] && Inv(cfg, log[i - 1]);
    assert Edge(log[i - 1].phase, log[i].phase) by {
      NextFollowsGraph(cfg, log[i - 1], log[i]);
    }
    WatchDecides(before.log[i - 1], before.out, steps[k].a);
  }

  // ---------------------------------------------------------------- volumes

  lemma HandleKeepsVolumes(cfg: Config, st: Status, out: Outside, a: Answers)
    ensures out.pvcs <= Handle(cfg, st, out, a).out.pvcs
  {
    match st.phase
    case SourceReady => ExportAppends(st, out, a);
    case DisksExported => SubmitAppends(cfg, st, out, a, 0);
    case DiskImagesSubmitted => RefreshAppends(st, out, a, 0);
    case DiskImagesFailed => CleanAppends(st, out, a, 0);
    case DiskImagesReady =>
      PvcAppends(st.disks, out, a, 0);
      MakeVmWrites(st, out, a);
    case VirtualMachineRunning => TidyTouchesImages(cfg, st.disks, out, a, 0);
    case _ =>
  }

  lemma {:induction false} VolumesStay(cfg: Config, w: World, steps: seq<Step>, k: nat)
    requires k <= |steps|
    ensures Run(cfg, w, steps[..k]).out.pvcs <= Run(cfg, w, steps).out.pvcs
    decreases |steps|
  {
    if k == |steps| {
      assert steps[..k] == steps;
    } else {
      var front, s := steps[..|steps| - 1], steps[|steps| - 1];
      var before := Run(cfg, w, front);
      VolumesStay(cfg, w, front, k);
      assert front[..k] == steps[..k];
      if s.Reconcile? && s.read < |before.log| {
        HandleKeepsVolumes(cfg, before.log[s.read], before.out, s.a);
      }
    }
  }

  /** In every run, when a version says that the VM was created, the step that wrote it found the image of every
      disk, and from then on the volume of every disk whose image was a backing image is there. */
  lemma CreatedWithVolumes(cfg: Config, w: World, steps: seq<Step>, i: nat) returns (k: nat)
    requires Start(w) && i < |Run(cfg, w, steps).log| && Run(cfg, w, steps).log[i].phase == VirtualMachineCreated
    ensures Wrote(cfg, w, steps, i, k)
    ensures var images, disks := Run(cfg, w, steps[..k]).out.images, Run(cfg, w, steps).log[i].disks;
            forall j :: 0 <= j < |disks| ==>
              && disks[j].image in images
              && (images[disks[j].image].backingImage ==> disks[j].image in Run(cfg, w, steps).out.pvcs)
  {
    RunRefinesMachine(cfg, w, steps);
    EveryVersionInv(cfg, w, steps);
    k := VersionWritten(cfg, w, steps, i);
    var log, before := Run(cfg, w, steps).log, Run(cfg, w, steps[..k]);
    assert before.log[i - 1] == log[i - 1] && Inv(cfg, log[i - 1]);
    NextFollowsGraph(cfg, log[i - 1], log[i]);
    var st, a := log[i - 1], steps[k].a;
    assert CreateVm(st, before.out, a).1 == NoError && log[i].disks == st.disks;
    VmNeedsVolumes(st, before.out, a);
    CreateVmMeans(st, before.out, a);
    VolumesStay(cfg, w, steps, k + 1);
  }
}
