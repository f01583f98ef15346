/** Safety over whole runs: what the history holds before each call. */
module RunSafety {
  import opened Wrappers
  import opened Conditions
  import opened ImportTypes
  import opened DiskVerdict
  import opened DiskImages
  import opened PowerAndExport
  import opened PassHistory
  import opened Reconciler
  import opened ImportMachine
  import opened ImportInvariants
  import opened ImportSystem

  predicate IsRequest(e: Event) {
    (e.ShutdownCalled? && e.ok) || (e.PowerOffCalled? && e.ok)
  }

  /** How far the history has come: a request, then an observation of power off, then a successful export. */
  function Stage(h: seq<Event>): (s: nat)
    ensures s <= 3
  {
    if h == [] then 0
    else
      var s, e := Stage(h[..|h| - 1]), h[|h| - 1];
      if s == 0 && IsRequest(e) then 1
      else if s == 1 && e == SawPower(true) then 2
      else if s == 2 && e.ExportCalled? && e.ok then 3
      else s
  }

  lemma StageLog(h: seq<Event>, e: Event)
    ensures Stage(h) <= Stage(h + [e])
    ensures IsRequest(e) ==> Stage(h + [e]) >= 1
    ensures Stage(h) >= 1 && e == SawPower(true) ==> Stage(h + [e]) >= 2
    ensures Stage(h) >= 2 && e.ExportCalled? && e.ok ==> Stage(h + [e]) == 3
  {
    assert (h + [e])[..|h|] == h;
  }

  lemma {:induction false} StageGrows(h: seq<Event>, longer: seq<Event>)
    requires h <= longer
    ensures Stage(h) <= Stage(longer)
    decreases |longer|
  {
    if h != longer {
      var front := longer[..|longer| - 1];
      StageGrows(h, front);
      assert front + [longer[|longer| - 1]] == longer;
      StageLog(front, longer[|longer| - 1]);
    }
  }

  /** The stages are reached in order, by events at increasing positions. */
  lemma {:induction false} StageWitness(h: seq<Event>) returns (i: nat, j: nat, k: nat)
    ensures Stage(h) >= 1 ==> i < |h| && IsRequest(h[i])
    ensures Stage(h) >= 2 ==> i < j < |h| && h[j] == SawPower(true)
    ensures Stage(h) >= 3 ==> j < k < |h| && h[k].ExportCalled? && h[k].ok
  {
    i, j, k := 0, 0, 0;
    if h != [] {
      var n := |h| - 1;
      i, j, k := StageWitness(h[..n]);
      if Stage(h[..n]) == 0 {
        i := n;
      } else if Stage(h[..n]) == 1 {
        j := n;
      } else if Stage(h[..n]) == 2 {
        k := n;
      }
    }
  }

  // ---------------------------------------------------------------- what each call may follow

  /** A graceful shutdown was accepted by the source more than one second less than the user's setting before the
      given time; a setting that is not positive counts as 60 seconds. */
  ghost predicate ShutdownLongAgo(spec: PowerSpec, h: seq<Event>, at: nat) {
    var seconds := if spec.timeoutSeconds > 0 then spec.timeoutSeconds else 60;
    exists t: nat :: ShutdownCalled(true, t) in h && at - t > (seconds - 1) * 1_000_000_000
  }

  ghost predicate EventOk(h: seq<Event>, e: Event) {
    match e
    case PowerOffCalled(_, at, spec) => spec.supported && (!spec.force ==> ShutdownLongAgo(spec, h, at))
    case ExportCalled(disksBefore, _) => disksBefore == 0 && Stage(h) >= 2
    case VmMade(_, images) => Stage(h) == 3 && images != [] && forall n :: n in images ==> SawImported(n) in h
    case _ => true
  }

  ghost predicate HistoryOk(h: seq<Event>) {
    forall k :: 0 <= k < |h| ==> EventOk(h[..k], h[k])
  }

  lemma LogOk(h: seq<Event>, e: Event)
    requires HistoryOk(h) && EventOk(h, e)
    ensures HistoryOk(h + [e])
  {
    forall k | 0 <= k < |h + [e]| ensures EventOk((h + [e])[..k], (h + [e])[k]) {
      assert (h + [e])[..k] == h[..k];
      if k == |h| {
        assert h[..k] == h;
      }
    }
  }

  /** Events that EventOk asks nothing of. */
  predicate Plain(e: Event) {
    !e.PowerOffCalled? && !e.ExportCalled? && !e.VmMade?
  }

  predicate PlainGrowth(h: seq<Event>, longer: seq<Event>) {
    h <= longer && forall k :: |h| <= k < |longer| ==> Plain(longer[k])
  }

  lemma PlainGrowthOk(h: seq<Event>, longer: seq<Event>)
    requires HistoryOk(h) && PlainGrowth(h, longer)
    ensures HistoryOk(longer)
  {
    forall k | 0 <= k < |longer| ensures EventOk(longer[..k], longer[k]) {
      if k < |h| {
        assert longer[..k] == h[..k];
      }
    }
  }

  // ---------------------------------------------------------------- what a status stands for

  /** The persisted ShutdownGuest time is the whole second at or after which the source accepted a shutdown. */
  ghost predicate ShutdownStamped(st: Status, h: seq<Event>) {
    var c := Find(st.conds, ShutdownGuest, ConditionTrue);
    c.Some? ==> c.value.updated.At? &&
                exists t: nat :: ShutdownCalled(true, t) in h && t < (c.value.updated.second + 1) * SECOND
  }

  ghost predicate DisksSeen(disks: seq<DiskInfo>, h: seq<Event>) {
    forall i :: 0 <= i < |disks| && Ready(disks[i]) ==> SawImported(disks[i].image) in h
  }

  /** Everything the status claims has happened is in the history. */
  ghost predicate Justified(st: Status, h: seq<Event>) {
    && (PowerRequested(st.conds) ==> Stage(h) >= 1)
    && (Has(st.conds, PoweredOff) ==> Stage(h) >= 2)
    && (Has(st.conds, Exported) ==> Stage(h) == 3)
    && ShutdownStamped(st, h)
    && DisksSeen(st.disks, h)
  }

  lemma JustifiedGrows(st: Status, h: seq<Event>, longer: seq<Event>)
    requires Justified(st, h) && h <= longer
    ensures Justified(st, longer)
  {
    StageGrows(h, longer);
    var c := Find(st.conds, ShutdownGuest, ConditionTrue);
    if c.Some? {
      var t: nat :| ShutdownCalled(true, t) in h && t < (c.value.updated.second + 1) * SECOND;
      assert ShutdownCalled(true, t) in longer;
    }
  }

  ghost predicate Safe(st: Status, out: Outside) {
    Justified(st, out.history) && HistoryOk(out.history)
  }

  // ---------------------------------------------------------------- the power and export step

  lemma LogSafe(st: Status, out: Outside, e: Event)
    requires Safe(st, out) && EventOk(out.history, e)
    ensures Safe(st, Log(out, e))
  {
    LogOk(out.history, e);
    JustifiedGrows(st, out.history, out.history + [e]);
  }

  lemma LaterSafe(st: Status, out: Outside, delay: nat)
    requires Safe(st, out)
    ensures Safe(st, Later(out, delay))
  {
  }

  lemma SecondHolds(t: nat, delay: nat)
    ensures t < ((t + delay) / SECOND + 1) * SECOND
  {
  }

  lemma MarkSafe(st: Status, out: Outside, t: CondType, a: Answers, message: string)
    requires Safe(st, out)
    requires t in {ShutdownGuest, PoweringOff} ==> Stage(out.history) >= 1
    requires t == ShutdownGuest ==> ShutdownCalled(true, out.now) in out.history
    requires t == PoweredOff ==> Stage(out.history) >= 2
    requires t == Exported ==> Stage(out.history) == 3
    ensures Safe(Mark(st, out, t, a, message).st, Mark(st, out, t, a, message).out)
  {
    forall u ensures Find(Mark(st, out, t, a, message).st.conds, u, ConditionTrue) ==
        if u != t then Find(st.conds, u, ConditionTrue)
        else Some(Stamped(t, out.now, a.delay, a.delay2, message)) {
      MarkAsks(st, out, t, a, message, u, ConditionTrue);
    }
    SecondHolds(out.now, a.delay);
  }

  lemma PowerOffSafe(st: Status, out: Outside, a: Answers)
    requires Safe(st, out)
    requires a.spec.supported && (!a.spec.force ==> ShutdownLongAgo(a.spec, out.history, out.now))
    ensures var r := PowerOffRequest(st, out, a); Safe(r.st, r.out)
  {
    var e := PowerOffCalled(a.callOk, out.now, a.spec);
    LogSafe(st, out, e);
    StageLog(out.history, e);
    if a.callOk {
      MarkSafe(st, Log(out, e), PoweringOff, a, "");
    }
  }

  lemma ShutdownSafe(st: Status, out: Outside, a: Answers)
    requires Safe(st, out)
    ensures var r := ShutdownRequest(st, out, a); Safe(r.st, r.out)
  {
    var e := ShutdownCalled(a.callOk, out.now);
    LogSafe(st, out, e);
    StageLog(out.history, e);
    if a.callOk {
      MarkSafe(st, Log(out, e), ShutdownGuest, a, "");
    }
  }

  /** One second of the timeout can be lost: the stored time is cut to whole seconds. */
  lemma ExpiredMeansLongAgo(spec: PowerSpec, st: Status, h: seq<Event>, second: nat, now: nat, at: nat)
    requires ShutdownStamped(st, h) && Expired(spec, second, now) && now <= at
    requires Find(st.conds, ShutdownGuest, ConditionTrue).Some?
    requires Find(st.conds, ShutdownGuest, ConditionTrue).value.updated == At(second)
    ensures ShutdownLongAgo(spec, h, at)
  {
    var t: nat :| ShutdownCalled(true, t) in h && t < (second + 1) * SECOND;
    assert at - t > (Timeout(spec) - 1) * 1_000_000_000;
  }

  lemma StillRunningSafe(st: Status, out: Outside, a: Answers)
    requires Safe(st, out)
    ensures var r := StillRunning(st, out, a); Safe(r.st, r.out)
  {
    var shutdown := Find(st.conds, ShutdownGuest, ConditionTrue);
    if shutdown.Some? && a.spec.supported && !a.spec.force && !Has(st.conds, PoweringOff)
       && shutdown.value.updated.At? {
      var read := Later(out, a.checkDelay);
      if Expired(a.spec, shutdown.value.updated.second, read.now) {
        var at := Later(read, a.forceDelay);
        ExpiredMeansLongAgo(a.spec, st, out.history, shutdown.value.updated.second, read.now, at.now);
        PowerOffSafe(st, at, a);
      }
    }
  }

  lemma PowerCheckSafe(st: Status, out: Outside, a: Answers)
    requires Safe(st, out) && PowerRequested(st.conds)
    ensures var r := PowerCheck(st, out, a); Safe(r.st, r.out)
  {
    if a.power.Some? {
      var e := SawPower(a.power.value);
      LogSafe(st, out, e);
      StageLog(out.history, e);
      if a.power.value {
        MarkSafe(st, Log(out, e), PoweredOff, a, "");
      } else {
        StillRunningSafe(st, Log(out, e), a);
      }
    }
  }

  lemma ExportCallSafe(st: Status, out: Outside, a: Answers)
    requires Safe(st, out) && Has(st.conds, PoweredOff) && st.disks == []
    ensures var r := ExportCall(st, out, a); Safe(r.st, r.out)
  {
    var e := ExportCalled(|st.disks|, a.exportOk);
    LogSafe(st, out, e);
    StageLog(out.history, e);
    var grown := st.(disks := st.disks + NewDisks(a.exported));
    assert Justified(grown, Log(out, e).history) by {
      assert forall i :: 0 <= i < |grown.disks| ==> !Ready(grown.disks[i]);
    }
    MarkSafe(grown, Log(out, e), if a.exportOk then Exported else ExportFailed, a,
             if a.exportOk then "" else EXPORT_ERROR);
  }

  lemma ExportStepSafe(st: Status, out: Outside, a: Answers)
    requires Safe(st, out) && ExportedOnce(st)
    ensures var r := ExportStep(st, out, a); Safe(r.st, r.out)
  {
    var o := Later(out, a.callDelay);
    LaterSafe(st, out, a.callDelay);
    if a.client == ClientOk {
      if a.spec.supported && a.spec.force && !Has(st.conds, PoweringOff) {
        PowerOffSafe(st, o, a);
      } else if !(a.spec.supported && a.spec.force) && !Has(st.conds, ShutdownGuest) {
        ShutdownSafe(st, o, a);
      } else if !Has(st.conds, PoweredOff) {
        PowerCheckSafe(st, o, a);
      } else if !Has(st.conds, Exported) && !Has(st.conds, ExportFailed) {
        ExportCallSafe(st, o, a);
      }
    }
  }

  // ---------------------------------------------------------------- the passes over the disks

  /** A disk that reads as ready was seen imported under the name it carries. */
  lemma {:induction false} ReadSees(d: DiskInfo, out: Outside, conds: seq<ImageCond>, da: DiskAnswers)
    requires Ready(d) ==> SawImported(d.image) in out.history
    ensures var (y, saw) := ReadImage(d, out, conds, da);
            y.image == d.image && (Ready(y) ==> SawImported(y.image) in saw.history)
    decreases |conds|
  {
    if conds != [] {
      if SaysImported(conds[0]) {
        var (d1, out1) := MarkDisk(d, Log(out, SawImported(d.image)), ImageReady, da);
        ReadSees(d1, out1, conds[1..], da);
      } else if SaysFailed(conds[0]) {
        MarkedDisk(d, Log(out, SawImportFailed(d.image)), ImageFailed, da);
        var (d1, out1) := MarkDisk(d, Log(out, SawImportFailed(d.image)), ImageFailed, da);
        ReadSees(d1, out1, conds[1..], da);
      } else {
        ReadSees(d, out, conds[1..], da);
      }
    }
  }

  lemma {:induction false} RefreshSees(st: Status, out: Outside, a: Answers, i: nat)
    requires DisksSeen(st.disks, out.history)
    ensures var r := RefreshFrom(st, out, a, i);
            DisksSeen(r.st.disks, r.out.history)
    decreases |st.disks| - i
  {
    if i < |st.disks| {
      var x := st.disks[i];
      if Ready(x) {
        RefreshSees(st, out, a, i + 1);
      } else if a.disk(i).getOk && x.image in out.images {
        var (d, saw) := ReadImage(x, out, out.images[x.image].conds, a.disk(i));
        ReadSees(x, out, out.images[x.image].conds, a.disk(i));
        ReadAppends(x, out, out.images[x.image].conds, a.disk(i));
        RefreshSees(st.(disks := st.disks[i := d]), saw, a, i + 1);
      }
    }
  }

  // ---------------------------------------------------------------- one reconcile

  lemma PassSafe(st: Status, out: Outside, after: Outside, k: Kind)
    requires Safe(st, out) && Appends(out.history, after.history, k) && k != PowerCalls
    ensures Safe(st, after)
  {
    assert PlainGrowth(out.history, after.history) by {
      forall i | |out.history| <= i < |after.history| ensures Plain(after.history[i]) {
        assert OfKind(after.history[i], k);
      }
    }
    PlainGrowthOk(out.history, after.history);
    JustifiedGrows(st, out.history, after.history);
  }

  ghost predicate SafeOutcome(oc: Outcome) {
    HistoryOk(oc.out.history) && (oc.write.Some? ==> Justified(oc.write.value, oc.out.history))
  }

  /** Phase and name carry no claim, and disks only the one about ready images. */
  lemma JustifiedDisks(st: Status, after: Status, h: seq<Event>)
    requires Justified(st, h) && after.conds == st.conds && DisksSeen(after.disks, h)
    ensures Justified(after, h)
  {
  }

  lemma SubmitSafe(cfg: Config, st: Status, out: Outside, a: Answers)
    requires Safe(st, out) && DisksFitPhase(st)
    ensures SafeOutcome(SubmitImages(cfg, st, out, a))
  {
    var r := SubmitFrom(cfg, st, out, a, 0);
    SubmitAppends(cfg, st, out, a, 0);
    SubmitStays(cfg, st, out, a, 0);
    PassSafe(st, out, r.out, ImageMakes);
    SubmittedSeen(st.disks, r.st.disks, r.out.history);
    var w := SubmitImages(cfg, st, out, a).write;
    if w.Some? && st.disks != [] {
      JustifiedDisks(st, w.value, r.out.history);
    }
  }

  lemma SubmittedSeen(xs: seq<DiskInfo>, ys: seq<DiskInfo>, h: seq<Event>)
    requires DisksSeen(xs, h) && SubmitsDisks(xs, ys)
    requires forall i :: 0 <= i < |xs| && Ready(xs[i]) ==> Submitted(xs[i])
    ensures DisksSeen(ys, h)
  {
    forall i | 0 <= i < |ys| && Ready(ys[i]) ensures SawImported(ys[i].image) in h {
      assert SubmitsDisk(xs[i], ys[i]);
      assert Ready(xs[i]);
    }
  }

  lemma WatchSafe(st: Status, out: Outside, a: Answers)
    requires Safe(st, out)
    ensures SafeOutcome(WatchImages(st, out, a))
  {
    var r := RefreshFrom(st, out, a, 0);
    RefreshSees(st, out, a, 0);
    assert r.st.conds == st.conds by {
      RefreshStays(st, out, a, 0);
    }
    RefreshAppends(st, out, a, 0);
    PassSafe(st, out, r.out, Looks);
    var w := WatchImages(st, out, a).write;
    if w.Some? {
      JustifiedDisks(st, w.value, r.out.history);
    }
  }

  lemma ResubmitSafe(st: Status, out: Outside, a: Answers)
    requires Safe(st, out)
    ensures SafeOutcome(Resubmit(st, out, a))
  {
    var r := CleanFrom(st, out, a, 0);
    CleanAppends(st, out, a, 0);
    CleanStays(st, out, a, 0);
    PassSafe(st, out, r.out, Deletes);
    if r.err == NoError {
      forall i | 0 <= i < |r.st.disks| && Ready(r.st.disks[i])
        ensures SawImported(r.st.disks[i].image) in r.out.history
      {
        assert CleansDisk(st.disks[i], r.st.disks[i]);
        assert Ready(st.disks[i]);
      }
    }
  }

  lemma VmEventOk(st: Status, h: seq<Event>)
    requires Justified(st, h) && st.phase == DiskImagesReady && ExportedOnce(st) && DisksFitPhase(st)
    ensures EventOk(h, VmMade(st.importedName, ImageNames(st.disks)))
  {
    forall n | n in ImageNames(st.disks) ensures SawImported(n) in h {
      var i :| 0 <= i < |st.disks| && ImageNames(st.disks)[i] == n;
      assert Ready(st.disks[i]);
    }
  }

  lemma MakeVmSafe(st: Status, out: Outside, a: Answers)
    requires Safe(st, out) && st.phase == DiskImagesReady && ExportedOnce(st) && DisksFitPhase(st)
    ensures SafeOutcome(MakeVm(st, out, a))
  {
    var ready := PvcFrom(st.disks, out, a, 0).0;
    var made := CreateVm(st, out, a).0;
    assert Safe(st, made) by {
      CreateVmAppends(st, out, a);
      PvcAppends(st.disks, out, a, 0);
      PassSafe(st, out, ready, VolumeMakes);
      VmEventOk(st, ready.history);
      LogSafe(st, ready, VmMade(st.importedName, ImageNames(st.disks)));
    }
    MakeVmWrites(st, out, a);
    var w := MakeVm(st, out, a).write;
    if w.Some? {
      JustifiedDisks(st, w.value, made.history);
    }
  }

  lemma MakeVmWrites(st: Status, out: Outside, a: Answers)
    ensures var oc := MakeVm(st, out, a);
            && oc.out == CreateVm(st, out, a).0
            && (oc.write.Some? ==> oc.write.value.conds == st.conds && oc.write.value.disks == st.disks)
  {
  }

  lemma RunExportSafe(st: Status, out: Outside, a: Answers)
    requires Safe(st, out) && ExportedOnce(st)
    ensures SafeOutcome(RunExport(st, out, a))
  {
    ExportStepSafe(st, out, a);
    var oc := RunExport(st, out, a);
    if oc.write.Some? {
      JustifiedDisks(ExportStep(st, out, a).st, oc.write.value, oc.out.history);
    }
  }

  predicate IsQuiet(p: Phase) {
    || p == Unset || p == ImportValid || p == VirtualMachineCreated || p == VirtualMachineRunning
    || p == ImportInvalid || p == MigrationFailed
  }

  lemma QuietHistory(cfg: Config, st: Status, out: Outside, a: Answers)
    requires IsQuiet(st.phase)
    ensures Handle(cfg, st, out, a).out.history == out.history
    ensures var w := Handle(cfg, st, out, a).write; w.Some? ==> w.value.disks == st.disks && w.value.conds == st.conds
  {
    TidyTouchesImages(cfg, st.disks, out, a, 0);
  }

  /** The phases whose step makes no recorded call. */
  lemma QuietSafe(cfg: Config, st: Status, out: Outside, a: Answers)
    requires Safe(st, out)
    requires IsQuiet(st.phase)
    ensures SafeOutcome(Handle(cfg, st, out, a))
  {
    QuietHistory(cfg, st, out, a);
    var oc := Handle(cfg, st, out, a);
    if oc.write.Some? {
      JustifiedDisks(st, oc.write.value, oc.out.history);
    }
  }

  lemma HandleSafe(cfg: Config, st: Status, out: Outside, a: Answers)
    requires Safe(st, out) && Inv(cfg, st)
    ensures SafeOutcome(Handle(cfg, st, out, a))
  {
    match st.phase
    case SourceReady => RunExportSafe(st, out, a);
    case DisksExported => SubmitSafe(cfg, st, out, a);
    case DiskImagesSubmitted => WatchSafe(st, out, a);
    case DiskImagesFailed => ResubmitSafe(st, out, a);
    case DiskImagesReady => MakeVmSafe(st, out, a);
    case _ => QuietSafe(cfg, st, out, a);
  }

  // ---------------------------------------------------------------- every run

  ghost predicate WorldSafe(w: World) {
    HistoryOk(w.out.history) && forall i :: 0 <= i < |w.log| ==> Justified(w.log[i], w.out.history)
  }

  lemma HandleGrowth(cfg: Config, st: Status, out: Outside, a: Answers)
    ensures out.history <= Handle(cfg, st, out, a).out.history
  {
    match st.phase
    case SourceReady => ExportAppends(st, out, a);
    case DisksExported => SubmitAppends(cfg, st, out, a, 0);
    case DiskImagesSubmitted => RefreshAppends(st, out, a, 0);
    case DiskImagesFailed => CleanAppends(st, out, a, 0);
    case DiskImagesReady =>
      CreateVmAppends(st, out, a);
      PvcAppends(st.disks, out, a, 0);
      MakeVmWrites(st, out, a);
    case VirtualMachineRunning => TidyTouchesImages(cfg, st.disks, out, a, 0);
    case _ =>
  }

  lemma WorldSafeStep(cfg: Config, w: World, s: Step)
    requires WorldSafe(w) && AllInv(cfg, w.log)
    ensures WorldSafe(Apply(cfg, w, s))
  {
    if s.Reconcile? && s.read < |w.log| {
      var st := w.log[s.read];
      HandleSafe(cfg, st, w.out, s.a);
      HandleGrowth(cfg, st, w.out, s.a);
      var h := Handle(cfg, st, w.out, s.a).out.history;
      forall i | 0 <= i < |w.log| ensures Justified(w.log[i], h) {
        JustifiedGrows(w.log[i], w.out.history, h);
      }
    }
  }

  lemma {:induction false} RunIsSafe(cfg: Config, w: World, steps: seq<Step>)
    requires Start(w)
    ensures WorldSafe(Run(cfg, w, steps))
    decreases |steps|
  {
    if steps != [] {
      RunIsSafe(cfg, w, steps[..|steps| - 1]);
      EveryVersionInv(cfg, w, steps[..|steps| - 1]);
      WorldSafeStep(cfg, Run(cfg, w, steps[..|steps| - 1]), steps[|steps| - 1]);
    }
  }

  /** Whole-run safety. In every run, with any stale reads, failed calls, crashes and lost writes: before a
      KubeVirt VM is created, the source accepted a shutdown or power off, later was seen off, later was
      exported successfully, and the image behind every disk of the VM was seen imported. */
  lemma VmCreatedOnlyAfterImport(cfg: Config, w: World, steps: seq<Step>, k: nat)
    returns (requested: nat, off: nat, exported: nat)
    requires Start(w)
    requires k < |Run(cfg, w, steps).out.history| && Run(cfg, w, steps).out.history[k].VmMade?
    ensures var h := Run(cfg, w, steps).out.history;
            && requested < off < exported < k
            && IsRequest(h[requested]) && h[off] == SawPower(true) && h[exported].ExportCalled? && h[exported].ok
            && h[k].images != [] && forall n :: n in h[k].images ==> SawImported(n) in h[..k]
  {
    RunIsSafe(cfg, w, steps);
    var h := Run(cfg, w, steps).out.history;
    assert EventOk(h[..k], h[k]);
    requested, off, exported := StageWitness(h[..k]);
  }

  /** An export is always called with an empty disk list, after the source was seen powered off. */
  lemma ExportOnlyOnEmptyList(cfg: Config, w: World, steps: seq<Step>, k: nat)
    requires Start(w)
    requires k < |Run(cfg, w, steps).out.history| && Run(cfg, w, steps).out.history[k].ExportCalled?
    ensures var h := Run(cfg, w, steps).out.history; h[k].disksBefore == 0 && SawPower(true) in h[..k]
  {
    RunIsSafe(cfg, w, steps);
    var h := Run(cfg, w, steps).out.history;
    assert EventOk(h[..k], h[k]);
    var i, j, _ := StageWitness(h[..k]);
  }

  /** PowerOff is never called on a source that is read as not supporting it; unless the spec as it was read asked
      to force it, only more than that spec's setting (60 if it is not positive) less one second after the source
      accepted a shutdown. */
  lemma ForcedPowerOffWaits(cfg: Config, w: World, steps: seq<Step>, k: nat)
    requires Start(w)
    requires k < |Run(cfg, w, steps).out.history| && Run(cfg, w, steps).out.history[k].PowerOffCalled?
    ensures var h := Run(cfg, w, steps).out.history;
            var spec := h[k].spec;
            var seconds := if spec.timeoutSeconds > 0 then spec.timeoutSeconds else 60;
            && spec.supported
            && (!spec.force ==>
                  exists j :: 0 <= j < k && h[j].ShutdownCalled? && h[j].ok
                              && h[k].at - h[j].at > (seconds - 1) * 1_000_000_000)
  {
    RunIsSafe(cfg, w, steps);
    var h := Run(cfg, w, steps).out.history;
    assert EventOk(h[..k], h[k]);
    var spec := h[k].spec;
    var seconds := if spec.timeoutSeconds > 0 then spec.timeoutSeconds else 60;
    if !spec.force {
      var t: nat :| ShutdownCalled(true, t) in h[..k] && h[k].at - t > (seconds - 1) * 1_000_000_000;
      var j :| 0 <= j < k && h[..k][j] == ShutdownCalled(true, t);
      assert h[j] == ShutdownCalled(true, t);
    }
  }
}
