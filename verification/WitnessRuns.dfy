/** Runs from the start that show the bounds and the dead ends are real: a prompt run with eight changes of phase,
    runs that end stuck and orphaned, and runs that go back any number of times while a deleted image lingers. */
module WitnessRuns {
  import opened Wrappers
  import opened Conditions
  import opened ImportTypes
  import opened DiskVerdict
  import opened DiskImages
  import opened PowerAndExport
  import opened Reconciler
  import opened ImportMachine
  import opened ImportSystem
  import opened ImageStore
  import opened Progress
  import opened Resubmission
  import opened GettingThrough

  const FAILED_IMPORT := [ImageCond(true, ConditionFalse, "ImportFailed")]

  // ---------------------------------------------------------------- one accepted reconcile

  /** The newest version is reconciled and its write accepted. */
  function Newest(cfg: Config, w: World, a: Answers): World
    requires w.log != []
  {
    Settle(w, |w.log| - 1, true, Handle(cfg, Current(w), w.out, a))
  }

  predicate Wrote(w: World, after: World) {
    w.log != [] && after.log != [] && after.log == w.log + [Current(after)]
  }

  lemma CountsMore(w: World, after: World)
    requires Wrote(w, after)
    ensures var p, q := Current(w).phase, Current(after).phase;
            && Changes(after.log) == Changes(w.log) + (if p != q then 1 else 0)
            && Backs(after.log) == Backs(w.log) + if p == DiskImagesFailed && q == SourceReady then 1 else 0
  {
    assert after.log[..|after.log| - 1] == w.log;
  }

  lemma PromptMore(steps: seq<Step>, s: Step)
    requires Prompt(steps) && (s.Reconcile? ==> PromptDeletes(s.a))
    ensures Prompt(steps + [s])
  {
  }

  lemma Reconciled(cfg: Config, w: World, a: Answers, steps: seq<Step>) returns (more: seq<Step>)
    requires Run(cfg, w, steps).log != [] && Wrote(Run(cfg, w, steps), Newest(cfg, Run(cfg, w, steps), a))
    ensures var before, after := Run(cfg, w, steps), Run(cfg, w, more);
            var p, q := Current(before).phase, Current(Newest(cfg, before, a)).phase;
            && after == Newest(cfg, before, a)
            && Changes(after.log) == Changes(before.log) + (if p != q then 1 else 0)
            && Backs(after.log) == Backs(before.log) + (if p == DiskImagesFailed && q == SourceReady then 1 else 0)
    ensures Prompt(steps) && PromptDeletes(a) ==> Prompt(more)
  {
    var at := Run(cfg, w, steps);
    var s := Reconcile(|at.log| - 1, a, true);
    more := steps + [s];
    RunOneMore(cfg, w, steps, s);
    CountsMore(at, Newest(cfg, at, a));
    if Prompt(steps) && PromptDeletes(a) {
      PromptMore(steps, s);
    }
  }

  // ---------------------------------------------------------------- a young import

  /** Exactly these conditions are true. */
  ghost predicate Marks(conds: seq<Condition>, types: set<CondType>) {
    forall t :: Has(conds, t) <==> t in types
  }

  /** A young import in an empty namespace. */
  ghost predicate Young(w: World, p: Phase, conds: set<CondType>) {
    && w.log != [] && w.out.images == map[] && "image" !in w.out.used
    && var st := Current(w);
       st.phase == p && st.disks == [] && Marks(st.conds, conds)
  }

  lemma ValidYoung(cfg: Config, w: World, name: string, lingers: bool)
    requires Young(w, Unset, {})
    ensures var after := Newest(cfg, w, Answering(name, lingers)); Wrote(w, after) && Young(after, ImportValid, {})
  {
    assert Current(Newest(cfg, w, Answering(name, lingers))).conds == Current(w).conds;
  }

  lemma ReadyYoung(cfg: Config, w: World, name: string, lingers: bool)
    requires cfg.isDnsLabel(name) && Young(w, ImportValid, {})
    ensures var after := Newest(cfg, w, Answering(name, lingers)); Wrote(w, after) && Young(after, SourceReady, {})
  {
    assert Current(Newest(cfg, w, Answering(name, lingers))).conds == Current(w).conds;
  }

  lemma RequestYoung(cfg: Config, w: World, name: string, lingers: bool)
    requires Young(w, SourceReady, {})
    ensures var after := Newest(cfg, w, Answering(name, lingers));
            Wrote(w, after) && Young(after, SourceReady, {ShutdownGuest})
  {
    var st, a, out := Current(w), Answering(name, lingers), w.out;
    var called := Log(Later(out, 0), ShutdownCalled(true, out.now));
    forall t ensures Has(Mark(st, called, ShutdownGuest, a, "").st.conds, t) <==> t == ShutdownGuest {
      MarkAsks(st, called, ShutdownGuest, a, "", t, ConditionTrue);
      assert !Has(st.conds, t);
    }
    assert ExportStep(st, out, a) == Mark(st, called, ShutdownGuest, a, "");
  }

  lemma CheckMarked(st: Status, out: Outside, a: Answers, request: CondType)
    requires Marks(st.conds, {request})
    ensures Marks(Mark(st, out, PoweredOff, a, "").st.conds, {request, PoweredOff})
  {
    forall t ensures Has(Mark(st, out, PoweredOff, a, "").st.conds, t) <==> t in {request, PoweredOff} {
      MarkAsks(st, out, PoweredOff, a, "", t, ConditionTrue);
      assert Has(st.conds, t) <==> t in {request};
    }
  }

  /** The step of a young import whose power off was requested is the power check. */
  lemma CheckIsNext(st: Status, out: Outside, name: string, lingers: bool)
    requires Marks(st.conds, {ShutdownGuest})
    ensures var a := Answering(name, lingers); ExportStep(st, out, a) == PowerCheck(st, Later(out, 0), a)
  {
    assert Has(st.conds, ShutdownGuest) && !Has(st.conds, PoweredOff);
  }

  lemma CheckYoung(cfg: Config, w: World, name: string, lingers: bool)
    requires Young(w, SourceReady, {ShutdownGuest})
    ensures var after := Newest(cfg, w, Answering(name, lingers));
            Wrote(w, after) && Young(after, SourceReady, {ShutdownGuest, PoweredOff})
  {
    var st, a, out := Current(w), Answering(name, lingers), w.out;
    var saw := Log(Later(out, 0), SawPower(true));
    CheckIsNext(st, out, name, lingers);
    CheckMarked(st, saw, a, ShutdownGuest);
    assert PowerCheck(st, Later(out, 0), a) == Mark(st, saw, PoweredOff, a, "");
  }

  predicate ExportDone(conds: seq<Condition>) {
    Has(conds, ShutdownGuest) && Has(conds, PoweredOff) && Has(conds, Exported) && !Has(conds, ExportFailed)
  }

  /** The disk is exported. */
  predicate Filled(w: World) {
    && w.log != [] && w.out.images == map[] && "image" !in w.out.used
    && var st := Current(w);
       st.phase == DisksExported && |st.disks| == 1 && st.disks[0].conds == [] && ExportDone(st.conds)
  }

  lemma ExportMarked(st: Status, out: Outside, a: Answers)
    requires Marks(st.conds, {ShutdownGuest, PoweredOff})
    ensures ExportDone(Mark(st, out, Exported, a, "").st.conds)
  {
    assert Has(st.conds, PoweredOff) && Has(st.conds, ShutdownGuest) && !Has(st.conds, ExportFailed);
    MarkAsks(st, out, Exported, a, "", ShutdownGuest, ConditionTrue);
    MarkAsks(st, out, Exported, a, "", PoweredOff, ConditionTrue);
    MarkAsks(st, out, Exported, a, "", Exported, ConditionTrue);
    MarkAsks(st, out, Exported, a, "", ExportFailed, ConditionTrue);
  }

  /** The export step of a young import is the export itself. */
  lemma ExportIsNext(st: Status, out: Outside, name: string, lingers: bool)
    requires Marks(st.conds, {ShutdownGuest, PoweredOff})
    ensures var a := Answering(name, lingers); ExportStep(st, out, a) == ExportCall(st, Later(out, 0), a)
  {
    assert Has(st.conds, PoweredOff) && Has(st.conds, ShutdownGuest);
    assert !Has(st.conds, Exported) && !Has(st.conds, ExportFailed);
  }

  lemma ExportYoung(cfg: Config, w: World, name: string, lingers: bool)
    requires Young(w, SourceReady, {ShutdownGuest, PoweredOff})
    ensures var after := Newest(cfg, w, Answering(name, lingers)); Wrote(w, after) && Filled(after)
  {
    var st, a := Current(w), Answering(name, lingers);
    var called := Log(Later(w.out, 0), ExportCalled(0, true));
    var grown := st.(disks := st.disks + NewDisks(a.exported));
    ExportIsNext(st, w.out, name, lingers);
    ExportMarked(grown, called, a);
    assert ExportCall(st, Later(w.out, 0), a) == Mark(grown, called, Exported, a, "");
  }

  // ---------------------------------------------------------------- one submitted disk

  /** One disk was exported and submitted under the name "image", and the import is in phase p. */
  predicate Held(w: World, p: Phase) {
    && w.log != [] && "image" in w.out.used
    && var st := Current(w);
       && st.phase == p && |st.disks| == 1 && ExportDone(st.conds)
       && Submitted(st.disks[0]) && !Ready(st.disks[0]) && (Failed(st.disks[0]) <==> p == DiskImagesFailed)
       && st.disks[0].image == "image"
  }

  /** Its image is there and says that the import failed. */
  predicate Failing(w: World) {
    "image" in w.out.images && w.out.images["image"].conds == FAILED_IMPORT
  }

  lemma SubmitFilled(cfg: Config, w: World, name: string, lingers: bool)
    requires Filled(w)
    ensures var after := Newest(cfg, w, Answering(name, lingers));
            Wrote(w, after) && Held(after, DiskImagesSubmitted) && "image" in after.out.images
  {
    var st, a := Current(w), Answering(name, lingers);
    var x, da := st.disks[0], a.disk(0);
    var tag := ImageLabel(cfg, x.name);
    assert Listed(w.out, tag, da.list) == Some({}) by {
      assert Tagged(w.out.images, tag) == {};
    }
    assert NameFree(w.out, "image");
    var made := StoreImage(cfg, w.out, "image", tag, false);
    assert CheckAndCreate(cfg, x, w.out, da) == (Some("image"), made);
    MarkedDisk(x.(image := "image"), made, ImageSubmitted, da);
    var (d, marked) := MarkDisk(x.(image := "image"), made, ImageSubmitted, da);
    var next := st.(disks := st.disks[0 := d]);
    assert SubmitFrom(cfg, st, w.out, a, 0) == SubmitFrom(cfg, next, marked, a, 1) == Ran(next, marked, NoError);
    assert AllSubmitted(next.disks);
  }

  lemma ReadFailed(d: DiskInfo, out: Outside, da: DiskAnswers)
    requires !Ready(d)
    ensures var (y, after) := ReadImage(d, out, FAILED_IMPORT, da);
            && y == d.(conds := y.conds) && Failed(y) && !Ready(y) && (Submitted(d) ==> Submitted(y))
            && after.images == out.images && after.used == out.used
  {
    var (y, after) := MarkDisk(d, Log(out, SawImportFailed(d.image)), ImageFailed, da);
    MarkedDisk(d, Log(out, SawImportFailed(d.image)), ImageFailed, da);
    assert FAILED_IMPORT[1..] == [];
    assert ReadImage(y, after, [], da) == (y, after);
  }

  lemma WatchHeld(cfg: Config, w: World, name: string, lingers: bool)
    requires Held(w, DiskImagesSubmitted) && Failing(w)
    ensures var after := Newest(cfg, w, Answering(name, lingers));
            Wrote(w, after) && Held(after, DiskImagesFailed) && Failing(after)
  {
    var st, a := Current(w), Answering(name, lingers);
    var x := st.disks[0];
    ReadFailed(x, w.out, a.disk(0));
    var (d, saw) := ReadImage(x, w.out, FAILED_IMPORT, a.disk(0));
    var next := st.(disks := st.disks[0 := d]);
    assert RefreshFrom(st, w.out, a, 0) == RefreshFrom(next, saw, a, 1) == Ran(next, saw, NoError);
    FailedVerdictExact(next.disks);
  }

  /** The clean-up of the one disk: its mark goes, its image only if it does not linger. */
  lemma CleanOne(cfg: Config, w: World, name: string, lingers: bool)
    requires Held(w, DiskImagesFailed) && Failing(w)
    ensures var r := CleanFrom(Current(w), w.out, Answering(name, lingers), 0);
            && r.err == NoError && |r.st.disks| == 1 && CleansDisk(Current(w).disks[0], r.st.disks[0])
            && r.st == Current(w).(disks := r.st.disks) && r.out.used == w.out.used
            && r.out.images == if lingers then w.out.images else w.out.images - {"image"}
  {
    var st, a := Current(w), Answering(name, lingers);
    var x := st.disks[0];
    DroppedMark(x);
    var d := x.(conds := Drop(x.conds, ImageFailed, ConditionTrue));
    var next := st.(disks := st.disks[0 := d]);
    var (deleted, _) := DeleteImage(w.out, x.image, a.disk(0));
    assert CleanFrom(st, w.out, a, 0) == CleanFrom(next, deleted, a, 1) == Ran(next, deleted, NoError);
  }

  lemma CleanHeld(cfg: Config, w: World, name: string, lingers: bool)
    requires Held(w, DiskImagesFailed) && Failing(w)
    ensures var after := Newest(cfg, w, Answering(name, lingers));
            Wrote(w, after) && Held(after, SourceReady) && (lingers ==> Failing(after))
  {
    CleanOne(cfg, w, name, lingers);
    var r := CleanFrom(Current(w), w.out, Answering(name, lingers), 0);
    CleanedDisk(Current(w).disks[0], r.st.disks[0]);
  }

  lemma CleanedDisk(x: DiskInfo, y: DiskInfo)
    requires CleansDisk(x, y) && Failed(x) && Submitted(x) && !Ready(x)
    ensures Submitted(y) && !Ready(y) && !Failed(y) && y.image == x.image
  {
  }

  lemma ExportHeld(cfg: Config, w: World, name: string, lingers: bool)
    requires Held(w, SourceReady)
    ensures var after := Newest(cfg, w, Answering(name, lingers));
            Wrote(w, after) && Held(after, DisksExported) && (Failing(w) ==> Failing(after))
  {
    var st, a := Current(w), Answering(name, lingers);
    assert ExportStep(st, w.out, a) == Ran(st, Later(w.out, 0), NoError);
  }

  lemma SubmitHeld(cfg: Config, w: World, name: string, lingers: bool)
    requires Held(w, DisksExported)
    ensures var after := Newest(cfg, w, Answering(name, lingers));
            Wrote(w, after) && Held(after, DiskImagesSubmitted) && (Failing(w) ==> Failing(after))
  {
    var st, a := Current(w), Answering(name, lingers);
    assert SubmitFrom(cfg, st, w.out, a, 0) == SubmitFrom(cfg, st, w.out, a, 1) == Ran(st, w.out, NoError);
    assert AllSubmitted(st.disks);
  }

  // ---------------------------------------------------------------- getting there

  predicate CanStart(cfg: Config, w: World, name: string) {
    Start(w) && w.out.images == map[] && "image" !in w.out.used && cfg.isDnsLabel(name)
  }

  lemma StartYoung(cfg: Config, w: World, name: string)
    requires CanStart(cfg, w, name)
    ensures Young(w, Unset, {}) && Changes(w.log) == 0 && Backs(w.log) == 0
  {
  }

  lemma GetsPoweredOff(cfg: Config, w: World, name: string, lingers: bool) returns (steps: seq<Step>)
    requires CanStart(cfg, w, name)
    ensures Young(Run(cfg, w, steps), SourceReady, {ShutdownGuest, PoweredOff})
    ensures Changes(Run(cfg, w, steps).log) == 2 && Backs(Run(cfg, w, steps).log) == 0
    ensures !lingers ==> Prompt(steps)
  {
    var a := Answering(name, lingers);
    StartYoung(cfg, w, name);
    steps := [];
    ValidYoung(cfg, Run(cfg, w, steps), name, lingers);
    steps := Reconciled(cfg, w, a, steps);
    ReadyYoung(cfg, Run(cfg, w, steps), name, lingers);
    steps := Reconciled(cfg, w, a, steps);
    RequestYoung(cfg, Run(cfg, w, steps), name, lingers);
    steps := Reconciled(cfg, w, a, steps);
    CheckYoung(cfg, Run(cfg, w, steps), name, lingers);
    steps := Reconciled(cfg, w, a, steps);
  }

  lemma GetsHeld(cfg: Config, w: World, name: string, lingers: bool) returns (steps: seq<Step>)
    requires CanStart(cfg, w, name)
    ensures Held(Run(cfg, w, steps), DiskImagesSubmitted) && "image" in Run(cfg, w, steps).out.images
    ensures Changes(Run(cfg, w, steps).log) == 4 && Backs(Run(cfg, w, steps).log) == 0
    ensures !lingers ==> Prompt(steps)
  {
    var a := Answering(name, lingers);
    steps := GetsPoweredOff(cfg, w, name, lingers);
    ExportYoung(cfg, Run(cfg, w, steps), name, lingers);
    steps := Reconciled(cfg, w, a, steps);
    SubmitFilled(cfg, Run(cfg, w, steps), name, lingers);
    steps := Reconciled(cfg, w, a, steps);
  }

  lemma ImageFails(cfg: Config, w: World)
    requires Held(w, DiskImagesSubmitted) && "image" in w.out.images
    ensures var after := Apply(cfg, w, ImageChanges("image", FAILED_IMPORT));
            after.log == w.log && Held(after, DiskImagesSubmitted) && Failing(after)
  {
  }

  /** Every import with a valid name can get its one image failed. */
  lemma GetsFailing(cfg: Config, w: World, name: string, lingers: bool) returns (steps: seq<Step>)
    requires CanStart(cfg, w, name)
    ensures Held(Run(cfg, w, steps), DiskImagesSubmitted) && Failing(Run(cfg, w, steps))
    ensures Changes(Run(cfg, w, steps).log) == 4 && Backs(Run(cfg, w, steps).log) == 0
    ensures !lingers ==> Prompt(steps)
  {
    var held := GetsHeld(cfg, w, name, lingers);
    var s := ImageChanges("image", FAILED_IMPORT);
    ImageFails(cfg, Run(cfg, w, held));
    RunOneMore(cfg, w, held, s);
    steps := held + [s];
    if !lingers {
      PromptMore(held, s);
    }
  }

  lemma GetsFailed(cfg: Config, w: World, name: string, lingers: bool, steps: seq<Step>) returns (more: seq<Step>)
    requires Held(Run(cfg, w, steps), DiskImagesSubmitted) && Failing(Run(cfg, w, steps))
    ensures var before, after := Run(cfg, w, steps).log, Run(cfg, w, more).log;
            Changes(after) == Changes(before) + 1 && Backs(after) == Backs(before)
    ensures Held(Run(cfg, w, more), DiskImagesFailed) && Failing(Run(cfg, w, more))
    ensures !lingers && Prompt(steps) ==> Prompt(more)
  {
    WatchHeld(cfg, Run(cfg, w, steps), name, lingers);
    more := Reconciled(cfg, w, Answering(name, lingers), steps);
  }

  lemma GoesBack(cfg: Config, w: World, name: string, lingers: bool, steps: seq<Step>) returns (more: seq<Step>)
    requires Held(Run(cfg, w, steps), DiskImagesFailed) && Failing(Run(cfg, w, steps))
    ensures var before, after := Run(cfg, w, steps).log, Run(cfg, w, more).log;
            Changes(after) == Changes(before) + 1 && Backs(after) == Backs(before) + 1
    ensures Held(Run(cfg, w, more), SourceReady) && (lingers ==> Failing(Run(cfg, w, more)))
    ensures !lingers && Prompt(steps) ==> Prompt(more)
  {
    CleanHeld(cfg, Run(cfg, w, steps), name, lingers);
    more := Reconciled(cfg, w, Answering(name, lingers), steps);
  }

  lemma SubmitsAgain(cfg: Config, w: World, name: string, lingers: bool, steps: seq<Step>) returns (more: seq<Step>)
    requires Held(Run(cfg, w, steps), SourceReady)
    ensures var before, after := Run(cfg, w, steps).log, Run(cfg, w, more).log;
            Changes(after) == Changes(before) + 2 && Backs(after) == Backs(before)
    ensures Held(Run(cfg, w, more), DiskImagesSubmitted)
    ensures Failing(Run(cfg, w, steps)) ==> Failing(Run(cfg, w, more))
    ensures !lingers && Prompt(steps) ==> Prompt(more)
  {
    ExportHeld(cfg, Run(cfg, w, steps), name, lingers);
    var exported := Reconciled(cfg, w, Answering(name, lingers), steps);
    SubmitHeld(cfg, Run(cfg, w, exported), name, lingers);
    more := Reconciled(cfg, w, Answering(name, lingers), exported);
  }

  // ---------------------------------------------------------------- the witnesses

  /** The bound of eight is met: a run with prompt deletes, eight changes of phase and one backward edge. */
  lemma EightChangesHappen(cfg: Config, w: World, name: string) returns (steps: seq<Step>)
    requires CanStart(cfg, w, name)
    ensures Prompt(steps) && Changes(Run(cfg, w, steps).log) == 8 && Backs(Run(cfg, w, steps).log) == 1
  {
    var failing := GetsFailing(cfg, w, name, false);
    var failed := GetsFailed(cfg, w, name, false, failing);
    var back := GoesBack(cfg, w, name, false, failed);
    steps := SubmitsAgain(cfg, w, name, false, back);
  }

  lemma NeverFoundMore(cfg: Config, w: World, steps: seq<Step>, s: Step)
    requires NeverFoundAgain(cfg, w, steps) && StepNeverFinds(Run(cfg, w, steps), s)
    ensures NeverFoundAgain(cfg, w, steps + [s])
  {
    assert (steps + [s])[..|steps|] == steps;
  }

  /** A reconcile that does not watch keeps a run in which nothing deleted is found again. */
  lemma ReconciledUnseen(cfg: Config, w: World, a: Answers, steps: seq<Step>) returns (more: seq<Step>)
    requires Run(cfg, w, steps).log != [] && Wrote(Run(cfg, w, steps), Newest(cfg, Run(cfg, w, steps), a))
    requires NeverFoundAgain(cfg, w, steps) && Current(Run(cfg, w, steps)).phase != DiskImagesSubmitted
    ensures var before, after := Run(cfg, w, steps), Run(cfg, w, more);
            var p, q := Current(before).phase, Current(Newest(cfg, before, a)).phase;
            && after == Newest(cfg, before, a)
            && Changes(after.log) == Changes(before.log) + (if p != q then 1 else 0)
            && Backs(after.log) == Backs(before.log) + (if p == DiskImagesFailed && q == SourceReady then 1 else 0)
    ensures NeverFoundAgain(cfg, w, more) && more == steps + [Reconcile(|Run(cfg, w, steps).log| - 1, a, true)]
  {
    var at := Run(cfg, w, steps);
    var s := Reconcile(|at.log| - 1, a, true);
    more := steps + [s];
    RunOneMore(cfg, w, steps, s);
    CountsMore(at, Newest(cfg, at, a));
    NeverFoundMore(cfg, w, steps, s);
  }

  lemma ImageLeaves(cfg: Config, w: World, p: Phase)
    requires Held(w, p)
    ensures var after := Apply(cfg, w, ImageRemoved("image"));
            after.log == w.log && Held(after, p) && "image" !in after.out.images
  {
  }

  /** An ordinary delete: the image lingers after the clean-up and is gone a little later. */
  lemma LingersThenLeaves(cfg: Config, w: World, name: string, failed: seq<Step>) returns (steps: seq<Step>)
    requires Held(Run(cfg, w, failed), DiskImagesFailed) && Failing(Run(cfg, w, failed))
    requires NeverFoundAgain(cfg, w, failed)
    ensures Held(Run(cfg, w, steps), SourceReady) && NeverFoundAgain(cfg, w, steps) && !Prompt(steps)
    ensures var before, after := Run(cfg, w, failed).log, Run(cfg, w, steps).log;
            Changes(after) == Changes(before) + 1 && Backs(after) == Backs(before) + 1
  {
    CleanHeld(cfg, Run(cfg, w, failed), name, true);
    var back := ReconciledUnseen(cfg, w, Answering(name, true), failed);
    ImageLeaves(cfg, Run(cfg, w, back), SourceReady);
    RunOneMore(cfg, w, back, ImageRemoved("image"));
    NeverFoundMore(cfg, w, back, ImageRemoved("image"));
    steps := back + [ImageRemoved("image")];
    assert steps[|failed|].a == Answering(name, true) && Answering(name, true).disk(0).lingers;
  }

  lemma SubmitsAgainUnseen(cfg: Config, w: World, name: string, steps: seq<Step>) returns (more: seq<Step>)
    requires Held(Run(cfg, w, steps), SourceReady) && NeverFoundAgain(cfg, w, steps)
    ensures NeverFoundAgain(cfg, w, more) && steps <= more
    ensures var before, after := Run(cfg, w, steps).log, Run(cfg, w, more).log;
            Changes(after) == Changes(before) + 2 && Backs(after) == Backs(before)
  {
    ExportHeld(cfg, Run(cfg, w, steps), name, false);
    var exported := ReconciledUnseen(cfg, w, Answering(name, false), steps);
    SubmitHeld(cfg, Run(cfg, w, exported), name, false);
    more := ReconciledUnseen(cfg, w, Answering(name, false), exported);
  }

  /** The bound applies beyond prompt deletes, and is met there too: the deleted image lingers, leaves, and the run
      has its eight changes of phase and its one backward edge. */
  lemma EightChangesWithLingering(cfg: Config, w: World, name: string) returns (steps: seq<Step>)
    requires CanStart(cfg, w, name)
    ensures NeverFoundAgain(cfg, w, steps) && !Prompt(steps)
    ensures Changes(Run(cfg, w, steps).log) == 8 && Backs(Run(cfg, w, steps).log) == 1
  {
    var failing := GetsFailing(cfg, w, name, false);
    var failed := GetsFailed(cfg, w, name, false, failing);
    PromptNeverFinds(cfg, w, failed);
    var back := LingersThenLeaves(cfg, w, name, failed);
    steps := SubmitsAgainUnseen(cfg, w, name, back);
    StillLingered(back, steps);
  }

  lemma StillLingered(steps: seq<Step>, more: seq<Step>)
    requires !Prompt(steps) && steps <= more
    ensures !Prompt(more)
  {
    var i :| 0 <= i < |steps| && steps[i].Reconcile? && !PromptDeletes(steps[i].a);
    assert more[i] == steps[i];
  }

  /** Imports do get stuck: one prompt clean-up of one failed image is enough. */
  lemma ImportsGetStuck(cfg: Config, w: World, name: string) returns (steps: seq<Step>)
    requires CanStart(cfg, w, name)
    ensures Prompt(steps) && Stuck(cfg, Run(cfg, w, steps))
  {
    var failing := GetsFailing(cfg, w, name, false);
    var failed := GetsFailed(cfg, w, name, false, failing);
    steps := GoesBack(cfg, w, name, false, failed);
    BackMeansStuck(cfg, w, steps);
  }

  lemma LostCleanOrphans(cfg: Config, w: World, name: string)
    requires Held(w, DiskImagesFailed) && Failing(w)
    ensures var after := Settle(w, |w.log| - 1, false, Handle(cfg, Current(w), w.out, Answering(name, false)));
            after.log == w.log && Orphaned(Current(after), after.out)
  {
    CleanOne(cfg, w, name, false);
    assert Failed(Current(w).disks[0]);
  }

  /** And they do get orphaned: the same clean-up with its status write lost is enough. */
  lemma ImportsGetOrphaned(cfg: Config, w: World, name: string) returns (steps: seq<Step>)
    requires CanStart(cfg, w, name)
    ensures Prompt(steps) && Run(cfg, w, steps).log != []
    ensures var r := Run(cfg, w, steps); NamesUsed(r.out) && Orphaned(r.log[|r.log| - 1], r.out)
  {
    var failing := GetsFailing(cfg, w, name, false);
    var failed := GetsFailed(cfg, w, name, false, failing);
    var at := Run(cfg, w, failed);
    var s := Reconcile(|at.log| - 1, Answering(name, false), false);
    LostCleanOrphans(cfg, at, name);
    RunOneMore(cfg, w, failed, s);
    PromptMore(failed, s);
    steps := failed + [s];
    RunNamesUsed(cfg, w, steps);
  }

  lemma {:induction false} AnyTimesRound(cfg: Config, w: World, name: string, steps: seq<Step>, n: nat)
    returns (more: seq<Step>)
    requires Held(Run(cfg, w, steps), DiskImagesSubmitted) && Failing(Run(cfg, w, steps))
    ensures Held(Run(cfg, w, more), DiskImagesSubmitted) && Failing(Run(cfg, w, more))
    ensures Backs(Run(cfg, w, more).log) == Backs(Run(cfg, w, steps).log) + n
  {
    more := steps;
    if n > 0 {
      more := AnyTimesRound(cfg, w, name, steps, n - 1);
      more := GetsFailed(cfg, w, name, true, more);
      more := GoesBack(cfg, w, name, true, more);
      more := SubmitsAgain(cfg, w, name, true, more);
    }
  }

  /** Without prompt deletes there is no bound: for every n some run goes back from DiskImagesFailed to
      SourceReady n times. */
  lemma LingeringImageLoops(cfg: Config, w: World, name: string, n: nat) returns (steps: seq<Step>)
    requires CanStart(cfg, w, name)
    ensures Backs(Run(cfg, w, steps).log) == n
  {
    var failing := GetsFailing(cfg, w, name, true);
    steps := AnyTimesRound(cfg, w, name, failing, n);
  }
}
