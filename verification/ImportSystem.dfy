/** Reconciles over the API server: stale reads, effects before the write, lost and rejected writes. */
module ImportSystem {
  import opened Wrappers
  import opened Conditions
  import opened ImportTypes
  import opened Reconciler
  import opened ImportMachine
  import opened ImportInvariants

  /** Every version of the object that was ever persisted; the index is its resource version. */
  datatype World = World(log: seq<Status>, out: Outside)

  datatype Step =
    /** A reconcile of any version the informer may still hold. The write takes effect only against the
        newest version, and can be lost. A crash is a run of failing answers and a lost write. */
    | Reconcile(read: nat, a: Answers, accepted: bool)
    | ImageChanges(name: string, conds: seq<ImageCond>)
    | ImageRemoved(name: string)
    | Ticks(delay: nat)

  /** What a reconcile of version read leaves behind: its effects, and its write if that is not out of date. */
  function Settle(w: World, read: nat, accepted: bool, oc: Outcome): World {
    World(if oc.write.Some? && accepted && read == |w.log| - 1 then w.log + [oc.write.value] else w.log, oc.out)
  }

  function Apply(cfg: Config, w: World, s: Step): World {
    match s
    case Reconcile(read, a, accepted) =>
      if read >= |w.log| then w else Settle(w, read, accepted, Handle(cfg, w.log[read], w.out, a))
    case ImageChanges(name, conds) =>
      if name in w.out.images then
        w.(out := w.out.(images := w.out.images[name := w.out.images[name].(conds := conds)]))
      else w
    case ImageRemoved(name) => w.(out := w.out.(images := w.out.images - {name}))
    case Ticks(delay) => w.(out := Later(w.out, delay))
  }

  function Run(cfg: Config, w: World, steps: seq<Step>): World {
    if steps == [] then w else Apply(cfg, Run(cfg, w, steps[..|steps| - 1]), steps[|steps| - 1])
  }

  /** A new import in a namespace that may already hold images, volumes and virtual machines. */
  predicate Start(w: World) {
    w.log == [NewStatus] && w.out.history == [] && w.out.images.Keys <= w.out.used
  }

  function Current(w: World): Status
    requires w.log != []
  {
    w.log[|w.log| - 1]
  }

  // ---------------------------------------------------------------- refinement

  ghost predicate IsMachineRun(cfg: Config, log: seq<Status>) {
    && log != [] && log[0] == NewStatus
    && forall i :: 0 < i < |log| ==> Next(cfg, log[i - 1], log[i])
  }

  lemma StepRefinesMachine(cfg: Config, w: World, s: Step)
    requires IsMachineRun(cfg, w.log)
    ensures IsMachineRun(cfg, Apply(cfg, w, s).log)
    ensures Apply(cfg, w, s).log == w.log
            || (exists b :: Apply(cfg, w, s).log == w.log + [b] && Next(cfg, Current(w), b))
  {
    if s.Reconcile? && s.read < |w.log| {
      HandleRefinesMachine(cfg, w.log[s.read], w.out, s.a);
    }
  }

  /** The persisted statuses of a run are a run of the sequential machine: each was computed from
      the one before it, however stale other reconciles were and whatever writes were lost. */
  lemma {:induction false} RunRefinesMachine(cfg: Config, w: World, steps: seq<Step>)
    requires Start(w)
    ensures IsMachineRun(cfg, Run(cfg, w, steps).log)
    decreases |steps|
  {
    if steps != [] {
      RunRefinesMachine(cfg, w, steps[..|steps| - 1]);
      StepRefinesMachine(cfg, Run(cfg, w, steps[..|steps| - 1]), steps[|steps| - 1]);
    }
  }

  /** So every invariant of the sequential machine holds of every version of every run. */
  lemma InvariantsCarryOver(cfg: Config, w: World, steps: seq<Step>, inv: Status -> bool)
    requires Start(w)
    requires inv(NewStatus)
    requires forall a, b :: inv(a) && Next(cfg, a, b) ==> inv(b)
    ensures var log := Run(cfg, w, steps).log; forall i :: 0 <= i < |log| ==> inv(log[i])
  {
    RunRefinesMachine(cfg, w, steps);
    MachineRunKeeps(cfg, Run(cfg, w, steps).log, inv);
  }

  lemma {:induction false} MachineRunKeeps(cfg: Config, log: seq<Status>, inv: Status -> bool)
    requires IsMachineRun(cfg, log)
    requires inv(NewStatus)
    requires forall a, b :: inv(a) && Next(cfg, a, b) ==> inv(b)
    ensures forall i :: 0 <= i < |log| ==> inv(log[i])
    decreases |log|
  {
    if |log| > 1 {
      MachineRunKeeps(cfg, log[..|log| - 1], inv);
      assert inv(log[..|log| - 1][|log| - 2]);
      assert Next(cfg, log[|log| - 2], log[|log| - 1]);
      forall i | 0 <= i < |log| ensures inv(log[i]) {
        if i < |log| - 1 {
          assert inv(log[..|log| - 1][i]);
        }
      }
    }
  }

  ghost predicate AllInv(cfg: Config, log: seq<Status>) {
    forall i :: 0 <= i < |log| ==> Inv(cfg, log[i])
  }

  /** Every version ever persisted, in every run, satisfies the invariant of its phase. */
  lemma EveryVersionInv(cfg: Config, w: World, steps: seq<Step>)
    requires Start(w)
    ensures AllInv(cfg, Run(cfg, w, steps).log)
  {
    var inv := st => Inv(cfg, st);
    forall a, b | inv(a) && Next(cfg, a, b) ensures inv(b) {
      InvNext(cfg, a, b);
    }
    InvariantsCarryOver(cfg, w, steps, inv);
  }

  predicate Begun(st: Status) {
    st.phase !in {Unset, ImportValid}
  }

  lemma StepKeeps(cfg: Config, a: Status, b: Status, c: Status)
    requires Keeps(a, b) && (Begun(a) ==> Begun(b)) && Inv(cfg, b) && Next(cfg, b, c)
    ensures Keeps(a, c) && (Begun(a) ==> Begun(c))
  {
    KeepsNext(cfg, b, c);
    NextFollowsGraph(cfg, b, c);
    KeepsTrans(a, b, c);
  }

  /** A relation kept by every link of a log relates each version to all later ones. */
  lemma {:induction false} AlongLog(
      log: seq<Status>, link: (Status, Status) -> bool, rel: (Status, Status) -> bool, i: nat, j: nat)
    requires forall k :: 0 < k < |log| ==> link(log[k - 1], log[k])
    requires forall a :: rel(a, a)
    requires forall a, b, c :: rel(a, b) && link(b, c) ==> rel(a, c)
    requires i <= j < |log|
    ensures rel(log[i], log[j])
    decreases j - i
  {
    if i < j {
      AlongLog(log, link, rel, i, j - 1);
      assert link(log[j - 1], log[j]);
    }
  }

  /** Names, sizes, images and timestamps written in one version are read back from every later one. */
  lemma VersionsKeep(cfg: Config, w: World, steps: seq<Step>, i: nat, j: nat)
    requires Start(w) && i <= j < |Run(cfg, w, steps).log|
    ensures var log := Run(cfg, w, steps).log; Keeps(log[i], log[j]) && (Begun(log[i]) ==> Begun(log[j]))
  {
    RunRefinesMachine(cfg, w, steps);
    EveryVersionInv(cfg, w, steps);
    var link := (a, b) => Inv(cfg, a) && Next(cfg, a, b);
    var rel := (a, b) => Keeps(a, b) && (Begun(a) ==> Begun(b));
    forall a, b, c | rel(a, b) && link(b, c) ensures rel(a, c) {
      StepKeeps(cfg, a, b, c);
    }
    AlongLog(Run(cfg, w, steps).log, link, rel, i, j);
  }

  /** The disk list goes from empty to its final length in one write, that of the export's result. A list that
      a failed export left behind is only ever persisted together with MigrationFailed. */
  lemma DiskListWrittenOnce(cfg: Config, w: World, steps: seq<Step>, i: nat, j: nat)
    requires Start(w) && i < j < |Run(cfg, w, steps).log|
    ensures var log := Run(cfg, w, steps).log;
            && (log[i].disks != [] ==> |log[j].disks| == |log[i].disks|)
            && (Has(log[j].conds, ExportFailed) ==> log[j].phase == MigrationFailed)
            && (log[j - 1].disks == [] && log[j].disks != [] ==>
                  (log[j].phase == DisksExported && Has(log[j].conds, Exported))
                  || (log[j].phase == MigrationFailed && Has(log[j].conds, ExportFailed)))
  {
    VersionsKeep(cfg, w, steps, i, j);
    RunRefinesMachine(cfg, w, steps);
    EveryVersionInv(cfg, w, steps);
    var log := Run(cfg, w, steps).log;
    assert Next(cfg, log[j - 1], log[j]) && Inv(cfg, log[j - 1]) && Inv(cfg, log[j]);
    ListFilledByExport(cfg, log[j - 1], log[j]);
  }

  /** The ShutdownGuest time of one version is that of every later one: the timeout is never restarted. */
  lemma ShutdownStampedOnce(cfg: Config, w: World, steps: seq<Step>, i: nat, j: nat)
    requires Start(w) && i <= j < |Run(cfg, w, steps).log|
    requires Has(Run(cfg, w, steps).log[i].conds, ShutdownGuest)
    ensures var log := Run(cfg, w, steps).log;
            Find(log[j].conds, ShutdownGuest, ConditionTrue) == Find(log[i].conds, ShutdownGuest, ConditionTrue)
  {
    VersionsKeep(cfg, w, steps, i, j);
  }
}
