/** What becomes of an import that was sent back from DiskImagesFailed, and of one whose clean-up was lost. */
module Resubmission {
  import opened Wrappers
  import opened Conditions
  import opened ImportTypes
  import opened DiskVerdict
  import opened DiskImages
  import opened Reconciler
  import opened ImportMachine
  import opened ImportInvariants
  import opened ImportSystem
  import opened ImageStore
  import opened Progress
  import opened RunSafety

  predicate Blocked(p: Phase) {
    Underway(p) || p == MigrationFailed
  }

  predicate AllBlocked(log: seq<Status>, from: nat) {
    forall i :: from <= i < |log| ==> Blocked(log[i].phase)
  }

  /** The images that were there once and are no more. */
  function Lost(out: Outside): set<string> { out.used - out.images.Keys }

  lemma LostGrows(before: Outside, after: Outside)
    requires Evolves(before, after)
    ensures Lost(before) <= Lost(after)
  {
  }

  /** A disk of the import is dead, its image gone from the store. */
  ghost predicate Stuck(cfg: Config, w: World) {
    && w.log != [] && Inv(cfg, Current(w)) && NamesUsed(w.out)
    && Dead(Current(w).disks, Lost(w.out)) && Blocked(Current(w).phase)
  }

  /** With a dead disk no continuation gets the import further than DiskImagesSubmitted. */
  lemma StuckForever(cfg: Config, w: World, steps: seq<Step>)
    requires Stuck(cfg, w)
    ensures var r := Run(cfg, w, steps); w.log <= r.log && AllBlocked(r.log, |w.log| - 1) && Stuck(cfg, r)
  {
    var stuck := v => Stuck(cfg, v);
    forall v, s | stuck(v)
      ensures var r := Apply(cfg, v, s); stuck(r) && (r.log == v.log || r.log == v.log + [Current(r)])
    {
      StuckStep(cfg, v, s);
    }
    BlockedAlong(cfg, w, steps, stuck);
  }

  lemma {:induction false} BlockedAlong(cfg: Config, w: World, steps: seq<Step>, stuck: World -> bool)
    requires stuck(w)
    requires forall v :: stuck(v) ==> v.log != [] && Blocked(Current(v).phase)
    requires forall v, s :: stuck(v) ==>
               var r := Apply(cfg, v, s); stuck(r) && (r.log == v.log || r.log == v.log + [Current(r)])
    ensures var r := Run(cfg, w, steps); w.log <= r.log && AllBlocked(r.log, |w.log| - 1) && stuck(r)
    decreases |steps|
  {
    if steps != [] {
      var front, s := steps[..|steps| - 1], steps[|steps| - 1];
      BlockedAlong(cfg, w, front, stuck);
      BlockedExtends(w.log, Run(cfg, w, front).log, Run(cfg, w, steps));
    }
  }

  lemma BlockedExtends(start: seq<Status>, log: seq<Status>, r: World)
    requires start != [] && start <= log && AllBlocked(log, |start| - 1)
    requires r.log != [] && Blocked(Current(r).phase) && (r.log == log || r.log == log + [Current(r)])
    ensures start <= r.log && AllBlocked(r.log, |start| - 1)
  {
  }

  lemma BlockedWrite(cfg: Config, st: Status, out: Outside, a: Answers, gone: set<string>)
    requires Inv(cfg, st) && Dead(st.disks, gone) && Blocked(st.phase)
    requires st.phase == DiskImagesSubmitted ==> Misses(st.disks, gone, out, a)
    ensures var w := Handle(cfg, st, out, a).write;
            w.Some? ==> Inv(cfg, w.value) && Dead(w.value.disks, gone) && Blocked(w.value.phase)
  {
    if st.phase != MigrationFailed {
      HandleInv(cfg, st, out, a);
      WriteKeepsDead(cfg, st, out, a, gone);
      BlockedEdge(cfg, st, out, a);
    }
  }

  lemma BlockedEdge(cfg: Config, st: Status, out: Outside, a: Answers)
    requires Inv(cfg, st) && Underway(st.phase) && st.disks != []
    requires st.phase == DiskImagesSubmitted ==> Handle(cfg, st, out, a).write == None
    ensures var w := Handle(cfg, st, out, a).write; w.Some? ==> Blocked(w.value.phase)
  {
    HandleRefinesMachine(cfg, st, out, a);
    var w := Handle(cfg, st, out, a).write;
    if w.Some? {
      NextFollowsGraph(cfg, st, w.value);
    }
  }

  lemma StuckReconcile(cfg: Config, w: World, read: nat, a: Answers, accepted: bool)
    requires Stuck(cfg, w) && read < |w.log|
    ensures var r := Settle(w, read, accepted, Handle(cfg, w.log[read], w.out, a));
            Stuck(cfg, r) && (r.log == w.log || r.log == w.log + [Current(r)])
  {
    HandleEvolves(cfg, w.log[read], w.out, a);
    if read == |w.log| - 1 {
      BlockedWrite(cfg, Current(w), w.out, a, Lost(w.out));
    }
    StuckSettle(cfg, w, read, accepted, Handle(cfg, w.log[read], w.out, a));
  }

  lemma StuckSettle(cfg: Config, w: World, read: nat, accepted: bool, oc: Outcome)
    requires Stuck(cfg, w) && Evolves(w.out, oc.out)
    requires read == |w.log| - 1 && oc.write.Some? ==>
               var b := oc.write.value; Inv(cfg, b) && Dead(b.disks, Lost(w.out)) && Blocked(b.phase)
    ensures var r := Settle(w, read, accepted, oc);
            Stuck(cfg, r) && (r.log == w.log || r.log == w.log + [Current(r)])
  {
    var r := Settle(w, read, accepted, oc);
    LostGrows(w.out, oc.out);
    DeadGrows(Current(r).disks, Lost(w.out), Lost(oc.out));
  }

  lemma StuckStep(cfg: Config, w: World, s: Step)
    requires Stuck(cfg, w)
    ensures var r := Apply(cfg, w, s); Stuck(cfg, r) && (r.log == w.log || r.log == w.log + [Current(r)])
  {
    if s.Reconcile? {
      if s.read < |w.log| {
        StuckReconcile(cfg, w, s.read, s.a, s.accepted);
      }
    } else {
      StuckEnvironment(cfg, w, s);
    }
  }

  lemma EnvironmentLoses(cfg: Config, w: World, s: Step)
    requires NamesUsed(w.out) && !s.Reconcile?
    ensures var after := Apply(cfg, w, s).out; NamesUsed(after) && Lost(w.out) <= Lost(after)
  {
  }

  lemma StuckEnvironment(cfg: Config, w: World, s: Step)
    requires Stuck(cfg, w) && !s.Reconcile?
    ensures Stuck(cfg, Apply(cfg, w, s)) && Apply(cfg, w, s).log == w.log
  {
    EnvironmentLoses(cfg, w, s);
    DeadGrows(Current(w).disks, Lost(w.out), Lost(Apply(cfg, w, s).out));
  }

  // ---------------------------------------------------------------- after a backward edge

  predicate BackEdge(log: seq<Status>, i: nat) {
    0 < i < |log| && log[i - 1].phase == DiskImagesFailed && log[i].phase == SourceReady
  }

  lemma {:induction false} BacksCount(log: seq<Status>, i: nat)
    requires BackEdge(log, i)
    ensures Backs(log) > 0
  {
    if i < |log| - 1 {
      BacksCount(log[..|log| - 1], i);
    }
  }

  /** The import was sent back: a disk of it is dead, its image deleted. */
  ghost predicate SentBack(cfg: Config, w: World) {
    w.log != [] && Inv(cfg, Current(w)) && IsDead(w) && Blocked(Current(w).phase)
  }

  lemma SentBackSettle(cfg: Config, w: World, read: nat, accepted: bool, oc: Outcome)
    requires SentBack(cfg, w) && w.out.history <= oc.out.history
    requires read == |w.log| - 1 && oc.write.Some? ==>
               var b := oc.write.value;
               Inv(cfg, b) && Dead(b.disks, Deleted(w.out.history)) && Blocked(b.phase)
    ensures SentBack(cfg, Settle(w, read, accepted, oc))
  {
    DeletedGrows(w.out.history, oc.out.history);
    var r := Settle(w, read, accepted, oc);
    if r.log == w.log {
      DeadGrows(Current(w).disks, Deleted(w.out.history), Deleted(oc.out.history));
    } else {
      assert Current(r) == oc.write.value;
      DeadGrows(oc.write.value.disks, Deleted(w.out.history), Deleted(oc.out.history));
    }
  }

  lemma SentBackReconcile(cfg: Config, w: World, read: nat, a: Answers, accepted: bool)
    requires SentBack(cfg, w) && read < |w.log| && StepNeverFinds(w, Reconcile(read, a, accepted))
    ensures SentBack(cfg, Settle(w, read, accepted, Handle(cfg, w.log[read], w.out, a)))
  {
    HandleGrowth(cfg, w.log[read], w.out, a);
    if read == |w.log| - 1 {
      BlockedWrite(cfg, Current(w), w.out, a, Deleted(w.out.history));
    }
    SentBackSettle(cfg, w, read, accepted, Handle(cfg, w.log[read], w.out, a));
  }

  lemma SentBackStep(cfg: Config, w: World, s: Step)
    requires SentBack(cfg, w) && StepNeverFinds(w, s)
    ensures SentBack(cfg, Apply(cfg, w, s))
  {
    if s.Reconcile? {
      if s.read < |w.log| {
        SentBackReconcile(cfg, w, s.read, s.a, s.accepted);
      }
    } else {
      assert Apply(cfg, w, s).log == w.log && Apply(cfg, w, s).out.history == w.out.history;
    }
  }

  lemma ResubmitSendsBack(cfg: Config, w: World, a: Answers)
    requires w.log != [] && Inv(cfg, Current(w)) && Current(w).phase == DiskImagesFailed
    ensures var oc := Handle(cfg, Current(w), w.out, a);
            oc.write.Some? ==> SentBack(cfg, Settle(w, |w.log| - 1, true, oc))
  {
    ResubmitKills(cfg, Current(w), w.out, a);
    HandleInv(cfg, Current(w), w.out, a);
  }

  /** A backward edge leaves a dead disk: submitted, not ready, its image deleted. */
  lemma {:induction false} BackMeansDead(cfg: Config, w: World, steps: seq<Step>)
    requires Start(w) && NeverFoundAgain(cfg, w, steps) && Backs(Run(cfg, w, steps).log) > 0
    ensures SentBack(cfg, Run(cfg, w, steps))
    decreases |steps|
  {
    if steps != [] {
      var front, s := steps[..|steps| - 1], steps[|steps| - 1];
      EveryVersionInv(cfg, w, front);
      RunRefinesMachine(cfg, w, front);
      if Backs(Run(cfg, w, front).log) > 0 {
        BackMeansDead(cfg, w, front);
        SentBackStep(cfg, Run(cfg, w, front), s);
      } else {
        FirstBackKills(cfg, Run(cfg, w, front), s);
      }
    }
  }

  lemma FirstBackKills(cfg: Config, w: World, s: Step)
    requires w.log != [] && Inv(cfg, Current(w)) && Backs(w.log) == 0 && Backs(Apply(cfg, w, s).log) > 0
    ensures SentBack(cfg, Apply(cfg, w, s))
  {
    assert s.Reconcile? && s.read == |w.log| - 1;
    SettledBack(w, s.accepted, Handle(cfg, Current(w), w.out, s.a));
    ResubmitSendsBack(cfg, w, s.a);
  }

  /** With prompt deletes the image is gone from the store, so nothing that can happen helps. */
  lemma BackMeansStuck(cfg: Config, w: World, steps: seq<Step>)
    requires Start(w) && Prompt(steps) && Backs(Run(cfg, w, steps).log) > 0
    ensures Stuck(cfg, Run(cfg, w, steps))
  {
    PromptNeverFinds(cfg, w, steps);
    BackMeansDead(cfg, w, steps);
    RunNamesUsed(cfg, w, steps);
    RunGone(cfg, w, steps);
    var r := Run(cfg, w, steps);
    DeadGrows(Current(r).disks, Deleted(r.out.history), Lost(r.out));
  }

  lemma SettledBack(w: World, accepted: bool, oc: Outcome)
    requires w.log != [] && Backs(w.log) == 0 && Backs(Settle(w, |w.log| - 1, accepted, oc).log) > 0
    ensures accepted && oc.write.Some? && Current(w).phase == DiskImagesFailed
  {
    var log := Settle(w, |w.log| - 1, accepted, oc).log;
    assert log[..|log| - 1] == w.log;
  }

  /** In every run in which deleted images are never found again: once a failed image was cleaned up and the
      import sent back, no later version gets past DiskImagesSubmitted, although the reconciler announces another
      try. */
  lemma {:induction false} ResubmittedNeverReady(cfg: Config, w: World, steps: seq<Step>, i: nat)
    requires Start(w) && NeverFoundAgain(cfg, w, steps) && BackEdge(Run(cfg, w, steps).log, i)
    ensures AllBlocked(Run(cfg, w, steps).log, i)
    decreases |steps|
  {
    if steps != [] {
      var front, s := steps[..|steps| - 1], steps[|steps| - 1];
      var before, after := Run(cfg, w, front), Run(cfg, w, steps);
      BacksCount(after.log, i);
      BackMeansDead(cfg, w, steps);
      if i < |before.log| {
        ResubmittedNeverReady(cfg, w, front, i);
      }
      ApplyExtends(cfg, before, s);
      AllBlockedExtends(before.log, after.log, i);
    }
  }

  lemma ApplyExtends(cfg: Config, w: World, s: Step)
    ensures w.log <= Apply(cfg, w, s).log && |Apply(cfg, w, s).log| <= |w.log| + 1
  {
  }

  lemma AllBlockedExtends(log: seq<Status>, longer: seq<Status>, i: nat)
    requires log <= longer && i < |longer| <= |log| + 1 && Blocked(longer[|longer| - 1].phase)
    requires i < |log| ==> AllBlocked(log, i)
    ensures AllBlocked(longer, i)
  {
  }

  /** A failed disk whose image is already gone, as after a delete whose status write was lost. */
  predicate Orphaned(st: Status, out: Outside) {
    st.phase == DiskImagesFailed &&
    exists i :: 0 <= i < |st.disks| && Failed(st.disks[i]) && st.disks[i].image in out.used
                && st.disks[i].image !in out.images
  }

  lemma {:induction false} OrphanBlocksClean(st: Status, out: Outside, a: Answers, i: nat, j: nat)
    requires i <= j < |st.disks| && Failed(st.disks[j]) && st.disks[j].image !in out.images
    ensures CleanFrom(st, out, a, i).err != NoError
    decreases |st.disks| - i
  {
    if !Failed(st.disks[i]) {
      OrphanBlocksClean(st, out, a, i + 1, j);
    } else {
      var (deleted, ok) := DeleteImage(out, st.disks[i].image, a.disk(i));
      if ok {
        var d := st.disks[i].(conds := Drop(st.disks[i].conds, ImageFailed, ConditionTrue));
        OrphanBlocksClean(st.(disks := st.disks[i := d]), deleted, a, i + 1, j);
      }
    }
  }

  /** If a delete takes effect but its status write is lost, every later reconcile fails on the missing image:
      the persisted status never changes again. */
  lemma {:induction false} LostDeleteWedges(cfg: Config, w: World, steps: seq<Step>)
    requires w.log != [] && NamesUsed(w.out) && Orphaned(Current(w), w.out)
    ensures var r := Run(cfg, w, steps); r.log == w.log && NamesUsed(r.out) && Orphaned(Current(r), r.out)
    decreases |steps|
  {
    if steps != [] {
      var front, s := steps[..|steps| - 1], steps[|steps| - 1];
      LostDeleteWedges(cfg, w, front);
      OrphanStep(cfg, Run(cfg, w, front), s);
    }
  }

  lemma OrphanStep(cfg: Config, w: World, s: Step)
    requires w.log != [] && NamesUsed(w.out) && Orphaned(Current(w), w.out)
    ensures var r := Apply(cfg, w, s); r.log == w.log && NamesUsed(r.out) && Orphaned(Current(r), r.out)
  {
    var r := Apply(cfg, w, s);
    var st := Current(w);
    var i :| 0 <= i < |st.disks| && Failed(st.disks[i]) && st.disks[i].image in w.out.used
             && st.disks[i].image !in w.out.images;
    if s.Reconcile? && s.read < |w.log| {
      HandleEvolves(cfg, w.log[s.read], w.out, s.a);
      OrphanBlocksClean(st, w.out, s.a, 0, i);
    } else if s.ImageRemoved? {
      assert Evolves(w.out, r.out);
    }
    assert st.disks[i].image !in r.out.images;
  }

  // ---------------------------------------------------------------- a repair

  /** What the clean-up would have to leave of a failed disk: neither mark. */
  function Repaired(d: DiskInfo): DiskInfo {
    d.(conds := Drop(Drop(d.conds, ImageFailed, ConditionTrue), ImageSubmitted, ConditionTrue))
  }

  /** With the submission dropped as well, the next pass makes the disk a new image under a new name, where the
      clean-up as it is written leaves a dead disk. */
  lemma RepairedDiskRetries(cfg: Config, d: DiskInfo, out: Outside, da: DiskAnswers, later: DiskAnswers)
    requires NamesUsed(out) && Failed(d) && Tagged(out.images, ImageLabel(cfg, d.name)) == {d.image}
    requires Succeeds(da.delete) && !da.lingers
    requires later.list == Fresh && later.backendOk && Succeeds(later.create) && NameFree(out, later.generatedName)
    ensures var (deleted, ok) := DeleteImage(out, d.image, da);
            var (name, made) := CheckAndCreate(cfg, Repaired(d), deleted, later);
            && ok && !Failed(Repaired(d)) && !Submitted(Repaired(d))
            && name == Some(later.generatedName) && name.value != d.image && name.value in made.images
            && d.image !in made.images
  {
    var once := Drop(d.conds, ImageFailed, ConditionTrue);
    FindDrop(d.conds, ImageFailed, ConditionTrue, ImageFailed, ConditionTrue);
    FindDrop(once, ImageSubmitted, ConditionTrue, ImageFailed, ConditionTrue);
    FindDrop(once, ImageSubmitted, ConditionTrue, ImageSubmitted, ConditionTrue);
    assert d.image in Tagged(out.images, ImageLabel(cfg, d.name));
    var (deleted, _) := DeleteImage(out, d.image, da);
    assert Tagged(deleted.images, ImageLabel(cfg, d.name)) == {};
  }
}
