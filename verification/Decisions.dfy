/** What one reconcile does, decided by the status it reads and the answers it gets: which calls it makes, which
    status it asks to write, and when it writes nothing (pkg/controllers/migration/virtualmachine.go:111-208,
    391-521, helper.go:47-170). */
module Decisions {
  import opened Wrappers
  import opened Conditions
  import opened ImportTypes
  import opened DiskVerdict
  import opened DiskImages
  import opened PowerAndExport
  import opened PassHistory
  import opened Reconciler
  import opened ImportMachine
  import opened DiskPasses

  // ---------------------------------------------------------------- the calls of a SourceReady step

  /** The power off that the user forces is still to be asked for. */
  predicate MustPowerOff(st: Status, a: Answers) {
    a.spec.supported && a.spec.force && !Has(st.conds, PoweringOff)
  }

  predicate MustShutDown(st: Status, a: Answers) {
    !(a.spec.supported && a.spec.force) && !Has(st.conds, ShutdownGuest)
  }

  /** The request is made, and the source was not seen off yet. */
  predicate MustAsk(st: Status, a: Answers) {
    !MustPowerOff(st, a) && !MustShutDown(st, a) && !Has(st.conds, PoweredOff)
  }

  predicate MustExport(st: Status, a: Answers) {
    && !MustPowerOff(st, a) && !MustShutDown(st, a) && Has(st.conds, PoweredOff)
    && !Has(st.conds, Exported) && !Has(st.conds, ExportFailed)
  }

  /** A graceful shutdown is waited for, with a power off to follow if it takes too long. */
  predicate Awaited(st: Status, a: Answers) {
    && MustAsk(st, a) && a.power == Some(false)
    && Has(st.conds, ShutdownGuest) && a.spec.supported && !a.spec.force && !Has(st.conds, PoweringOff)
  }

  function StampOf(st: Status): Stamp {
    var c := Find(st.conds, ShutdownGuest, ConditionTrue);
    if c.Some? then c.value.updated else Malformed
  }

  /** More seconds than the user allows, or than 60 if the setting is not positive, have gone since the second that
      was stored with the shutdown. */
  predicate Overdue(st: Status, spec: PowerSpec, now: nat) {
    StampOf(st).At? && Longer(spec, StampOf(st).second, now)
  }

  /** The calls and observations of a SourceReady step whose source is there, one case after the other. */
  function Calls(st: Status, now: nat, a: Answers): seq<Event> {
    if a.client != ClientOk then []
    else if MustPowerOff(st, a) then [PowerOffCalled(a.callOk, now + a.callDelay, a.spec)]
    else if MustShutDown(st, a) then [ShutdownCalled(a.callOk, now + a.callDelay)]
    else if MustExport(st, a) then [ExportCalled(|st.disks|, a.exportOk)]
    else if !MustAsk(st, a) || a.power.None? then []
    else if Awaited(st, a) && Overdue(st, a.spec, now + a.callDelay + a.checkDelay) then
      [SawPower(false), PowerOffCalled(a.callOk, now + a.callDelay + a.checkDelay + a.forceDelay, a.spec)]
    else [SawPower(a.power.value)]
  }

  lemma CheckCalls(st: Status, out: Outside, o: Outside, a: Answers)
    requires a.client == ClientOk && MustAsk(st, a) && o == out.(now := out.now + a.callDelay)
    ensures PowerCheck(st, o, a).out.history == out.history + Calls(st, out.now, a)
  {
    if a.power == Some(false) {
      var saw := Log(o, SawPower(false));
      assert out.history + [SawPower(false)] + [PowerOffCalled(a.callOk, o.now + a.checkDelay + a.forceDelay, a.spec)]
          == out.history
             + [SawPower(false), PowerOffCalled(a.callOk, o.now + a.checkDelay + a.forceDelay, a.spec)];
      if Awaited(st, a) {
        assert StampOf(st) == Find(st.conds, ShutdownGuest, ConditionTrue).value.updated;
      }
    }
  }

  /** A step makes exactly these calls. */
  lemma StepCalls(st: Status, out: Outside, a: Answers)
    ensures ExportStep(st, out, a).out.history == out.history + Calls(st, out.now, a)
  {
    if a.client == ClientOk {
      var o := Later(out, a.callDelay);
      if MustAsk(st, a) {
        assert PowerRequested(st.conds);
        CheckCalls(st, out, o, a);
      } else if MustExport(st, a) {
        assert PowerRequested(st.conds);
      }
    }
  }

  /** PowerOff is called exactly if the source supports it, it was not called before, and the user forces it, or
      the source was just seen running more seconds than the user allows after the stored second of its shutdown;
      60 seconds if the setting is not positive. */
  lemma PowerOffExactly(st: Status, out: Outside, a: Answers)
    ensures var seconds := if a.spec.timeoutSeconds > 0 then a.spec.timeoutSeconds else 60;
            var stamp := Find(st.conds, ShutdownGuest, ConditionTrue);
            var at := out.now + a.callDelay + a.checkDelay;
            (exists k :: |out.history| <= k < |ExportStep(st, out, a).out.history|
                         && ExportStep(st, out, a).out.history[k].PowerOffCalled?) <==>
              && a.client == ClientOk && a.spec.supported && !Has(st.conds, PoweringOff)
              && (a.spec.force
                  || (stamp.Some? && !Has(st.conds, PoweredOff) && a.power == Some(false)
                      && stamp.value.updated.At?
                      && at - stamp.value.updated.second * 1_000_000_000 > seconds * 1_000_000_000))
  {
    StepCalls(st, out, a);
    var calls, h := Calls(st, out.now, a), ExportStep(st, out, a).out.history;
    assert (exists e :: e in calls && e.PowerOffCalled?) ==>
           exists k :: |out.history| <= k < |h| && h[k].PowerOffCalled? by {
      if e :| e in calls && e.PowerOffCalled? {
        var j :| 0 <= j < |calls| && calls[j] == e;
        assert h[|out.history| + j] == e;
      }
    }
    if a.client == ClientOk && Awaited(st, a) && Overdue(st, a.spec, out.now + a.callDelay + a.checkDelay) {
      assert calls[1].PowerOffCalled?;
    } else if MustPowerOff(st, a) && a.client == ClientOk {
      assert calls[0].PowerOffCalled?;
    }
  }

  // ---------------------------------------------------------------- what a SourceReady step leaves

  predicate CallsPowerOff(st: Status, now: nat, a: Answers) {
    MustPowerOff(st, a) || (Awaited(st, a) && Overdue(st, a.spec, now + a.callDelay + a.checkDelay))
  }

  /** Which conditions the step makes true. */
  predicate Gained(st: Status, now: nat, a: Answers, t: CondType) {
    a.client == ClientOk &&
    match t
    case PoweringOff => CallsPowerOff(st, now, a) && a.callOk
    case ShutdownGuest => MustShutDown(st, a) && a.callOk
    case PoweredOff => MustAsk(st, a) && a.power == Some(true)
    case Exported => MustExport(st, a) && a.exportOk
    case ExportFailed => MustExport(st, a) && !a.exportOk
    case _ => false
  }

  predicate Refused(st: Status, now: nat, a: Answers) {
    !a.callOk && (CallsPowerOff(st, now, a) || MustShutDown(st, a))
  }

  /** The waiting step cannot read the time of the shutdown. */
  predicate Unreadable(st: Status, a: Answers) {
    Awaited(st, a) && StampOf(st).Malformed?
  }

  predicate Unanswered(st: Status, a: Answers) {
    MustAsk(st, a) && a.power.None?
  }

  /** The source's disks with their names, sizes, paths and buses, and no image yet. */
  predicate AsExported(disks: seq<DiskInfo>, exported: seq<ExportedDisk>) {
    |disks| == |exported| &&
    forall i :: 0 <= i < |disks| ==>
      && disks[i].name == exported[i].name && disks[i].size == exported[i].size
      && disks[i].localPath == exported[i].localPath && disks[i].bus == exported[i].bus
      && disks[i].image == "" && disks[i].conds == []
  }

  /** What each case leaves, before the phase is read off. */
  lemma RequestLeaves(st: Status, out: Outside, t: CondType, a: Answers, u: CondType)
    ensures var r := Mark(st, out, t, a, "");
            && (Has(r.st.conds, u) <==> Has(st.conds, u) || u == t)
            && Find(r.st.conds, t, ConditionTrue).Some?
            && Find(r.st.conds, t, ConditionTrue).value.updated == At((out.now + a.delay) / 1_000_000_000)
  {
    MarkAsks(st, out, t, a, "", u, ConditionTrue);
    MarkAsks(st, out, t, a, "", t, ConditionTrue);
  }

  lemma WaitLeaves(st: Status, out: Outside, saw: Outside, a: Answers, t: CondType)
    requires a.client == ClientOk && MustAsk(st, a) && a.power == Some(false)
    requires saw.now == out.now + a.callDelay
    ensures var r := StillRunning(st, saw, a);
            && (Has(r.st.conds, t) <==>
                  Has(st.conds, t) || (t == PoweringOff && CallsPowerOff(st, out.now, a) && a.callOk))
            && r.st.disks == st.disks
            && (r.err == NoError <==> !Refused(st, out.now, a) && !Unreadable(st, a)) && r.err != SourceMissing
  {
    if Awaited(st, a) {
      assert StampOf(st) == Find(st.conds, ShutdownGuest, ConditionTrue).value.updated;
      var at := Later(Later(saw, a.checkDelay), a.forceDelay);
      RequestLeaves(st, Log(at, PowerOffCalled(a.callOk, at.now, a.spec)), PoweringOff, a, t);
    }
  }

  lemma CheckLeaves(st: Status, out: Outside, o: Outside, a: Answers, t: CondType)
    requires a.client == ClientOk && MustAsk(st, a) && o == out.(now := out.now + a.callDelay)
    ensures var r := PowerCheck(st, o, a);
            && (Has(r.st.conds, t) <==> Has(st.conds, t) || Gained(st, out.now, a, t))
            && r.st.disks == st.disks
            && (r.err == NoError <==> !Refused(st, out.now, a) && !Unreadable(st, a) && !Unanswered(st, a))
            && r.err != SourceMissing
  {
    if a.power == Some(true) {
      RequestLeaves(st, Log(o, SawPower(true)), PoweredOff, a, t);
    } else if a.power == Some(false) {
      WaitLeaves(st, out, Log(o, SawPower(false)), a, t);
    }
  }

  lemma ExportLeaves(st: Status, out: Outside, a: Answers, t: CondType)
    ensures var r := ExportCall(st, out, a);
            && (Has(r.st.conds, t) <==> Has(st.conds, t) || t == if a.exportOk then Exported else ExportFailed)
            && |st.disks| <= |r.st.disks| && r.st.disks[..|st.disks|] == st.disks
            && AsExported(r.st.disks[|st.disks|..], a.exported)
  {
    var called := Log(out, ExportCalled(|st.disks|, a.exportOk));
    var grown := st.(disks := st.disks + NewDisks(a.exported));
    MarkAsks(grown, called, if a.exportOk then Exported else ExportFailed, a, if a.exportOk then "" else EXPORT_ERROR,
             t, ConditionTrue);
    assert grown.disks[|st.disks|..] == NewDisks(a.exported);
  }

  /** What the step leaves if it makes a request. */
  lemma FirstLeaves(st: Status, out: Outside, a: Answers, t: CondType)
    requires a.client == ClientOk && (MustPowerOff(st, a) || MustShutDown(st, a))
    ensures var r := ExportStep(st, out, a);
            && (Has(r.st.conds, t) <==> Has(st.conds, t) || Gained(st, out.now, a, t))
            && r.st.disks == st.disks && (r.err == NoError <==> a.callOk) && r.err != SourceMissing
  {
    var o := Later(out, a.callDelay);
    if MustPowerOff(st, a) {
      RequestLeaves(st, Log(o, PowerOffCalled(a.callOk, o.now, a.spec)), PoweringOff, a, t);
    } else {
      RequestLeaves(st, Log(o, ShutdownCalled(a.callOk, o.now)), ShutdownGuest, a, t);
    }
  }

  /** A step makes exactly the conditions of its successful calls true, appends the source's disks exactly if it
      exports, and fails exactly without a source or client, on a refused request, on a power state that is not
      answered, or on a shutdown time that cannot be read. */
  lemma StepLeaves(st: Status, out: Outside, a: Answers, t: CondType)
    ensures var r := ExportStep(st, out, a);
            && (Has(r.st.conds, t) <==> Has(st.conds, t) || Gained(st, out.now, a, t))
            && (r.err == SourceMissing <==> a.client == NoSource)
            && (r.err == NoError <==>
                  a.client == ClientOk && !Refused(st, out.now, a) && !Unreadable(st, a) && !Unanswered(st, a))
            && (if a.client == ClientOk && MustExport(st, a) then
                  && |st.disks| <= |r.st.disks| && r.st.disks[..|st.disks|] == st.disks
                  && AsExported(r.st.disks[|st.disks|..], a.exported)
                else r.st.disks == st.disks)
  {
    if a.client == ClientOk {
      var o := Later(out, a.callDelay);
      if MustPowerOff(st, a) || MustShutDown(st, a) {
        FirstLeaves(st, out, a, t);
      } else if MustAsk(st, a) {
        assert ExportStep(st, out, a) == PowerCheck(st, o, a);
        CheckLeaves(st, out, o, a, t);
      } else if MustExport(st, a) {
        assert ExportStep(st, out, a) == ExportCall(st, o, a);
        ExportLeaves(st, o, a, t);
      }
    }
  }

  /** The time that is stored with an accepted shutdown is the whole second of the clock after the call. */
  lemma ShutdownStamp(st: Status, out: Outside, a: Answers)
    requires a.client == ClientOk && MustShutDown(st, a) && a.callOk
    ensures StampOf(ExportStep(st, out, a).st) == At((out.now + a.callDelay + a.delay) / 1_000_000_000)
  {
    var o := Later(out, a.callDelay);
    RequestLeaves(st, Log(o, ShutdownCalled(a.callOk, o.now)), ShutdownGuest, a, ShutdownGuest);
  }

  // ---------------------------------------------------------------- a SourceReady reconcile

  /** It asks to write nothing exactly without a client, on a refused request, an unanswered power state or an
      unreadable shutdown time; MigrationFailed exactly without a source or with ExportFailed true afterwards;
      DisksExported exactly with Exported true and ExportFailed not; and else it stays in SourceReady. */
  lemma ExportDecides(st: Status, out: Outside, a: Answers)
    requires st.phase == SourceReady
    ensures var oc := RunExport(st, out, a);
            && (oc.write == None <==>
                  a.client == ClientError
                  || (a.client == ClientOk
                      && (Refused(st, out.now, a) || Unreadable(st, a) || Unanswered(st, a))))
            && (oc.write.Some? ==>
                  && (oc.write.value.phase == MigrationFailed <==>
                        a.client == NoSource || Has(oc.write.value.conds, ExportFailed))
                  && (oc.write.value.phase == DisksExported <==>
                        a.client == ClientOk && Has(oc.write.value.conds, Exported)
                        && !Has(oc.write.value.conds, ExportFailed))
                  && oc.write.value.phase in {MigrationFailed, DisksExported, SourceReady}
                  && forall t :: Has(oc.write.value.conds, t) <==> Has(st.conds, t) || Gained(st, out.now, a, t))
  {
    var oc := RunExport(st, out, a);
    forall t ensures oc.write.Some? ==>
                       (Has(oc.write.value.conds, t) <==> Has(st.conds, t) || Gained(st, out.now, a, t)) {
      StepLeaves(st, out, a, t);
    }
    StepLeaves(st, out, a, Exported);
  }

  // ---------------------------------------------------------------- the submit reconcile

  /** Every disk before the given one is submitted, and at it the pass stops at once. */
  predicate StopsAt(cfg: Config, disks: seq<DiskInfo>, out: Outside, a: Answers, k: nat) {
    && k < |disks| && (forall j :: 0 <= j < k ==> Has(disks[j].conds, ImageSubmitted))
    && Blocks(cfg, disks[k], out, a.disk(k))
  }

  lemma {:induction false} StopsSame(cfg: Config, st: Status, out: Outside, a: Answers, i: nat, k: nat)
    requires i <= k && StopsAt(cfg, st.disks, out, a, k)
    ensures var r := SubmitFrom(cfg, st, out, a, i); r.st == st && r.err == OtherError
    decreases k - i
  {
    if i < k {
      StopsSame(cfg, st, out, a, i + 1, k);
    }
  }

  lemma FirstTurn(cfg: Config, disks: seq<DiskInfo>, after: seq<DiskInfo>, outs: seq<Outside>, a: Answers, to: nat)
    returns (k: nat)
    requires to <= |disks| && |outs| == to + 1 && Submits(cfg, disks, after, outs, a, to)
    ensures k <= to && outs[k] == outs[0] && (forall j :: 0 <= j < k ==> Has(disks[j].conds, ImageSubmitted))
    ensures k < to ==> after != disks
  {
    k := 0;
    while k < to && Has(disks[k].conds, ImageSubmitted)
      invariant k <= to && outs[k] == outs[0]
      invariant forall j :: 0 <= j < k ==> Has(disks[j].conds, ImageSubmitted)
    {
      assert Turned(cfg, disks[k], after[k], outs[k], outs[k + 1], a.disk(k));
      k := k + 1;
    }
    if k < to {
      assert Turned(cfg, disks[k], after[k], outs[k], outs[k + 1], a.disk(k));
    }
  }

  /** It asks to write nothing exactly if the first disk that is not submitted blocks; an empty list is invalid. */
  lemma SubmitDecides(cfg: Config, st: Status, out: Outside, a: Answers)
    requires st.phase == DisksExported
    ensures var oc := SubmitImages(cfg, st, out, a);
            && (oc.write == None <==> exists k :: StopsAt(cfg, st.disks, out, a, k))
            && (oc.write.Some? ==>
                  && (oc.write.value.phase == ImportInvalid <==> st.disks == [])
                  && (oc.write.value.phase == DiskImagesSubmitted <==>
                        st.disks != [] && forall j :: 0 <= j < |oc.write.value.disks| ==>
                                            Has(oc.write.value.disks[j].conds, ImageSubmitted))
                  && oc.write.value.phase in {ImportInvalid, DiskImagesSubmitted, DisksExported})
  {
    if st.disks != [] {
      var to, outs := SubmitMeans(cfg, st, out, a);
      var k := FirstTurn(cfg, st.disks, SubmitFrom(cfg, st, out, a, 0).st.disks, outs, a, to);
      SubmitStays(cfg, st, out, a, 0);
      if n: nat :| StopsAt(cfg, st.disks, out, a, n) {
        StopsSame(cfg, st, out, a, 0, n);
      }
      if SubmitImages(cfg, st, out, a).write == None {
        assert StopsAt(cfg, st.disks, out, a, k);
      }
    }
  }

  // ---------------------------------------------------------------- the watch reconcile

  predicate AllFound(disks: seq<DiskInfo>, out: Outside, a: Answers) {
    forall j :: 0 <= j < |disks| ==> Found(disks[j], out, a.disk(j))
  }

  /** The disk is ready, or its image says it is imported. */
  predicate TurnsReady(x: DiskInfo, out: Outside) {
    Has(x.conds, ImageReady) || (x.image in out.images && Imported(out.images[x.image]))
  }

  predicate TurnsFailed(x: DiskInfo, out: Outside) {
    Has(x.conds, ImageFailed) || (!Has(x.conds, ImageReady) && x.image in out.images && Broken(out.images[x.image]))
  }

  predicate AllGood(disks: seq<DiskInfo>, out: Outside, to: nat)
    requires to <= |disks|
  {
    forall j :: 0 <= j < to ==> TurnsReady(disks[j], out) && !TurnsFailed(disks[j], out)
  }

  /** Behind good disks only, one turns failed and not ready. */
  predicate OneBad(disks: seq<DiskInfo>, out: Outside) {
    exists k :: 0 <= k < |disks| && AllGood(disks, out, k) && TurnsFailed(disks[k], out) && !TurnsReady(disks[k], out)
  }

  lemma WatchedTurns(x: DiskInfo, y: DiskInfo, out: Outside)
    requires Watched(x, y, out)
    ensures Ready(y) <==> TurnsReady(x, out)
    ensures Failed(y) <==> TurnsFailed(x, out)
  {
  }

  lemma GoodVerdict(disks: seq<DiskInfo>, after: seq<DiskInfo>, out: Outside)
    requires |after| == |disks| && forall j :: 0 <= j < |disks| ==> Watched(disks[j], after[j], out)
    ensures Verdict(after) == Some(DiskImagesReady) <==> AllGood(disks, out, |disks|)
    ensures Verdict(after) == Some(DiskImagesFailed) <==> OneBad(disks, out)
  {
    forall j | 0 <= j < |disks|
      ensures (Ready(after[j]) <==> TurnsReady(disks[j], out)) && (Failed(after[j]) <==> TurnsFailed(disks[j], out))
    {
      WatchedTurns(disks[j], after[j], out);
    }
    ReadyVerdictExact(after);
    FailedVerdictExact(after);
    forall k | 0 <= k < |disks| ensures AllReady(after[..k]) && NoneFailed(after[..k]) <==> AllGood(disks, out, k) {
      PrefixGood(disks, after, out, k);
    }
  }

  lemma PrefixGood(disks: seq<DiskInfo>, after: seq<DiskInfo>, out: Outside, k: nat)
    requires |after| == |disks| && k <= |disks|
    requires forall j :: 0 <= j < |disks| ==> (Ready(after[j]) <==> TurnsReady(disks[j], out))
    requires forall j :: 0 <= j < |disks| ==> (Failed(after[j]) <==> TurnsFailed(disks[j], out))
    ensures AllReady(after[..k]) && NoneFailed(after[..k]) <==> AllGood(disks, out, k)
  {
    forall j | 0 <= j < k
      ensures (Ready(after[..k][j]) <==> TurnsReady(disks[j], out))
              && (Failed(after[..k][j]) <==> TurnsFailed(disks[j], out))
    {
      assert after[..k][j] == after[j];
    }
  }

  /** The watch reconcile in terms of the stored images: DiskImagesReady exactly if every look finds its image and
      every disk turns ready and none failed, DiskImagesFailed exactly if a disk turns failed behind good ones, and
      else nothing. */
  lemma WatchDecides(st: Status, out: Outside, a: Answers)
    ensures var w := WatchImages(st, out, a).write;
            && (w.Some? && w.value.phase == DiskImagesReady <==>
                  AllFound(st.disks, out, a) && AllGood(st.disks, out, |st.disks|))
            && (w.Some? && w.value.phase == DiskImagesFailed <==> AllFound(st.disks, out, a) && OneBad(st.disks, out))
            && (w.Some? ==> w.value.phase in {DiskImagesReady, DiskImagesFailed})
  {
    var r := RefreshFrom(st, out, a, 0);
    RefreshMeans(st, out, a);
    if r.err == NoError {
      GoodVerdict(st.disks, r.st.disks, out);
    }
  }

  // ---------------------------------------------------------------- the VM reconcile

  /** The VM is there and labelled as imported, and the look at it works. */
  predicate FindsVm(st: Status, out: Outside, a: Answers) {
    a.vmGetOk && st.importedName in out.vms && out.vms[st.importedName]
  }

  /** All volumes are there or made. */
  predicate HasVolumes(st: Status, out: Outside, a: Answers) {
    a.client == ClientOk && a.generateOk && VolumesWork(st.disks, out, a, 0)
  }

  /** The VM, exactly: made if the source is there, the description and the volumes work, and no VM of the name is
      there; no error only if then it is found or its creation is reported. Behind the volumes, nothing else is
      done. */
  lemma CreateVmMeans(st: Status, out: Outside, a: Answers)
    ensures var (made, err) := CreateVm(st, out, a);
            var creates := HasVolumes(st, out, a) && st.importedName !in out.vms && a.vmCreate.applied;
            && (err == SourceMissing <==> a.client == NoSource)
            && (err == NoError <==>
                  HasVolumes(st, out, a) && (FindsVm(st, out, a) || (creates && a.vmCreate.reported)))
            && made.vms == (if creates then out.vms[st.importedName := true] else out.vms)
            && (HasVolumes(st, out, a) ==> made.pvcs == out.pvcs + BackingImages(st.disks, out, 0))
            && made.images == out.images
  {
    PvcMeans(st.disks, out, a);
    PvcAppends(st.disks, out, a, 0);
  }

  /** An error-free step has every disk's image, and the volume of every backing image. */
  predicate Equipped(disks: seq<DiskInfo>, out: Outside) {
    forall i :: 0 <= i < |disks| ==>
      disks[i].image in out.images && (out.images[disks[i].image].backingImage ==> disks[i].image in out.pvcs)
  }

  lemma VmNeedsVolumes(st: Status, out: Outside, a: Answers)
    requires CreateVm(st, out, a).1 == NoError
    ensures Equipped(st.disks, CreateVm(st, out, a).0)
  {
    CreateVmMeans(st, out, a);
    forall i | 0 <= i < |st.disks|
      ensures st.disks[i].image in out.images
              && (out.images[st.disks[i].image].backingImage ==>
                    st.disks[i].image in out.pvcs + BackingImages(st.disks, out, 0))
    {
      assert VolumeWorks(st.disks, out, a, 0, i);
    }
  }

  // ---------------------------------------------------------------- every reconcile

  /** Sanitizing gives a name that a VM cannot have. */
  predicate BadName(cfg: Config, a: Answers) {
    !a.sanitizeOk || !cfg.isDnsLabel(a.sanitizedName)
  }

  predicate EndsIn(w: Option<Status>, p: Phase) {
    w.Some? && w.value.phase == p
  }

  /** An import ends as invalid exactly on a failed preflight check, a name that is not a DNS label or cannot be
      sanitized, or an empty disk list; and as failed exactly when its source is missing where it is needed, or
      with ExportFailed. */
  lemma EndsExactly(cfg: Config, st: Status, out: Outside, a: Answers)
    ensures var w := Handle(cfg, st, out, a).write;
            && (EndsIn(w, ImportInvalid) <==>
                  || (st.phase == Unset && a.preflight == PreflightError)
                  || (st.phase == ImportValid && a.client == ClientOk && BadName(cfg, a))
                  || (st.phase == DisksExported && st.disks == []))
            && (EndsIn(w, MigrationFailed) <==>
                  || (st.phase == SourceReady && a.client == NoSource)
                  || (st.phase == SourceReady && w.Some? && Has(w.value.conds, ExportFailed))
                  || (st.phase == DiskImagesReady && a.client == NoSource))
  {
    match st.phase
    case SourceReady => ExportDecides(st, out, a);
    case DisksExported => SubmitDecides(cfg, st, out, a);
    case DiskImagesSubmitted => WatchDecides(st, out, a);
    case DiskImagesReady => CreateVmMeans(st, out, a);
    case _ =>
  }

  /** A reconcile asks to write exactly in these cases; in all others the import stays as it is, to be tried
      again. */
  ghost predicate Advances(cfg: Config, st: Status, out: Outside, a: Answers) {
    match st.phase
    case Unset => a.preflight != ClusterNotReady
    case ImportValid => a.client == ClientOk
    case SourceReady =>
      || a.client == NoSource
      || (a.client == ClientOk && !Refused(st, out.now, a) && !Unreadable(st, a) && !Unanswered(st, a))
    case DisksExported => !exists k :: StopsAt(cfg, st.disks, out, a, k)
    case DiskImagesSubmitted =>
      AllFound(st.disks, out, a) && (AllGood(st.disks, out, |st.disks|) || OneBad(st.disks, out))
    case DiskImagesFailed => DeletesWork(st.disks, out, a, 0)
    case DiskImagesReady =>
      || a.client == NoSource
      || (HasVolumes(st, out, a)
          && (FindsVm(st, out, a)
              || (st.importedName !in out.vms && a.vmCreate.applied && a.vmCreate.reported)))
    case VirtualMachineCreated => a.vmReady == Some(true) && st.importedName in out.vms
    case VirtualMachineRunning => false
    case ImportInvalid => false
    case MigrationFailed => false
  }

  lemma WritesExactly(cfg: Config, st: Status, out: Outside, a: Answers)
    ensures Handle(cfg, st, out, a).write.Some? <==> Advances(cfg, st, out, a)
  {
    match st.phase
    case SourceReady => ExportDecides(st, out, a);
    case DisksExported => SubmitDecides(cfg, st, out, a);
    case DiskImagesSubmitted => WatchDecides(st, out, a);
    case DiskImagesFailed => CleanMeans(st, out, a);
    case DiskImagesReady => CreateVmMeans(st, out, a);
    case _ =>
  }

  /** The name of the new VM is what sanitizing answers, and no other reconcile changes it. */
  lemma NamedBySanitizing(cfg: Config, st: Status, out: Outside, a: Answers)
    ensures var w := Handle(cfg, st, out, a).write;
            w.Some? ==> w.value.importedName == if st.phase == ImportValid then a.sanitizedName else st.importedName
  {
    HandleRefinesMachine(cfg, st, out, a);
    if st.phase == SourceReady {
      var m := StepMoves(st, out, a);
    }
  }
}
