/** What every persisted status satisfies, and what no later status takes back. */
module ImportInvariants {
  import opened Wrappers
  import opened Conditions
  import opened ImportTypes
  import opened DiskVerdict
  import opened PowerAndExport
  import opened ImportMachine

  predicate PastReady(p: Phase) {
    p == DiskImagesReady || p == VirtualMachineCreated || p == VirtualMachineRunning
  }

  predicate PastSubmit(p: Phase) {
    p == DiskImagesSubmitted || p == DiskImagesFailed || PastReady(p)
  }

  predicate PastExport(p: Phase) {
    p == DisksExported || PastSubmit(p)
  }

  /** Power off, then export: the import-wide conditions appear in this order, and an export has one result. */
  ghost predicate Ordered(st: Status) {
    && (Has(st.conds, PoweredOff) ==> PowerRequested(st.conds))
    && (Has(st.conds, Exported) || Has(st.conds, ExportFailed) ==> Has(st.conds, PoweredOff))
    && !(Has(st.conds, Exported) && Has(st.conds, ExportFailed))
    && Unique(st.conds)
  }

  /** The disk list comes from one export, and a failed export ends the import. */
  ghost predicate ExportedOnce(st: Status) {
    && (st.disks != [] ==> Has(st.conds, Exported) || Has(st.conds, ExportFailed))
    && (Has(st.conds, ExportFailed) ==> st.phase == MigrationFailed)
    && (PastExport(st.phase) ==> Has(st.conds, Exported))
  }

  /** A failed verdict was given for a disk that is failed and not ready. */
  predicate HasBroken(disks: seq<DiskInfo>) {
    exists j :: 0 <= j < |disks| && Failed(disks[j]) && !Ready(disks[j])
  }

  ghost predicate DisksFitPhase(st: Status) {
    && (PastSubmit(st.phase) ==> st.disks != [] && AllSubmitted(st.disks))
    && (PastReady(st.phase) ==> AllReady(st.disks))
    && (st.phase == DiskImagesFailed <==> !NoneFailed(st.disks))
    && (st.phase == DiskImagesFailed ==> HasBroken(st.disks))
    && (forall i :: 0 <= i < |st.disks| && Ready(st.disks[i]) ==> Submitted(st.disks[i]))
  }

  /** A young import is empty, and from SourceReady on the name is a DNS label. */
  predicate Early(cfg: Config, st: Status) {
    && (st.phase == Unset || st.phase == ImportValid ==> st.conds == [] && st.disks == [])
    && (st.phase == Unset || st.phase == ImportValid || st.phase == ImportInvalid || cfg.isDnsLabel(st.importedName))
  }

  ghost predicate Inv(cfg: Config, st: Status) {
    Early(cfg, st) && Ordered(st) && ExportedOnce(st) && DisksFitPhase(st)
  }

  lemma OrderedNext(cfg: Config, a: Status, b: Status)
    requires Ordered(a) && Next(cfg, a, b)
    ensures Ordered(b)
  {
    if a.phase == SourceReady && b != a.(phase := MigrationFailed) {
      var m :| Moves(a, b.(phase := a.phase), m);
      if m.Adds? {
        assert forall u :: u != m.t ==> Has(b.conds, u) == Has(a.conds, u);
      }
    }
  }

  lemma ExportedOnceNext(cfg: Config, a: Status, b: Status)
    requires Ordered(a) && ExportedOnce(a) && Next(cfg, a, b)
    ensures ExportedOnce(b)
  {
    if a.phase == SourceReady && b != a.(phase := MigrationFailed) {
      var m :| Moves(a, b.(phase := a.phase), m);
      MoveExportsOnce(a, b, m);
    }
  }

  lemma MoveExportsOnce(a: Status, b: Status, m: Move)
    requires ExportedOnce(a) && a.phase == SourceReady && Moves(a, b.(phase := a.phase), m)
    requires b.phase == PhaseAfterExport(b.conds, SourceReady)
    ensures ExportedOnce(b)
  {
    if m.Adds? {
      assert forall u :: u != m.t ==> Has(b.conds, u) == Has(a.conds, u);
    }
  }

  lemma ExportKeepsDiskMarks(a: Status, b: Status)
    requires a.phase == SourceReady && Exports(a, b) && DisksFitPhase(a)
    ensures DisksFitPhase(b)
  {
    var m :| Moves(a, b.(phase := a.phase), m);
    forall i | 0 <= i < |b.disks| ensures !Failed(b.disks[i]) && (Ready(b.disks[i]) ==> Submitted(b.disks[i])) {
      if i < |a.disks| {
        assert b.disks[i] == a.disks[i];
      }
    }
  }

  lemma VerdictMeans(disks: seq<DiskInfo>, p: Phase)
    requires Verdict(disks) == Some(p)
    ensures p == DiskImagesReady || p == DiskImagesFailed
    ensures p == DiskImagesReady ==> AllReady(disks) && NoneFailed(disks)
    ensures p == DiskImagesFailed ==> HasBroken(disks) && !NoneFailed(disks)
  {
    if p == DiskImagesReady {
      ReadyVerdictExact(disks);
    } else {
      FailedVerdictExact(disks);
    }
  }

  lemma RefreshFitsPhase(a: Status, b: Status)
    requires DisksFitPhase(a) && a.phase == DiskImagesSubmitted && Verdict(b.disks) == Some(b.phase)
    requires RefreshesDisks(a.disks, b.disks)
    ensures DisksFitPhase(b)
  {
    VerdictMeans(b.disks, b.phase);
    RefreshKeepsSubmitted(a.disks, b.disks);
    SubmittedFitsPhase(b);
  }

  lemma SubmittedFitsPhase(b: Status)
    requires b.disks != [] && AllSubmitted(b.disks) && (b.phase == DiskImagesReady || b.phase == DiskImagesFailed)
    requires if b.phase == DiskImagesReady then AllReady(b.disks) && NoneFailed(b.disks)
             else HasBroken(b.disks) && !NoneFailed(b.disks)
    ensures DisksFitPhase(b)
  {
  }

  lemma RefreshKeepsSubmitted(xs: seq<DiskInfo>, ys: seq<DiskInfo>)
    requires AllSubmitted(xs) && RefreshesDisks(xs, ys)
    ensures AllSubmitted(ys)
  {
    forall i | 0 <= i < |ys| ensures Submitted(ys[i]) {
      assert Submitted(xs[i]) && RefreshesDisk(xs[i], ys[i]);
    }
  }

  lemma CleanFitsPhase(a: Status, b: Status)
    requires DisksFitPhase(a) && a.phase == DiskImagesFailed && b.phase == SourceReady
    requires CleansDisks(a.disks, b.disks)
    ensures DisksFitPhase(b)
  {
    forall i | 0 <= i < |b.disks| ensures !Failed(b.disks[i]) && (Ready(b.disks[i]) ==> Submitted(b.disks[i])) {
      assert CleansDisk(a.disks[i], b.disks[i]);
    }
  }

  lemma SubmitFitsPhase(a: Status, b: Status)
    requires DisksFitPhase(a) && a.phase == DisksExported && a.disks != []
    requires SubmitsDisks(a.disks, b.disks)
    requires b.phase == if AllSubmitted(b.disks) then DiskImagesSubmitted else DisksExported
    ensures DisksFitPhase(b)
  {
    forall i | 0 <= i < |b.disks| ensures !Failed(b.disks[i]) && (Ready(b.disks[i]) ==> Submitted(b.disks[i])) {
      assert SubmitsDisk(a.disks[i], b.disks[i]);
      assert Failed(b.disks[i]) == Failed(a.disks[i]) && Ready(b.disks[i]) == Ready(a.disks[i]);
    }
  }

  /** The invariant is inductive for the machine, so every persisted status of every run has it. */
  lemma InvNext(cfg: Config, a: Status, b: Status)
    requires Inv(cfg, a) && Next(cfg, a, b)
    ensures Inv(cfg, b)
  {
    EarlyNext(cfg, a, b);
    OrderedNext(cfg, a, b);
    ExportedOnceNext(cfg, a, b);
    DisksFitNext(cfg, a, b);
  }

  lemma EarlyNext(cfg: Config, a: Status, b: Status)
    requires Early(cfg, a) && Next(cfg, a, b)
    ensures Early(cfg, b)
  {
    if a.phase == SourceReady && Exports(a, b) {
      var m :| Moves(a, b.(phase := a.phase), m);
    }
  }

  lemma DisksFitNext(cfg: Config, a: Status, b: Status)
    requires DisksFitPhase(a) && Next(cfg, a, b)
    ensures DisksFitPhase(b)
  {
    match a.phase
    case SourceReady =>
      if Exports(a, b) {
        ExportKeepsDiskMarks(a, b);
      }
    case DisksExported =>
      if a.disks != [] {
        SubmitFitsPhase(a, b);
      }
    case DiskImagesSubmitted => RefreshFitsPhase(a, b);
    case DiskImagesFailed => CleanFitsPhase(a, b);
    case _ =>
  }

  // ---------------------------------------------------------------- what is written once

  /** A disk keeps its name, size, path and bus; its image is fixed from its submission on; it stays ready. */
  ghost predicate KeepsDisk(x: DiskInfo, y: DiskInfo) {
    && y == x.(image := y.image, conds := y.conds)
    && (Submitted(x) ==> Submitted(y) && y.image == x.image)
    && (Ready(x) ==> Ready(y))
  }

  /** Nothing exported or marked is ever taken back, and a condition's first true entry keeps its timestamp. */
  ghost predicate Keeps(a: Status, b: Status) {
    && (forall t :: Has(a.conds, t) ==> Find(b.conds, t, ConditionTrue) == Find(a.conds, t, ConditionTrue))
    && (a.disks != [] ==> |b.disks| == |a.disks|)
    && (a.disks != [] ==> forall i :: 0 <= i < |a.disks| ==> KeepsDisk(a.disks[i], b.disks[i]))
    && (a.phase !in {Unset, ImportValid} ==> b.importedName == a.importedName)
  }

  lemma SubmitKeeps(xs: seq<DiskInfo>, ys: seq<DiskInfo>)
    requires SubmitsDisks(xs, ys)
    ensures forall i :: 0 <= i < |xs| ==> KeepsDisk(xs[i], ys[i])
  {
    forall i | 0 <= i < |xs| ensures KeepsDisk(xs[i], ys[i]) {
      assert SubmitsDisk(xs[i], ys[i]);
    }
  }

  lemma RefreshKeeps(xs: seq<DiskInfo>, ys: seq<DiskInfo>)
    requires RefreshesDisks(xs, ys)
    ensures forall i :: 0 <= i < |xs| ==> KeepsDisk(xs[i], ys[i])
  {
    forall i | 0 <= i < |xs| ensures KeepsDisk(xs[i], ys[i]) {
      assert RefreshesDisk(xs[i], ys[i]);
    }
  }

  lemma CleanKeeps(xs: seq<DiskInfo>, ys: seq<DiskInfo>)
    requires CleansDisks(xs, ys)
    ensures forall i :: 0 <= i < |xs| ==> KeepsDisk(xs[i], ys[i])
  {
    forall i | 0 <= i < |xs| ensures KeepsDisk(xs[i], ys[i]) {
      assert CleansDisk(xs[i], ys[i]);
    }
  }

  lemma ExportKeeps(a: Status, b: Status)
    requires Exports(a, b) && ExportedOnce(a) && a.phase == SourceReady
    ensures Keeps(a, b)
  {
    var m :| Moves(a, b.(phase := a.phase), m);
  }

  lemma KeepsNext(cfg: Config, a: Status, b: Status)
    requires Inv(cfg, a) && Next(cfg, a, b)
    ensures Keeps(a, b)
  {
    match a.phase
    case SourceReady =>
      if Exports(a, b) {
        ExportKeeps(a, b);
      }
    case DisksExported =>
      if a.disks != [] {
        SubmitKeeps(a.disks, b.disks);
      }
    case DiskImagesSubmitted => RefreshKeeps(a.disks, b.disks);
    case DiskImagesFailed => CleanKeeps(a.disks, b.disks);
    case _ =>
  }

  lemma KeepsTrans(a: Status, b: Status, c: Status)
    requires Keeps(a, b) && Keeps(b, c)
    requires a.phase !in {Unset, ImportValid} ==> b.phase !in {Unset, ImportValid}
    ensures Keeps(a, c)
  {
    forall t | Has(a.conds, t) ensures Find(c.conds, t, ConditionTrue) == Find(a.conds, t, ConditionTrue) {
      assert Has(b.conds, t);
    }
    if a.disks != [] {
      forall i | 0 <= i < |a.disks| ensures KeepsDisk(a.disks[i], c.disks[i]) {
        assert KeepsDisk(a.disks[i], b.disks[i]) && KeepsDisk(b.disks[i], c.disks[i]);
      }
    }
  }

  /** The list is filled by the write that records the export's result, and by no other. */
  lemma ListFilledByExport(cfg: Config, a: Status, b: Status)
    requires Inv(cfg, a) && Next(cfg, a, b)
    ensures |a.disks| < |b.disks| ==>
            a.disks == [] && (b.phase == MigrationFailed <==> Has(b.conds, ExportFailed))
            && (b.phase == DisksExported <==> Has(b.conds, Exported))
            && !Has(a.conds, Exported) && !Has(a.conds, ExportFailed)
  {
    if a.phase == SourceReady && Exports(a, b) {
      var m :| Moves(a, b.(phase := a.phase), m);
    }
  }

  // ---------------------------------------------------------------- the graph of phases

  ghost predicate Edge(p: Phase, q: Phase) {
    match p
    case Unset => q in {ImportValid, ImportInvalid}
    case ImportValid => q in {SourceReady, ImportInvalid}
    case SourceReady => q in {SourceReady, DisksExported, MigrationFailed}
    case DisksExported => q in {DisksExported, DiskImagesSubmitted, ImportInvalid}
    case DiskImagesSubmitted => q in {DiskImagesReady, DiskImagesFailed}
    case DiskImagesFailed => q == SourceReady
    case DiskImagesReady => q in {VirtualMachineCreated, MigrationFailed}
    case VirtualMachineCreated => q == VirtualMachineRunning
    case VirtualMachineRunning => false
    case ImportInvalid => false
    case MigrationFailed => false
  }

  lemma NextFollowsGraph(cfg: Config, a: Status, b: Status)
    requires Inv(cfg, a) && Next(cfg, a, b)
    ensures Edge(a.phase, b.phase)
  {
  }
}
