/** The import as a state machine on its persisted status alone: which status may follow which, for any
    behaviour of the cluster and the source. The reconciler is proved to stay within it. */
module ImportMachine {
  import opened Wrappers
  import opened Conditions
  import opened ImportTypes
  import opened DiskVerdict
  import opened DiskImages
  import opened PowerAndExport
  import opened Reconciler

  // ---------------------------------------------------------------- one disk

  ghost predicate SameAnswersBut(before: seq<Condition>, after: seq<Condition>, changed: set<CondType>) {
    forall u, s :: u !in changed ==> Find(after, u, s) == Find(before, u, s)
  }

  /** A submitted disk is left alone; another one may get its image, for good. */
  ghost predicate SubmitsDisk(x: DiskInfo, y: DiskInfo) {
    y == x ||
    (!Submitted(x) && Submitted(y) && y == x.(image := y.image, conds := y.conds)
     && SameAnswersBut(x.conds, y.conds, {ImageSubmitted}))
  }

  /** A ready disk is left alone; another one may turn ready or failed and keeps its image. */
  ghost predicate RefreshesDisk(x: DiskInfo, y: DiskInfo) {
    y == x ||
    (!Ready(x) && y == x.(conds := y.conds)
     && SameAnswersBut(x.conds, y.conds, {ImageReady, ImageFailed}) && (Failed(x) ==> Failed(y)))
  }

  /** A failed disk loses its failed mark and nothing else: it stays submitted under the deleted image's name. */
  ghost predicate CleansDisk(x: DiskInfo, y: DiskInfo) {
    if Failed(x) then y == x.(conds := y.conds) && !Failed(y) && SameAnswersBut(x.conds, y.conds, {ImageFailed})
    else y == x
  }

  ghost predicate SubmitsDisks(xs: seq<DiskInfo>, ys: seq<DiskInfo>) {
    |xs| == |ys| && forall i :: 0 <= i < |xs| ==> SubmitsDisk(xs[i], ys[i])
  }

  ghost predicate RefreshesDisks(xs: seq<DiskInfo>, ys: seq<DiskInfo>) {
    |xs| == |ys| && forall i :: 0 <= i < |xs| ==> RefreshesDisk(xs[i], ys[i])
  }

  ghost predicate CleansDisks(xs: seq<DiskInfo>, ys: seq<DiskInfo>) {
    |xs| == |ys| && forall i :: 0 <= i < |xs| ==> CleansDisk(xs[i], ys[i])
  }

  // ---------------------------------------------------------------- one status

  ghost predicate Exports(a: Status, b: Status) {
    && b.phase == PhaseAfterExport(b.conds, SourceReady)
    && exists m :: Moves(a, b.(phase := a.phase), m)
  }

  /** b may be persisted as the successor of a. */
  ghost predicate Next(cfg: Config, a: Status, b: Status) {
    match a.phase
    case Unset => b.phase in {ImportValid, ImportInvalid} && b == a.(phase := b.phase)
    case ImportValid =>
      && b == a.(importedName := b.importedName, phase := b.phase)
      && (b.phase == ImportInvalid || (b.phase == SourceReady && cfg.isDnsLabel(b.importedName)))
    case SourceReady => b == a.(phase := MigrationFailed) || Exports(a, b)
    case DisksExported =>
      if a.disks == [] then b == a.(phase := ImportInvalid)
      else
        && b == a.(disks := b.disks, phase := b.phase) && SubmitsDisks(a.disks, b.disks)
        && b.phase == if AllSubmitted(b.disks) then DiskImagesSubmitted else DisksExported
    case DiskImagesSubmitted =>
      && b == a.(disks := b.disks, phase := b.phase) && RefreshesDisks(a.disks, b.disks)
      && Verdict(b.disks) == Some(b.phase)
    case DiskImagesFailed =>
      b == a.(disks := b.disks, phase := SourceReady) && CleansDisks(a.disks, b.disks)
    case DiskImagesReady => b.phase in {VirtualMachineCreated, MigrationFailed} && b == a.(phase := b.phase)
    case VirtualMachineCreated => b == a.(phase := VirtualMachineRunning)
    case VirtualMachineRunning => false
    case ImportInvalid => false
    case MigrationFailed => false
  }

  // ---------------------------------------------------------------- the reconciler stays within the machine

  lemma MarkedDisk(d: DiskInfo, out: Outside, t: CondType, da: DiskAnswers)
    ensures var m := MarkDisk(d, out, t, da).0;
            m == d.(conds := m.conds) && Has(m.conds, t) && SameAnswersBut(d.conds, m.conds, {t})
    ensures MarkDisk(d, out, t, da).1 == out.(now := MarkDisk(d, out, t, da).1.now)
  {
    var c := Stamped(t, out.now, da.delay, da.delay2, "");
    FindPut(d.conds, c, t, ConditionTrue);
    forall u, s | u != t ensures Find(Put(d.conds, c), u, s) == Find(d.conds, u, s) {
      FindPut(d.conds, c, u, s);
    }
  }

  lemma SubmittedDisk(x: DiskInfo, name: string, out: Outside, da: DiskAnswers)
    requires !Submitted(x)
    ensures SubmitsDisk(x, MarkDisk(x.(image := name), out, ImageSubmitted, da).0)
    ensures Submitted(MarkDisk(x.(image := name), out, ImageSubmitted, da).0)
  {
    MarkedDisk(x.(image := name), out, ImageSubmitted, da);
  }

  /** One turn of the pass that submits a disk. */
  lemma SubmitTurn(cfg: Config, st: Status, out: Outside, a: Answers, i: nat) returns (next: Status, marked: Outside)
    requires i < |st.disks| && !Submitted(st.disks[i])
    requires CheckAndCreate(cfg, st.disks[i], out, a.disk(i)).0.Some?
    ensures SubmitFrom(cfg, st, out, a, i) == SubmitFrom(cfg, next, marked, a, i + 1)
    ensures |next.disks| == |st.disks| && next == st.(disks := st.disks[i := next.disks[i]])
    ensures SubmitsDisk(st.disks[i], next.disks[i]) && Submitted(next.disks[i])
  {
    var x := st.disks[i];
    var (name, made) := CheckAndCreate(cfg, x, out, a.disk(i));
    SubmittedDisk(x, name.value, made, a.disk(i));
    var (d, after) := MarkDisk(x.(image := name.value), made, ImageSubmitted, a.disk(i));
    next, marked := st.(disks := st.disks[i := d]), after;
  }

  /** One disk, then those after it. */
  lemma SubmitsOneMore(xs: seq<DiskInfo>, d: DiskInfo, ys: seq<DiskInfo>, i: nat)
    requires i < |xs| && SubmitsDisk(xs[i], d) && SubmitsDisks(xs[i := d], ys)
    requires forall j :: 0 <= j < i + 1 ==> ys[j] == xs[i := d][j]
    ensures SubmitsDisks(xs, ys) && forall j :: 0 <= j < i ==> ys[j] == xs[j]
  {
    forall j | 0 <= j < |xs| ensures SubmitsDisk(xs[j], ys[j]) {
      if j != i {
        assert SubmitsDisk(xs[i := d][j], ys[j]);
      }
    }
  }

  /** Disks before i are done, so the rest of the pass only touches those from i on. */
  lemma {:induction false} SubmitTouchesOnly(cfg: Config, st: Status, out: Outside, a: Answers, i: nat, r: Ran)
    requires i <= |st.disks| && r == SubmitFrom(cfg, st, out, a, i)
    ensures r.st == st.(disks := r.st.disks) && SubmitsDisks(st.disks, r.st.disks)
    ensures forall j :: 0 <= j < i ==> r.st.disks[j] == st.disks[j]
    decreases |st.disks| - i
  {
    if i < |st.disks| {
      if Submitted(st.disks[i]) {
        SubmitTouchesOnly(cfg, st, out, a, i + 1, r);
      } else if CheckAndCreate(cfg, st.disks[i], out, a.disk(i)).0.Some? {
        var next, marked := SubmitTurn(cfg, st, out, a, i);
        SubmitTouchesOnly(cfg, next, marked, a, i + 1, r);
        SubmitsOneMore(st.disks, next.disks[i], r.st.disks, i);
      }
    }
  }

  lemma SubmitTouches(cfg: Config, st: Status, out: Outside, a: Answers, i: nat)
    requires i <= |st.disks|
    ensures var r := SubmitFrom(cfg, st, out, a, i);
            && r.st == st.(disks := r.st.disks) && SubmitsDisks(st.disks, r.st.disks)
            && (forall j :: 0 <= j < i ==> r.st.disks[j] == st.disks[j])
  {
    SubmitTouchesOnly(cfg, st, out, a, i, SubmitFrom(cfg, st, out, a, i));
  }

  predicate SubmittedFrom(disks: seq<DiskInfo>, i: nat) {
    forall j :: i <= j < |disks| ==> Submitted(disks[j])
  }

  lemma {:induction false} SubmitErrs(cfg: Config, st: Status, out: Outside, a: Answers, i: nat, r: Ran)
    requires i <= |st.disks| && r == SubmitFrom(cfg, st, out, a, i)
    ensures r.err == NoError <==> SubmittedFrom(r.st.disks, i)
    decreases |st.disks| - i
  {
    if i < |st.disks| {
      if Submitted(st.disks[i]) {
        SubmitErrs(cfg, st, out, a, i + 1, r);
        SubmitKeepsDone(cfg, st, out, a, i + 1, i);
        SubmittedMore(r.st.disks, i);
      } else if CheckAndCreate(cfg, st.disks[i], out, a.disk(i)).0.Some? {
        var next, marked := SubmitTurn(cfg, st, out, a, i);
        SubmitErrs(cfg, next, marked, a, i + 1, r);
        SubmitKeepsDone(cfg, next, marked, a, i + 1, i);
        SubmittedMore(r.st.disks, i);
      }
    }
  }

  lemma SubmitKeepsDone(cfg: Config, st: Status, out: Outside, a: Answers, i: nat, j: nat)
    requires j < i <= |st.disks|
    ensures var r := SubmitFrom(cfg, st, out, a, i).st; |r.disks| == |st.disks| && r.disks[j] == st.disks[j]
  {
    SubmitTouches(cfg, st, out, a, i);
  }

  lemma SubmittedMore(disks: seq<DiskInfo>, i: nat)
    requires i < |disks|
    ensures SubmittedFrom(disks, i) <==> Submitted(disks[i]) && SubmittedFrom(disks, i + 1)
  {
  }

  /** The submit pass: only unsubmitted disks from i on are touched, and an error is reported exactly when one is
      left. */
  lemma SubmitStays(cfg: Config, st: Status, out: Outside, a: Answers, i: nat)
    requires i <= |st.disks|
    ensures var r := SubmitFrom(cfg, st, out, a, i);
            && r.st == st.(disks := r.st.disks) && SubmitsDisks(st.disks, r.st.disks)
            && (forall j :: 0 <= j < i ==> r.st.disks[j] == st.disks[j])
            && (r.err == NoError <==> SubmittedFrom(r.st.disks, i))
  {
    SubmitTouches(cfg, st, out, a, i);
    SubmitErrs(cfg, st, out, a, i, SubmitFrom(cfg, st, out, a, i));
  }

  lemma {:induction false} ReadStays(d: DiskInfo, out: Outside, conds: seq<ImageCond>, da: DiskAnswers)
    ensures var y := ReadImage(d, out, conds, da).0;
            && y == d.(conds := y.conds) && SameAnswersBut(d.conds, y.conds, {ImageReady, ImageFailed})
            && (Failed(d) ==> Failed(y)) && (Ready(d) ==> Ready(y))
    decreases |conds|
  {
    if conds != [] {
      if SaysImported(conds[0]) {
        MarkedDisk(d, Log(out, SawImported(d.image)), ImageReady, da);
        var (d1, out1) := MarkDisk(d, Log(out, SawImported(d.image)), ImageReady, da);
        ReadStays(d1, out1, conds[1..], da);
      } else if SaysFailed(conds[0]) {
        MarkedDisk(d, Log(out, SawImportFailed(d.image)), ImageFailed, da);
        var (d1, out1) := MarkDisk(d, Log(out, SawImportFailed(d.image)), ImageFailed, da);
        ReadStays(d1, out1, conds[1..], da);
      } else {
        ReadStays(d, out, conds[1..], da);
      }
    }
  }

  lemma {:induction false} RefreshStays(st: Status, out: Outside, a: Answers, i: nat)
    requires i <= |st.disks|
    ensures var r := RefreshFrom(st, out, a, i);
            && r.st == st.(disks := r.st.disks) && RefreshesDisks(st.disks, r.st.disks)
            && (forall j :: 0 <= j < i ==> r.st.disks[j] == st.disks[j])
    decreases |st.disks| - i
  {
    if i < |st.disks| {
      var x := st.disks[i];
      if Ready(x) {
        RefreshStays(st, out, a, i + 1);
      } else if a.disk(i).getOk && x.image in out.images {
        var (d, saw) := ReadImage(x, out, out.images[x.image].conds, a.disk(i));
        ReadStays(x, out, out.images[x.image].conds, a.disk(i));
        RefreshStays(st.(disks := st.disks[i := d]), saw, a, i + 1);
      }
    }
  }

  lemma DroppedMark(x: DiskInfo)
    requires Failed(x)
    ensures CleansDisk(x, x.(conds := Drop(x.conds, ImageFailed, ConditionTrue)))
  {
    var after := Drop(x.conds, ImageFailed, ConditionTrue);
    FindDrop(x.conds, ImageFailed, ConditionTrue, ImageFailed, ConditionTrue);
    forall u, s | u != ImageFailed ensures Find(after, u, s) == Find(x.conds, u, s) {
      FindDrop(x.conds, ImageFailed, ConditionTrue, u, s);
    }
  }

  lemma {:induction false} CleanStays(st: Status, out: Outside, a: Answers, i: nat)
    requires i <= |st.disks|
    ensures var r := CleanFrom(st, out, a, i);
            && r.st == st.(disks := r.st.disks) && |r.st.disks| == |st.disks|
            && (forall j :: 0 <= j < i ==> r.st.disks[j] == st.disks[j])
            && (r.err == NoError ==> forall j :: i <= j < |st.disks| ==> CleansDisk(st.disks[j], r.st.disks[j]))
    decreases |st.disks| - i
  {
    if i < |st.disks| {
      var x := st.disks[i];
      if !Failed(x) {
        CleanStays(st, out, a, i + 1);
      } else {
        var (deleted, ok) := DeleteImage(out, x.image, a.disk(i));
        if ok {
          DroppedMark(x);
          var d := x.(conds := Drop(x.conds, ImageFailed, ConditionTrue));
          CleanStays(st.(disks := st.disks[i := d]), deleted, a, i + 1);
        }
      }
    }
  }

  lemma MissingSourceStops(st: Status, out: Outside, a: Answers)
    ensures ExportStep(st, out, a).err == SourceMissing ==> ExportStep(st, out, a).st == st
  {
  }

  lemma MoveIsNext(cfg: Config, st: Status, b: Status, m: Move)
    requires st.phase == SourceReady && Moves(st, b.(phase := st.phase), m)
    requires b.phase == PhaseAfterExport(b.conds, SourceReady)
    ensures Next(cfg, st, b)
  {
    assert Exports(st, b);
  }

  lemma ExportRefines(cfg: Config, st: Status, out: Outside, a: Answers)
    requires st.phase == SourceReady
    ensures var w := RunExport(st, out, a).write; w.Some? ==> Next(cfg, st, w.value)
  {
    var r := ExportStep(st, out, a);
    var m := StepMoves(st, out, a);
    if r.err == NoError {
      var b := r.st.(phase := PhaseAfterExport(r.st.conds, r.st.phase));
      assert b.(phase := st.phase) == r.st;
      MoveIsNext(cfg, st, b, m);
    } else if r.err == SourceMissing {
      MissingSourceStops(st, out, a);
    }
  }

  /** Whatever the outside answers, a status the reconciler asks to write is a successor of the one it read. */
  lemma HandleRefinesMachine(cfg: Config, st: Status, out: Outside, a: Answers)
    ensures var w := Handle(cfg, st, out, a).write; w.Some? ==> Next(cfg, st, w.value)
  {
    match st.phase
    case SourceReady => ExportRefines(cfg, st, out, a);
    case DisksExported => SubmitStays(cfg, st, out, a, 0);
    case DiskImagesSubmitted => RefreshStays(st, out, a, 0);
    case DiskImagesFailed => CleanStays(st, out, a, 0);
    case _ =>
  }
}
