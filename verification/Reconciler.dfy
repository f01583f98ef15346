/** OnVirtualMachineChange as a function of the persisted status and the answers it gets
    (pkg/controllers/migration/virtualmachine.go:111-208, helper.go:47-170). */
module Reconciler {
  import opened Wrappers
  import opened Conditions
  import opened ImportTypes
  import opened DiskVerdict
  import opened DiskImages
  import opened PowerAndExport

  function Writes(st: Status, out: Outside): Outcome {
    Outcome(out, Some(st), NoError, false)
  }

  function Stops(out: Outside, err: Err): Outcome {
    Outcome(out, None, err, false)
  }

  function Preflight(st: Status, out: Outside, a: Answers): Outcome {
    match a.preflight
    case PreflightOk => Writes(st.(phase := ImportValid), out)
    case ClusterNotReady => Stops(out, OtherError)
    case PreflightError => Writes(st.(phase := ImportInvalid), out)
  }

  /** Without a source object the handler passes on a nil import, and the abort dereferences it. */
  function Sanitize(cfg: Config, st: Status, out: Outside, a: Answers): Outcome {
    match a.client
    case NoSource => Outcome(out, None, SourceMissing, true)
    case ClientError => Stops(out, OtherError)
    case ClientOk =>
      var ok := a.sanitizeOk && cfg.isDnsLabel(a.sanitizedName);
      Writes(st.(importedName := a.sanitizedName, phase := if ok then SourceReady else ImportInvalid), out)
  }

  function RunExport(st: Status, out: Outside, a: Answers): Outcome {
    var r := ExportStep(st, out, a);
    match r.err
    case SourceMissing => Writes(r.st.(phase := MigrationFailed), r.out)
    case OtherError => Stops(r.out, OtherError)
    case NoError => Writes(r.st.(phase := PhaseAfterExport(r.st.conds, r.st.phase)), r.out)
  }

  function SubmitImages(cfg: Config, st: Status, out: Outside, a: Answers): Outcome {
    if st.disks == [] then Writes(st.(phase := ImportInvalid), out)
    else
      var r := SubmitFrom(cfg, st, out, a, 0);
      if r.err != NoError then Outcome(r.out, if r.st.disks != st.disks then Some(r.st) else None, r.err, false)
      else Writes(r.st.(phase := if AllSubmitted(r.st.disks) then DiskImagesSubmitted else r.st.phase), r.out)
  }

  /** An undecided verdict drops the conditions found in this pass. */
  function WatchImages(st: Status, out: Outside, a: Answers): Outcome {
    var r := RefreshFrom(st, out, a, 0);
    var verdict := Verdict(r.st.disks);
    if r.err != NoError then Stops(r.out, r.err)
    else if verdict.None? then Stops(r.out, NoError)
    else Writes(r.st.(phase := verdict.value), r.out)
  }

  function Resubmit(st: Status, out: Outside, a: Answers): Outcome {
    var r := CleanFrom(st, out, a, 0);
    if r.err != NoError then Stops(r.out, r.err) else Writes(r.st.(phase := SourceReady), r.out)
  }

  function MakeVm(st: Status, out: Outside, a: Answers): Outcome {
    var (made, err) := CreateVm(st, out, a);
    match err
    case SourceMissing => Writes(st.(phase := MigrationFailed), made)
    case OtherError => Stops(made, OtherError)
    case NoError => Writes(st.(phase := VirtualMachineCreated), made)
  }

  function CheckVm(st: Status, out: Outside, a: Answers): Outcome {
    if a.vmReady.None? || st.importedName !in out.vms then Stops(out, OtherError)
    else if !a.vmReady.value then Stops(out, NoError)
    else Writes(st.(phase := VirtualMachineRunning), out)
  }

  function Handle(cfg: Config, st: Status, out: Outside, a: Answers): Outcome {
    match st.phase
    case Unset => Preflight(st, out, a)
    case ImportValid => Sanitize(cfg, st, out, a)
    case SourceReady => RunExport(st, out, a)
    case DisksExported => SubmitImages(cfg, st, out, a)
    case DiskImagesSubmitted => WatchImages(st, out, a)
    case DiskImagesFailed => Resubmit(st, out, a)
    case DiskImagesReady => MakeVm(st, out, a)
    case VirtualMachineCreated => CheckVm(st, out, a)
    case VirtualMachineRunning =>
      var (tidied, ok) := TidyFrom(cfg, st.disks, out, a, 0);
      Stops(tidied, if ok then NoError else OtherError)
    case ImportInvalid => Stops(out, NoError)
    case MigrationFailed => Stops(out, NoError)
  }

  /** The one crash: sanitizing an import without its source. It comes before any call and any write. */
  lemma CrashChangesNothing(cfg: Config, st: Status, out: Outside, a: Answers)
    ensures var oc := Handle(cfg, st, out, a);
            && (oc.panicked <==> st.phase == ImportValid && a.client == NoSource)
            && (oc.panicked ==> oc.out == out && oc.write == None)
  {
  }
}
