/** One SourceReady step: request power off, wait for it, export
    (pkg/controllers/migration/virtualmachine.go:340-520). */
module PowerAndExport {
  import opened Wrappers
  import opened Conditions
  import opened ImportTypes

  predicate PowerRequested(conds: seq<Condition>) {
    Has(conds, PoweringOff) || Has(conds, ShutdownGuest)
  }

  /** PowerOff on the source, and the PoweringOff condition when it succeeds. */
  function PowerOffRequest(st: Status, out: Outside, a: Answers): Ran {
    var called := Log(out, PowerOffCalled(a.callOk, out.now, a.spec));
    if !a.callOk then Ran(st, called, OtherError) else Mark(st, called, PoweringOff, a, "")
  }

  function ShutdownRequest(st: Status, out: Outside, a: Answers): Ran {
    var called := Log(out, ShutdownCalled(a.callOk, out.now));
    if !a.callOk then Ran(st, called, OtherError) else Mark(st, called, ShutdownGuest, a, "")
  }

  /** Strictly longer than the timeout, counted from the whole second that was stored. */
  predicate Expired(spec: PowerSpec, second: nat, now: nat) {
    now - second * SECOND > Timeout(spec) * SECOND
  }

  /** The source still runs: wait, or force it off after an unheeded graceful shutdown. */
  function StillRunning(st: Status, out: Outside, a: Answers): Ran {
    var shutdown := Find(st.conds, ShutdownGuest, ConditionTrue);
    if shutdown.Some? && a.spec.supported && !a.spec.force && !Has(st.conds, PoweringOff) then
      match shutdown.value.updated
      case Malformed => Ran(st, out, OtherError)
      case At(second) =>
        var read := Later(out, a.checkDelay);
        if Expired(a.spec, second, read.now) then PowerOffRequest(st, Later(read, a.forceDelay), a)
        else Ran(st, read, NoError)
    else Ran(st, out, NoError)
  }

  function PowerCheck(st: Status, out: Outside, a: Answers): Ran {
    match a.power
    case None => Ran(st, out, OtherError)
    case Some(off) =>
      var saw := Log(out, SawPower(off));
      if off then Mark(st, saw, PoweredOff, a, "") else StillRunning(st, saw, a)
  }

  function NewDisks(exported: seq<ExportedDisk>): (disks: seq<DiskInfo>)
    ensures |disks| == |exported|
    ensures forall i :: 0 <= i < |disks| ==>
      disks[i] == DiskInfo(exported[i].name, exported[i].size, exported[i].localPath, "", [], exported[i].bus)
  {
    if exported == [] then []
    else [DiskInfo(exported[0].name, exported[0].size, exported[0].localPath, "", [], exported[0].bus)]
         + NewDisks(exported[1..])
  }

  const EXPORT_ERROR := "error exporting VM"

  /** The disks exported before a failure stay in the list. */
  function ExportCall(st: Status, out: Outside, a: Answers): Ran {
    var called := Log(out, ExportCalled(|st.disks|, a.exportOk));
    var grown := st.(disks := st.disks + NewDisks(a.exported));
    if a.exportOk then Mark(grown, called, Exported, a, "") else Mark(grown, called, ExportFailed, a, EXPORT_ERROR)
  }

  /** What is left once the request condition for this source is present. */
  function AfterRequest(st: Status, out: Outside, a: Answers): Ran {
    if !Has(st.conds, PoweredOff) && PowerRequested(st.conds) then PowerCheck(st, out, a)
    else if Has(st.conds, PoweredOff) && PowerRequested(st.conds)
            && !Has(st.conds, Exported) && !Has(st.conds, ExportFailed) then ExportCall(st, out, a)
    else Ran(st, out, NoError)
  }

  function ExportStep(st: Status, out: Outside, a: Answers): Ran {
    match a.client
    case NoSource => Ran(st, out, SourceMissing)
    case ClientError => Ran(st, out, OtherError)
    case ClientOk =>
      var o := Later(out, a.callDelay);
      if a.spec.supported && a.spec.force && !Has(st.conds, PoweringOff) then PowerOffRequest(st, o, a)
      else if !(a.spec.supported && a.spec.force) && !Has(st.conds, ShutdownGuest) then
        ShutdownRequest(st, o, a)
      else AfterRequest(st, o, a)
  }

  /** The phase a SourceReady step ends in, read off its conditions (helper.go:137-143). */
  function PhaseAfterExport(conds: seq<Condition>, current: Phase): Phase {
    if Has(conds, ExportFailed) then MigrationFailed
    else if Has(conds, Exported) then DisksExported
    else current
  }

  // ---------------------------------------------------------------- a step never wedges

  /** Whatever conditions the object carries, an error-free SourceReady step makes a condition true that was
      not, or leaves SourceReady, or was told by the source that it still runs. */
  lemma NoWedge(st: Status, out: Outside, a: Answers)
    requires st.phase == SourceReady
    requires ExportStep(st, out, a).err == NoError
    ensures var r := ExportStep(st, out, a);
            || (exists t :: !Has(st.conds, t) && Has(r.st.conds, t))
            || PhaseAfterExport(r.st.conds, st.phase) != SourceReady
            || (|out.history| < |r.out.history| && r.out.history[|out.history|] == SawPower(false))
  {
    var r := ExportStep(st, out, a);
    var o := Later(out, a.callDelay);
    if a.spec.supported && a.spec.force && !Has(st.conds, PoweringOff) {
      MarkAsks(st, Log(o, PowerOffCalled(true, o.now, a.spec)), PoweringOff, a, "", PoweringOff, ConditionTrue);
    } else if !(a.spec.supported && a.spec.force) && !Has(st.conds, ShutdownGuest) {
      MarkAsks(st, Log(o, ShutdownCalled(true, o.now)), ShutdownGuest, a, "", ShutdownGuest, ConditionTrue);
    } else if !Has(st.conds, PoweredOff) {
      if a.power == Some(true) {
        MarkAsks(st, Log(o, SawPower(true)), PoweredOff, a, "", PoweredOff, ConditionTrue);
      } else {
        assert SawPower(false) in Log(o, SawPower(false)).history;
      }
    } else if !Has(st.conds, Exported) && !Has(st.conds, ExportFailed) {
      var t := if a.exportOk then Exported else ExportFailed;
      var grown := st.(disks := st.disks + NewDisks(a.exported));
      MarkAsks(grown, Log(o, ExportCalled(|st.disks|, a.exportOk)), t, a, if a.exportOk then "" else EXPORT_ERROR,
               t, ConditionTrue);
    }
  }

  // ---------------------------------------------------------------- what one step can do

  /** Exactly one condition becomes true; every other answer of the list is unchanged. */
  ghost predicate Gains(before: seq<Condition>, after: seq<Condition>, t: CondType) {
    && !Has(before, t) && Has(after, t)
    && (forall u, s :: u != t ==> Find(after, u, s) == Find(before, u, s))
    && (Unique(before) ==> Unique(after))
  }

  lemma MarkGains(st: Status, out: Outside, t: CondType, a: Answers, message: string)
    requires !Has(st.conds, t)
    ensures Gains(st.conds, Mark(st, out, t, a, message).st.conds, t)
  {
    var c := Stamped(t, out.now, a.delay, a.delay2, message);
    PutRewritesItsType(st.conds, c);
    forall u, s ensures Find(Put(st.conds, c), u, s) ==
        if u != t then Find(st.conds, u, s) else if s == ConditionTrue then Some(c) else None {
      FindPut(st.conds, c, u, s);
    }
  }

  /** What a step does to the object: nothing, or one condition becomes true. */
  datatype Move = Nothing | Adds(t: CondType)

  ghost predicate Moves(before: Status, after: Status, m: Move) {
    && after.phase == before.phase && after.importedName == before.importedName
    && match m
       case Nothing => after == before
       case Adds(t) =>
         && Gains(before.conds, after.conds, t)
         && t in {ShutdownGuest, PoweringOff, PoweredOff, Exported, ExportFailed}
         && (t == PoweredOff ==> PowerRequested(before.conds))
         && (t in {Exported, ExportFailed} ==>
               && Has(before.conds, PoweredOff) && PowerRequested(before.conds)
               && !Has(before.conds, Exported) && !Has(before.conds, ExportFailed)
               && before.disks <= after.disks
               && forall i :: |before.disks| <= i < |after.disks| ==>
                    after.disks[i].conds == [] && after.disks[i].image == "")
         && (t !in {Exported, ExportFailed} ==> after.disks == before.disks)
  }

  lemma RequestMoves(st: Status, out: Outside, t: CondType, a: Answers)
    requires t in {ShutdownGuest, PoweringOff, PoweredOff} && !Has(st.conds, t)
    requires t == PoweredOff ==> PowerRequested(st.conds)
    ensures Moves(st, Mark(st, out, t, a, "").st, Adds(t))
  {
    MarkGains(st, out, t, a, "");
  }

  lemma ExportMoves(st: Status, out: Outside, a: Answers)
    requires Has(st.conds, PoweredOff) && PowerRequested(st.conds)
    requires !Has(st.conds, Exported) && !Has(st.conds, ExportFailed)
    ensures Moves(st, ExportCall(st, out, a).st, Adds(if a.exportOk then Exported else ExportFailed))
  {
    var called := Log(out, ExportCalled(|st.disks|, a.exportOk));
    var grown := st.(disks := st.disks + NewDisks(a.exported));
    MarkGains(grown, called, if a.exportOk then Exported else ExportFailed, a, if a.exportOk then "" else EXPORT_ERROR);
  }

  lemma CheckMoves(st: Status, out: Outside, a: Answers) returns (m: Move)
    requires !Has(st.conds, PoweredOff) && PowerRequested(st.conds)
    ensures Moves(st, PowerCheck(st, out, a).st, m)
  {
    m := Nothing;
    if a.power == Some(true) {
      RequestMoves(st, Log(out, SawPower(true)), PoweredOff, a);
      m := Adds(PoweredOff);
    } else if PowerCheck(st, out, a).st != st {
      var read := Later(Later(Log(out, SawPower(false)), a.checkDelay), a.forceDelay);
      RequestMoves(st, Log(read, PowerOffCalled(a.callOk, read.now, a.spec)), PoweringOff, a);
      m := Adds(PoweringOff);
    }
  }

  /** Every step is one of those moves. */
  lemma StepMoves(st: Status, out: Outside, a: Answers) returns (m: Move)
    ensures Moves(st, ExportStep(st, out, a).st, m)
  {
    m := Nothing;
    var o := Later(out, a.callDelay);
    if a.client == ClientOk {
      if a.spec.supported && a.spec.force && !Has(st.conds, PoweringOff) {
        if a.callOk {
          RequestMoves(st, Log(o, PowerOffCalled(a.callOk, o.now, a.spec)), PoweringOff, a);
          m := Adds(PoweringOff);
        }
      } else if !(a.spec.supported && a.spec.force) && !Has(st.conds, ShutdownGuest) {
        if a.callOk {
          RequestMoves(st, Log(o, ShutdownCalled(a.callOk, o.now)), ShutdownGuest, a);
          m := Adds(ShutdownGuest);
        }
      } else if !Has(st.conds, PoweredOff) {
        m := CheckMoves(st, o, a);
      } else if !Has(st.conds, Exported) && !Has(st.conds, ExportFailed) {
        ExportMoves(st, o, a);
        m := Adds(if a.exportOk then Exported else ExportFailed);
      }
    }
  }

  // ---------------------------------------------------------------- when a step forces the power off

  /** More seconds than the user's setting, or than 60 if it is not positive, since the given second. */
  predicate Longer(spec: PowerSpec, second: nat, at: nat) {
    at - second * 1_000_000_000 >
      1_000_000_000 * if spec.timeoutSeconds > 0 then spec.timeoutSeconds else 60
  }

  /** Every PowerOff call: the source supports it, it was not called before, and unless the user asked to force
      it the object that was read carries a ShutdownGuest stamp older than the timeout. */
  lemma PowerOffReadsStamp(st: Status, out: Outside, a: Answers, k: nat)
    requires |out.history| <= k < |ExportStep(st, out, a).out.history|
    requires ExportStep(st, out, a).out.history[k].PowerOffCalled?
    ensures a.spec.supported && !Has(st.conds, PoweringOff) && ExportStep(st, out, a).out.history[k].spec == a.spec
    ensures !a.spec.force ==>
              var stamp := Find(st.conds, ShutdownGuest, ConditionTrue);
              && stamp.Some? && stamp.value.updated.At? && !Has(st.conds, PoweredOff)
              && Longer(a.spec, stamp.value.updated.second, ExportStep(st, out, a).out.history[k].at)
  {
    var o := Later(out, a.callDelay);
    if !a.spec.force || !a.spec.supported {
      if Has(st.conds, ShutdownGuest) && !Has(st.conds, PoweredOff) && a.power == Some(false) {
        ForcedReadsStamp(st, Log(o, SawPower(false)), a, k);
      }
    }
  }

  lemma ForcedReadsStamp(st: Status, out: Outside, a: Answers, k: nat)
    requires |out.history| <= k < |StillRunning(st, out, a).out.history|
    ensures StillRunning(st, out, a).out.history[k].PowerOffCalled?
    ensures StillRunning(st, out, a).out.history[k].spec == a.spec
    ensures a.spec.supported && !a.spec.force && !Has(st.conds, PoweringOff)
    ensures var stamp := Find(st.conds, ShutdownGuest, ConditionTrue);
            && stamp.Some? && stamp.value.updated.At?
            && Longer(a.spec, stamp.value.updated.second, StillRunning(st, out, a).out.history[k].at)
  {
  }
}
