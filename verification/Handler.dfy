/** The controller as the program writes it: an import object edited in place, clients with state, and loops
    over the disk list. Each method is proved equal to the step function of the same part. */
module Handler {
  import opened Wrappers
  import opened Conditions
  import opened ImportTypes
  import opened DiskVerdict
  import opened DiskImages
  import opened PowerAndExport
  import opened Reconciler
  import opened ImportSystem

  /** A VirtualMachineImport as a reconcile holds it. */
  class ImportObject {
    var phase: Phase
    var disks: seq<DiskInfo>
    var conds: seq<Condition>
    var importedName: string
    const version: nat

    constructor (st: Status, version: nat)
      ensures Value() == st && this.version == version
    {
      this.phase, this.disks, this.conds, this.importedName := st.phase, st.disks, st.conds, st.importedName;
      this.version := version;
    }

    function Value(): Status
      reads this
    {
      Status(phase, disks, conds, importedName)
    }

    method Merge(cond: Condition)
      modifies this`conds
      ensures conds == Put(old(conds), cond)
    {
      MergeOne(conds, cond);
      conds := MergeConditions(conds, [cond]);
    }
  }

  /** The API server, the source and the clock behind the controller's clients. */
  class Cluster {
    var log: seq<Status>
    var images: map<string, Image>
    var used: set<string>
    var pvcs: set<string>
    var vms: map<string, bool>
    var now: nat
    var history: seq<Event>

    constructor (w: World)
      ensures Value() == w
    {
      log, images, used, pvcs := w.log, w.out.images, w.out.used, w.out.pvcs;
      vms, now, history := w.out.vms, w.out.now, w.out.history;
    }

    function Out(): Outside
      reads this
    {
      Outside(images, used, pvcs, vms, now, history)
    }

    function Value(): World
      reads this
    {
      World(log, Out())
    }

    method Record(e: Event)
      modifies this`history
      ensures Out() == Log(old(Out()), e)
    {
      history := history + [e];
    }

    method Wait(delay: nat)
      modifies this`now
      ensures Out() == Later(old(Out()), delay)
    {
      now := now + delay;
    }

    /** The write is rejected unless it is based on the newest version. */
    method UpdateStatus(vm: ImportObject, accepted: bool)
      modifies this`log
      ensures log == if accepted && vm.version == |old(log)| - 1 then old(log) + [vm.Value()] else old(log)
    {
      if accepted && vm.version == |log| - 1 {
        log := log + [vm.Value()];
      }
    }

    method CreateImage(cfg: Config, name: string, tag: string, da: DiskAnswers) returns (r: Option<string>)
      modifies this`images, this`used, this`history
      ensures if !da.create.applied || !NameFree(old(Out()), name) then r == None && Out() == old(Out())
              else Out() == StoreImage(cfg, old(Out()), name, tag, da.backingImage)
                   && r == if da.create.reported then Some(name) else None
    {
      r := None;
      if da.create.applied && name != "" && name !in used && name !in images {
        images := images[name := Image(tag, [], da.backingImage, [cfg.owner])];
        used := used + {name};
        Record(ImageMade(name, tag));
        if da.create.reported {
          r := Some(name);
        }
      }
    }

    method DeleteImage(name: string, da: DiskAnswers) returns (ok: bool)
      modifies this`images, this`history
      ensures (Out(), ok) == DiskImages.DeleteImage(old(Out()), name, da)
    {
      if name !in images || !da.delete.applied {
        return false;
      }
      if !da.lingers {
        images := images - {name};
      }
      Record(ImageDeleted(name));
      return da.delete.reported;
    }
  }

  class Controller {
    const cfg: Config
    const cluster: Cluster

    constructor (cfg: Config, cluster: Cluster)
      ensures this.cfg == cfg && this.cluster == cluster
    {
      this.cfg, this.cluster := cfg, cluster;
    }

    // -------------------------------------------------------------- power off and export

    method MarkImport(vm: ImportObject, t: CondType, a: Answers, message: string)
      modifies vm`conds, cluster`now
      ensures var m := Mark(old(vm.Value()), old(cluster.Out()), t, a, message);
              vm.Value() == m.st && cluster.Out() == m.out
    {
      cluster.Wait(a.delay);
      var updated := At(cluster.now / SECOND);
      cluster.Wait(a.delay2);
      var cond := Condition(t, ConditionTrue, updated, At(cluster.now / SECOND), "", message);
      vm.Merge(cond);
      assert cond == Stamped(t, old(cluster.now), a.delay, a.delay2, message);
    }

    method TriggerShutdownGuest(vm: ImportObject, a: Answers) returns (err: Err)
      modifies vm`conds, cluster`now, cluster`history
      ensures Ran(vm.Value(), cluster.Out(), err) == ShutdownRequest(old(vm.Value()), old(cluster.Out()), a)
    {
      cluster.Record(ShutdownCalled(a.callOk, cluster.now));
      if !a.callOk {
        return OtherError;
      }
      MarkImport(vm, ShutdownGuest, a, "");
      return NoError;
    }

    method TriggerPowerOff(vm: ImportObject, a: Answers) returns (err: Err)
      modifies vm`conds, cluster`now, cluster`history
      ensures Ran(vm.Value(), cluster.Out(), err) == PowerOffRequest(old(vm.Value()), old(cluster.Out()), a)
    {
      cluster.Record(PowerOffCalled(a.callOk, cluster.now, a.spec));
      if !a.callOk {
        return OtherError;
      }
      MarkImport(vm, PoweringOff, a, "");
      return NoError;
    }

    /** The wait for a graceful shutdown, and the forced power off that ends it. */
    method AwaitShutdown(vm: ImportObject, a: Answers) returns (err: Err)
      modifies vm`conds, cluster`now, cluster`history
      ensures Ran(vm.Value(), cluster.Out(), err) == StillRunning(old(vm.Value()), old(cluster.Out()), a)
    {
      var shutdown := GetCondition(vm.conds, ShutdownGuest, ConditionTrue);
      if shutdown != None && a.spec.supported && !a.spec.force {
        var poweringOff := ConditionExists(vm.conds, PoweringOff, ConditionTrue);
        if !poweringOff {
          match shutdown.value.updated {
            case Malformed => return OtherError;
            case At(second) =>
              cluster.Wait(a.checkDelay);
              if cluster.now - second * SECOND > Timeout(a.spec) * SECOND {
                cluster.Wait(a.forceDelay);
                err := TriggerPowerOff(vm, a);
                return;
              }
          }
        }
      }
      return NoError;
    }

    method ExportVirtualMachine(vm: ImportObject, a: Answers) returns (ok: bool)
      modifies vm`disks, cluster`history
      ensures vm.disks == old(vm.disks) + NewDisks(a.exported) && ok == a.exportOk
      ensures cluster.Out() == Log(old(cluster.Out()), ExportCalled(|old(vm.disks)|, a.exportOk))
    {
      cluster.Record(ExportCalled(|vm.disks|, a.exportOk));
      vm.disks := vm.disks + NewDisks(a.exported);
      return a.exportOk;
    }

    /** Ask the source whether it is off, and record it or go on waiting. */
    method CheckPoweredOff(vm: ImportObject, a: Answers) returns (err: Err)
      modifies vm`conds, cluster`now, cluster`history
      ensures Ran(vm.Value(), cluster.Out(), err) == PowerCheck(old(vm.Value()), old(cluster.Out()), a)
    {
      match a.power
      case None => return OtherError;
      case Some(off) =>
      cluster.Record(SawPower(off));
      if off {
        MarkImport(vm, PoweredOff, a, "");
        return NoError;
      }
      err := AwaitShutdown(vm, a);
    }

    method ExportSource(vm: ImportObject, a: Answers) returns (err: Err)
      modifies vm`disks, vm`conds, cluster`now, cluster`history
      ensures Ran(vm.Value(), cluster.Out(), err) == ExportCall(old(vm.Value()), old(cluster.Out()), a)
    {
      var ok := ExportVirtualMachine(vm, a);
      if !ok {
        MarkImport(vm, ExportFailed, a, EXPORT_ERROR);
        return NoError;
      }
      MarkImport(vm, Exported, a, "");
      return NoError;
    }

    method ContinueExport(vm: ImportObject, a: Answers) returns (err: Err)
      modifies vm`disks, vm`conds, cluster`now, cluster`history
      ensures Ran(vm.Value(), cluster.Out(), err) == AfterRequest(old(vm.Value()), old(cluster.Out()), a)
    {
      ghost var st, out := vm.Value(), cluster.Out();
      var poweringOff := ConditionExists(vm.conds, PoweringOff, ConditionTrue);
      var shutdownGuest := ConditionExists(vm.conds, ShutdownGuest, ConditionTrue);
      var poweredOff := ConditionExists(vm.conds, PoweredOff, ConditionTrue);
      if !poweredOff && (poweringOff || shutdownGuest) {
        assert AfterRequest(st, out, a) == PowerCheck(st, out, a);
        err := CheckPoweredOff(vm, a);
        return;
      }
      var exported := ConditionExists(vm.conds, Exported, ConditionTrue);
      var exportFailed := ConditionExists(vm.conds, ExportFailed, ConditionTrue);
      if poweredOff && (poweringOff || shutdownGuest) && !exported && !exportFailed {
        assert AfterRequest(st, out, a) == ExportCall(st, out, a);
        err := ExportSource(vm, a);
        return;
      }
      return NoError;
    }

    method TriggerExport(vm: ImportObject, a: Answers) returns (err: Err)
      modifies vm`disks, vm`conds, cluster`now, cluster`history
      ensures Ran(vm.Value(), cluster.Out(), err) == ExportStep(old(vm.Value()), old(cluster.Out()), a)
    {
      match a.client
      case NoSource => return SourceMissing;
      case ClientError => return OtherError;
      case ClientOk =>
      cluster.Wait(a.callDelay);
      if a.spec.supported && a.spec.force {
        var poweringOff := ConditionExists(vm.conds, PoweringOff, ConditionTrue);
        if !poweringOff {
          err := TriggerPowerOff(vm, a);
          return;
        }
      } else {
        var shutdownGuest := ConditionExists(vm.conds, ShutdownGuest, ConditionTrue);
        if !shutdownGuest {
          err := TriggerShutdownGuest(vm, a);
          return;
        }
      }
      err := ContinueExport(vm, a);
    }

    // -------------------------------------------------------------- the passes over the disks

    method MarkDiskAt(vm: ImportObject, i: nat, t: CondType, da: DiskAnswers)
      requires i < |vm.disks|
      modifies vm`disks, cluster`now
      ensures var (d, after) := MarkDisk(old(vm.disks[i]), old(cluster.Out()), t, da);
              vm.disks == old(vm.disks)[i := d] && cluster.Out() == after
    {
      cluster.Wait(da.delay);
      var updated := At(cluster.now / SECOND);
      cluster.Wait(da.delay2);
      var cond := Condition(t, ConditionTrue, updated, At(cluster.now / SECOND), "", "");
      var d := vm.disks[i];
      MergeOne(d.conds, cond);
      var conds := MergeConditions(d.conds, [cond]);
      vm.disks := vm.disks[i := d.(conds := conds)];
    }

    method CheckAndCreateVirtualMachineImage(d: DiskInfo, da: DiskAnswers) returns (r: Option<string>)
      modifies cluster`images, cluster`used, cluster`history
      ensures (r, cluster.Out()) == CheckAndCreate(cfg, d, old(cluster.Out()), da)
    {
      var tag := ImageLabel(cfg, d.name);
      var list := Listed(cluster.Out(), tag, da.list);
      if list == None {
        return None;
      }
      if |list.value| > 1 {
        return None;
      }
      if |list.value| == 1 {
        return Some(TheOne(list.value));
      }
      if !da.backendOk {
        return None;
      }
      r := cluster.CreateImage(cfg, da.generatedName, tag, da);
    }

    method CreateVirtualMachineImages(vm: ImportObject, a: Answers) returns (err: Err)
      modifies vm`disks, cluster`images, cluster`used, cluster`history, cluster`now
      ensures Ran(vm.Value(), cluster.Out(), err) == SubmitFrom(cfg, old(vm.Value()), old(cluster.Out()), a, 0)
    {
      var copied := vm.disks;
      for i := 0 to |copied|
        invariant |vm.disks| == |copied| && forall j :: i <= j < |copied| ==> vm.disks[j] == copied[j]
        invariant SubmitFrom(cfg, old(vm.Value()), old(cluster.Out()), a, 0)
                  == SubmitFrom(cfg, vm.Value(), cluster.Out(), a, i)
      {
        var submitted := ConditionExists(copied[i].conds, ImageSubmitted, ConditionTrue);
        if !submitted {
          var name := CheckAndCreateVirtualMachineImage(copied[i], a.disk(i));
          if name == None {
            return OtherError;
          }
          ghost var before := vm.disks;
          vm.disks := vm.disks[i := copied[i].(image := name.value)];
          MarkDiskAt(vm, i, ImageSubmitted, a.disk(i));
          assert vm.disks == before[i := vm.disks[i]];
        }
      }
      return NoError;
    }

    /** The conditions of one image, in the order they are stored. */
    method ReadConditions(vm: ImportObject, i: nat, conds: seq<ImageCond>, da: DiskAnswers)
      requires i < |vm.disks|
      modifies vm`disks, cluster`now, cluster`history
      ensures var (d, saw) := ReadImage(old(vm.disks[i]), old(cluster.Out()), conds, da);
              vm.disks == old(vm.disks)[i := d] && cluster.Out() == saw
    {
      for k := 0 to |conds|
        invariant |vm.disks| == |old(vm.disks)| && vm.disks == old(vm.disks)[i := vm.disks[i]]
        invariant ReadImage(old(vm.disks[i]), old(cluster.Out()), conds, da)
                  == ReadImage(vm.disks[i], cluster.Out(), conds[k..], da)
      {
        var v := conds[k];
        if v.isImported && v.status == ConditionTrue {
          cluster.Record(SawImported(vm.disks[i].image));
          MarkDiskAt(vm, i, ImageReady, da);
        }
        if v.isImported && v.status == ConditionFalse && v.reason == "ImportFailed" {
          cluster.Record(SawImportFailed(vm.disks[i].image));
          MarkDiskAt(vm, i, ImageFailed, da);
        }
      }
    }

    method ReconcileVMIStatus(vm: ImportObject, a: Answers) returns (err: Err)
      modifies vm`disks, cluster`now, cluster`history
      ensures Ran(vm.Value(), cluster.Out(), err) == RefreshFrom(old(vm.Value()), old(cluster.Out()), a, 0)
    {
      for i := 0 to |vm.disks|
        invariant |vm.disks| == |old(vm.disks)|
        invariant RefreshFrom(old(vm.Value()), old(cluster.Out()), a, 0)
                  == RefreshFrom(vm.Value(), cluster.Out(), a, i)
      {
        var ready := ConditionExists(vm.disks[i].conds, ImageReady, ConditionTrue);
        if !ready {
          if !a.disk(i).getOk || vm.disks[i].image !in cluster.images {
            return OtherError;
          }
          ReadConditions(vm, i, cluster.images[vm.disks[i].image].conds, a.disk(i));
        }
      }
      return NoError;
    }

    method CleanupAndResubmit(vm: ImportObject, a: Answers) returns (err: Err)
      modifies vm`disks, cluster`images, cluster`history
      ensures Ran(vm.Value(), cluster.Out(), err) == CleanFrom(old(vm.Value()), old(cluster.Out()), a, 0)
    {
      for i := 0 to |vm.disks|
        invariant |vm.disks| == |old(vm.disks)|
        invariant CleanFrom(old(vm.Value()), old(cluster.Out()), a, 0) == CleanFrom(vm.Value(), cluster.Out(), a, i)
      {
        var d := vm.disks[i];
        var failed := ConditionExists(d.conds, ImageFailed, ConditionTrue);
        if failed {
          var ok := cluster.DeleteImage(d.image, a.disk(i));
          if !ok {
            return OtherError;
          }
          var conds := RemoveCondition(d.conds, ImageFailed, ConditionTrue);
          vm.disks := vm.disks[i := d.(conds := conds)];
        }
      }
      return NoError;
    }

    method FindAndCreatePVC(vm: ImportObject, a: Answers) returns (ok: bool)
      modifies cluster`pvcs, cluster`history
      ensures (cluster.Out(), ok) == PvcFrom(vm.disks, old(cluster.Out()), a, 0)
    {
      for i := 0 to |vm.disks|
        invariant PvcFrom(vm.disks, old(cluster.Out()), a, 0) == PvcFrom(vm.disks, cluster.Out(), a, i)
      {
        var name, da := vm.disks[i].image, a.disk(i);
        if !da.getOk || name !in cluster.images {
          return false;
        }
        if cluster.images[name].backingImage {
          if !da.pvcGetOk {
            return false;
          }
          if name !in cluster.pvcs {
            if !da.pvcCreate.applied {
              return false;
            }
            cluster.pvcs := cluster.pvcs + {name};
            cluster.Record(PvcMade(name));
            if !da.pvcCreate.reported {
              return false;
            }
          }
        }
      }
      return true;
    }

    method CreateVirtualMachine(vm: ImportObject, a: Answers) returns (err: Err)
      modifies cluster`pvcs, cluster`vms, cluster`history
      ensures (cluster.Out(), err) == CreateVm(vm.Value(), old(cluster.Out()), a)
    {
      match a.client
      case NoSource => return SourceMissing;
      case ClientError => return OtherError;
      case ClientOk =>
      if !a.generateOk {
        return OtherError;
      }
      var ok := FindAndCreatePVC(vm, a);
      if !ok {
        return OtherError;
      }
      var claims := [];
      for i := 0 to |vm.disks|
        invariant |claims| == i && forall j :: 0 <= j < i ==> claims[j] == vm.disks[j].image
      {
        claims := claims + [vm.disks[i].image];
      }
      assert claims == ImageNames(vm.disks);
      var name := vm.importedName;
      var found := a.vmGetOk && name in cluster.vms && cluster.vms[name];
      if !found {
        if name in cluster.vms || !a.vmCreate.applied {
          return OtherError;
        }
        cluster.vms := cluster.vms[name := true];
        cluster.Record(VmMade(name, claims));
        if !a.vmCreate.reported {
          return OtherError;
        }
      }
      return NoError;
    }

    method RemoveOwner(owners: seq<Owner>) returns (kept: seq<Owner>)
      ensures kept == OtherOwners(owners, cfg.owner)
    {
      kept := [];
      var me := cfg.owner;
      for i := 0 to |owners|
        invariant OtherOwners(owners, me) == kept + OtherOwners(owners[i..], me)
      {
        OwnersFrom(kept, owners, i, me);
        if owners[i] != me {
          kept := kept + [owners[i]];
        }
      }
    }

    method TidyUpObjects(vm: ImportObject, a: Answers) returns (ok: bool)
      modifies cluster`images
      ensures (cluster.Out(), ok) == TidyFrom(cfg, vm.disks, old(cluster.Out()), a, 0)
    {
      for i := 0 to |vm.disks|
        invariant TidyFrom(cfg, vm.disks, old(cluster.Out()), a, 0) == TidyFrom(cfg, vm.disks, cluster.Out(), a, i)
      {
        var name, da := vm.disks[i].image, a.disk(i);
        if !da.getOk || name !in cluster.images || !da.update.applied {
          return false;
        }
        var kept := RemoveOwner(cluster.images[name].owners);
        cluster.images := cluster.images[name := cluster.images[name].(owners := kept)];
        if !da.update.reported {
          return false;
        }
      }
      return true;
    }

    // -------------------------------------------------------------- one reconcile

    method AllDisksSubmitted(disks: seq<DiskInfo>) returns (ok: bool)
      ensures ok == AllSubmitted(disks)
    {
      ok := true;
      for i := 0 to |disks|
        invariant ok == AllSubmitted(disks[..i])
      {
        var submitted := ConditionExists(disks[i].conds, ImageSubmitted, ConditionTrue);
        ok := submitted && ok;
        assert disks[..i + 1] == disks[..i] + [disks[i]];
      }
      assert disks[..|disks|] == disks;
    }

    method RunVirtualMachineExport(vm: ImportObject, a: Answers) returns (err: Err, write: bool)
      requires vm.phase == SourceReady
      modifies vm, cluster`now, cluster`history
      ensures RunExport(old(vm.Value()), old(cluster.Out()), a)
              == Outcome(cluster.Out(), if write then Some(vm.Value()) else None, err, false)
    {
      err := TriggerExport(vm, a);
      if err == SourceMissing {
        vm.phase := MigrationFailed;
        return NoError, true;
      }
      if err != NoError {
        return err, false;
      }
      var exported := ConditionExists(vm.conds, Exported, ConditionTrue);
      if exported {
        vm.phase := DisksExported;
      }
      var failed := ConditionExists(vm.conds, ExportFailed, ConditionTrue);
      if failed {
        vm.phase := MigrationFailed;
      }
      return NoError, true;
    }

    method ReconcileDiskImageStatus(vm: ImportObject, a: Answers) returns (err: Err, write: bool)
      modifies vm, cluster`images, cluster`used, cluster`history, cluster`now
      ensures SubmitImages(cfg, old(vm.Value()), old(cluster.Out()), a)
              == Outcome(cluster.Out(), if write then Some(vm.Value()) else None, err, false)
    {
      var before := vm.disks;
      if before == [] {
        vm.phase := ImportInvalid;
        return NoError, true;
      }
      err := CreateVirtualMachineImages(vm, a);
      if err != NoError {
        return err, vm.disks != before;
      }
      var ok := AllDisksSubmitted(vm.disks);
      if ok {
        vm.phase := DiskImagesSubmitted;
      }
      return NoError, true;
    }

    method WatchDiskImages(vm: ImportObject, a: Answers) returns (err: Err, write: bool)
      modifies vm, cluster`now, cluster`history
      ensures var oc := WatchImages(old(vm.Value()), old(cluster.Out()), a);
              cluster.Out() == oc.out && err == oc.err && oc.write == if write then Some(vm.Value()) else None
    {
      err := ReconcileVMIStatus(vm, a);
      if err != NoError {
        return err, false;
      }
      var newStatus := EvaluateDiskImportStatus(vm.disks);
      if newStatus == None {
        return NoError, false;
      }
      vm.phase := newStatus.value;
      return NoError, true;
    }

    /** The switch of OnVirtualMachineChange on a fresh copy; write asks for UpdateStatus. */
    method Dispatch(vm: ImportObject, a: Answers) returns (err: Err, write: bool, panicked: bool)
      modifies vm, cluster`images, cluster`used, cluster`pvcs, cluster`vms, cluster`now, cluster`history
      ensures Handle(cfg, old(vm.Value()), old(cluster.Out()), a)
              == Outcome(cluster.Out(), if write then Some(vm.Value()) else None, err, panicked)
    {
      err, write, panicked := NoError, false, false;
      match vm.phase {
        case Unset =>
          match a.preflight {
            case PreflightOk => vm.phase, write := ImportValid, true;
            case ClusterNotReady => err := OtherError;
            case PreflightError => vm.phase, write := ImportInvalid, true;
          }
        case ImportValid =>
          match a.client {
            case NoSource => err, panicked := SourceMissing, true;
            case ClientError => err := OtherError;
            case ClientOk =>
              vm.importedName := a.sanitizedName;
              if !a.sanitizeOk {
                vm.phase := ImportInvalid;
              } else if !cfg.isDnsLabel(vm.importedName) {
                vm.phase := ImportInvalid;
              } else {
                vm.phase := SourceReady;
              }
              write := true;
          }
        case SourceReady => err, write := RunVirtualMachineExport(vm, a);
        case DisksExported => err, write := ReconcileDiskImageStatus(vm, a);
        case DiskImagesSubmitted => err, write := WatchDiskImages(vm, a);
        case DiskImagesFailed =>
          err := CleanupAndResubmit(vm, a);
          if err == NoError {
            vm.phase, write := SourceReady, true;
          }
        case DiskImagesReady =>
          err := CreateVirtualMachine(vm, a);
          if err == SourceMissing {
            vm.phase, err, write := MigrationFailed, NoError, true;
          } else if err == NoError {
            vm.phase, write := VirtualMachineCreated, true;
          }
        case VirtualMachineCreated =>
          if a.vmReady == None || vm.importedName !in cluster.vms {
            err := OtherError;
          } else if a.vmReady.value {
            vm.phase, write := VirtualMachineRunning, true;
          }
        case VirtualMachineRunning =>
          var ok := TidyUpObjects(vm, a);
          if !ok {
            err := OtherError;
          }
        case ImportInvalid =>
        case MigrationFailed =>
      }
    }

    /** One reconcile of a cached version: exactly the Reconcile step of the system. */
    method OnVirtualMachineChange(vmi: ImportObject, a: Answers, accepted: bool) returns (err: Err, panicked: bool)
      requires vmi.version < |cluster.log| && cluster.log[vmi.version] == vmi.Value()
      modifies cluster
      ensures cluster.Value() == Apply(cfg, old(cluster.Value()), Reconcile(vmi.version, a, accepted))
      ensures err == Handle(cfg, vmi.Value(), old(cluster.Out()), a).err
      ensures panicked == Handle(cfg, vmi.Value(), old(cluster.Out()), a).panicked
      ensures panicked ==> cluster.Value() == old(cluster.Value())
    {
      ghost var st, before := vmi.Value(), cluster.Out();
      var vmiCopy := new ImportObject(vmi.Value(), vmi.version);
      var write;
      err, write, panicked := Dispatch(vmiCopy, a);
      CrashChangesNothing(cfg, st, before, a);
      if write {
        cluster.UpdateStatus(vmiCopy, accepted);
      }
    }
  }
}
