/** What each pass appends to the history, and which parts of the outside it leaves alone. */
module PassHistory {
  import opened Wrappers
  import opened Conditions
  import opened ImportTypes
  import opened DiskVerdict
  import opened DiskImages
  import opened PowerAndExport

  /** The kinds of events, one for each pass; a VM is not made by a pass over the disks. */
  datatype Kind = PowerCalls | ImageMakes | Looks | Deletes | VolumeMakes

  predicate OfKind(e: Event, k: Kind) {
    match k
    case PowerCalls => e.ShutdownCalled? || e.PowerOffCalled? || e.SawPower? || e.ExportCalled?
    case ImageMakes => e.ImageMade?
    case Looks => e.SawImported? || e.SawImportFailed?
    case Deletes => e.ImageDeleted?
    case VolumeMakes => e.PvcMade?
  }

  /** The longer history extends the other one by events of one kind. */
  predicate Appends(h: seq<Event>, longer: seq<Event>, k: Kind) {
    h <= longer && forall i :: |h| <= i < |longer| ==> OfKind(longer[i], k)
  }

  lemma StillRunningAppends(st: Status, out: Outside, a: Answers)
    ensures var r := StillRunning(st, out, a).out;
            Appends(out.history, r.history, PowerCalls) && r == out.(now := r.now, history := r.history)
  {
  }

  lemma PowerCheckAppends(st: Status, out: Outside, a: Answers)
    ensures var r := PowerCheck(st, out, a).out;
            Appends(out.history, r.history, PowerCalls) && r == out.(now := r.now, history := r.history)
  {
    if a.power.Some? {
      StillRunningAppends(st, Log(out, SawPower(a.power.value)), a);
    }
  }

  lemma AfterRequestAppends(st: Status, out: Outside, a: Answers)
    ensures var r := AfterRequest(st, out, a).out;
            Appends(out.history, r.history, PowerCalls) && r == out.(now := r.now, history := r.history)
  {
    PowerCheckAppends(st, out, a);
  }

  lemma ExportAppends(st: Status, out: Outside, a: Answers)
    ensures var r := ExportStep(st, out, a).out;
            Appends(out.history, r.history, PowerCalls) && r == out.(now := r.now, history := r.history)
  {
    AfterRequestAppends(st, Later(out, a.callDelay), a);
  }

  lemma {:induction false} SubmitAppends(cfg: Config, st: Status, out: Outside, a: Answers, i: nat)
    ensures var r := SubmitFrom(cfg, st, out, a, i).out;
            Appends(out.history, r.history, ImageMakes) && r.pvcs == out.pvcs && r.vms == out.vms
    decreases |st.disks| - i
  {
    if i < |st.disks| {
      var (name, made) := CheckAndCreate(cfg, st.disks[i], out, a.disk(i));
      if Submitted(st.disks[i]) {
        SubmitAppends(cfg, st, out, a, i + 1);
      } else if name.Some? {
        var (d, marked) := MarkDisk(st.disks[i].(image := name.value), made, ImageSubmitted, a.disk(i));
        SubmitAppends(cfg, st.(disks := st.disks[i := d]), marked, a, i + 1);
      }
    }
  }

  lemma {:induction false} ReadAppends(d: DiskInfo, out: Outside, conds: seq<ImageCond>, da: DiskAnswers)
    ensures var saw := ReadImage(d, out, conds, da).1;
            Appends(out.history, saw.history, Looks) && saw == out.(now := saw.now, history := saw.history)
    decreases |conds|
  {
    if conds != [] {
      if SaysImported(conds[0]) {
        var (d1, out1) := MarkDisk(d, Log(out, SawImported(d.image)), ImageReady, da);
        ReadAppends(d1, out1, conds[1..], da);
      } else if SaysFailed(conds[0]) {
        var (d1, out1) := MarkDisk(d, Log(out, SawImportFailed(d.image)), ImageFailed, da);
        ReadAppends(d1, out1, conds[1..], da);
      } else {
        ReadAppends(d, out, conds[1..], da);
      }
    }
  }

  lemma {:induction false} RefreshAppends(st: Status, out: Outside, a: Answers, i: nat)
    ensures var r := RefreshFrom(st, out, a, i).out;
            Appends(out.history, r.history, Looks) && r == out.(now := r.now, history := r.history)
    decreases |st.disks| - i
  {
    if i < |st.disks| {
      var x := st.disks[i];
      if Ready(x) {
        RefreshAppends(st, out, a, i + 1);
      } else if a.disk(i).getOk && x.image in out.images {
        var (d, saw) := ReadImage(x, out, out.images[x.image].conds, a.disk(i));
        ReadAppends(x, out, out.images[x.image].conds, a.disk(i));
        RefreshAppends(st.(disks := st.disks[i := d]), saw, a, i + 1);
      }
    }
  }

  lemma {:induction false} CleanAppends(st: Status, out: Outside, a: Answers, i: nat)
    ensures var r := CleanFrom(st, out, a, i).out;
            Appends(out.history, r.history, Deletes) && r == out.(images := r.images, history := r.history)
    decreases |st.disks| - i
  {
    if i < |st.disks| {
      if !Failed(st.disks[i]) {
        CleanAppends(st, out, a, i + 1);
      } else {
        var (deleted, ok) := DeleteImage(out, st.disks[i].image, a.disk(i));
        if ok {
          var d := st.disks[i].(conds := Drop(st.disks[i].conds, ImageFailed, ConditionTrue));
          CleanAppends(st.(disks := st.disks[i := d]), deleted, a, i + 1);
        }
      }
    }
  }

  lemma {:induction false} PvcAppends(disks: seq<DiskInfo>, out: Outside, a: Answers, i: nat)
    ensures var p := PvcFrom(disks, out, a, i).0;
            && Appends(out.history, p.history, VolumeMakes)
            && p == out.(pvcs := p.pvcs, history := p.history) && out.pvcs <= p.pvcs
    decreases |disks| - i
  {
    if i < |disks| {
      var name, da := disks[i].image, a.disk(i);
      if da.getOk && name in out.images {
        if !out.images[name].backingImage || (da.pvcGetOk && name in out.pvcs) {
          PvcAppends(disks, out, a, i + 1);
        } else if da.pvcGetOk && Succeeds(da.pvcCreate) {
          PvcAppends(disks, Log(out.(pvcs := out.pvcs + {name}), PvcMade(name)), a, i + 1);
        }
      }
    }
  }

  predicate VolumesOf(h: seq<Event>, from: nat, names: seq<string>) {
    forall k :: from <= k < |h| && h[k].PvcMade? ==> h[k].name in names
  }

  /** A volume is only made for the image of a disk. */
  lemma {:induction false} PvcNamesDisks(disks: seq<DiskInfo>, out: Outside, a: Answers, i: nat)
    ensures VolumesOf(PvcFrom(disks, out, a, i).0.history, |out.history|, ImageNames(disks))
    decreases |disks| - i
  {
    if i < |disks| {
      var name, da := disks[i].image, a.disk(i);
      if da.getOk && name in out.images {
        if !out.images[name].backingImage || (da.pvcGetOk && name in out.pvcs) {
          PvcNamesDisks(disks, out, a, i + 1);
        } else if da.pvcGetOk && da.pvcCreate.applied {
          assert ImageNames(disks)[i] == name;
          var made := Log(out.(pvcs := out.pvcs + {name}), PvcMade(name));
          if da.pvcCreate.reported {
            PvcNamesDisks(disks, made, a, i + 1);
            PvcAppends(disks, made, a, i + 1);
          }
        }
      }
    }
  }

  lemma {:induction false} TidyTouchesImages(cfg: Config, disks: seq<DiskInfo>, out: Outside, a: Answers, i: nat)
    ensures var t := TidyFrom(cfg, disks, out, a, i).0; t == out.(images := t.images)
    decreases |disks| - i
  {
    if i < |disks| {
      var name, da := disks[i].image, a.disk(i);
      if da.getOk && name in out.images && Succeeds(da.update) {
        var kept := out.images[name].(owners := OtherOwners(out.images[name].owners, cfg.owner));
        TidyTouchesImages(cfg, disks, out.(images := out.images[name := kept]), a, i + 1);
      }
    }
  }

  /** The VM step either stops before the VM or records it after the volumes. */
  lemma CreateVmAppends(st: Status, out: Outside, a: Answers)
    ensures var h, ready := CreateVm(st, out, a).0.history, PvcFrom(st.disks, out, a, 0).0.history;
            h == out.history || h == ready || h == ready + [VmMade(st.importedName, ImageNames(st.disks))]
  {
  }
}
