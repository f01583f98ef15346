/** The per-disk steps: submit images, watch them, clean failed ones up, create volumes and the VM
    (pkg/controllers/migration/virtualmachine.go:586-858, 869-950). */
module DiskImages {
  import opened Wrappers
  import opened Conditions
  import opened ImportTypes
  import opened DiskVerdict

  predicate Succeeds(c: CallAnswer) { c.applied && c.reported }

  // ---------------------------------------------------------------- find or create an image

  function Tagged(images: map<string, Image>, tag: string): set<string> {
    set n | n in images && images[n].tag == tag
  }

  function Listed(out: Outside, tag: string, view: CacheView): Option<set<string>> {
    match view
    case Fresh => Some(Tagged(out.images, tag))
    case Stale(names) => Some(names)
    case ListError => None
  }

  lemma SingletonHasOne<T>(s: set<T>, x: T, y: T)
    requires |s| == 1 && x in s && y in s
    ensures x == y
  {
    assert |s - {x}| == 0;
    assert y !in s - {x};
  }

  function TheOne(s: set<string>): (x: string)
    requires |s| == 1
    ensures s == {x}
  {
    assert exists x :: x in s by {
      assert s != {};
    }
    assert forall x, y :: x in s && y in s ==> x == y by {
      forall x, y | x in s && y in s ensures x == y { SingletonHasOne(s, x, y); }
    }
    var x :| x in s;
    x
  }

  predicate NameFree(out: Outside, name: string) {
    name != "" && name !in out.used && name !in out.images
  }

  /** The server stores a new image under a generated, never used name. */
  function StoreImage(cfg: Config, out: Outside, name: string, tag: string, backing: bool): Outside {
    Log(out.(images := out.images[name := Image(tag, [], backing, [cfg.owner])], used := out.used + {name}),
        ImageMade(name, tag))
  }

  function CheckAndCreate(cfg: Config, d: DiskInfo, out: Outside, da: DiskAnswers): (Option<string>, Outside) {
    var tag := ImageLabel(cfg, d.name);
    match Listed(out, tag, da.list)
    case None => (None, out)
    case Some(names) =>
      if |names| > 1 then (None, out)
      else if |names| == 1 then (Some(TheOne(names)), out)
      else if !da.backendOk || !da.create.applied || !NameFree(out, da.generatedName) then (None, out)
      else (if da.create.reported then Some(da.generatedName) else None,
            StoreImage(cfg, out, da.generatedName, tag, da.backingImage))
  }

  function SubmitFrom(cfg: Config, st: Status, out: Outside, a: Answers, i: nat): Ran
    decreases |st.disks| - i
  {
    if i >= |st.disks| then Ran(st, out, NoError)
    else if Submitted(st.disks[i]) then SubmitFrom(cfg, st, out, a, i + 1)
    else
      var (name, made) := CheckAndCreate(cfg, st.disks[i], out, a.disk(i));
      if name.None? then Ran(st, made, OtherError)
      else
        var (d, marked) := MarkDisk(st.disks[i].(image := name.value), made, ImageSubmitted, a.disk(i));
        SubmitFrom(cfg, st.(disks := st.disks[i := d]), marked, a, i + 1)
  }

  // ---------------------------------------------------------------- watch the images

  predicate SaysImported(v: ImageCond) { v.isImported && v.status == ConditionTrue }
  predicate SaysFailed(v: ImageCond) {
    v.isImported && v.status == ConditionFalse && v.reason == "ImportFailed"
  }

  function ReadImage(d: DiskInfo, out: Outside, conds: seq<ImageCond>, da: DiskAnswers): (DiskInfo, Outside)
    decreases |conds|
  {
    if conds == [] then (d, out)
    else if SaysImported(conds[0]) then
      var (d1, out1) := MarkDisk(d, Log(out, SawImported(d.image)), ImageReady, da);
      ReadImage(d1, out1, conds[1..], da)
    else if SaysFailed(conds[0]) then
      var (d1, out1) := MarkDisk(d, Log(out, SawImportFailed(d.image)), ImageFailed, da);
      ReadImage(d1, out1, conds[1..], da)
    else ReadImage(d, out, conds[1..], da)
  }

  function RefreshFrom(st: Status, out: Outside, a: Answers, i: nat): Ran
    decreases |st.disks| - i
  {
    if i >= |st.disks| then Ran(st, out, NoError)
    else if Ready(st.disks[i]) then RefreshFrom(st, out, a, i + 1)
    else if !a.disk(i).getOk || st.disks[i].image !in out.images then Ran(st, out, OtherError)
    else
      var (d, saw) := ReadImage(st.disks[i], out, out.images[st.disks[i].image].conds, a.disk(i));
      RefreshFrom(st.(disks := st.disks[i := d]), saw, a, i + 1)
  }

  // ---------------------------------------------------------------- delete failed images

  /** Deleting a missing image fails; a deleted image can linger until its finalizers have run. */
  function DeleteImage(out: Outside, name: string, da: DiskAnswers): (Outside, bool) {
    if name !in out.images || !da.delete.applied then (out, false)
    else
      (Log(if da.lingers then out else out.(images := out.images - {name}), ImageDeleted(name)), da.delete.reported)
  }

  function CleanFrom(st: Status, out: Outside, a: Answers, i: nat): Ran
    decreases |st.disks| - i
  {
    if i >= |st.disks| then Ran(st, out, NoError)
    else if !Failed(st.disks[i]) then CleanFrom(st, out, a, i + 1)
    else
      var (deleted, ok) := DeleteImage(out, st.disks[i].image, a.disk(i));
      if !ok then Ran(st, deleted, OtherError)
      else
        var d := st.disks[i].(conds := Drop(st.disks[i].conds, ImageFailed, ConditionTrue));
        CleanFrom(st.(disks := st.disks[i := d]), deleted, a, i + 1)
  }

  // ---------------------------------------------------------------- volumes and the virtual machine

  function PvcFrom(disks: seq<DiskInfo>, out: Outside, a: Answers, i: nat): (Outside, bool)
    decreases |disks| - i
  {
    if i >= |disks| then (out, true)
    else
      var name, da := disks[i].image, a.disk(i);
      if !da.getOk || name !in out.images then (out, false)
      else if !out.images[name].backingImage then PvcFrom(disks, out, a, i + 1)
      else if !da.pvcGetOk then (out, false)
      else if name in out.pvcs then PvcFrom(disks, out, a, i + 1)
      else if !da.pvcCreate.applied then (out, false)
      else
        var made := Log(out.(pvcs := out.pvcs + {name}), PvcMade(name));
        if !da.pvcCreate.reported then (made, false) else PvcFrom(disks, made, a, i + 1)
  }

  function ImageNames(disks: seq<DiskInfo>): (names: seq<string>)
    ensures |names| == |disks|
    ensures forall i :: 0 <= i < |disks| ==> names[i] == disks[i].image
  {
    if disks == [] then [] else [disks[0].image] + ImageNames(disks[1..])
  }

  function CreateVm(st: Status, out: Outside, a: Answers): (Outside, Err) {
    match a.client
    case NoSource => (out, SourceMissing)
    case ClientError => (out, OtherError)
    case ClientOk =>
      if !a.generateOk then (out, OtherError)
      else
        var (ready, ok) := PvcFrom(st.disks, out, a, 0);
        var name := st.importedName;
        if !ok then (ready, OtherError)
        else if a.vmGetOk && name in ready.vms && ready.vms[name] then (ready, NoError)
        else if name in ready.vms || !a.vmCreate.applied then (ready, OtherError)
        else (Log(ready.(vms := ready.vms[name := true]), VmMade(name, ImageNames(st.disks))),
              if a.vmCreate.reported then NoError else OtherError)
  }

  // ---------------------------------------------------------------- give the images away

  function OtherOwners(owners: seq<Owner>, me: Owner): seq<Owner> {
    if owners == [] then []
    else (if owners[0] == me then [] else [owners[0]]) + OtherOwners(owners[1..], me)
  }

  lemma OwnersFrom(kept: seq<Owner>, owners: seq<Owner>, i: nat, me: Owner)
    requires i < |owners|
    ensures kept + OtherOwners(owners[i..], me) ==
            (if owners[i] == me then kept else kept + [owners[i]]) + OtherOwners(owners[i + 1..], me)
  {
    assert owners[i..][0] == owners[i] && owners[i..][1..] == owners[i + 1..];
    if owners[i] != me {
      Assoc(kept, [owners[i]], OtherOwners(owners[i + 1..], me));
    }
  }

  function TidyFrom(cfg: Config, disks: seq<DiskInfo>, out: Outside, a: Answers, i: nat): (Outside, bool)
    decreases |disks| - i
  {
    if i >= |disks| then (out, true)
    else
      var name, da := disks[i].image, a.disk(i);
      if !da.getOk || name !in out.images || !da.update.applied then (out, false)
      else
        var kept := out.images[name].(owners := OtherOwners(out.images[name].owners, cfg.owner));
        var updated := out.(images := out.images[name := kept]);
        if !da.update.reported then (updated, false) else TidyFrom(cfg, disks, updated, a, i + 1)
  }
}
