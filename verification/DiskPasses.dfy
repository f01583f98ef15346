/** What each pass over the disks does, in terms of what it reads: the marks on the disks, the stored images and
    volumes, and the answers of the calls (pkg/controllers/migration/virtualmachine.go:586-858, 869-950). */
module DiskPasses {
  import opened Wrappers
  import opened Conditions
  import opened ImportTypes
  import opened DiskVerdict
  import opened DiskImages
  import opened PassHistory
  import opened ImportMachine

  // ---------------------------------------------------------------- watch the images

  /** The image carries a true ImageImported condition; Unknown is not enough. */
  predicate Imported(image: Image) {
    exists i :: 0 <= i < |image.conds| && image.conds[i].isImported && image.conds[i].status == ConditionTrue
  }

  /** The image carries a false ImageImported condition with the reason of a failed import. */
  predicate Broken(image: Image) {
    exists i :: 0 <= i < |image.conds| && image.conds[i].isImported && image.conds[i].status == ConditionFalse
                && image.conds[i].reason == "ImportFailed"
  }

  /** Among the conditions from i on. */
  predicate ImportedFrom(conds: seq<ImageCond>, i: nat) {
    exists j :: i <= j < |conds| && conds[j].isImported && conds[j].status == ConditionTrue
  }

  predicate BrokenFrom(conds: seq<ImageCond>, i: nat) {
    exists j :: i <= j < |conds| && conds[j].isImported && conds[j].status == ConditionFalse
                && conds[j].reason == "ImportFailed"
  }

  /** The look that was recorded is true of these conditions. */
  predicate LookTrue(e: Event, name: string, conds: seq<ImageCond>, i: nat) {
    (e == SawImported(name) && ImportedFrom(conds, i)) || (e == SawImportFailed(name) && BrokenFrom(conds, i))
  }

  predicate LooksTrue(name: string, conds: seq<ImageCond>, i: nat, h: seq<Event>, from: nat) {
    forall k :: from <= k < |h| ==> LookTrue(h[k], name, conds, i)
  }

  lemma LookEarlier(e: Event, name: string, conds: seq<ImageCond>, i: nat)
    requires LookTrue(e, name, conds, i + 1)
    ensures LookTrue(e, name, conds, i)
  {
    if e == SawImported(name) {
      var j :| i + 1 <= j < |conds| && conds[j].isImported && conds[j].status == ConditionTrue;
      assert conds[j].isImported;
    } else {
      var j :| i + 1 <= j < |conds| && conds[j].isImported && conds[j].status == ConditionFalse
               && conds[j].reason == "ImportFailed";
      assert conds[j].isImported;
    }
  }

  lemma LooksBefore(name: string, conds: seq<ImageCond>, i: nat, h: seq<Event>, from: nat)
    requires LooksTrue(name, conds, i + 1, h, from)
    ensures LooksTrue(name, conds, i, h, from)
  {
    forall k | from <= k < |h| ensures LookTrue(h[k], name, conds, i) {
      LookEarlier(h[k], name, conds, i);
    }
  }

  lemma LooksMore(name: string, conds: seq<ImageCond>, i: nat, h: seq<Event>, longer: seq<Event>)
    requires |h| < |longer| && LooksTrue(name, conds, i + 1, longer, |h| + 1) && LookTrue(longer[|h|], name, conds, i)
    ensures LooksTrue(name, conds, i, longer, |h|)
  {
    LooksBefore(name, conds, i, longer, |h| + 1);
  }

  /** What the first condition does to the disk, before the others are read. */
  lemma ReadFirst(d: DiskInfo, out: Outside, conds: seq<ImageCond>, da: DiskAnswers, i: nat)
    returns (d1: DiskInfo, out1: Outside)
    requires i < |conds|
    ensures ReadImage(d, out, conds[i..], da) == ReadImage(d1, out1, conds[i + 1..], da) && d1.image == d.image
    ensures var c := conds[i];
            var good := c.isImported && c.status == ConditionTrue;
            var bad := c.isImported && c.status == ConditionFalse && c.reason == "ImportFailed";
            && (Has(d1.conds, ImageReady) <==> Has(d.conds, ImageReady) || good)
            && (Has(d1.conds, ImageFailed) <==> Has(d.conds, ImageFailed) || bad)
            && out1.history == out.history + if good then [SawImported(d.image)]
                                             else if bad then [SawImportFailed(d.image)] else []
  {
    var c := conds[i];
    assert conds[i..][0] == c && conds[i..][1..] == conds[i + 1..];
    d1, out1 := d, out;
    if c.isImported && c.status == ConditionTrue {
      MarkedDisk(d, Log(out, SawImported(d.image)), ImageReady, da);
      var m := MarkDisk(d, Log(out, SawImported(d.image)), ImageReady, da);
      d1, out1 := m.0, m.1;
    } else if c.isImported && c.status == ConditionFalse && c.reason == "ImportFailed" {
      MarkedDisk(d, Log(out, SawImportFailed(d.image)), ImageFailed, da);
      var m := MarkDisk(d, Log(out, SawImportFailed(d.image)), ImageFailed, da);
      d1, out1 := m.0, m.1;
    }
  }

  lemma {:induction false} ReadMarks(d: DiskInfo, out: Outside, conds: seq<ImageCond>, da: DiskAnswers, i: nat)
    requires i <= |conds|
    ensures var (y, saw) := ReadImage(d, out, conds[i..], da);
            && (Has(y.conds, ImageReady) <==> Has(d.conds, ImageReady) || ImportedFrom(conds, i))
            && (Has(y.conds, ImageFailed) <==> Has(d.conds, ImageFailed) || BrokenFrom(conds, i))
            && LooksTrue(d.image, conds, i, saw.history, |out.history|)
    decreases |conds| - i
  {
    if i < |conds| {
      var d1, out1 := ReadFirst(d, out, conds, da, i);
      ReadMarks(d1, out1, conds, da, i + 1);
      ReadAppends(d1, out1, conds[i + 1..], da);
      var h := ReadImage(d1, out1, conds[i + 1..], da).1.history;
      if |out1.history| > |out.history| {
        LooksMore(d.image, conds, i, out.history, h);
      } else {
        LooksBefore(d.image, conds, i, h, |out.history|);
      }
    }
  }

  /** What the conditions of an image do to its disk: ready exactly for a true ImageImported, failed exactly for a
      false one with the reason ImportFailed. */
  lemma ReadMeans(d: DiskInfo, out: Outside, conds: seq<ImageCond>, da: DiskAnswers)
    ensures var y := ReadImage(d, out, conds, da).0;
            && (Has(y.conds, ImageReady) <==>
                  Has(d.conds, ImageReady) || exists c :: c in conds && c.isImported && c.status == ConditionTrue)
            && (Has(y.conds, ImageFailed) <==>
                  Has(d.conds, ImageFailed) ||
                  exists c :: c in conds && c.isImported && c.status == ConditionFalse && c.reason == "ImportFailed")
  {
    assert conds[0..] == conds;
    ReadMarks(d, out, conds, da, 0);
    if c :| c in conds && c.isImported && c.status == ConditionTrue {
      var j :| 0 <= j < |conds| && conds[j] == c;
    }
    if c :| c in conds && c.isImported && c.status == ConditionFalse && c.reason == "ImportFailed" {
      var j :| 0 <= j < |conds| && conds[j] == c;
    }
  }

  /** The disk is ready, or its image is found. */
  predicate Found(x: DiskInfo, out: Outside, da: DiskAnswers) {
    Has(x.conds, ImageReady) || (da.getOk && x.image in out.images)
  }

  /** What a look leaves of a disk: a ready one is not looked at, another one gets its image's word. */
  ghost predicate Watched(x: DiskInfo, y: DiskInfo, out: Outside) {
    if Has(x.conds, ImageReady) then y == x
    else
      && x.image in out.images
      && y == x.(conds := y.conds) && SameAnswersBut(x.conds, y.conds, {ImageReady, ImageFailed})
      && (Has(y.conds, ImageReady) <==> Imported(out.images[x.image]))
      && (Has(y.conds, ImageFailed) <==> Has(x.conds, ImageFailed) || Broken(out.images[x.image]))
  }

  /** Each look that was recorded is true of a stored image that a disk which is not ready waits for. */
  ghost predicate SawTrue(e: Event, disks: seq<DiskInfo>, out: Outside) {
    exists i :: 0 <= i < |disks| && !Has(disks[i].conds, ImageReady) && disks[i].image in out.images &&
      ((e == SawImported(disks[i].image) && Imported(out.images[disks[i].image]))
       || (e == SawImportFailed(disks[i].image) && Broken(out.images[disks[i].image])))
  }

  ghost predicate AllSawTrue(h: seq<Event>, from: nat, disks: seq<DiskInfo>, out: Outside) {
    forall k :: from <= k < |h| ==> SawTrue(h[k], disks, out)
  }

  lemma ReadWatched(x: DiskInfo, out: Outside, da: DiskAnswers)
    requires !Has(x.conds, ImageReady) && x.image in out.images
    ensures var (y, saw) := ReadImage(x, out, out.images[x.image].conds, da);
            && Watched(x, y, out)
            && LooksTrue(x.image, out.images[x.image].conds, 0, saw.history, |out.history|)
            && saw == out.(now := saw.now, history := saw.history) && out.history <= saw.history
  {
    var conds := out.images[x.image].conds;
    assert conds[0..] == conds;
    ReadMarks(x, out, conds, da, 0);
    ReadStays(x, out, conds, da);
    ReadAppends(x, out, conds, da);
  }

  /** The pass goes on exactly as long as the images are found; what it has looked at, it has marked truly. */
  lemma {:induction false} RefreshMarks(
      disks: seq<DiskInfo>, start: Outside, st: Status, out: Outside, a: Answers, i: nat, r: Ran)
    requires i <= |disks| == |st.disks| && r == RefreshFrom(st, out, a, i)
    requires forall j :: i <= j < |disks| ==> st.disks[j] == disks[j]
    requires out.images == start.images && start.history <= out.history
    requires AllSawTrue(out.history, |start.history|, disks, start)
    requires forall j :: 0 <= j < i ==> Found(disks[j], start, a.disk(j)) && Watched(disks[j], st.disks[j], start)
    ensures r.err == NoError <==> forall j :: 0 <= j < |disks| ==> Found(disks[j], start, a.disk(j))
    ensures r.err == NoError ==>
              |r.st.disks| == |disks| && forall j :: 0 <= j < |disks| ==> Watched(disks[j], r.st.disks[j], start)
    ensures AllSawTrue(r.out.history, |start.history|, disks, start)
    decreases |disks| - i
  {
    if i < |disks| {
      var x := st.disks[i];
      if Has(x.conds, ImageReady) {
        RefreshMarks(disks, start, st, out, a, i + 1, r);
      } else if a.disk(i).getOk && x.image in out.images {
        ReadWatched(x, out, a.disk(i));
        var (d, saw) := ReadImage(x, out, out.images[x.image].conds, a.disk(i));
        forall k | |start.history| <= k < |saw.history| ensures SawTrue(saw.history[k], disks, start) {
          if k < |out.history| {
            assert saw.history[k] == out.history[k];
          } else {
            assert disks[i] == x;
          }
        }
        RefreshMarks(disks, start, st.(disks := st.disks[i := d]), saw, a, i + 1, r);
      } else {
        assert !Found(disks[i], start, a.disk(i));
      }
    }
  }

  /** The watch pass: no error exactly if every disk that is not ready has an image that is found, and then each
      of them has exactly the marks its image says; every look it records is true. */
  lemma RefreshMeans(st: Status, out: Outside, a: Answers)
    ensures var r := RefreshFrom(st, out, a, 0);
            && (r.err == NoError <==> forall j :: 0 <= j < |st.disks| ==> Found(st.disks[j], out, a.disk(j)))
            && (r.err == NoError ==>
                  && |r.st.disks| == |st.disks|
                  && forall j :: 0 <= j < |st.disks| ==> Watched(st.disks[j], r.st.disks[j], out))
            && AllSawTrue(r.out.history, |out.history|, st.disks, out)
  {
    RefreshMarks(st.disks, out, st, out, a, 0, RefreshFrom(st, out, a, 0));
  }

  // ---------------------------------------------------------------- delete failed images

  /** The delete of a failed disk's image works: it is there, no earlier disk has removed it, the call succeeds. */
  predicate DeleteWorks(disks: seq<DiskInfo>, out: Outside, a: Answers, from: nat, j: nat)
    requires j < |disks|
  {
    Has(disks[j].conds, ImageFailed) ==>
      && disks[j].image in out.images && a.disk(j).delete.applied && a.disk(j).delete.reported
      && forall k :: from <= k < j && Has(disks[k].conds, ImageFailed) && disks[k].image == disks[j].image ==>
                       a.disk(k).lingers
  }

  /** The images of failed disks that do not linger. */
  function Removed(disks: seq<DiskInfo>, a: Answers, from: nat): set<string> {
    set j | from <= j < |disks| && Has(disks[j].conds, ImageFailed) && !a.disk(j).lingers :: disks[j].image
  }

  /** No image but these is lost, and none is changed. */
  predicate Loses(before: map<string, Image>, after: map<string, Image>, gone: set<string>) {
    && (forall n :: n in after ==> n in before && after[n] == before[n])
    && (forall n :: n in before && n !in gone ==> n in after)
  }

  lemma RemovedNext(disks: seq<DiskInfo>, a: Answers, i: nat)
    requires i < |disks|
    ensures Removed(disks, a, i) ==
            (if Has(disks[i].conds, ImageFailed) && !a.disk(i).lingers then {disks[i].image} else {})
            + Removed(disks, a, i + 1)
  {
  }

  /** The image that a recorded delete names was there, and it is that of a failed disk. */
  ghost predicate DeletedTrue(e: Event, disks: seq<DiskInfo>, out: Outside, a: Answers) {
    exists i :: 0 <= i < |disks| && Has(disks[i].conds, ImageFailed) && e == ImageDeleted(disks[i].image)
                && disks[i].image in out.images && a.disk(i).delete.applied
  }

  ghost predicate AllDeletedTrue(h: seq<Event>, from: nat, disks: seq<DiskInfo>, out: Outside, a: Answers) {
    forall k :: from <= k < |h| ==> DeletedTrue(h[k], disks, out, a)
  }

  predicate DeletesWork(disks: seq<DiskInfo>, out: Outside, a: Answers, from: nat) {
    forall j :: from <= j < |disks| ==> DeleteWorks(disks, out, a, from, j)
  }

  /** One disk that is not failed, then those after it. */
  lemma DeletesSkip(disks: seq<DiskInfo>, out: Outside, a: Answers, i: nat)
    requires i < |disks| && !Has(disks[i].conds, ImageFailed)
    ensures DeletesWork(disks, out, a, i) <==> DeletesWork(disks, out, a, i + 1)
  {
    var n := i + 1;
    forall j | n <= j < |disks| ensures DeleteWorks(disks, out, a, i, j) <==> DeleteWorks(disks, out, a, n, j) {
    }
  }

  /** One failed disk, then those after it. */
  lemma DeletesNext(disks: seq<DiskInfo>, out: Outside, deleted: Outside, a: Answers, i: nat)
    requires i < |disks| && Has(disks[i].conds, ImageFailed) && disks[i].image in out.images
    requires a.disk(i).delete.applied && a.disk(i).delete.reported
    requires deleted.images == if a.disk(i).lingers then out.images else out.images - {disks[i].image}
    ensures DeletesWork(disks, out, a, i) <==> DeletesWork(disks, deleted, a, i + 1)
  {
    var n := i + 1;
    forall j | n <= j < |disks| ensures DeleteWorks(disks, out, a, i, j) <==> DeleteWorks(disks, deleted, a, n, j) {
      DeleteNext(disks, out, deleted, a, i, j);
    }
  }

  lemma DeleteNext(disks: seq<DiskInfo>, out: Outside, deleted: Outside, a: Answers, i: nat, j: nat)
    requires i < j < |disks| && Has(disks[i].conds, ImageFailed)
    requires deleted.images == if a.disk(i).lingers then out.images else out.images - {disks[i].image}
    ensures DeleteWorks(disks, out, a, i, j) <==> DeleteWorks(disks, deleted, a, i + 1, j)
  {
  }

  lemma {:induction false} CleanRemoves(
      disks: seq<DiskInfo>, st: Status, out: Outside, a: Answers, i: nat, r: Ran)
    requires i <= |disks| == |st.disks| && r == CleanFrom(st, out, a, i)
    requires forall j :: i <= j < |disks| ==> st.disks[j] == disks[j]
    ensures r.err == NoError <==> DeletesWork(disks, out, a, i)
    ensures r.err == NoError ==> r.out.images == out.images - Removed(disks, a, i)
    ensures Loses(out.images, r.out.images, Removed(disks, a, i))
    decreases |disks| - i
  {
    if i < |disks| {
      RemovedNext(disks, a, i);
      if !Has(disks[i].conds, ImageFailed) {
        CleanRemoves(disks, st, out, a, i + 1, r);
        DeletesSkip(disks, out, a, i);
      } else {
        var (deleted, ok) := DeleteImage(out, disks[i].image, a.disk(i));
        if ok {
          var d := disks[i].(conds := Drop(disks[i].conds, ImageFailed, ConditionTrue));
          CleanRemoves(disks, st.(disks := st.disks[i := d]), deleted, a, i + 1, r);
          DeletesNext(disks, out, deleted, a, i);
        } else {
          assert !DeleteWorks(disks, out, a, i, i);
        }
      }
    }
  }

  lemma {:induction false} CleanDeletesTruly(
      disks: seq<DiskInfo>, start: Outside, st: Status, out: Outside, a: Answers, i: nat, r: Ran)
    requires i <= |disks| == |st.disks| && r == CleanFrom(st, out, a, i)
    requires forall j :: i <= j < |disks| ==> st.disks[j] == disks[j]
    requires out.images.Keys <= start.images.Keys && AllDeletedTrue(out.history, |start.history|, disks, start, a)
    ensures AllDeletedTrue(r.out.history, |start.history|, disks, start, a)
    decreases |disks| - i
  {
    if i < |disks| {
      if !Has(disks[i].conds, ImageFailed) {
        CleanDeletesTruly(disks, start, st, out, a, i + 1, r);
      } else {
        var (deleted, ok) := DeleteImage(out, disks[i].image, a.disk(i));
        assert AllDeletedTrue(deleted.history, |start.history|, disks, start, a) by {
          assert deleted.history == out.history || DeletedTrue(ImageDeleted(disks[i].image), disks, start, a);
        }
        if ok {
          var d := disks[i].(conds := Drop(disks[i].conds, ImageFailed, ConditionTrue));
          CleanDeletesTruly(disks, start, st.(disks := st.disks[i := d]), deleted, a, i + 1, r);
        }
      }
    }
  }

  /** The clean-up pass: no error exactly if the delete of every failed disk's image works, and then those that do
      not linger are gone; whatever happens, no other image is touched, and every recorded delete is that of a
      failed disk's image. */
  lemma CleanMeans(st: Status, out: Outside, a: Answers)
    ensures var r := CleanFrom(st, out, a, 0);
            && (r.err == NoError <==> DeletesWork(st.disks, out, a, 0))
            && (r.err == NoError ==> r.out.images == out.images - Removed(st.disks, a, 0))
            && Loses(out.images, r.out.images, Removed(st.disks, a, 0))
            && AllDeletedTrue(r.out.history, |out.history|, st.disks, out, a)
  {
    CleanRemoves(st.disks, st, out, a, 0, CleanFrom(st, out, a, 0));
    CleanDeletesTruly(st.disks, out, st, out, a, 0, CleanFrom(st, out, a, 0));
  }

  // ---------------------------------------------------------------- volumes

  predicate IsBacking(d: DiskInfo, out: Outside) {
    d.image in out.images && out.images[d.image].backingImage
  }

  /** A disk's volume is not wanted, is there, or can be made. */
  predicate VolumeWorks(disks: seq<DiskInfo>, out: Outside, a: Answers, from: nat, j: nat)
    requires j < |disks|
  {
    && a.disk(j).getOk && disks[j].image in out.images
    && (out.images[disks[j].image].backingImage ==>
          && a.disk(j).pvcGetOk
          && (disks[j].image in out.pvcs || (exists k :: from <= k < j && disks[k].image == disks[j].image)
              || (a.disk(j).pvcCreate.applied && a.disk(j).pvcCreate.reported)))
  }

  predicate VolumesWork(disks: seq<DiskInfo>, out: Outside, a: Answers, from: nat) {
    forall j :: from <= j < |disks| ==> VolumeWorks(disks, out, a, from, j)
  }

  /** The images of the disks from i on that are backing images, whose volumes are made from them. */
  function BackingImages(disks: seq<DiskInfo>, out: Outside, from: nat): set<string> {
    set j | from <= j < |disks| && IsBacking(disks[j], out) :: disks[j].image
  }

  lemma BackingNext(disks: seq<DiskInfo>, out: Outside, i: nat)
    requires i < |disks|
    ensures BackingImages(disks, out, i) ==
            (if IsBacking(disks[i], out) then {disks[i].image} else {}) + BackingImages(disks, out, i + 1)
  {
  }

  lemma VolumeNext(disks: seq<DiskInfo>, out: Outside, made: Outside, a: Answers, i: nat)
    requires i < |disks| && VolumeWorks(disks, out, a, i, i)
    requires made.images == out.images
    requires made.pvcs == if IsBacking(disks[i], out) then out.pvcs + {disks[i].image} else out.pvcs
    ensures VolumesWork(disks, out, a, i) <==> VolumesWork(disks, made, a, i + 1)
  {
    var n := i + 1;
    forall j | n <= j < |disks| ensures VolumeWorks(disks, out, a, i, j) <==> VolumeWorks(disks, made, a, n, j) {
      VolumeAfter(disks, out, made, a, i, j);
    }
  }

  lemma VolumeAfter(disks: seq<DiskInfo>, out: Outside, made: Outside, a: Answers, i: nat, j: nat)
    requires i < j < |disks| && made.images == out.images
    requires made.pvcs == if IsBacking(disks[i], out) then out.pvcs + {disks[i].image} else out.pvcs
    ensures VolumeWorks(disks, out, a, i, j) <==> VolumeWorks(disks, made, a, i + 1, j)
  {
  }

  lemma {:induction false} PvcMakes(disks: seq<DiskInfo>, out: Outside, a: Answers, i: nat, r: (Outside, bool))
    requires i <= |disks| && r == PvcFrom(disks, out, a, i)
    ensures r.1 <==> VolumesWork(disks, out, a, i)
    ensures r.1 ==> r.0.pvcs == out.pvcs + BackingImages(disks, out, i)
    ensures out.pvcs <= r.0.pvcs <= out.pvcs + BackingImages(disks, out, i)
    decreases |disks| - i
  {
    if i < |disks| {
      BackingNext(disks, out, i);
      var name, da := disks[i].image, a.disk(i);
      if VolumeWorks(disks, out, a, i, i) {
        var made := if IsBacking(disks[i], out) && name !in out.pvcs
                    then Log(out.(pvcs := out.pvcs + {name}), PvcMade(name)) else out;
        PvcMakes(disks, made, a, i + 1, r);
        VolumeNext(disks, out, made, a, i);
      }
    }
  }

  /** A recorded volume is that of a disk whose image is a backing image, and was not there. */
  ghost predicate VolumeTrue(e: Event, disks: seq<DiskInfo>, out: Outside, a: Answers) {
    exists i :: 0 <= i < |disks| && IsBacking(disks[i], out) && e == PvcMade(disks[i].image)
                && disks[i].image !in out.pvcs && a.disk(i).pvcCreate.applied
  }

  ghost predicate AllVolumesTrue(h: seq<Event>, from: nat, disks: seq<DiskInfo>, out: Outside, a: Answers) {
    forall k :: from <= k < |h| ==> VolumeTrue(h[k], disks, out, a)
  }

  lemma {:induction false} PvcMakesTruly(
      disks: seq<DiskInfo>, start: Outside, out: Outside, a: Answers, i: nat, r: (Outside, bool))
    requires i <= |disks| && r == PvcFrom(disks, out, a, i)
    requires out.images == start.images && start.pvcs <= out.pvcs
    requires AllVolumesTrue(out.history, |start.history|, disks, start, a)
    ensures AllVolumesTrue(r.0.history, |start.history|, disks, start, a)
    decreases |disks| - i
  {
    if i < |disks| {
      var name, da := disks[i].image, a.disk(i);
      if da.getOk && name in out.images {
        if !out.images[name].backingImage || (da.pvcGetOk && name in out.pvcs) {
          PvcMakesTruly(disks, start, out, a, i + 1, r);
        } else if da.pvcGetOk && da.pvcCreate.applied {
          var made := Log(out.(pvcs := out.pvcs + {name}), PvcMade(name));
          assert VolumeTrue(PvcMade(name), disks, start, a);
          if da.pvcCreate.reported {
            PvcMakesTruly(disks, start, made, a, i + 1, r);
          }
        }
      }
    }
  }

  /** The volume pass: it works exactly if every image is found and every wanted volume is there or can be made,
      and then exactly the volumes of the disks with backing images are added; whatever happens, every recorded
      volume is one of those and was not there before. */
  lemma PvcMeans(disks: seq<DiskInfo>, out: Outside, a: Answers)
    ensures var (made, ok) := PvcFrom(disks, out, a, 0);
            && (ok <==> VolumesWork(disks, out, a, 0))
            && (ok ==> made.pvcs == out.pvcs + BackingImages(disks, out, 0))
            && out.pvcs <= made.pvcs <= out.pvcs + BackingImages(disks, out, 0)
            && AllVolumesTrue(made.history, |out.history|, disks, out, a)
  {
    PvcMakes(disks, out, a, 0, PvcFrom(disks, out, a, 0));
    PvcMakesTruly(disks, out, out, a, 0, PvcFrom(disks, out, a, 0));
  }

  // ---------------------------------------------------------------- give the images away

  /** The owners other than this one, in order. */
  ghost predicate Without(owners: seq<Owner>, kept: seq<Owner>, me: Owner) {
    Selects(owners, kept, (o: Owner) => o != me)
  }

  lemma {:induction false} OtherOwnersNext(owners: seq<Owner>, o: Owner, me: Owner)
    ensures OtherOwners(owners + [o], me) == OtherOwners(owners, me) + if o == me then [] else [o]
  {
    var whole := owners + [o];
    if owners == [] {
      assert whole[1..] == [] && OtherOwners([], me) == [];
    } else {
      assert whole[1..] == owners[1..] + [o] && whole[0] == owners[0];
      OtherOwnersNext(owners[1..], o, me);
      Assoc(if owners[0] == me then [] else [owners[0]], OtherOwners(owners[1..], me), if o == me then [] else [o]);
    }
  }

  /** Removing the owner keeps all others, in order. */
  lemma {:induction false} OwnersMean(owners: seq<Owner>, me: Owner)
    ensures Without(owners, OtherOwners(owners, me), me)
  {
    if owners != [] {
      var init, last := owners[..|owners| - 1], owners[|owners| - 1];
      OwnersMean(init, me);
      OtherOwnersNext(init, last, me);
      SelectsNext(init, OtherOwners(init, me), last, (o: Owner) => o != me);
      assert owners == init + [last];
    }
  }

  lemma {:induction false} OwnersOnce(owners: seq<Owner>, me: Owner)
    ensures OtherOwners(OtherOwners(owners, me), me) == OtherOwners(owners, me)
  {
    if owners != [] {
      OwnersOnce(owners[1..], me);
      var rest := OtherOwners(owners[1..], me);
      if owners[0] != me {
        assert ([owners[0]] + rest)[1..] == rest;
      } else {
        assert [] + rest == rest;
      }
    }
  }

  function Given(image: Image, me: Owner): Image {
    image.(owners := OtherOwners(image.owners, me))
  }

  predicate IsImageOf(n: string, disks: seq<DiskInfo>, to: nat) {
    exists j :: 0 <= j < to && j < |disks| && disks[j].image == n
  }

  /** The images of the disks up to i are given away, the others as before. */
  predicate GivenTo(disks: seq<DiskInfo>, start: Outside, out: Outside, me: Owner, i: nat) {
    && out.images.Keys == start.images.Keys
    && forall n :: n in start.images ==>
         out.images[n] == if IsImageOf(n, disks, i) then Given(start.images[n], me) else start.images[n]
  }

  predicate TidyWorks(d: DiskInfo, out: Outside, da: DiskAnswers) {
    da.getOk && d.image in out.images && da.update.applied && da.update.reported
  }

  lemma GivenNext(disks: seq<DiskInfo>, start: Outside, out: Outside, updated: Outside, me: Owner, i: nat)
    requires i < |disks| && disks[i].image in out.images && GivenTo(disks, start, out, me, i)
    requires updated.images == out.images[disks[i].image := Given(out.images[disks[i].image], me)]
    ensures GivenTo(disks, start, updated, me, i + 1)
  {
    var name := disks[i].image;
    OwnersOnce(start.images[name].owners, me);
    forall n | n in start.images
      ensures updated.images[n] ==
              if IsImageOf(n, disks, i + 1) then Given(start.images[n], me) else start.images[n]
    {
      assert IsImageOf(n, disks, i + 1) <==> IsImageOf(n, disks, i) || n == name;
    }
  }

  lemma {:induction false} TidyGives(
      cfg: Config, disks: seq<DiskInfo>, start: Outside, out: Outside, a: Answers, i: nat, r: (Outside, bool))
    returns (to: nat)
    requires i <= |disks| && r == TidyFrom(cfg, disks, out, a, i)
    requires GivenTo(disks, start, out, cfg.owner, i)
    requires forall j :: 0 <= j < i ==> TidyWorks(disks[j], start, a.disk(j))
    ensures r.1 <==> forall j :: 0 <= j < |disks| ==> TidyWorks(disks[j], start, a.disk(j))
    ensures to <= |disks| && GivenTo(disks, start, r.0, cfg.owner, to) && (r.1 ==> to == |disks|)
    decreases |disks| - i
  {
    to := i;
    if i < |disks| {
      var name, da := disks[i].image, a.disk(i);
      if da.getOk && name in out.images && da.update.applied {
        var updated := out.(images := out.images[name := Given(out.images[name], cfg.owner)]);
        GivenNext(disks, start, out, updated, cfg.owner, i);
        if da.update.reported {
          to := TidyGives(cfg, disks, start, updated, a, i + 1, r);
        } else {
          to := i + 1;
          assert !TidyWorks(disks[i], start, da);
        }
      } else {
        assert !TidyWorks(disks[i], start, da);
      }
    }
  }

  /** The image lost this owner and nothing else. */
  ghost predicate GivenAway(before: Image, after: Image, me: Owner) {
    after == before.(owners := after.owners) && Without(before.owners, after.owners, me)
  }

  /** The tidying pass: it works exactly if every image is found and every update works, and then exactly the
      images of the disks have lost the import as their owner, and nothing else; however it ends, other images
      are as before. */
  lemma TidyMeans(cfg: Config, disks: seq<DiskInfo>, out: Outside, a: Answers)
    ensures var (t, ok) := TidyFrom(cfg, disks, out, a, 0);
            && (ok <==> forall j :: 0 <= j < |disks| ==> TidyWorks(disks[j], out, a.disk(j)))
            && t == out.(images := t.images) && t.images.Keys == out.images.Keys
            && (forall n :: n in out.images && !IsImageOf(n, disks, |disks|) ==> t.images[n] == out.images[n])
            && (ok ==> forall j :: 0 <= j < |disks| ==>
                         GivenAway(out.images[disks[j].image], t.images[disks[j].image], cfg.owner))
  {
    var r := TidyFrom(cfg, disks, out, a, 0);
    TidyTouchesImages(cfg, disks, out, a, 0);
    var to := TidyGives(cfg, disks, out, out, a, 0, r);
    if r.1 {
      forall j | 0 <= j < |disks| ensures GivenAway(out.images[disks[j].image], r.0.images[disks[j].image], cfg.owner) {
        assert TidyWorks(disks[j], out, a.disk(j));
        assert IsImageOf(disks[j].image, disks, |disks|);
        OwnersMean(out.images[disks[j].image].owners, cfg.owner);
      }
    }
  }

  // ---------------------------------------------------------------- find or create an image

  /** The names that the lister shows for a label. */
  function Shown(out: Outside, tag: string, view: CacheView): Option<set<string>> {
    match view
    case Fresh => Some(set n | n in out.images && out.images[n].tag == tag)
    case Stale(names) => Some(names)
    case ListError => None
  }

  /** Nothing is listed, and a create call takes effect under a name that the server never used. */
  predicate Creates(out: Outside, da: DiskAnswers) {
    && da.backendOk && da.create.applied
    && da.generatedName != "" && da.generatedName !in out.used && da.generatedName !in out.images
  }

  /** One image listed under the disk's label is taken as it is; several, or a failing list, are an error without
      effect; if none is listed, one is made, with the label, no condition and the import as its owner. */
  lemma CheckAndCreateMeans(cfg: Config, d: DiskInfo, out: Outside, da: DiskAnswers)
    ensures var tag := cfg.formatLabel("vm-import-" + cfg.owner.name + "-" + d.name);
            var shown, r := Shown(out, tag, da.list), CheckAndCreate(cfg, d, out, da);
            && (forall n :: shown == Some({n}) ==> r == (Some(n), out))
            && (shown.None? || |shown.value| > 1 ==> r == (None, out))
            && (shown == Some({}) ==>
                  if Creates(out, da) then
                    && r.0 == (if da.create.reported then Some(da.generatedName) else None)
                    && var image := Image(tag, [], da.backingImage, [cfg.owner]);
                       r.1 == out.(images := out.images[da.generatedName := image],
                                   used := out.used + {da.generatedName},
                                   history := out.history + [ImageMade(da.generatedName, tag)])
                  else r == (None, out))
  {
  }

  /** One disk of the submit pass: a submitted one is left alone; another one is marked, under the name that the
      look or the create call gave, at the time it was given. */
  ghost predicate Turned(cfg: Config, x: DiskInfo, y: DiskInfo, before: Outside, after: Outside, da: DiskAnswers) {
    if Has(x.conds, ImageSubmitted) then y == x && after == before
    else
      var (name, made) := CheckAndCreate(cfg, x, before, da);
      && name.Some? && y == x.(image := name.value, conds := y.conds) && Has(y.conds, ImageSubmitted)
      && SameAnswersBut(x.conds, y.conds, {ImageSubmitted})
      && after == made.(now := made.now + da.delay + da.delay2)
  }

  /** The pass cannot go on at this disk: it is not submitted, and no image is found or made for it. */
  predicate Blocks(cfg: Config, x: DiskInfo, out: Outside, da: DiskAnswers) {
    !Has(x.conds, ImageSubmitted) && CheckAndCreate(cfg, x, out, da).0.None?
  }

  /** The submit pass, turn by turn: each disk before the given one has taken its turn, in order, in the outside
      that the turns before it left; the rest is left alone. */
  ghost predicate Submits(
      cfg: Config, disks: seq<DiskInfo>, after: seq<DiskInfo>, outs: seq<Outside>, a: Answers, to: nat)
    requires to <= |disks| && |outs| == to + 1
  {
    && |after| == |disks|
    && (forall j :: 0 <= j < to ==> Turned(cfg, disks[j], after[j], outs[j], outs[j + 1], a.disk(j)))
    && (forall j :: to <= j < |disks| ==> after[j] == disks[j])
  }

  /** How the pass ends: behind the last disk without an error, or at a disk that blocks. */
  predicate SubmitEnds(cfg: Config, disks: seq<DiskInfo>, last: Outside, a: Answers, to: nat, r: Ran)
    requires to <= |disks|
  {
    if to == |disks| then r.err == NoError && r.out == last
    else
      && r.err == OtherError && Blocks(cfg, disks[to], last, a.disk(to))
      && r.out == CheckAndCreate(cfg, disks[to], last, a.disk(to)).1
  }

  lemma TurnSubmits(cfg: Config, x: DiskInfo, out: Outside, da: DiskAnswers)
    requires !Has(x.conds, ImageSubmitted) && CheckAndCreate(cfg, x, out, da).0.Some?
    ensures var (name, made) := CheckAndCreate(cfg, x, out, da);
            var (y, marked) := MarkDisk(x.(image := name.value), made, ImageSubmitted, da);
            Turned(cfg, x, y, out, marked, da)
  {
    var (name, made) := CheckAndCreate(cfg, x, out, da);
    MarkedDisk(x.(image := name.value), made, ImageSubmitted, da);
  }

  lemma SubmitsMore(cfg: Config, disks: seq<DiskInfo>, after: seq<DiskInfo>, y: DiskInfo, outs: seq<Outside>,
                    next: Outside, a: Answers, i: nat)
    requires i < |disks| && |outs| == i + 1 && Submits(cfg, disks, after, outs, a, i)
    requires Turned(cfg, disks[i], y, outs[i], next, a.disk(i))
    ensures Submits(cfg, disks, after[i := y], outs + [next], a, i + 1)
  {
    var more := outs + [next];
    forall j | 0 <= j < i + 1 ensures Turned(cfg, disks[j], after[i := y][j], more[j], more[j + 1], a.disk(j)) {
      if j < i {
        assert more[j] == outs[j] && more[j + 1] == outs[j + 1];
      }
    }
  }

  /** One turn. */
  lemma SubmitNext(cfg: Config, disks: seq<DiskInfo>, st: Status, outs: seq<Outside>, a: Answers, i: nat)
    returns (next: Status, more: seq<Outside>)
    requires i < |disks| && |outs| == i + 1 && Submits(cfg, disks, st.disks, outs, a, i)
    requires !Blocks(cfg, disks[i], outs[i], a.disk(i))
    ensures |more| == i + 2 && more[0] == outs[0] && Submits(cfg, disks, next.disks, more, a, i + 1)
    ensures SubmitFrom(cfg, st, outs[i], a, i) == SubmitFrom(cfg, next, more[i + 1], a, i + 1)
  {
    var x := disks[i];
    if Has(x.conds, ImageSubmitted) {
      SubmitsMore(cfg, disks, st.disks, x, outs, outs[i], a, i);
      assert st.disks[i := x] == st.disks;
      next, more := st, outs + [outs[i]];
    } else {
      var (name, made) := CheckAndCreate(cfg, x, outs[i], a.disk(i));
      var (d, marked) := MarkDisk(x.(image := name.value), made, ImageSubmitted, a.disk(i));
      TurnSubmits(cfg, x, outs[i], a.disk(i));
      SubmitsMore(cfg, disks, st.disks, d, outs, marked, a, i);
      next, more := st.(disks := st.disks[i := d]), outs + [marked];
    }
  }

  lemma {:induction false} SubmitTurns(
      cfg: Config, disks: seq<DiskInfo>, st: Status, before: seq<Outside>, a: Answers, i: nat, r: Ran)
    returns (to: nat, outs: seq<Outside>)
    requires i <= |disks| && |before| == i + 1 && Submits(cfg, disks, st.disks, before, a, i)
    requires r == SubmitFrom(cfg, st, before[i], a, i)
    ensures to <= |disks| && |outs| == to + 1 && outs[0] == before[0]
    ensures Submits(cfg, disks, r.st.disks, outs, a, to) && SubmitEnds(cfg, disks, outs[to], a, to, r)
    decreases |disks| - i
  {
    to, outs := i, before;
    if i < |disks| && !Blocks(cfg, disks[i], before[i], a.disk(i)) {
      var next, more := SubmitNext(cfg, disks, st, before, a, i);
      to, outs := SubmitTurns(cfg, disks, next, more, a, i + 1, r);
    }
  }

  /** The submit pass, exactly: the turns of the disks up to the first that blocks, each in the outside that the
      turns before it left; an error exactly if one blocks. */
  lemma SubmitMeans(cfg: Config, st: Status, out: Outside, a: Answers) returns (to: nat, outs: seq<Outside>)
    ensures var r := SubmitFrom(cfg, st, out, a, 0);
            && to <= |st.disks| && |outs| == to + 1 && outs[0] == out
            && Submits(cfg, st.disks, r.st.disks, outs, a, to)
            && SubmitEnds(cfg, st.disks, outs[to], a, to, r)
  {
    to, outs := SubmitTurns(cfg, st.disks, st, [out], a, 0, SubmitFrom(cfg, st, out, a, 0));
  }

  /** A recorded image was made for a disk that was not submitted, under its label and a new name. */
  ghost predicate MadeTrue(cfg: Config, e: Event, disks: seq<DiskInfo>, out: Outside, a: Answers) {
    exists i :: 0 <= i < |disks| && !Has(disks[i].conds, ImageSubmitted) && a.disk(i).create.applied
                && a.disk(i).generatedName !in out.used
                && e == ImageMade(a.disk(i).generatedName,
                                  cfg.formatLabel("vm-import-" + cfg.owner.name + "-" + disks[i].name))
  }

  ghost predicate AllMadeTrue(
      cfg: Config, h: seq<Event>, from: nat, disks: seq<DiskInfo>, out: Outside, a: Answers) {
    forall k :: from <= k < |h| ==> MadeTrue(cfg, h[k], disks, out, a)
  }

  lemma {:induction false} SubmitMakesTruly(
      cfg: Config, disks: seq<DiskInfo>, start: Outside, st: Status, out: Outside, a: Answers, i: nat, r: Ran)
    requires i <= |disks| == |st.disks| && r == SubmitFrom(cfg, st, out, a, i)
    requires forall j :: i <= j < |disks| ==> st.disks[j] == disks[j]
    requires start.used <= out.used && AllMadeTrue(cfg, out.history, |start.history|, disks, start, a)
    ensures AllMadeTrue(cfg, r.out.history, |start.history|, disks, start, a)
    decreases |disks| - i
  {
    if i < |disks| {
      if Submitted(st.disks[i]) {
        SubmitMakesTruly(cfg, disks, start, st, out, a, i + 1, r);
      } else {
        var (name, made) := CheckAndCreate(cfg, disks[i], out, a.disk(i));
        assert AllMadeTrue(cfg, made.history, |start.history|, disks, start, a) by {
          if made != out {
            var e := ImageMade(a.disk(i).generatedName, ImageLabel(cfg, disks[i].name));
            assert made.history == out.history + [e] && MadeTrue(cfg, e, disks, start, a);
          }
        }
        if name.Some? {
          var (d, marked) := MarkDisk(disks[i].(image := name.value), made, ImageSubmitted, a.disk(i));
          SubmitMakesTruly(cfg, disks, start, st.(disks := st.disks[i := d]), marked, a, i + 1, r);
        }
      }
    }
  }
}
