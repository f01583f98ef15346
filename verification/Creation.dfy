/** Creating images, volumes and the virtual machine once, whatever is retried. */
module Creation {
  import opened Wrappers
  import opened Conditions
  import opened ImportTypes
  import opened DiskVerdict
  import opened DiskImages
  import opened PowerAndExport
  import opened PassHistory
  import opened Reconciler
  import opened ImportMachine
  import opened ImportInvariants
  import opened ImportSystem
  import opened ImageStore

  // ---------------------------------------------------------------- images

  ghost predicate OurTag(cfg: Config, tag: string) {
    exists name :: tag == ImageLabel(cfg, name)
  }

  /** The label of each image, by name. */
  type Labels = map<string, string>

  function LabelsOf(images: map<string, Image>): Labels {
    map n | n in images :: images[n].tag
  }

  /** The image was there with this label when the run started, left by an earlier import say, or made since. */
  predicate Known(prior: Labels, h: seq<Event>, n: string, t: string) {
    (n in prior && prior[n] == t) || ImageMade(n, t) in h
  }

  /** At most one image under each of this import's labels. */
  ghost predicate LabelsDiffer(cfg: Config, out: Outside) {
    forall n, m :: n in out.images && m in out.images && n != m && OurTag(cfg, out.images[n].tag) ==>
                     out.images[n].tag != out.images[m].tag
  }

  /** And each of them known under its label. */
  ghost predicate OnePerTag(cfg: Config, prior: Labels, out: Outside) {
    && LabelsDiffer(cfg, out)
    && forall n :: n in out.images && OurTag(cfg, out.images[n].tag) ==>
                     Known(prior, out.history, n, out.images[n].tag)
  }

  /** A name is made once, so it is known under one label. */
  ghost predicate NamesOnce(prior: Labels, out: Outside) {
    && (forall n, t :: Known(prior, out.history, n, t) ==> n in out.used)
    && (forall n, t, u :: Known(prior, out.history, n, t) && Known(prior, out.history, n, u) ==> t == u)
  }

  /** A submitted disk names an image known under its label. */
  ghost predicate DisksMade(cfg: Config, disks: seq<DiskInfo>, prior: Labels, h: seq<Event>) {
    forall i :: 0 <= i < |disks| && Submitted(disks[i]) ==>
      Known(prior, h, disks[i].image, ImageLabel(cfg, disks[i].name))
  }

  /** A cache that sees the controller's own writes, but may lag behind removals: for a label it lists every
      image the API server holds, and otherwise only images that once bore it; or it reports an error. */
  ghost predicate SeesOwn(cfg: Config, d: DiskInfo, prior: Labels, out: Outside, da: DiskAnswers) {
    var tag := ImageLabel(cfg, d.name);
    var names := Listed(out, tag, da.list);
    names.Some? ==>
      Tagged(out.images, tag) <= names.value && forall n :: n in names.value ==> Known(prior, out.history, n, tag)
  }

  /** The cache does so at every lookup of a submit pass. */
  ghost predicate PassSees(cfg: Config, st: Status, prior: Labels, out: Outside, a: Answers, i: nat)
    decreases |st.disks| - i
  {
    if i >= |st.disks| then true
    else if Submitted(st.disks[i]) then PassSees(cfg, st, prior, out, a, i + 1)
    else
      var (name, made) := CheckAndCreate(cfg, st.disks[i], out, a.disk(i));
      && SeesOwn(cfg, st.disks[i], prior, out, a.disk(i))
      && (name.Some? ==>
            var (d, marked) := MarkDisk(st.disks[i].(image := name.value), made, ImageSubmitted, a.disk(i));
            PassSees(cfg, st.(disks := st.disks[i := d]), prior, marked, a, i + 1))
  }

  /** A cache in step with the API server is one of those. */
  lemma FreshSeesOwn(cfg: Config, d: DiskInfo, prior: Labels, out: Outside, da: DiskAnswers)
    requires OnePerTag(cfg, prior, out) && da.list in {Fresh, ListError}
    ensures SeesOwn(cfg, d, prior, out, da)
  {
    assert OurTag(cfg, ImageLabel(cfg, d.name));
  }

  ghost predicate Booked(cfg: Config, prior: Labels, out: Outside) {
    NamesUsed(out) && OnePerTag(cfg, prior, out) && NamesOnce(prior, out)
  }

  lemma StoreBooks(cfg: Config, prior: Labels, out: Outside, name: string, diskName: string, backing: bool)
    requires Booked(cfg, prior, out) && NameFree(out, name)
    requires Tagged(out.images, ImageLabel(cfg, diskName)) == {}
    ensures Booked(cfg, prior, StoreImage(cfg, out, name, ImageLabel(cfg, diskName), backing))
  {
    var tag := ImageLabel(cfg, diskName);
    var made := StoreImage(cfg, out, name, tag, backing);
    KnownAfter(prior, out.history, ImageMade(name, tag));
    forall n | n in out.images ensures out.images[n].tag != tag {
      assert n !in Tagged(out.images, tag);
    }
  }

  lemma KnownAfter(prior: Labels, h: seq<Event>, e: Event)
    ensures forall n, t :: Known(prior, h + [e], n, t) <==> Known(prior, h, n, t) || e == ImageMade(n, t)
  {
    forall n, t ensures Known(prior, h + [e], n, t) <==> Known(prior, h, n, t) || e == ImageMade(n, t) {
      assert (h + [e])[|h|] == e;
    }
  }

  lemma KnownSame(prior: Labels, h: seq<Event>, longer: seq<Event>)
    requires h <= longer && forall k :: |h| <= k < |longer| ==> !longer[k].ImageMade?
    ensures forall n, t :: Known(prior, longer, n, t) <==> Known(prior, h, n, t)
  {
    forall n, t ensures ImageMade(n, t) in longer <==> ImageMade(n, t) in h {
      if ImageMade(n, t) in h {
        var k :| 0 <= k < |h| && h[k] == ImageMade(n, t);
        assert longer[k] == ImageMade(n, t);
      }
    }
  }

  /** With such a cache a lookup ends with an image known under the disk's label, or with an error. */
  lemma CreateBooks(cfg: Config, prior: Labels, d: DiskInfo, out: Outside, da: DiskAnswers)
    requires Booked(cfg, prior, out) && SeesOwn(cfg, d, prior, out, da)
    ensures var (name, made) := CheckAndCreate(cfg, d, out, da);
            && Booked(cfg, prior, made) && out.history <= made.history
            && (name.Some? ==> Known(prior, made.history, name.value, ImageLabel(cfg, d.name)))
  {
    var names := Listed(out, ImageLabel(cfg, d.name), da.list);
    if names.Some? {
      if |names.value| == 1 {
        assert TheOne(names.value) in names.value;
      } else if names.value == {} && NameFree(out, da.generatedName) {
        StoreBooks(cfg, prior, out, da.generatedName, d.name, da.backingImage);
      }
    }
  }

  lemma {:induction false} SubmitBooks(cfg: Config, prior: Labels, st: Status, out: Outside, a: Answers, i: nat)
    requires Booked(cfg, prior, out) && PassSees(cfg, st, prior, out, a, i)
    requires DisksMade(cfg, st.disks, prior, out.history)
    ensures var r := SubmitFrom(cfg, st, out, a, i);
            && Booked(cfg, prior, r.out) && DisksMade(cfg, r.st.disks, prior, r.out.history)
            && out.history <= r.out.history
    decreases |st.disks| - i
  {
    if i < |st.disks| {
      if Submitted(st.disks[i]) {
        SubmitBooks(cfg, prior, st, out, a, i + 1);
      } else {
        var (name, made) := CheckAndCreate(cfg, st.disks[i], out, a.disk(i));
        CreateBooks(cfg, prior, st.disks[i], out, a.disk(i));
        if name.Some? {
          var (d, marked) := MarkDisk(st.disks[i].(image := name.value), made, ImageSubmitted, a.disk(i));
          SubmitBooks(cfg, prior, st.(disks := st.disks[i := d]), marked, a, i + 1);
        }
      }
    }
  }

  // ---------------------------------------------------------------- steps that make no image

  /** No object is made between the two histories. */
  ghost predicate Quiet(h: seq<Event>, longer: seq<Event>) {
    h <= longer &&
    forall k :: |h| <= k < |longer| ==> !longer[k].ImageMade? && !longer[k].PvcMade? && !longer[k].VmMade?
  }

  lemma AppendsQuiet(h: seq<Event>, longer: seq<Event>, k: Kind)
    requires Appends(h, longer, k) && k in {PowerCalls, Looks, Deletes}
    ensures Quiet(h, longer)
  {
    forall i | |h| <= i < |longer| ensures OfKind(longer[i], k) {
    }
  }

  /** Steps outside DisksExported and DiskImagesReady make no object and touch no volume and no VM. */
  lemma OtherPhasesQuiet(cfg: Config, st: Status, out: Outside, a: Answers)
    requires NamesUsed(out) && st.phase !in {DisksExported, DiskImagesReady}
    ensures var after := Handle(cfg, st, out, a).out;
            && Quiet(out.history, after.history) && after.used == out.used
            && after.pvcs == out.pvcs && after.vms == out.vms && after.images.Keys <= out.images.Keys
  {
    var h := Handle(cfg, st, out, a).out.history;
    match st.phase
    case SourceReady =>
      ExportAppends(st, out, a);
      AppendsQuiet(out.history, h, PowerCalls);
    case DiskImagesSubmitted =>
      RefreshAppends(st, out, a, 0);
      AppendsQuiet(out.history, h, Looks);
    case DiskImagesFailed =>
      CleanAppends(st, out, a, 0);
      CleanEvolves(st, out, a, 0);
      AppendsQuiet(out.history, h, Deletes);
    case VirtualMachineRunning =>
      TidyTouchesImages(cfg, st.disks, out, a, 0);
      TidyEvolves(cfg, st.disks, out, a, 0);
    case _ =>
  }

  /** Losing images, and making other objects, breaks no book-keeping. */
  lemma BooksSurvive(cfg: Config, prior: Labels, out: Outside, after: Outside)
    requires Booked(cfg, prior, out) && Evolves(out, after) && after.images.Keys <= out.images.Keys
    requires out.history <= after.history
    requires forall k :: |out.history| <= k < |after.history| ==> !after.history[k].ImageMade?
    ensures Booked(cfg, prior, after)
    ensures forall n, t :: Known(prior, after.history, n, t) <==> Known(prior, out.history, n, t)
  {
    KnownSame(prior, out.history, after.history);
  }

  // ---------------------------------------------------------------- images over runs

  ghost predicate StepSees(cfg: Config, prior: Labels, w: World, s: Step) {
    s.Reconcile? && s.read < |w.log| && w.log[s.read].phase == DisksExported ==>
      PassSees(cfg, w.log[s.read], prior, w.out, s.a, 0)
  }

  /** The cache sees the controller's own writes throughout the run. */
  ghost predicate StepsSee(cfg: Config, w: World, steps: seq<Step>) {
    steps == [] ||
    (var front := steps[..|steps| - 1];
     StepsSee(cfg, w, front) && StepSees(cfg, LabelsOf(w.out.images), Run(cfg, w, front), steps[|steps| - 1]))
  }

  ghost predicate WorldBooked(cfg: Config, prior: Labels, w: World) {
    Booked(cfg, prior, w.out) && forall i :: 0 <= i < |w.log| ==> DisksMade(cfg, w.log[i].disks, prior, w.out.history)
  }

  /** A disk that reads as submitted later was submitted before, except in the submitting phase. */
  lemma DisksMadeNext(cfg: Config, a: Status, b: Status, prior: Labels, h: seq<Event>)
    requires Inv(cfg, a) && Next(cfg, a, b) && a.phase != DisksExported && DisksMade(cfg, a.disks, prior, h)
    ensures DisksMade(cfg, b.disks, prior, h)
  {
    KeepsNext(cfg, a, b);
    forall i | 0 <= i < |b.disks| && Submitted(b.disks[i])
      ensures Known(prior, h, b.disks[i].image, ImageLabel(cfg, b.disks[i].name))
    {
      if a.disks == [] {
        FreshDisksUnmarked(cfg, a, b, i);
      } else {
        assert KeepsDisk(a.disks[i], b.disks[i]);
        NothingSubmitted(cfg, a, b, i);
      }
    }
  }

  lemma FreshDisksUnmarked(cfg: Config, a: Status, b: Status, i: nat)
    requires Next(cfg, a, b) && a.phase != DisksExported && a.disks == [] && i < |b.disks|
    ensures !Submitted(b.disks[i])
  {
    if a.phase == SourceReady && Exports(a, b) {
      var m :| Moves(a, b.(phase := a.phase), m);
    }
  }

  lemma NothingSubmitted(cfg: Config, a: Status, b: Status, i: nat)
    requires ExportedOnce(a) && Next(cfg, a, b) && a.phase != DisksExported
    requires i < |a.disks| && i < |b.disks|
    ensures Submitted(b.disks[i]) ==> Submitted(a.disks[i])
  {
    match a.phase
    case SourceReady =>
      if Exports(a, b) {
        var m :| Moves(a, b.(phase := a.phase), m);
      }
    case DiskImagesSubmitted => assert RefreshesDisk(a.disks[i], b.disks[i]);
    case DiskImagesFailed => assert CleansDisk(a.disks[i], b.disks[i]);
    case _ =>
  }

  lemma VmBooks(cfg: Config, prior: Labels, st: Status, out: Outside, a: Answers)
    requires Booked(cfg, prior, out)
    ensures Booked(cfg, prior, MakeVm(st, out, a).out) && out.history <= MakeVm(st, out, a).out.history
  {
    var after := MakeVm(st, out, a).out;
    VmKeepsImages(st, out, a);
    VmHistory(st, out, a);
    EvolvesSame(out, after);
    BooksSurvive(cfg, prior, out, after);
  }

  lemma VmHistory(st: Status, out: Outside, a: Answers)
    ensures var h := MakeVm(st, out, a).out.history;
            out.history <= h && forall k :: |out.history| <= k < |h| ==> !h[k].ImageMade?
  {
    PvcAppends(st.disks, out, a, 0);
    CreateVmAppends(st, out, a);
  }

  lemma OtherPhasesBook(cfg: Config, prior: Labels, st: Status, out: Outside, a: Answers)
    requires Booked(cfg, prior, out) && st.phase != DisksExported
    ensures var after := Handle(cfg, st, out, a).out; Booked(cfg, prior, after) && out.history <= after.history
  {
    if st.phase == DiskImagesReady {
      VmBooks(cfg, prior, st, out, a);
    } else {
      OtherPhasesQuiet(cfg, st, out, a);
      HandleEvolves(cfg, st, out, a);
      BooksSurvive(cfg, prior, out, Handle(cfg, st, out, a).out);
    }
  }

  lemma SubmitImagesBook(cfg: Config, prior: Labels, st: Status, out: Outside, a: Answers)
    requires Booked(cfg, prior, out) && PassSees(cfg, st, prior, out, a, 0)
    requires DisksMade(cfg, st.disks, prior, out.history)
    ensures var oc := SubmitImages(cfg, st, out, a);
            && Booked(cfg, prior, oc.out) && out.history <= oc.out.history
            && (oc.write.Some? ==> DisksMade(cfg, oc.write.value.disks, prior, oc.out.history))
  {
    SubmitBooks(cfg, prior, st, out, a, 0);
  }

  lemma HandleBooks(cfg: Config, prior: Labels, st: Status, out: Outside, a: Answers)
    requires Booked(cfg, prior, out) && Inv(cfg, st) && DisksMade(cfg, st.disks, prior, out.history)
    requires st.phase == DisksExported ==> PassSees(cfg, st, prior, out, a, 0)
    ensures var oc := Handle(cfg, st, out, a);
            && Booked(cfg, prior, oc.out) && out.history <= oc.out.history
            && (oc.write.Some? ==> DisksMade(cfg, oc.write.value.disks, prior, oc.out.history))
  {
    if st.phase == DisksExported {
      SubmitImagesBook(cfg, prior, st, out, a);
    } else {
      var oc := Handle(cfg, st, out, a);
      OtherPhasesBook(cfg, prior, st, out, a);
      OtherWritesMade(cfg, prior, st, out, a);
      if oc.write.Some? {
        MadeGrows(cfg, oc.write.value.disks, prior, out.history, oc.out.history);
      }
    }
  }

  lemma OtherWritesMade(cfg: Config, prior: Labels, st: Status, out: Outside, a: Answers)
    requires Inv(cfg, st) && st.phase != DisksExported && DisksMade(cfg, st.disks, prior, out.history)
    ensures var w := Handle(cfg, st, out, a).write; w.Some? ==> DisksMade(cfg, w.value.disks, prior, out.history)
  {
    HandleRefinesMachine(cfg, st, out, a);
    var w := Handle(cfg, st, out, a).write;
    if w.Some? {
      DisksMadeNext(cfg, st, w.value, prior, out.history);
    }
  }

  lemma MadeGrows(cfg: Config, disks: seq<DiskInfo>, prior: Labels, h: seq<Event>, longer: seq<Event>)
    requires DisksMade(cfg, disks, prior, h) && h <= longer
    ensures DisksMade(cfg, disks, prior, longer)
  {
    forall i | 0 <= i < |disks| && Submitted(disks[i])
      ensures Known(prior, longer, disks[i].image, ImageLabel(cfg, disks[i].name))
    {
      assert Known(prior, h, disks[i].image, ImageLabel(cfg, disks[i].name));
    }
  }

  lemma BookedSettle(cfg: Config, prior: Labels, w: World, read: nat, accepted: bool, oc: Outcome)
    requires WorldBooked(cfg, prior, w) && Booked(cfg, prior, oc.out) && w.out.history <= oc.out.history
    requires oc.write.Some? ==> DisksMade(cfg, oc.write.value.disks, prior, oc.out.history)
    ensures WorldBooked(cfg, prior, Settle(w, read, accepted, oc))
  {
    var r := Settle(w, read, accepted, oc);
    forall i | 0 <= i < |r.log| ensures DisksMade(cfg, r.log[i].disks, prior, r.out.history) {
      if i < |w.log| {
        MadeGrows(cfg, w.log[i].disks, prior, w.out.history, oc.out.history);
      }
    }
  }

  lemma EnvironmentBooks(cfg: Config, prior: Labels, w: World, s: Step)
    requires WorldBooked(cfg, prior, w) && !s.Reconcile?
    ensures WorldBooked(cfg, prior, Apply(cfg, w, s))
  {
    if s.ImageRemoved? {
      var after := Apply(cfg, w, s);
      assert Evolves(w.out, after.out);
      BooksSurvive(cfg, prior, w.out, after.out);
    }
  }

  lemma WorldBookedStep(cfg: Config, prior: Labels, w: World, s: Step)
    requires WorldBooked(cfg, prior, w) && AllInv(cfg, w.log)
    requires StepSees(cfg, prior, w, s)
    ensures WorldBooked(cfg, prior, Apply(cfg, w, s))
  {
    if !s.Reconcile? {
      EnvironmentBooks(cfg, prior, w, s);
    } else if s.read < |w.log| {
      HandleBooks(cfg, prior, w.log[s.read], w.out, s.a);
      BookedSettle(cfg, prior, w, s.read, s.accepted, Handle(cfg, w.log[s.read], w.out, s.a));
    }
  }

  lemma {:induction false} RunIsBooked(cfg: Config, w: World, steps: seq<Step>)
    requires Start(w) && LabelsDiffer(cfg, w.out) && StepsSee(cfg, w, steps)
    ensures WorldBooked(cfg, LabelsOf(w.out.images), Run(cfg, w, steps))
    decreases |steps|
  {
    if steps != [] {
      var front, last := steps[..|steps| - 1], steps[|steps| - 1];
      RunIsBooked(cfg, w, front);
      EveryVersionInv(cfg, w, front);
      WorldBookedStep(cfg, LabelsOf(w.out.images), Run(cfg, w, front), last);
    }
  }

  ghost predicate FreshLists(a: Answers) {
    forall i: nat :: a.disk(i).list in {Fresh, ListError}
  }

  ghost predicate FreshSteps(steps: seq<Step>) {
    forall i :: 0 <= i < |steps| && steps[i].Reconcile? ==> FreshLists(steps[i].a)
  }

  lemma {:induction false} FreshPassSees(cfg: Config, prior: Labels, st: Status, out: Outside, a: Answers, i: nat)
    requires Booked(cfg, prior, out) && FreshLists(a)
    ensures PassSees(cfg, st, prior, out, a, i)
    decreases |st.disks| - i
  {
    if i < |st.disks| {
      if Submitted(st.disks[i]) {
        FreshPassSees(cfg, prior, st, out, a, i + 1);
      } else {
        var (name, made) := CheckAndCreate(cfg, st.disks[i], out, a.disk(i));
        FreshSeesOwn(cfg, st.disks[i], prior, out, a.disk(i));
        CreateBooks(cfg, prior, st.disks[i], out, a.disk(i));
        if name.Some? {
          var (d, marked) := MarkDisk(st.disks[i].(image := name.value), made, ImageSubmitted, a.disk(i));
          FreshPassSees(cfg, prior, st.(disks := st.disks[i := d]), marked, a, i + 1);
        }
      }
    }
  }

  /** A run whose lists are in step with the API server, or fail, is one whose cache sees the controller's own
      writes. */
  lemma {:induction false} FreshRunSees(cfg: Config, w: World, steps: seq<Step>)
    requires Start(w) && LabelsDiffer(cfg, w.out) && FreshSteps(steps)
    ensures StepsSee(cfg, w, steps)
    decreases |steps|
  {
    if steps != [] {
      var front, s := steps[..|steps| - 1], steps[|steps| - 1];
      FreshRunSees(cfg, w, front);
      RunIsBooked(cfg, w, front);
      if s.Reconcile? && s.read < |Run(cfg, w, front).log| {
        FreshStepSees(cfg, LabelsOf(w.out.images), Run(cfg, w, front), s);
      }
    }
  }

  lemma FreshStepSees(cfg: Config, prior: Labels, w: World, s: Step)
    requires Booked(cfg, prior, w.out) && s.Reconcile? && FreshLists(s.a) && s.read < |w.log|
    ensures StepSees(cfg, prior, w, s)
  {
    FreshPassSees(cfg, prior, w.log[s.read], w.out, s.a, 0);
  }

  /** With a cache that sees the controller's own writes, and at most one image under each label to begin with:
      whatever fails, crashes, is stale or is lost, at most one live image carries the label of a given disk. */
  lemma AtMostOneImagePerDisk(cfg: Config, w: World, steps: seq<Step>, diskName: string)
    requires Start(w) && LabelsDiffer(cfg, w.out) && StepsSee(cfg, w, steps)
    ensures |Tagged(Run(cfg, w, steps).out.images, ImageLabel(cfg, diskName))| <= 1
  {
    RunIsBooked(cfg, w, steps);
    var images, tag := Run(cfg, w, steps).out.images, ImageLabel(cfg, diskName);
    var names := Tagged(images, tag);
    if n :| n in names {
      assert OurTag(cfg, tag);
      assert names == {n};
    }
  }

  /** If labels are injective on disk names, disks of different names never share an image. */
  lemma DistinctDisksDistinctImages(cfg: Config, w: World, steps: seq<Step>, v: nat, i: nat, j: nat)
    requires Start(w) && LabelsDiffer(cfg, w.out) && StepsSee(cfg, w, steps)
    requires forall x, y :: x != y ==>
               cfg.formatLabel("vm-import-" + cfg.owner.name + "-" + x) !=
               cfg.formatLabel("vm-import-" + cfg.owner.name + "-" + y)
    requires v < |Run(cfg, w, steps).log|
    ensures var disks := Run(cfg, w, steps).log[v].disks;
            i < |disks| && j < |disks| && Submitted(disks[i]) && Submitted(disks[j]) ==>
              disks[i].name != disks[j].name ==> disks[i].image != disks[j].image
  {
    RunIsBooked(cfg, w, steps);
    var r := Run(cfg, w, steps);
    assert DisksMade(cfg, r.log[v].disks, LabelsOf(w.out.images), r.out.history);
    var disks := r.log[v].disks;
    if i < |disks| && j < |disks| && Submitted(disks[i]) && Submitted(disks[j]) && disks[i].image == disks[j].image {
      assert ImageLabel(cfg, disks[i].name) == ImageLabel(cfg, disks[j].name);
    }
  }

  /** A second image for a label is created exactly when the lister hides the one that exists. */
  lemma SecondImageNeedsStaleList(cfg: Config, d: DiskInfo, out: Outside, da: DiskAnswers)
    requires Tagged(out.images, ImageLabel(cfg, d.name)) != {}
    ensures CheckAndCreate(cfg, d, out, da).1 != out <==>
            da.list == Stale({}) && da.backendOk && da.create.applied && NameFree(out, da.generatedName)
  {
    var made := CheckAndCreate(cfg, d, out, da).1;
    if da.list.Stale? && da.list.names != {} {
      assert |da.list.names| > 0;
    }
    if made != out {
      assert da.generatedName in made.images;
    }
    if da.list == Stale({}) && da.backendOk && da.create.applied && NameFree(out, da.generatedName) {
      assert da.generatedName in made.images;
    }
  }

  /** And two live images under one label block the disk's submission for as long as both are listed. */
  lemma TwoImagesBlockSubmission(cfg: Config, d: DiskInfo, out: Outside, da: DiskAnswers, n: string, m: string)
    requires n in out.images && m in out.images && n != m
    requires out.images[n].tag == ImageLabel(cfg, d.name) && out.images[m].tag == ImageLabel(cfg, d.name)
    requires da.list == Fresh
    ensures CheckAndCreate(cfg, d, out, da) == (None, out)
  {
    var names := Tagged(out.images, ImageLabel(cfg, d.name));
    assert {n, m} <= names && |{n, m}| == 2;
    SubsetSize({n, m}, names);
  }

  lemma SubsetSize<T>(a: set<T>, b: set<T>)
    requires a <= b
    ensures |a| <= |b|
  {
    assert b == a + (b - a);
  }

  // ---------------------------------------------------------------- volumes and the virtual machine

  predicate SameObject(e: Event, f: Event) {
    || (e.ImageMade? && f.ImageMade? && e.name == f.name)
    || (e.PvcMade? && f.PvcMade? && e.name == f.name)
    || (e.VmMade? && f.VmMade? && e.name == f.name)
  }

  /** No object was made twice, and those made are there. */
  ghost predicate Objects(out: Outside) {
    && (forall i, j :: 0 <= i < j < |out.history| ==> !SameObject(out.history[i], out.history[j]))
    && (forall i :: 0 <= i < |out.history| ==>
          && (out.history[i].ImageMade? ==> out.history[i].name in out.used)
          && (out.history[i].PvcMade? ==> out.history[i].name in out.pvcs)
          && (out.history[i].VmMade? ==> out.history[i].name in out.vms && out.vms[out.history[i].name]))
  }

  /** VMs labelled as imported keep existing. */
  predicate VmsKept(before: Outside, after: Outside) {
    forall n :: n in before.vms && before.vms[n] ==> n in after.vms && after.vms[n]
  }

  lemma {:induction false} SubmitObjects(cfg: Config, st: Status, out: Outside, a: Answers, i: nat)
    requires Objects(out)
    ensures var r := SubmitFrom(cfg, st, out, a, i); Objects(r.out) && r.out.vms == out.vms
    decreases |st.disks| - i
  {
    if i < |st.disks| {
      if Submitted(st.disks[i]) {
        SubmitObjects(cfg, st, out, a, i + 1);
      } else {
        var (name, made) := CheckAndCreate(cfg, st.disks[i], out, a.disk(i));
        assert Objects(made);
        if name.Some? {
          var (d, marked) := MarkDisk(st.disks[i].(image := name.value), made, ImageSubmitted, a.disk(i));
          SubmitObjects(cfg, st.(disks := st.disks[i := d]), marked, a, i + 1);
        }
      }
    }
  }

  lemma {:induction false} PvcObjects(disks: seq<DiskInfo>, out: Outside, a: Answers, i: nat)
    requires Objects(out)
    ensures Objects(PvcFrom(disks, out, a, i).0)
    decreases |disks| - i
  {
    if i < |disks| {
      var name, da := disks[i].image, a.disk(i);
      if da.getOk && name in out.images {
        if !out.images[name].backingImage || (da.pvcGetOk && name in out.pvcs) {
          PvcObjects(disks, out, a, i + 1);
        } else if da.pvcGetOk && da.pvcCreate.applied {
          var made := Log(out.(pvcs := out.pvcs + {name}), PvcMade(name));
          assert Objects(made);
          if da.pvcCreate.reported {
            PvcObjects(disks, made, a, i + 1);
          }
        }
      }
    }
  }

  lemma NoVmAmongVolumes(st: Status, out: Outside, a: Answers)
    ensures var h := PvcFrom(st.disks, out, a, 0).0.history;
            forall k :: |out.history| <= k < |h| ==> !h[k].VmMade?
  {
    PvcAppends(st.disks, out, a, 0);
    var h := PvcFrom(st.disks, out, a, 0).0.history;
    forall k | |out.history| <= k < |h| ensures !h[k].VmMade? {
      assert OfKind(h[k], VolumeMakes);
    }
  }

  /** After the volumes, the VM is found, made, or the step fails. */
  lemma CreateVmObjects(st: Status, out: Outside, a: Answers)
    requires Objects(out)
    ensures var (made, err) := CreateVm(st, out, a);
            && Objects(made) && VmsKept(out, made)
            && (err == NoError ==> st.importedName in made.vms && made.vms[st.importedName])
            && MakesVmIfMissing(st, out, made)
  {
    PvcAppends(st.disks, out, a, 0);
    PvcObjects(st.disks, out, a, 0);
    CreateVmMakes(st, out, a);
  }

  /** At most one VM is made, last, under the import's name, and only if there was none of that name. */
  predicate MakesVmIfMissing(st: Status, out: Outside, made: Outside) {
    forall k :: |out.history| <= k < |made.history| && made.history[k].VmMade? ==>
                  k == |made.history| - 1 && made.history[k].name == st.importedName && st.importedName !in out.vms
  }

  lemma CreateVmMakes(st: Status, out: Outside, a: Answers)
    ensures MakesVmIfMissing(st, out, CreateVm(st, out, a).0)
  {
    PvcAppends(st.disks, out, a, 0);
    NoVmAmongVolumes(st, out, a);
  }

  lemma VmObjects(st: Status, out: Outside, a: Answers)
    requires Objects(out)
    ensures var oc := MakeVm(st, out, a);
            && Objects(oc.out) && VmsKept(out, oc.out)
            && (oc.write.Some? && oc.write.value.phase == VirtualMachineCreated ==>
                  st.importedName in oc.out.vms && oc.out.vms[st.importedName])
  {
    CreateVmObjects(st, out, a);
  }

  predicate VmThere(st: Status, out: Outside) {
    st.phase in {VirtualMachineCreated, VirtualMachineRunning} ==>
      st.importedName in out.vms && out.vms[st.importedName]
  }

  lemma HandleObjects(cfg: Config, st: Status, out: Outside, a: Answers)
    requires Objects(out) && NamesUsed(out) && Inv(cfg, st) && VmThere(st, out)
    ensures var oc := Handle(cfg, st, out, a);
            && Objects(oc.out) && VmsKept(out, oc.out)
            && (oc.write.Some? ==> VmThere(oc.write.value, oc.out))
  {
    if st.phase == DisksExported {
      SubmitObjects(cfg, st, out, a, 0);
      SubmitStays(cfg, st, out, a, 0);
    } else if st.phase == DiskImagesReady {
      VmObjects(st, out, a);
    } else {
      OtherPhasesQuiet(cfg, st, out, a);
      var oc := Handle(cfg, st, out, a);
      QuietObjects(out, oc.out);
      if oc.write.Some? {
        OtherWrites(cfg, st, out, a);
      }
    }
  }

  lemma QuietObjects(out: Outside, after: Outside)
    requires Objects(out) && Quiet(out.history, after.history)
    requires after.used == out.used && after.pvcs == out.pvcs && after.vms == out.vms
    ensures Objects(after) && VmsKept(out, after)
  {
  }

  lemma OtherWrites(cfg: Config, st: Status, out: Outside, a: Answers)
    requires Inv(cfg, st) && st.phase != DiskImagesReady && Handle(cfg, st, out, a).write.Some?
    ensures var b := Handle(cfg, st, out, a).write.value;
            && b.phase != VirtualMachineCreated
            && (b.phase == VirtualMachineRunning ==>
                  st.phase == VirtualMachineCreated && b.importedName == st.importedName)
  {
    HandleRefinesMachine(cfg, st, out, a);
    NextFollowsGraph(cfg, st, Handle(cfg, st, out, a).write.value);
  }

  ghost predicate WorldObjects(w: World) {
    Objects(w.out) && NamesUsed(w.out) && forall i :: 0 <= i < |w.log| ==> VmThere(w.log[i], w.out)
  }

  /** In every run no image, volume or VM is ever made twice, and a version that says the VM was created stands
      for a VM of that name, labelled as imported, that exists from then on. */
  lemma {:induction false} NothingMadeTwice(cfg: Config, w: World, steps: seq<Step>)
    requires Start(w)
    ensures WorldObjects(Run(cfg, w, steps))
    decreases |steps|
  {
    if steps != [] {
      var front, s := steps[..|steps| - 1], steps[|steps| - 1];
      var before := Run(cfg, w, front);
      NothingMadeTwice(cfg, w, front);
      EveryVersionInv(cfg, w, front);
      if s.Reconcile? && s.read < |before.log| {
        var oc := Handle(cfg, before.log[s.read], before.out, s.a);
        HandleObjects(cfg, before.log[s.read], before.out, s.a);
        HandleEvolves(cfg, before.log[s.read], before.out, s.a);
        ObjectsSettle(before, s.read, s.accepted, oc);
      }
    }
  }

  lemma ObjectsSettle(w: World, read: nat, accepted: bool, oc: Outcome)
    requires WorldObjects(w) && Objects(oc.out) && NamesUsed(oc.out) && VmsKept(w.out, oc.out)
    requires oc.write.Some? ==> VmThere(oc.write.value, oc.out)
    ensures WorldObjects(Settle(w, read, accepted, oc))
  {
  }

  // ---------------------------------------------------------------- objects belong to versions

  /** A volume is made for a disk of the version, a VM under its name and over its disks' images. */
  predicate MadeFrom(st: Status, e: Event) {
    && (e.PvcMade? ==> e.name in ImageNames(st.disks))
    && (e.VmMade? ==> e.name == st.importedName && e.images == ImageNames(st.disks))
  }

  predicate NeedsVersion(e: Event) { e.PvcMade? || e.VmMade? }

  ghost predicate FromVersion(log: seq<Status>, e: Event) {
    NeedsVersion(e) ==> exists v :: 0 <= v < |log| && log[v].phase == DiskImagesReady && MadeFrom(log[v], e)
  }

  /** The events a reconcile of st adds are made from st, and only in DiskImagesReady. */
  predicate Own(st: Status, h: seq<Event>, longer: seq<Event>) {
    h <= longer &&
    forall k :: |h| <= k < |longer| && NeedsVersion(longer[k]) ==>
                  st.phase == DiskImagesReady && MadeFrom(st, longer[k])
  }

  lemma MakeVmOwn(st: Status, out: Outside, a: Answers)
    requires st.phase == DiskImagesReady
    ensures Own(st, out.history, MakeVm(st, out, a).out.history)
  {
    PvcAppends(st.disks, out, a, 0);
    PvcNamesDisks(st.disks, out, a, 0);
    CreateVmAppends(st, out, a);
    var ready := PvcFrom(st.disks, out, a, 0).0.history;
    forall k | |out.history| <= k < |ready| ensures MadeFrom(st, ready[k]) {
      assert OfKind(ready[k], VolumeMakes);
    }
  }

  lemma SubmitOwn(cfg: Config, st: Status, out: Outside, a: Answers)
    requires st.phase == DisksExported
    ensures Own(st, out.history, SubmitImages(cfg, st, out, a).out.history)
  {
    SubmitAppends(cfg, st, out, a, 0);
    var h := SubmitFrom(cfg, st, out, a, 0).out.history;
    forall k | |out.history| <= k < |h| ensures !NeedsVersion(h[k]) {
      assert OfKind(h[k], ImageMakes);
    }
  }

  lemma HandleOwn(cfg: Config, st: Status, out: Outside, a: Answers)
    requires NamesUsed(out)
    ensures Own(st, out.history, Handle(cfg, st, out, a).out.history)
  {
    if st.phase == DiskImagesReady {
      MakeVmOwn(st, out, a);
    } else if st.phase == DisksExported {
      SubmitOwn(cfg, st, out, a);
    } else {
      OtherPhasesQuiet(cfg, st, out, a);
    }
  }

  ghost predicate AllFromVersions(log: seq<Status>, h: seq<Event>) {
    forall k :: 0 <= k < |h| ==> FromVersion(log, h[k])
  }

  lemma OwnFromVersions(log: seq<Status>, longer: seq<Status>, read: nat, h: seq<Event>, more: seq<Event>)
    requires AllFromVersions(log, h) && log <= longer && read < |log| && Own(log[read], h, more)
    ensures AllFromVersions(longer, more)
  {
    forall k | 0 <= k < |more| && NeedsVersion(more[k])
      ensures exists v :: 0 <= v < |longer| && longer[v].phase == DiskImagesReady && MadeFrom(longer[v], more[k])
    {
      if k < |h| {
        assert FromVersion(log, h[k]) && h[k] == more[k];
        var v :| 0 <= v < |log| && log[v].phase == DiskImagesReady && MadeFrom(log[v], more[k]);
        assert longer[v] == log[v];
      } else {
        assert longer[read] == log[read];
      }
    }
  }

  lemma {:induction false} RunMakesFromVersions(cfg: Config, w: World, steps: seq<Step>)
    requires Start(w)
    ensures AllFromVersions(Run(cfg, w, steps).log, Run(cfg, w, steps).out.history)
    decreases |steps|
  {
    if steps != [] {
      var before, s := Run(cfg, w, steps[..|steps| - 1]), steps[|steps| - 1];
      RunMakesFromVersions(cfg, w, steps[..|steps| - 1]);
      RunNamesUsed(cfg, w, steps[..|steps| - 1]);
      if s.Reconcile? && s.read < |before.log| {
        HandleOwn(cfg, before.log[s.read], before.out, s.a);
        var after := Apply(cfg, before, s);
        OwnFromVersions(before.log, after.log, s.read, before.out.history, after.out.history);
      }
    }
  }

  /** Replays make no second virtual machine: in every run an import creates at most one, under any name. */
  lemma AtMostOneVm(cfg: Config, w: World, steps: seq<Step>, i: nat, j: nat)
    requires Start(w) && i < |Run(cfg, w, steps).out.history| && j < |Run(cfg, w, steps).out.history|
    requires Run(cfg, w, steps).out.history[i].VmMade? && Run(cfg, w, steps).out.history[j].VmMade?
    ensures i == j
  {
    var log, h := Run(cfg, w, steps).log, Run(cfg, w, steps).out.history;
    RunMakesFromVersions(cfg, w, steps);
    NothingMadeTwice(cfg, w, steps);
    assert FromVersion(log, h[i]) && FromVersion(log, h[j]);
    var u :| 0 <= u < |log| && log[u].phase == DiskImagesReady && MadeFrom(log[u], h[i]);
    var v :| 0 <= v < |log| && log[v].phase == DiskImagesReady && MadeFrom(log[v], h[j]);
    if u <= v {
      VersionsKeep(cfg, w, steps, u, v);
    } else {
      VersionsKeep(cfg, w, steps, v, u);
    }
    assert SameObject(h[i], h[j]);
  }

  predicate MadeOnce(h: seq<Event>, k: nat)
    requires k < |h|
  {
    forall j :: 0 <= j < |h| && SameObject(h[j], h[k]) ==> j == k
  }

  /** And no volume but for the image of a disk, one at most for each: in every run a created volume is named
      after the image of a disk of a persisted version that is ready for its VM. */
  lemma VolumesBelongToDisks(cfg: Config, w: World, steps: seq<Step>, k: nat) returns (v: nat, i: nat)
    requires Start(w) && k < |Run(cfg, w, steps).out.history| && Run(cfg, w, steps).out.history[k].PvcMade?
    ensures var log := Run(cfg, w, steps).log;
            && v < |log| && log[v].phase == DiskImagesReady && i < |log[v].disks|
            && log[v].disks[i].image == Run(cfg, w, steps).out.history[k].name
    ensures MadeOnce(Run(cfg, w, steps).out.history, k)
  {
    var log, h := Run(cfg, w, steps).log, Run(cfg, w, steps).out.history;
    RunMakesFromVersions(cfg, w, steps);
    NothingMadeTwice(cfg, w, steps);
    assert FromVersion(log, h[k]);
    v :| 0 <= v < |log| && log[v].phase == DiskImagesReady && MadeFrom(log[v], h[k]);
    i :| 0 <= i < |log[v].disks| && ImageNames(log[v].disks)[i] == h[k].name;
  }
}
