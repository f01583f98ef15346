/** The OpenStack export: temporary resources and their deferred clean-up, polling, and the deduplication of
    NICs (pkg/source/openstack/client.go:240-476, 754-790, 827-830). */
module OpenstackExport {
  import opened Wrappers
  import opened Text
  import opened ImportTypes
  import opened Handler

  datatype Resource = Snapshot(id: string) | Volume(id: string) | VolumeImage(id: string)

  datatype TenantEvent = Made(r: Resource) | DeleteAsked(r: Resource) | Polled

  /** A create call: whether the tenant made the resource, and whether the client was handed its ID. A client
      that reports success hands over the ID. */
  datatype Reply = Refused(made: bool, handed: bool, id: string) | Granted(id: string) {
    predicate Made() { Granted? || made }
    predicate Handed() { Granted? || handed }
    /** The client holds an ID exactly when there is a resource. */
    predicate Honest() { Made() == Handed() }
  }

  datatype Poll = PollError | Active | NotActive

  datatype VolumeAnswers = VolumeAnswers(
    snapshot: Reply, snapshotReady: bool, volume: Reply, volumeReady: bool, image: Reply,
    poll: nat -> Poll, downloadOk: bool, writeOk: bool, size: int)

  // ---------------------------------------------------------------- one volume, as a function

  function Trace(r: Reply, res: Resource): seq<TenantEvent> {
    if r.Made() then [Made(res)] else []
  }

  function Held(r: Reply, res: Resource): seq<Resource> {
    if r.Handed() then [res] else []
  }

  /** How many polls the loop makes from attempt i on, and whether one saw the image active. */
  function Polls(poll: nat -> Poll, i: nat, count: int): (r: (nat, bool))
    ensures r.0 <= if i < count then count - i else 0
    decreases count - i
  {
    if i >= count then (0, false)
    else if poll(i) == Active then (1, true)
    else
      var rest := Polls(poll, i + 1, count);
      (rest.0 + 1, rest.1)
  }

  /** Polling stops at the first active answer; without one it uses up all its attempts. */
  lemma {:induction false} PollsMean(poll: nat -> Poll, i: nat, count: int)
    ensures var (n, active) := Polls(poll, i, count);
            && (active ==> n > 0 && poll(i + n - 1) == Active)
            && (!active ==> n == if i < count then count - i else 0)
            && forall k :: i <= k < i + n - (if active then 1 else 0) ==> poll(k) != Active
    decreases count - i
  {
    if i < count && poll(i) != Active {
      PollsMean(poll, i + 1, count);
    }
  }

  function PolledTimes(n: nat): seq<TenantEvent> {
    if n == 0 then [] else [Polled] + PolledTimes(n - 1)
  }

  /** A create call, the polls after it, and whether the export goes on. */
  datatype Stage = Stage(reply: Reply, res: Resource, polls: nat, proceeds: bool)

  function Stages(a: VolumeAnswers, count: int): seq<Stage> {
    var (n, active) := Polls(a.poll, 0, count);
    [Stage(a.snapshot, Snapshot(a.snapshot.id), 0, a.snapshotReady),
     Stage(a.volume, Volume(a.volume.id), 0, a.volumeReady),
     Stage(a.image, VolumeImage(a.image.id), n, active && a.downloadOk && a.writeOk)]
  }

  /** What an attempt did, the resources it holds an ID of, and whether it succeeded. */
  datatype Attempt = Attempt(events: seq<TenantEvent>, held: seq<Resource>, ok: bool)

  /** The stages from i on; the first refusal or failed wait ends the attempt. */
  function AttemptFrom(stages: seq<Stage>, i: nat): Attempt
    requires i <= |stages|
    decreases |stages| - i
  {
    if i == |stages| then Attempt([], [], true)
    else
      var s := stages[i];
      var events, held := Trace(s.reply, s.res), Held(s.reply, s.res);
      if s.reply.Refused? then Attempt(events, held, false)
      else if !s.proceeds then Attempt(events + PolledTimes(s.polls), held, false)
      else
        var rest := AttemptFrom(stages, i + 1);
        Attempt(events + PolledTimes(s.polls) + rest.events, held + rest.held, rest.ok)
  }

  function AttemptExport(a: VolumeAnswers, count: int): Attempt {
    AttemptFrom(Stages(a, count), 0)
  }

  function AskDeletes(rs: seq<Resource>): seq<TenantEvent> {
    if rs == [] then [] else [DeleteAsked(rs[0])] + AskDeletes(rs[1..])
  }

  /** The attempt, then the deferred clean-up: the held resources, the newest first. */
  function VolumeLog(a: VolumeAnswers, count: int): seq<TenantEvent> {
    AttemptExport(a, count).events + AskDeletes(Reversed(AttemptExport(a, count).held))
  }

  // ---------------------------------------------------------------- one volume, as the program

  class Tenant {
    var log: seq<TenantEvent>

    constructor ()
      ensures log == []
    {
      log := [];
    }

    method Create(r: Reply, res: Resource) returns (held: Option<Resource>, ok: bool)
      modifies this
      ensures log == old(log) + Trace(r, res) && ok == r.Granted?
      ensures held == if r.Handed() then Some(res) else None
    {
      if r.Made() {
        log := log + [Made(res)];
      }
      held := if r.Handed() then Some(res) else None;
      ok := r.Granted?;
    }

    method Delete(r: Option<Resource>)
      modifies this
      ensures log == old(log) + AskDeletes(AsSeq(r))
    {
      if r != None {
        log := log + [DeleteAsked(r.value)];
        assert AskDeletes([r.value]) == [DeleteAsked(r.value)] + AskDeletes([r.value][1..]);
      }
    }

    /** The retry loop; a failed poll counts as an attempt like any other. */
    method WaitActive(poll: nat -> Poll, count: int) returns (active: bool)
      modifies this
      ensures log == old(log) + PolledTimes(Polls(poll, 0, count).0) && active == Polls(poll, 0, count).1
    {
      active := false;
      var i := 0;
      while i < count
        invariant i <= if count < 0 then 0 else count
        invariant !active && Polls(poll, 0, count) == (i + Polls(poll, i, count).0, Polls(poll, i, count).1)
        invariant log == old(log) + PolledTimes(i)
      {
        PolledOnce(old(log), i);
        log := log + [Polled];
        if poll(i) == Active {
          active := true;
          return;
        }
        i := i + 1;
      }
    }

    method TryExport(a: VolumeAnswers, count: int)
      returns (snapshot: Option<Resource>, volume: Option<Resource>, image: Option<Resource>, ok: bool)
      modifies this
      ensures var at := AttemptExport(a, count);
              && log == old(log) + at.events && ok == at.ok
              && at.held == AsSeq(snapshot) + AsSeq(volume) + AsSeq(image)
    {
      ThreeStages(a, count);
      snapshot, volume, image, ok := None, None, None, false;
      var granted;
      snapshot, granted := Create(a.snapshot, Snapshot(a.snapshot.id));
      if !granted || !a.snapshotReady {
        return;
      }
      volume, granted := Create(a.volume, Volume(a.volume.id));
      if !granted || !a.volumeReady {
        return;
      }
      image, granted := Create(a.image, VolumeImage(a.image.id));
      if !granted {
        return;
      }
      var active := WaitActive(a.poll, count);
      ok := active && a.downloadOk && a.writeOk;
    }

    /** The deferred function. */
    method CleanUp(snapshot: Option<Resource>, volume: Option<Resource>, image: Option<Resource>)
      modifies this
      ensures log == old(log) + AskDeletes(Reversed(AsSeq(snapshot) + AsSeq(volume) + AsSeq(image)))
    {
      Delete(image);
      Delete(volume);
      Delete(snapshot);
      CleanUpOrder(snapshot, volume, image);
    }

    method ExportVolume(a: VolumeAnswers, count: int) returns (ok: bool)
      modifies this
      ensures log == old(log) + VolumeLog(a, count) && ok == AttemptExport(a, count).ok
    {
      var snapshot, volume, image;
      snapshot, volume, image, ok := TryExport(a, count);
      CleanUp(snapshot, volume, image);
      Assoc(old(log), AttemptExport(a, count).events, AskDeletes(Reversed(AttemptExport(a, count).held)));
    }

    /** One turn of the loop over the volumes. */
    method ExportNext(vm: ImportObject, volumes: seq<VolumeAnswers>, i: nat, count: int, tempDir: string, bus: string,
                      ghost before: seq<TenantEvent>, ghost segments: seq<seq<TenantEvent>>)
      returns (ok: bool, ghost more: seq<seq<TenantEvent>>)
      requires i < |volumes| && |segments| == i && LogsOf(volumes, count, segments)
      requires log == before + Flat(segments)
      modifies this, vm`disks
      ensures |more| == i + 1 && LogsOf(volumes, count, more)
      ensures log == before + Flat(more)
      ensures Successes(volumes, count, i) == if ok then Successes(volumes, count, i + 1) else i
      ensures vm.disks == old(vm.disks) + if ok then [RawDisk(vm.importedName, i, volumes[i], tempDir, bus)] else []
    {
      ok := ExportVolume(volumes[i], count);
      ghost var segment := VolumeLog(volumes[i], count);
      FlatMore(before, segments, segment);
      LogsMore(volumes, count, segments, segment);
      more := segments + [segment];
      if ok {
        vm.disks := vm.disks + [DiskInfo(FileName(vm.importedName, i), volumes[i].size, tempDir, "", [], bus)];
      }
    }

    /** All volumes in order; the first failure ends the export. */
    method Export(vm: ImportObject, volumes: seq<VolumeAnswers>, count: int, tempDir: string, bus: string)
      returns (done: nat, ok: bool, ghost segments: seq<seq<TenantEvent>>)
      modifies this, vm`disks
      ensures done == Successes(volumes, count, 0) && ok == (done == |volumes|)
      ensures |segments| == Tried(volumes, count)
      ensures LogsOf(volumes, count, segments)
      ensures log == old(log) + Flat(segments)
      ensures vm.disks == old(vm.disks) + RawDisks(vm.importedName, volumes, tempDir, bus, done)
    {
      segments := [];
      for i := 0 to |volumes|
        invariant Successes(volumes, count, 0) == Successes(volumes, count, i)
        invariant |segments| == i && LogsOf(volumes, count, segments)
        invariant log == old(log) + Flat(segments)
        invariant vm.disks == old(vm.disks) + RawDisks(vm.importedName, volumes, tempDir, bus, i)
      {
        ok, segments := ExportNext(vm, volumes, i, count, tempDir, bus, old(log), segments);
        if !ok {
          return i, false, segments;
        }
        RawDisksMore(old(vm.disks), vm.importedName, volumes, tempDir, bus, i);
      }
      return |volumes|, true, segments;
    }
  }

  lemma RawDisksMore(before: seq<DiskInfo>, vmName: string, volumes: seq<VolumeAnswers>, tempDir: string, bus: string,
                     n: nat)
    requires n < |volumes|
    ensures before + RawDisks(vmName, volumes, tempDir, bus, n) + [RawDisk(vmName, n, volumes[n], tempDir, bus)] ==
            before + RawDisks(vmName, volumes, tempDir, bus, n + 1)
  {
  }

  function Flat(segments: seq<seq<TenantEvent>>): seq<TenantEvent> {
    if segments == [] then [] else Flat(segments[..|segments| - 1]) + segments[|segments| - 1]
  }

  /** The segments are the logs of the first volumes. */
  ghost predicate LogsOf(volumes: seq<VolumeAnswers>, count: int, segments: seq<seq<TenantEvent>>)
    decreases |segments|
  {
    var n := |segments| - 1;
    && |segments| <= |volumes|
    && (segments != [] ==> segments[n] == VolumeLog(volumes[n], count) && LogsOf(volumes, count, segments[..n]))
  }

  lemma LogsMore(volumes: seq<VolumeAnswers>, count: int, segments: seq<seq<TenantEvent>>, segment: seq<TenantEvent>)
    requires LogsOf(volumes, count, segments) && |segments| < |volumes|
    requires segment == VolumeLog(volumes[|segments|], count)
    ensures LogsOf(volumes, count, segments + [segment])
  {
    assert (segments + [segment])[..|segments|] == segments;
  }

  lemma FlatMore(before: seq<TenantEvent>, segments: seq<seq<TenantEvent>>, segment: seq<TenantEvent>)
    ensures before + Flat(segments) + segment == before + Flat(segments + [segment])
  {
    assert (segments + [segment])[..|segments|] == segments;
    assert Flat(segments + [segment]) == Flat(segments) + segment;
  }

  /** The first volume from i on whose export fails, the number of volumes if there is none. */
  function Successes(volumes: seq<VolumeAnswers>, count: int, i: nat): (n: nat)
    requires i <= |volumes|
    ensures i <= n <= |volumes|
    decreases |volumes| - i
  {
    if i == |volumes| || !AttemptExport(volumes[i], count).ok then i else Successes(volumes, count, i + 1)
  }

  /** Some poll within the configured number sees the image active. */
  predicate TurnsActive(poll: nat -> Poll, count: int) {
    exists k: nat :: 0 <= k < count && poll(k) == Active
  }

  /** Each call is granted, each wait ends well, and the image is downloaded and written. */
  predicate Works(a: VolumeAnswers, count: int) {
    && a.snapshot.Granted? && a.snapshotReady && a.volume.Granted? && a.volumeReady && a.image.Granted?
    && TurnsActive(a.poll, count) && a.downloadOk && a.writeOk
  }

  lemma PollsActive(poll: nat -> Poll, count: int)
    ensures Polls(poll, 0, count).1 <==> TurnsActive(poll, count)
  {
    PollsMean(poll, 0, count);
    var (n, active) := Polls(poll, 0, count);
    if active {
      assert poll(n - 1) == Active && n - 1 < count;
    }
  }

  lemma AttemptWorks(a: VolumeAnswers, count: int)
    ensures AttemptExport(a, count).ok <==> Works(a, count)
  {
    ThreeStages(a, count);
    PollsActive(a.poll, count);
  }

  /** The volumes exported are those before the first that does not work. */
  lemma {:induction false} SuccessesMean(volumes: seq<VolumeAnswers>, count: int, i: nat)
    requires i <= |volumes|
    ensures var n := Successes(volumes, count, i);
            && (forall k :: i <= k < n ==> Works(volumes[k], count))
            && (n < |volumes| ==> !Works(volumes[n], count))
    decreases |volumes| - i
  {
    if i < |volumes| {
      AttemptWorks(volumes[i], count);
    }
    if i < |volumes| && AttemptExport(volumes[i], count).ok {
      SuccessesMean(volumes, count, i + 1);
    }
  }

  /** How many volumes are touched: the failing one is the last. */
  function Tried(volumes: seq<VolumeAnswers>, count: int): (n: nat)
    ensures n <= |volumes|
  {
    var done := Successes(volumes, count, 0);
    if done == |volumes| then done else done + 1
  }

  function RawDisk(vmName: string, index: nat, a: VolumeAnswers, tempDir: string, bus: string): DiskInfo {
    DiskInfo(FileName(vmName, index), a.size, tempDir, "", [], bus)
  }

  function AsSeq(r: Option<Resource>): seq<Resource> {
    if r.Some? then [r.value] else []
  }

  /** The attempt, stage by stage. */
  lemma ThreeStages(a: VolumeAnswers, count: int)
    ensures var at := AttemptExport(a, count);
            var (n, active) := Polls(a.poll, 0, count);
            var s, v, i := Snapshot(a.snapshot.id), Volume(a.volume.id), VolumeImage(a.image.id);
            if a.snapshot.Refused? || !a.snapshotReady then
              at == Attempt(Trace(a.snapshot, s), Held(a.snapshot, s), false)
            else if a.volume.Refused? || !a.volumeReady then
              at == Attempt([Made(s)] + Trace(a.volume, v), [s] + Held(a.volume, v), false)
            else if a.image.Refused? then
              at == Attempt([Made(s), Made(v)] + Trace(a.image, i), [s, v] + Held(a.image, i), false)
            else
              at == Attempt([Made(s), Made(v), Made(i)] + PolledTimes(n), [s, v, i],
                            active && a.downloadOk && a.writeOk)
  {
    var stages := Stages(a, count);
    assert PolledTimes(0) == [];
    assert AttemptFrom(stages, 3) == Attempt([], [], true);
    var image := AttemptFrom(stages, 2);
    var volume := AttemptFrom(stages, 1);
  }

  lemma CleanUpOrder(snapshot: Option<Resource>, volume: Option<Resource>, image: Option<Resource>)
    ensures AskDeletes(Reversed(AsSeq(snapshot) + AsSeq(volume) + AsSeq(image)))
            == AskDeletes(AsSeq(image)) + AskDeletes(AsSeq(volume)) + AskDeletes(AsSeq(snapshot))
  {
    var s, v, i := AsSeq(snapshot), AsSeq(volume), AsSeq(image);
    ReversedOfThree(s, v, i);
    AskConcat(i + v, s);
    AskConcat(i, v);
  }

  lemma {:induction false} AskConcat(x: seq<Resource>, y: seq<Resource>)
    ensures AskDeletes(x + y) == AskDeletes(x) + AskDeletes(y)
  {
    if x == [] {
      assert x + y == y;
    } else {
      assert (x + y)[1..] == x[1..] + y;
      AskConcat(x[1..], y);
    }
  }

  lemma {:induction false} PolledAgain(n: nat)
    ensures PolledTimes(n) + [Polled] == PolledTimes(n + 1)
  {
    if n > 0 {
      PolledAgain(n - 1);
      Assoc([Polled], PolledTimes(n - 1), [Polled]);
    }
  }

  lemma PolledOnce(before: seq<TenantEvent>, n: nat)
    ensures before + PolledTimes(n) + [Polled] == before + PolledTimes(n + 1)
  {
    PolledAgain(n);
    Assoc(before, PolledTimes(n), [Polled]);
  }

  function FileName(vmName: string, index: nat): string {
    vmName + "-" + Decimal(index) + ".img"
  }

  function RawDisks(vmName: string, volumes: seq<VolumeAnswers>, tempDir: string, bus: string, n: nat): seq<DiskInfo>
    requires n <= |volumes|
  {
    if n == 0 then []
    else RawDisks(vmName, volumes, tempDir, bus, n - 1) + [RawDisk(vmName, n - 1, volumes[n - 1], tempDir, bus)]
  }

  // ---------------------------------------------------------------- conservation

  /** The resources made, in order. */
  function Makes(log: seq<TenantEvent>): seq<Resource> {
    if log == [] then [] else (if log[0].Made? then [log[0].r] else []) + Makes(log[1..])
  }

  function Deletes(log: seq<TenantEvent>): seq<Resource> {
    if log == [] then [] else (if log[0].DeleteAsked? then [log[0].r] else []) + Deletes(log[1..])
  }

  function Polleds(log: seq<TenantEvent>): nat {
    if log == [] then 0 else (if log[0].Polled? then 1 else 0) + Polleds(log[1..])
  }

  function Reversed(rs: seq<Resource>): seq<Resource> {
    if rs == [] then [] else Reversed(rs[1..]) + [rs[0]]
  }

  lemma {:induction false} MakesConcat(x: seq<TenantEvent>, y: seq<TenantEvent>)
    ensures Makes(x + y) == Makes(x) + Makes(y)
  {
    if x == [] {
      assert x + y == y;
    } else {
      assert (x + y)[1..] == x[1..] + y && (x + y)[0] == x[0];
      MakesConcat(x[1..], y);
      Assoc(if x[0].Made? then [x[0].r] else [], Makes(x[1..]), Makes(y));
    }
  }

  lemma {:induction false} DeletesConcat(x: seq<TenantEvent>, y: seq<TenantEvent>)
    ensures Deletes(x + y) == Deletes(x) + Deletes(y)
  {
    if x == [] {
      assert x + y == y;
    } else {
      assert (x + y)[1..] == x[1..] + y && (x + y)[0] == x[0];
      DeletesConcat(x[1..], y);
      Assoc(if x[0].DeleteAsked? then [x[0].r] else [], Deletes(x[1..]), Deletes(y));
    }
  }

  lemma {:induction false} PolledsConcat(x: seq<TenantEvent>, y: seq<TenantEvent>)
    ensures Polleds(x + y) == Polleds(x) + Polleds(y)
  {
    if x == [] {
      assert x + y == y;
    } else {
      assert (x + y)[1..] == x[1..] + y;
      PolledsConcat(x[1..], y);
    }
  }

  lemma CountsConcat(x: seq<TenantEvent>, y: seq<TenantEvent>)
    ensures Makes(x + y) == Makes(x) + Makes(y)
    ensures Deletes(x + y) == Deletes(x) + Deletes(y)
    ensures Polleds(x + y) == Polleds(x) + Polleds(y)
  {
    MakesConcat(x, y);
    DeletesConcat(x, y);
    PolledsConcat(x, y);
  }

  lemma {:induction false} PollsCount(n: nat)
    ensures Makes(PolledTimes(n)) == [] && Deletes(PolledTimes(n)) == [] && Polleds(PolledTimes(n)) == n
  {
    if n > 0 {
      PollsCount(n - 1);
      assert PolledTimes(n)[1..] == PolledTimes(n - 1);
    }
  }

  lemma {:induction false} AsksCount(rs: seq<Resource>)
    ensures Deletes(AskDeletes(rs)) == rs && Makes(AskDeletes(rs)) == [] && Polleds(AskDeletes(rs)) == 0
  {
    if rs != [] {
      AsksCount(rs[1..]);
      CountsConcat([DeleteAsked(rs[0])], AskDeletes(rs[1..]));
    }
  }

  /** Every create call that is reached hands over an ID exactly when it made a resource. */
  predicate HonestFrom(stages: seq<Stage>, i: nat)
    requires i <= |stages|
    decreases |stages| - i
  {
    i == |stages| ||
    (stages[i].reply.Honest() && (stages[i].reply.Granted? && stages[i].proceeds ==> HonestFrom(stages, i + 1)))
  }

  /** The same, call by call. */
  predicate HonestCalls(a: VolumeAnswers) {
    && a.snapshot.Honest()
    && (a.snapshot.Granted? && a.snapshotReady ==>
          a.volume.Honest() && (a.volume.Granted? && a.volumeReady ==> a.image.Honest()))
  }

  lemma HonestStages(a: VolumeAnswers, count: int)
    ensures HonestFrom(Stages(a, count), 0) <==> HonestCalls(a)
  {
    var stages := Stages(a, count);
    assert HonestFrom(stages, 3);
    assert HonestFrom(stages, 2) <==> a.image.Honest();
  }

  function If(b: bool, r: Resource): seq<Resource> { if b then [r] else [] }

  /** A volume's resources and polls, call by call: what is made, in order; what is asked to be deleted, in the
      opposite order; and one poll for each attempt up to the first that sees the image active. */
  lemma VolumeMeans(a: VolumeAnswers, count: int)
    ensures var log := VolumeLog(a, count);
            var volume := a.snapshot.Granted? && a.snapshotReady;
            var image := volume && a.volume.Granted? && a.volumeReady;
            var s, v, i := Snapshot(a.snapshot.id), Volume(a.volume.id), VolumeImage(a.image.id);
            && Makes(log) ==
               If(a.snapshot.Made(), s) + If(volume && a.volume.Made(), v) + If(image && a.image.Made(), i)
            && Deletes(log) ==
               If(image && a.image.Handed(), i) + If(volume && a.volume.Handed(), v) + If(a.snapshot.Handed(), s)
            && Polleds(log) == if image && a.image.Granted? then Polls(a.poll, 0, count).0 else 0
  {
    var volume := a.snapshot.Granted? && a.snapshotReady;
    var image := volume && a.volume.Granted? && a.volumeReady;
    LogCounts(a, count);
    AttemptEvents(a, count);
    AttemptHeld(a, count);
    ReversedOfThree(If(a.snapshot.Handed(), Snapshot(a.snapshot.id)),
                    If(volume && a.volume.Handed(), Volume(a.volume.id)),
                    If(image && a.image.Handed(), VolumeImage(a.image.id)));
  }

  /** The clean-up adds the deletes and nothing else. */
  lemma LogCounts(a: VolumeAnswers, count: int)
    ensures var log, at := VolumeLog(a, count), AttemptExport(a, count);
            && Makes(log) == Makes(at.events) && Polleds(log) == Polleds(at.events)
            && Deletes(log) == Deletes(at.events) + Reversed(at.held)
  {
    var at := AttemptExport(a, count);
    AsksCount(Reversed(at.held));
    CountsConcat(at.events, AskDeletes(Reversed(at.held)));
  }

  lemma AttemptHeld(a: VolumeAnswers, count: int)
    ensures var volume := a.snapshot.Granted? && a.snapshotReady;
            var image := volume && a.volume.Granted? && a.volumeReady;
            AttemptExport(a, count).held ==
            If(a.snapshot.Handed(), Snapshot(a.snapshot.id)) + If(volume && a.volume.Handed(), Volume(a.volume.id))
            + If(image && a.image.Handed(), VolumeImage(a.image.id))
  {
    ThreeStages(a, count);
  }

  lemma AttemptEvents(a: VolumeAnswers, count: int)
    ensures var events := AttemptExport(a, count).events;
            var volume := a.snapshot.Granted? && a.snapshotReady;
            var image := volume && a.volume.Granted? && a.volumeReady;
            && Makes(events) ==
               If(a.snapshot.Made(), Snapshot(a.snapshot.id)) + If(volume && a.volume.Made(), Volume(a.volume.id))
               + If(image && a.image.Made(), VolumeImage(a.image.id))
            && Deletes(events) == []
            && Polleds(events) == if image && a.image.Granted? then Polls(a.poll, 0, count).0 else 0
  {
    ThreeStages(a, count);
    var s, v, i := Snapshot(a.snapshot.id), Volume(a.volume.id), VolumeImage(a.image.id);
    TraceCounts(a.snapshot, s);
    TraceCounts(a.volume, v);
    TraceCounts(a.image, i);
    MadeCounts(s);
    MadeCounts(v);
    MadeCounts(i);
    CountsConcat([Made(s)], Trace(a.volume, v));
    CountsConcat([Made(s)], [Made(v)]);
    CountsConcat([Made(s), Made(v)], Trace(a.image, i));
    CountsConcat([Made(s), Made(v)], [Made(i)]);
    PollsCount(Polls(a.poll, 0, count).0);
    CountsConcat([Made(s), Made(v), Made(i)], PolledTimes(Polls(a.poll, 0, count).0));
  }

  lemma MadeCounts(r: Resource)
    ensures Makes([Made(r)]) == [r] && Deletes([Made(r)]) == [] && Polleds([Made(r)]) == 0
  {
    assert [Made(r)][1..] == [];
  }

  function PollsFrom(stages: seq<Stage>, i: nat): nat
    requires i <= |stages|
    decreases |stages| - i
  {
    if i == |stages| then 0 else stages[i].polls + PollsFrom(stages, i + 1)
  }

  lemma TraceCounts(r: Reply, res: Resource)
    ensures Makes(Trace(r, res)) == (if r.Made() then [res] else [])
    ensures Deletes(Trace(r, res)) == [] && Polleds(Trace(r, res)) == 0
  {
    if r.Made() {
      assert Trace(r, res)[1..] == [];
    }
  }

  /** The attempt itself deletes nothing; what it made is what it holds, exactly when the calls were honest. */
  lemma {:induction false} AttemptCounts(stages: seq<Stage>, i: nat)
    requires i <= |stages|
    ensures var at := AttemptFrom(stages, i);
            && Deletes(at.events) == []
            && (Makes(at.events) == at.held <==> HonestFrom(stages, i))
            && Polleds(at.events) <= PollsFrom(stages, i)
    decreases |stages| - i
  {
    if i < |stages| {
      var s, rest := stages[i], AttemptFrom(stages, i + 1);
      AttemptCounts(stages, i + 1);
      PollsCount(s.polls);
      var e := Trace(s.reply, s.res);
      TraceCounts(s.reply, s.res);
      CountsConcat(e, PolledTimes(s.polls));
      CountsConcat(e + PolledTimes(s.polls), rest.events);
      if s.reply.Granted? {
        SameTail(s.res, Makes(rest.events), rest.held);
      }
    }
  }

  lemma SameTail(r: Resource, x: seq<Resource>, y: seq<Resource>)
    ensures [r] + x == [r] + y <==> x == y
  {
    assert ([r] + x)[1..] == x && ([r] + y)[1..] == y;
  }

  lemma {:induction false} ReversedConcat(x: seq<Resource>, y: seq<Resource>)
    ensures Reversed(x + y) == Reversed(y) + Reversed(x)
  {
    if x == [] {
      assert x + y == y;
    } else {
      assert (x + y)[1..] == x[1..] + y;
      ReversedConcat(x[1..], y);
    }
  }

  lemma ReversedOfThree(x: seq<Resource>, y: seq<Resource>, z: seq<Resource>)
    requires |x| <= 1 && |y| <= 1 && |z| <= 1
    ensures Reversed(x + y + z) == z + y + x
  {
    ReversedConcat(x + y, z);
    ReversedConcat(x, y);
    ReversedShort(x);
    ReversedShort(y);
    ReversedShort(z);
  }

  lemma ReversedShort(x: seq<Resource>)
    requires |x| <= 1
    ensures Reversed(x) == x
  {
    if x != [] {
      assert x[1..] == [];
    }
  }

  /** Wherever the export of a volume fails: first nothing is deleted, then each resource made is asked to be
      deleted once, the newest first, and nothing else is, exactly when every create call reached was honest
      about what it made. The image is polled at most the configured number of times. */
  lemma VolumeConserves(a: VolumeAnswers, count: int)
    ensures var at := AttemptExport(a, count);
            && Deletes(at.events) == []
            && Makes(VolumeLog(a, count)) == Makes(at.events)
            && (Deletes(VolumeLog(a, count)) == Reversed(Makes(VolumeLog(a, count))) <==> HonestCalls(a))
            && Polleds(VolumeLog(a, count)) <= if count > 0 then count else 0
  {
    var stages := Stages(a, count);
    var at := AttemptExport(a, count);
    AttemptCounts(stages, 0);
    HonestStages(a, count);
    LogCounts(a, count);
    assert Deletes(VolumeLog(a, count)) == Reversed(at.held);
    ReversedTwice(at.held);
    ReversedTwice(Makes(at.events));
    assert PollsFrom(stages, 3) == 0 && PollsFrom(stages, 2) == stages[2].polls;
    assert PollsFrom(stages, 1) == stages[2].polls;
  }

  lemma {:induction false} ReversedTwice(rs: seq<Resource>)
    ensures Reversed(Reversed(rs)) == rs
  {
    if rs != [] {
      ReversedTwice(rs[1..]);
      ReversedConcat(Reversed(rs[1..]), [rs[0]]);
      ReversedShort([rs[0]]);
    }
  }

  lemma {:induction false} ReversedSame(rs: seq<Resource>)
    ensures multiset(Reversed(rs)) == multiset(rs)
  {
    if rs != [] {
      ReversedSame(rs[1..]);
      assert rs == [rs[0]] + rs[1..];
    }
  }

  lemma AppendConserves(x: seq<TenantEvent>, y: seq<TenantEvent>)
    requires multiset(Deletes(x)) == multiset(Makes(x)) && Deletes(y) == Reversed(Makes(y))
    ensures multiset(Deletes(x + y)) == multiset(Makes(x + y))
  {
    CountsConcat(x, y);
    ReversedSame(Makes(y));
  }

  /** The whole export, up to and including a failing volume: every resource is asked to be deleted as often as
      it was made. */
  lemma {:induction false} ExportConserves(volumes: seq<VolumeAnswers>, count: int, segments: seq<seq<TenantEvent>>)
    requires LogsOf(volumes, count, segments)
    requires forall i :: 0 <= i < |segments| ==> HonestCalls(volumes[i])
    ensures multiset(Deletes(Flat(segments))) == multiset(Makes(Flat(segments)))
    decreases |segments|
  {
    if segments != [] {
      var n := |segments| - 1;
      ExportConserves(volumes, count, segments[..n]);
      VolumeConserves(volumes[n], count);
      AppendConserves(Flat(segments[..n]), segments[n]);
    }
  }

  /** The disk of a volume: named after the VM and the volume's index, with the volume's size, in the directory of
      the raw images. */
  predicate DiskOf(d: DiskInfo, vmName: string, index: nat, size: int, tempDir: string, bus: string) {
    && d.name == vmName + "-" + Decimal(index) + ".img" && d.size == size
    && d.localPath == tempDir && d.bus == bus && d.image == "" && d.conds == []
  }

  lemma {:induction false} RawDisksMean(vmName: string, volumes: seq<VolumeAnswers>, tempDir: string, bus: string,
                                        n: nat)
    requires n <= |volumes|
    ensures var ds := RawDisks(vmName, volumes, tempDir, bus, n);
            |ds| == n && forall i :: 0 <= i < n ==> DiskOf(ds[i], vmName, i, volumes[i].size, tempDir, bus)
  {
    if n > 0 {
      RawDisksMean(vmName, volumes, tempDir, bus, n - 1);
    }
  }

  /** One disk per exported volume, in order, under pairwise distinct file names. */
  lemma DiskPerVolume(vmName: string, volumes: seq<VolumeAnswers>, tempDir: string, bus: string, n: nat)
    requires n <= |volumes|
    ensures var ds := RawDisks(vmName, volumes, tempDir, bus, n);
            && |ds| == n
            && (forall i :: 0 <= i < n ==> DiskOf(ds[i], vmName, i, volumes[i].size, tempDir, bus))
            && (forall i, j :: 0 <= i < j < n ==> ds[i].name != ds[j].name)
  {
    RawDisksMean(vmName, volumes, tempDir, bus, n);
    var ds := RawDisks(vmName, volumes, tempDir, bus, n);
    forall i, j | 0 <= i < j < n ensures ds[i].name != ds[j].name {
      assert DiskOf(ds[i], vmName, i, volumes[i].size, tempDir, bus);
      assert DiskOf(ds[j], vmName, j, volumes[j].size, tempDir, bus);
      FileNamesDiffer(vmName, i, j);
    }
  }

  lemma FileNamesDiffer(vmName: string, i: nat, j: nat)
    requires i != j
    ensures vmName + "-" + Decimal(i) + ".img" != vmName + "-" + Decimal(j) + ".img"
  {
    var stem := vmName + "-";
    var a, b := stem + Decimal(i) + ".img", stem + Decimal(j) + ".img";
    DecimalInjective(i, j);
    assert a[|stem|..|a| - 4] == Decimal(i);
    assert b[|stem|..|b| - 4] == Decimal(j);
  }

  // ---------------------------------------------------------------- NICs

  datatype Element = NotAMap | NicEntry(mac: string)

  datatype Addresses = NotAList | Entries(elements: seq<Element>)

  datatype Nic = Nic(network: string, mac: string)

  ghost predicate Reports(info: map<string, Addresses>, n: Nic) {
    n.network in info && info[n.network].Entries? && NicEntry(n.mac) in info[n.network].elements
  }

  predicate WellFormed(info: map<string, Addresses>) {
    forall k :: k in info ==> info[k].Entries? && NotAMap !in info[k].elements
  }

  /** All addresses of all networks, the networks in any order. */
  method ListNics(info: map<string, Addresses>) returns (all: Option<seq<Nic>>)
    ensures all.Some? <==> WellFormed(info)
    ensures all.Some? ==> forall n :: n in all.value <==> Reports(info, n)
  {
    var nics: seq<Nic> := [];
    var todo := info.Keys;
    while todo != {}
      invariant todo <= info.Keys
      invariant forall k :: k in info && k !in todo ==> info[k].Entries? && NotAMap !in info[k].elements
      invariant forall n :: n in nics <==> n.network !in todo && Reports(info, n)
    {
      var network :| network in todo;
      if info[network].NotAList? {
        return None;
      }
      var more := ListNetwork(network, info[network].elements);
      if more.None? {
        return None;
      }
      nics := nics + more.value;
      todo := todo - {network};
    }
    return Some(nics);
  }

  /** The addresses of one network, in order. */
  method ListNetwork(network: string, elements: seq<Element>) returns (all: Option<seq<Nic>>)
    ensures all.Some? <==> NotAMap !in elements
    ensures all.Some? ==> forall n :: n in all.value <==> n.network == network && NicEntry(n.mac) in elements
  {
    var nics: seq<Nic> := [];
    for i := 0 to |elements|
      invariant NotAMap !in elements[..i]
      invariant forall n :: n in nics <==> n.network == network && NicEntry(n.mac) in elements[..i]
    {
      if elements[i] == NotAMap {
        return None;
      }
      nics := nics + [Nic(network, elements[i].mac)];
      assert elements[..i + 1] == elements[..i] + [elements[i]];
    }
    assert elements[..|elements|] == elements;
    return Some(nics);
  }

  /** One NIC for each MAC address, in any order. */
  method UniqueByMac(all: seq<Nic>) returns (unique: seq<Nic>)
    ensures forall n :: n in unique ==> n in all
    ensures forall i, j :: 0 <= i < j < |unique| ==> unique[i].mac != unique[j].mac
    ensures forall n :: n in all ==> exists m :: m in unique && m.mac == n.mac
  {
    var byMac: map<string, Nic> := map[];
    for i := 0 to |all|
      invariant forall m :: m in byMac ==> byMac[m] in all && byMac[m].mac == m
      invariant forall k :: 0 <= k < i ==> all[k].mac in byMac
    {
      byMac := byMac[all[i].mac := all[i]];
    }
    unique := [];
    var macs := byMac.Keys;
    while macs != {}
      invariant macs <= byMac.Keys
      invariant forall n :: n in unique ==> n in all && n.mac !in macs
      invariant forall i, j :: 0 <= i < j < |unique| ==> unique[i].mac != unique[j].mac
      invariant forall m :: m in byMac && m !in macs ==> byMac[m] in unique
    {
      var mac :| mac in macs;
      unique := unique + [byMac[mac]];
      macs := macs - {mac};
    }
    forall n | n in all ensures exists m :: m in unique && m.mac == n.mac {
      var k :| 0 <= k < |all| && all[k] == n;
      assert byMac[n.mac] in unique;
    }
  }

  /** The maps are walked in any order. One NIC per MAC address, every reported address covered, nothing made
      up; an error exactly for values of another shape. */
  method GenerateNetworkInfos(info: map<string, Addresses>) returns (nics: Option<seq<Nic>>)
    ensures nics.Some? <==> WellFormed(info)
    ensures nics.Some? ==>
      && (forall n :: n in nics.value ==> Reports(info, n))
      && (forall i, j :: 0 <= i < j < |nics.value| ==> nics.value[i].mac != nics.value[j].mac)
      && (forall n :: Reports(info, n) ==> exists m :: m in nics.value && m.mac == n.mac)
  {
    var all := ListNics(info);
    if all.None? {
      return None;
    }
    var unique := UniqueByMac(all.value);
    return Some(unique);
  }
}
