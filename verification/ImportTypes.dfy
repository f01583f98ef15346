/** The VirtualMachineImport object and the world its controller acts on. */
module ImportTypes {
  import opened Wrappers
  import opened Conditions

  /** status.importStatus; Unset is the empty string of a new object. */
  datatype Phase =
    | Unset
    | ImportValid
    | ImportInvalid
    | SourceReady
    | DisksExported
    | DiskImagesSubmitted
    | DiskImagesReady
    | DiskImagesFailed
    | VirtualMachineCreated
    | VirtualMachineRunning
    | MigrationFailed

  datatype DiskInfo = DiskInfo(
    name: string, size: int, localPath: string, image: string, conds: seq<Condition>, bus: string)

  /** The persisted status of an import. */
  datatype Status = Status(phase: Phase, disks: seq<DiskInfo>, conds: seq<Condition>, importedName: string)

  const NewStatus := Status(Unset, [], [], "")

  datatype Owner = Owner(apiVersion: string, kind: string, uid: string, name: string)

  /** The fixed part of an import, and the library functions it is interpreted with. */
  datatype Config = Config(
    owner: Owner,                   // the import itself, as its images refer to it
    isDnsLabel: string -> bool,     // validation.IsDNS1123Label
    formatLabel: string -> string)  // capiformat.MustFormatValue

  const DEFAULT_TIMEOUT_SECONDS := 60
  const SECOND: nat := 1_000_000_000

  /** What a reconcile reads about powering off; a user can edit the spec, and the source it names, at any time. */
  datatype PowerSpec = PowerSpec(
    supported: bool,                // IsPowerOffSupported of the source
    force: bool,
    timeoutSeconds: int)            // spec.gracefulShutdownTimeoutSeconds, as given

  function Timeout(spec: PowerSpec): (seconds: int)
    ensures spec.timeoutSeconds > 0 ==> seconds == spec.timeoutSeconds
    ensures spec.timeoutSeconds <= 0 ==> seconds == 60
  {
    if spec.timeoutSeconds <= 0 then DEFAULT_TIMEOUT_SECONDS else spec.timeoutSeconds
  }

  function ImageLabel(cfg: Config, diskName: string): string {
    cfg.formatLabel("vm-import-" + cfg.owner.name + "-" + diskName)
  }

  // ---------------------------------------------------------------- the cluster and the source

  datatype ImageCond = ImageCond(isImported: bool, status: CondStatus, reason: string)

  datatype Image = Image(tag: string, conds: seq<ImageCond>, backingImage: bool, owners: seq<Owner>)

  /** Calls and observations that later behaviour is judged by. */
  datatype Event =
    | ShutdownCalled(ok: bool, at: nat)
    | PowerOffCalled(ok: bool, at: nat, spec: PowerSpec)
    | SawPower(off: bool)
    | ExportCalled(disksBefore: nat, ok: bool)
    | ImageMade(name: string, tag: string)
    | ImageDeleted(name: string)
    | SawImported(name: string)
    | SawImportFailed(name: string)
    | PvcMade(name: string)
    | VmMade(name: string, images: seq<string>)

  /** Everything outside the import object: one namespace of the cluster, the clock, the history of calls. */
  datatype Outside = Outside(
    images: map<string, Image>,
    used: set<string>,        // every image name the API server ever generated
    pvcs: set<string>,
    vms: map<string, bool>,   // KubeVirt VM name to "labelled as imported"
    now: nat,                 // nanoseconds
    history: seq<Event>)

  function Log(out: Outside, e: Event): Outside {
    out.(history := out.history + [e])
  }

  function Later(out: Outside, delay: nat): Outside {
    out.(now := out.now + delay)
  }

  // ---------------------------------------------------------------- what the outside answers

  datatype ClientAnswer = ClientOk | NoSource | ClientError

  datatype PreflightAnswer = PreflightOk | ClusterNotReady | PreflightError

  /** A call can take effect and still be reported as failed. */
  datatype CallAnswer = CallAnswer(applied: bool, reported: bool)

  /** The image lister answers from its cache: in step with the API server, or not. */
  datatype CacheView = Fresh | Stale(names: set<string>) | ListError

  datatype ExportedDisk = ExportedDisk(name: string, size: int, localPath: string, bus: string)

  datatype DiskAnswers = DiskAnswers(
    list: CacheView, backendOk: bool, generatedName: string, backingImage: bool, create: CallAnswer,
    getOk: bool, delete: CallAnswer, lingers: bool, pvcGetOk: bool, pvcCreate: CallAnswer,
    update: CallAnswer, delay: nat, delay2: nat)

  /** The spec as a reconcile reads it, and one answer for each call it can make. */
  datatype Answers = Answers(
    spec: PowerSpec,
    preflight: PreflightAnswer,
    client: ClientAnswer,
    sanitizeOk: bool, sanitizedName: string,
    callDelay: nat, callOk: bool,       // ShutdownGuest, PowerOff
    power: Option<bool>,                // IsPoweredOff
    checkDelay: nat, forceDelay: nat,
    exported: seq<ExportedDisk>, exportOk: bool,
    delay: nat, delay2: nat,            // the two clock readings of a condition
    disk: nat -> DiskAnswers,
    generateOk: bool, vmGetOk: bool, vmCreate: CallAnswer,
    vmReady: Option<bool>)

  datatype Err = NoError | SourceMissing | OtherError

  /** The object and its surroundings after a step that may have failed. */
  datatype Ran = Ran(st: Status, out: Outside, err: Err)

  /** What a reconcile leaves: effects, the status it asks the API server to write, or a crash. */
  datatype Outcome = Outcome(out: Outside, write: Option<Status>, err: Err, panicked: bool)

  /** A true condition stamped with two clock readings, cut to whole seconds. */
  function Stamped(t: CondType, now: nat, delay: nat, delay2: nat, message: string): Condition {
    Condition(t, ConditionTrue, At((now + delay) / SECOND), At((now + delay + delay2) / SECOND), "", message)
  }

  /** Mark an import-wide condition true. */
  function Mark(st: Status, out: Outside, t: CondType, a: Answers, message: string): Ran {
    Ran(st.(conds := Put(st.conds, Stamped(t, out.now, a.delay, a.delay2, message))),
        Later(out, a.delay + a.delay2), NoError)
  }

  /** Mark a disk condition true. */
  function MarkDisk(d: DiskInfo, out: Outside, t: CondType, da: DiskAnswers): (DiskInfo, Outside) {
    (d.(conds := Put(d.conds, Stamped(t, out.now, da.delay, da.delay2, ""))), Later(out, da.delay + da.delay2))
  }

  lemma MarkAsks(st: Status, out: Outside, t: CondType, a: Answers, message: string, u: CondType, s: CondStatus)
    ensures Find(Mark(st, out, t, a, message).st.conds, u, s) ==
            if u != t then Find(st.conds, u, s)
            else if s == ConditionTrue then Some(Stamped(t, out.now, a.delay, a.delay2, message)) else None
  {
    FindPut(st.conds, Stamped(t, out.now, a.delay, a.delay2, message), u, s);
  }
}
