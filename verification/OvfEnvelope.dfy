/** What an import reads from an OVF envelope (pkg/source/ova/client.go:499-705). */
module OvfEnvelope {
  import opened Wrappers
  import opened Text
  import opened Integers
  import opened OvfUnits
  import ImportTypes
  import Network

  type DiskInfo = ImportTypes.ExportedDisk

  /** The CIM resource types the parser looks at. */
  datatype Resource =
    | Processor | Memory | EthernetAdapter | DiskDrive
    | IdeController | ParallelScsiHba | OtherStorage | UsbController | OtherResource

  /** ResourceAllocationSettingData */
  datatype Item = Item(
    instanceId: string, resource: Option<Resource>, subType: Option<string>,
    quantity: Option<nat>, units: Option<string>,
    automatic: Option<bool>, address: Option<string>, connection: seq<string>,
    hostResource: seq<string>, parent: Option<string>)

  datatype KeyValue = KeyValue(key: string, value: string)

  datatype Section = Section(items: seq<Item>, storageItems: seq<Item>, configs: seq<KeyValue>)

  datatype DiskDesc = DiskDesc(id: string, fileRef: Option<string>, capacity: string, units: Option<string>)

  datatype File = File(id: string, href: string)

  datatype Envelope = Envelope(references: seq<File>, disks: Option<seq<DiskDesc>>, system: Option<seq<Section>>)

  datatype Defaults = Defaults(model: string, bus: string, pow: Power)

  datatype Firmware = Firmware(uefi: bool, tpm: bool, secureBoot: bool)

  datatype Hardware = Hardware(cpus: int, memoryMb: int)

  // ---------------------------------------------------------------- what the parser demands

  /** The parser dereferences these fields without looking: an envelope without them stops it with a panic. */
  predicate ReadableDrive(item: Item, disks: seq<DiskDesc>) {
    item.resource == Some(DiskDrive) ==>
      && item.hostResource != []
      && forall k :: 0 <= k < |disks| && disks[k].id == Base(item.hostResource[0]) ==> disks[k].fileRef.Some?
  }

  predicate IsQuantified(item: Item) { item.resource == Some(Processor) || item.resource == Some(Memory) }

  predicate ReadableItem(item: Item, disks: seq<DiskDesc>) {
    && (IsQuantified(item) ==> item.quantity.Some?)
    && (item.resource == Some(EthernetAdapter) ==> item.connection != [])
    && ReadableDrive(item, disks)
  }

  predicate ReadableItems(items: seq<Item>, disks: seq<DiskDesc>) {
    forall i :: 0 <= i < |items| ==> ReadableItem(items[i], disks)
  }

  predicate ReadableStorage(items: seq<Item>, disks: seq<DiskDesc>) {
    forall i :: 0 <= i < |items| ==> ReadableDrive(items[i], disks)
  }

  predicate ReadableSection(s: Section, disks: seq<DiskDesc>) {
    ReadableItems(s.items, disks) && ReadableStorage(s.storageItems, disks)
  }

  predicate ReadableSections(sections: seq<Section>, disks: seq<DiskDesc>) {
    forall i :: 0 <= i < |sections| ==> ReadableSection(sections[i], disks)
  }

  predicate Readable(e: Envelope) {
    ReadableSections(Sections(e), Disks(e))
  }

  function Sections(e: Envelope): seq<Section> { if e.system.Some? then e.system.value else [] }

  function Disks(e: Envelope): seq<DiskDesc> { if e.disks.Some? then e.disks.value else [] }

  // ---------------------------------------------------------------- filepath.Base

  function TrimSlashes(s: string): string {
    if s != "" && s[|s| - 1] == '/' then TrimSlashes(s[..|s| - 1]) else s
  }

  function Base(s: string): string {
    if s == "" then "."
    else if TrimSlashes(s) == "" then "/"
    else AfterLast(TrimSlashes(s), '/')
  }

  lemma {:induction false} TrimmedSlashes(s: string, slashes: string)
    requires forall i :: 0 <= i < |slashes| ==> slashes[i] == '/'
    ensures TrimSlashes(s + slashes) == TrimSlashes(s)
    decreases |slashes|
  {
    if slashes == "" {
      assert s + slashes == s;
    } else {
      var whole := s + slashes;
      assert whole[|whole| - 1] == '/' && whole[..|whole| - 1] == s + slashes[..|slashes| - 1];
      TrimmedSlashes(s, slashes[..|slashes| - 1]);
    }
  }

  /** The disk ID is recovered from any host resource "<path>/<id>", trailing slashes or not. */
  lemma BaseOfHostResource(path: string, id: string, slashes: string)
    requires id != "" && NoChar(id, '/') && (path == "" || path[|path| - 1] == '/')
    requires forall i :: 0 <= i < |slashes| ==> slashes[i] == '/'
    ensures Base(path + id + slashes) == id
  {
    var s := path + id;
    assert s[|s| - 1] == id[|id| - 1];
    TrimmedSlashes(s, slashes);
    AfterLastOfPath(path, id, '/');
  }

  // ---------------------------------------------------------------- firmware

  const VTPM := "vmware.vtpm"
  const SECURE_BOOT := "bootOptions.efiSecureBootEnabled"
  const FIRMWARE := "firmware"

  predicate IsTpmKey(key: string) { key == "tpm.present" || key == "tpm20.enabled" }

  /** strconv.ParseBool; both "false" and an unknown word give false. */
  function ParseBool(s: string): bool { s in {"1", "t", "T", "TRUE", "true", "True"} }

  function WithItem(fw: Firmware, item: Item): Firmware {
    if item.subType == Some(VTPM) then fw.(tpm := true) else fw
  }

  function WithConfig(fw: Firmware, c: KeyValue): Firmware {
    if c.key == SECURE_BOOT then fw.(secureBoot := ParseBool(c.value))
    else if c.key == FIRMWARE then fw.(uefi := fw.uefi || Lower(c.value) == "efi")
    else if IsTpmKey(c.key) then fw.(tpm := ParseBool(c.value))
    else fw
  }

  /** One pass over items. */
  function ItemPass(fw: Firmware, items: seq<Item>): Firmware {
    if items == [] then fw else WithItem(ItemPass(fw, items[..|items| - 1]), items[|items| - 1])
  }

  /** One pass over configuration entries. */
  function ConfigPass(fw: Firmware, cs: seq<KeyValue>): Firmware {
    if cs == [] then fw else WithConfig(ConfigPass(fw, cs[..|cs| - 1]), cs[|cs| - 1])
  }

  /** The code's shape: all configuration entries again after every item. */
  function NestedPass(fw: Firmware, items: seq<Item>, cs: seq<KeyValue>): Firmware {
    if items == [] then fw
    else ConfigPass(WithItem(NestedPass(fw, items[..|items| - 1], cs), items[|items| - 1]), cs)
  }

  /** The boolean of the last entry whose key counts. */
  function LastOf(cs: seq<KeyValue>, counts: string -> bool): Option<bool> {
    if cs == [] then None
    else if counts(cs[|cs| - 1].key) then Some(ParseBool(cs[|cs| - 1].value))
    else LastOf(cs[..|cs| - 1], counts)
  }

  function Or(o: Option<bool>, otherwise: bool): bool { if o.Some? then o.value else otherwise }

  predicate SaysEfi(cs: seq<KeyValue>) {
    exists i :: 0 <= i < |cs| && cs[i].key == FIRMWARE && Lower(cs[i].value) == "efi"
  }

  predicate HasVtpm(items: seq<Item>) {
    exists i :: 0 <= i < |items| && items[i].subType == Some(VTPM)
  }

  function TpmSetting(cs: seq<KeyValue>): Option<bool> { LastOf(cs, k => IsTpmKey(k)) }

  function BootSetting(cs: seq<KeyValue>): Option<bool> { LastOf(cs, k => k == SECURE_BOOT) }

  /** A configuration pass, field by field: UEFI is only ever set, the other two take the last entry's word. */
  lemma {:induction false} ConfigMeans(fw: Firmware, cs: seq<KeyValue>)
    ensures ConfigPass(fw, cs) ==
            Firmware(fw.uefi || SaysEfi(cs), Or(TpmSetting(cs), fw.tpm), Or(BootSetting(cs), fw.secureBoot))
  {
    if cs != [] {
      var init, last := cs[..|cs| - 1], cs[|cs| - 1];
      ConfigMeans(fw, init);
      assert SaysEfi(cs) <==> SaysEfi(init) || (last.key == FIRMWARE && Lower(last.value) == "efi") by {
        if SaysEfi(init) {
          var i :| 0 <= i < |init| && init[i].key == FIRMWARE && Lower(init[i].value) == "efi";
          assert cs[i] == init[i];
        }
        if SaysEfi(cs) && !(last.key == FIRMWARE && Lower(last.value) == "efi") {
          var i :| 0 <= i < |cs| && cs[i].key == FIRMWARE && Lower(cs[i].value) == "efi";
          assert init[i] == cs[i];
        }
      }
    }
  }

  lemma {:induction false} ItemsMean(fw: Firmware, items: seq<Item>)
    ensures ItemPass(fw, items) == fw.(tpm := fw.tpm || HasVtpm(items))
  {
    if items != [] {
      var init, last := items[..|items| - 1], items[|items| - 1];
      ItemsMean(fw, init);
      if HasVtpm(init) {
        var i :| 0 <= i < |init| && init[i].subType == Some(VTPM);
        assert items[i] == init[i];
      }
      if HasVtpm(items) && last.subType != Some(VTPM) {
        var i :| 0 <= i < |items| && items[i].subType == Some(VTPM);
        assert init[i] == items[i];
      }
    }
  }

  /** Running the entries after an item makes an earlier run of them redundant. */
  lemma ConfigAbsorbs(fw: Firmware, item: Item, cs: seq<KeyValue>)
    ensures ConfigPass(WithItem(ConfigPass(fw, cs), item), cs) == ConfigPass(WithItem(fw, item), cs)
  {
    ConfigMeans(fw, cs);
    ConfigMeans(WithItem(ConfigPass(fw, cs), item), cs);
    ConfigMeans(WithItem(fw, item), cs);
  }

  /** The nested loops are one pass over the items and one over the entries, or nothing without items. */
  lemma {:induction false} NestedIsTwoPasses(fw: Firmware, items: seq<Item>, cs: seq<KeyValue>)
    ensures NestedPass(fw, items, cs) == if items == [] then fw else ConfigPass(ItemPass(fw, items), cs)
  {
    if items != [] {
      var init, last := items[..|items| - 1], items[|items| - 1];
      NestedIsTwoPasses(fw, init, cs);
      if init != [] {
        ConfigAbsorbs(ItemPass(fw, init), last, cs);
      }
    }
  }

  function SectionFirmware(fw: Firmware, s: Section): Firmware {
    NestedPass(fw, s.items, s.configs)
  }

  /** A section's word on the firmware: an explicit TPM setting beats a virtual TPM device, even an unreadable one;
      without a single item, the configuration entries are ignored. */
  lemma FirmwareMeans(fw: Firmware, s: Section)
    ensures SectionFirmware(fw, s) ==
            if s.items == [] then fw
            else Firmware(fw.uefi || SaysEfi(s.configs),
                          Or(TpmSetting(s.configs), fw.tpm || HasVtpm(s.items)),
                          Or(BootSetting(s.configs), fw.secureBoot))
  {
    NestedIsTwoPasses(fw, s.items, s.configs);
    ItemsMean(fw, s.items);
    ConfigMeans(ItemPass(fw, s.items), s.configs);
  }

  // ---------------------------------------------------------------- hardware

  const MEBIBYTE := 0x10_0000

  /** Go's integer division. */
  function Quotient(n: int, d: int): (q: int)
    requires d > 0
    ensures n >= 0 ==> q * d <= n < (q + 1) * d
    ensures n < 0 ==> (q - 1) * d < n <= q * d
  {
    if n >= 0 then n / d else 0 - ((0 - n) / d)
  }

  predicate Quantified(items: seq<Item>) {
    forall i :: 0 <= i < |items| && IsQuantified(items[i]) ==> items[i].quantity.Some?
  }

  function WithResource(hw: Hardware, item: Item, pow: Power): Hardware
    requires IsQuantified(item) ==> item.quantity.Some?
  {
    if item.resource == Some(Processor) then hw.(cpus := item.quantity.value % 0x1_0000_0000)
    else if item.resource == Some(Memory) then
      hw.(memoryMb := Quotient(Quantity(item.quantity.value, item.units, pow), MEBIBYTE))
    else hw
  }

  function HardwarePass(hw: Hardware, items: seq<Item>, pow: Power): Hardware
    requires Quantified(items)
  {
    if items == [] then hw
    else WithResource(HardwarePass(hw, items[..|items| - 1], pow), items[|items| - 1], pow)
  }

  function LastItem(items: seq<Item>, r: Resource): (o: Option<Item>)
    ensures o.Some? ==> exists i :: 0 <= i < |items| && items[i] == o.value && o.value.resource == Some(r)
                                    && forall j :: i < j < |items| ==> items[j].resource != Some(r)
    ensures o.None? ==> forall i :: 0 <= i < |items| ==> items[i].resource != Some(r)
  {
    if items == [] then None
    else if items[|items| - 1].resource == Some(r) then Some(items[|items| - 1])
    else LastItem(items[..|items| - 1], r)
  }

  /** The last processor and the last memory item decide, wherever they stand. */
  lemma {:induction false} HardwareMeans(hw: Hardware, items: seq<Item>, pow: Power)
    requires Quantified(items)
    ensures LastItem(items, Processor).Some? ==> LastItem(items, Processor).value.quantity.Some?
    ensures LastItem(items, Memory).Some? ==> LastItem(items, Memory).value.quantity.Some?
    ensures HardwarePass(hw, items, pow) ==
            Hardware(match LastItem(items, Processor)
                     case Some(item) => item.quantity.value % 0x1_0000_0000
                     case None => hw.cpus,
                     match LastItem(items, Memory)
                     case Some(item) => Quotient(Quantity(item.quantity.value, item.units, pow), MEBIBYTE)
                     case None => hw.memoryMb)
  {
    if items != [] {
      HardwareMeans(hw, items[..|items| - 1], pow);
    }
  }

  // ---------------------------------------------------------------- network interfaces

  function Model(subType: Option<string>, otherwise: string): string {
    if subType.None? then otherwise
    else match Lower(subType.value)
         case "rtl8139" => "rtl8139"
         case "e1000" => "e1000"
         case "e1000e" => "e1000e"
         case "pcnet32" => "pcnet"
         case "vmxnet" => "virtio"
         case "vmxnet2" => "virtio"
         case "vmxnet3" => "virtio"
         case "virtio" => "virtio"
         case _ => otherwise
  }

  function Mac(item: Item): string {
    if item.automatic == Some(true) && item.address.Some? then item.address.value else ""
  }

  function Nic(item: Item, model: string): Network.NetworkInfo
    requires item.connection != []
  {
    Network.NetworkInfo(item.connection[0], Mac(item), "", Model(item.subType, model))
  }

  predicate Connected(items: seq<Item>) {
    forall i :: 0 <= i < |items| && items[i].resource == Some(EthernetAdapter) ==> items[i].connection != []
  }

  function Nics(items: seq<Item>, model: string): seq<Network.NetworkInfo>
    requires Connected(items)
  {
    if items == [] then []
    else
      var last := items[|items| - 1];
      Nics(items[..|items| - 1], model) + if last.resource == Some(EthernetAdapter) then [Nic(last, model)] else []
  }

  predicate IsNic(item: Item) { item.resource == Some(EthernetAdapter) }

  /** One interface for each ethernet adapter, in order. */
  lemma {:induction false} NicsMean(items: seq<Item>, model: string)
    requires Connected(items)
    ensures var ps := Positions(items, IsNic);
            && |Nics(items, model)| == |ps|
            && forall k :: 0 <= k < |ps| ==> Nics(items, model)[k] == Nic(items[ps[k]], model)
  {
    if items != [] {
      NicsMean(items[..|items| - 1], model);
    }
  }

  // ---------------------------------------------------------------- lookups

  /** The position of the first element at or after i that counts, the length if there is none. */
  function FirstFrom<T>(xs: seq<T>, counts: T -> bool, i: nat): (k: nat)
    requires i <= |xs|
    ensures i <= k <= |xs|
    ensures k < |xs| ==> counts(xs[k])
    ensures forall j :: i <= j < k ==> !counts(xs[j])
    decreases |xs| - i
  {
    if i == |xs| || counts(xs[i]) then i else FirstFrom(xs, counts, i + 1)
  }

  function First<T>(xs: seq<T>, counts: T -> bool): Option<T> {
    var k := FirstFrom(xs, counts, 0);
    if k < |xs| then Some(xs[k]) else None
  }

  method ResolveReference(refs: seq<File>, id: string) returns (r: Option<File>)
    ensures r == First(refs, (f: File) => f.id == id)
    ensures r.Some? ==> exists i :: 0 <= i < |refs| && refs[i] == r.value && refs[i].id == id
                                    && forall j :: 0 <= j < i ==> refs[j].id != id
    ensures r.None? ==> forall i :: 0 <= i < |refs| ==> refs[i].id != id
  {
    ghost var named := (f: File) => f.id == id;
    for i := 0 to |refs|
      invariant FirstFrom(refs, named, 0) == FirstFrom(refs, named, i)
      invariant forall j :: 0 <= j < i ==> refs[j].id != id
    {
      if refs[i].id == id {
        return Some(refs[i]);
      }
    }
    return None;
  }

  method FindResourceAllocationSettingData(items: seq<Item>, instanceId: string) returns (r: Option<Item>)
    ensures r == First(items, (item: Item) => item.instanceId == instanceId)
    ensures r.Some? ==> exists i :: 0 <= i < |items| && items[i] == r.value && items[i].instanceId == instanceId
                                    && forall j :: 0 <= j < i ==> items[j].instanceId != instanceId
    ensures r.None? ==> forall i :: 0 <= i < |items| ==> items[i].instanceId != instanceId
  {
    ghost var named := (item: Item) => item.instanceId == instanceId;
    for i := 0 to |items|
      invariant FirstFrom(items, named, 0) == FirstFrom(items, named, i)
      invariant forall j :: 0 <= j < i ==> items[j].instanceId != instanceId
    {
      if items[i].instanceId == instanceId {
        return Some(items[i]);
      }
    }
    return None;
  }

  // ---------------------------------------------------------------- disks

  predicate Contains(s: string, t: string) {
    exists i :: 0 <= i <= |s| - |t| && s[i..][..|t|] == t
  }

  /** None where the parser answers "not detected". */
  function DetectDiskBusType(item: Item): Option<string> {
    if item.subType.Some? then
      var name := Lower(item.subType.value);
      if Contains(name, "scsi") || Contains(name, "buslogic") || Contains(name, "lsilogic") then Some("scsi")
      else if Contains(name, "ahci") || Contains(name, "sata") || Contains(name, "ide") then Some("sata")
      else if name == "virtio" || Contains(name, "nvme") then Some("virtio")
      else if Contains(name, "usb") then Some("usb")
      else None
    else match item.resource
         case Some(IdeController) => Some("sata")
         case Some(ParallelScsiHba) => Some("scsi")
         case Some(OtherStorage) => Some("virtio")
         case Some(UsbController) => Some("virtio")
         case _ => None
  }

  /** A disk drive and the items its parent is looked up in: those of its section, storage items excluded. */
  datatype Drive = Drive(item: Item, siblings: seq<Item>)

  predicate IsDrive(item: Item) { item.resource == Some(DiskDrive) }

  function Bus(d: Drive, otherwise: string): string {
    if d.item.parent.None? then otherwise
    else
      var parent := First(d.siblings, (item: Item) => item.instanceId == d.item.parent.value);
      if parent.Some? && DetectDiskBusType(parent.value).Some? then DetectDiskBusType(parent.value).value
      else otherwise
  }

  predicate ReadableDrives(ds: seq<Drive>, disks: seq<DiskDesc>) {
    forall k :: 0 <= k < |ds| ==> IsDrive(ds[k].item) && ReadableDrive(ds[k].item, disks)
  }

  /** The fixed surroundings of the join: files, default bus, arithmetic. */
  datatype Context = Context(refs: seq<File>, bus: string, pow: Power)

  function FileOf(desc: DiskDesc, ctx: Context): Option<File>
    requires desc.fileRef.Some?
  {
    First(ctx.refs, (f: File) => f.id == desc.fileRef.value)
  }

  predicate Pairs(d: Drive, desc: DiskDesc, ctx: Context)
    requires IsDrive(d.item) && d.item.hostResource != []
  {
    && desc.id == Base(d.item.hostResource[0])
    && desc.fileRef.Some?
    && FileOf(desc, ctx).Some?
  }

  function Row(d: Drive, desc: DiskDesc, ctx: Context): DiskInfo
    requires IsDrive(d.item) && d.item.hostResource != [] && Pairs(d, desc, ctx)
  {
    ImportTypes.ExportedDisk(
      FileOf(desc, ctx).value.href, Capacity(desc.capacity, desc.units, ctx.pow), "", Bus(d, ctx.bus))
  }

  /** The rows of one drive. */
  function Join(d: Drive, disks: seq<DiskDesc>, ctx: Context): seq<DiskInfo>
    requires IsDrive(d.item) && ReadableDrive(d.item, disks)
  {
    if disks == [] then []
    else
      var desc := disks[|disks| - 1];
      Join(d, disks[..|disks| - 1], ctx) + if Pairs(d, desc, ctx) then [Row(d, desc, ctx)] else []
  }

  function JoinAll(ds: seq<Drive>, disks: seq<DiskDesc>, ctx: Context): seq<DiskInfo>
    requires ReadableDrives(ds, disks)
  {
    if ds == [] then [] else JoinAll(ds[..|ds| - 1], disks, ctx) + Join(ds[|ds| - 1], disks, ctx)
  }

  function DrivesOf(items: seq<Item>, siblings: seq<Item>): (ds: seq<Drive>)
    ensures forall k :: 0 <= k < |ds| ==> IsDrive(ds[k].item) && ds[k].item in items
  {
    if items == [] then []
    else
      var last := items[|items| - 1];
      DrivesOf(items[..|items| - 1], siblings) + if IsDrive(last) then [Drive(last, siblings)] else []
  }

  function SectionDrives(s: Section): (ds: seq<Drive>)
    ensures forall k :: 0 <= k < |ds| ==> IsDrive(ds[k].item) && (ds[k].item in s.items || ds[k].item in s.storageItems)
  {
    DrivesOf(s.items, s.items) + DrivesOf(s.storageItems, s.items)
  }

  function AllDrives(sections: seq<Section>): seq<Drive> {
    if sections == [] then [] else AllDrives(sections[..|sections| - 1]) + SectionDrives(sections[|sections| - 1])
  }

  function AllItems(sections: seq<Section>): seq<Item> {
    if sections == [] then [] else AllItems(sections[..|sections| - 1]) + sections[|sections| - 1].items
  }

  predicate UniqueIds(disks: seq<DiskDesc>) {
    forall i, j :: 0 <= i < j < |disks| ==> disks[i].id != disks[j].id
  }

  /** A drive gives one row for each disk that bears its ID and whose file resolves, in the order of the disks. */
  lemma {:induction false} JoinMeans(d: Drive, disks: seq<DiskDesc>, ctx: Context)
    requires IsDrive(d.item) && ReadableDrive(d.item, disks) && d.item.hostResource != []
    ensures var ps := Positions(disks, (desc: DiskDesc) => Pairs(d, desc, ctx));
            && |Join(d, disks, ctx)| == |ps|
            && forall k :: 0 <= k < |ps| ==>
                 Pairs(d, disks[ps[k]], ctx) && Join(d, disks, ctx)[k] == Row(d, disks[ps[k]], ctx)
  {
    if disks != [] {
      JoinMeans(d, disks[..|disks| - 1], ctx);
    }
  }

  predicate Resolvable(d: Drive, disks: seq<DiskDesc>, ctx: Context) {
    IsDrive(d.item) && d.item.hostResource != [] && exists k :: 0 <= k < |disks| && Pairs(d, disks[k], ctx)
  }

  lemma UniquePair(d: Drive, disks: seq<DiskDesc>, ctx: Context, i: nat, j: nat)
    requires IsDrive(d.item) && d.item.hostResource != [] && UniqueIds(disks)
    requires i < |disks| && j < |disks| && Pairs(d, disks[i], ctx) && Pairs(d, disks[j], ctx)
    ensures i == j
  {
    assert disks[i].id == disks[j].id;
  }

  /** With unique disk IDs a drive has one row if its disk and file are there, none otherwise. */
  lemma JoinOnce(d: Drive, disks: seq<DiskDesc>, ctx: Context)
    requires IsDrive(d.item) && ReadableDrive(d.item, disks) && d.item.hostResource != [] && UniqueIds(disks)
    ensures forall k :: 0 <= k < |disks| && Pairs(d, disks[k], ctx) ==> Join(d, disks, ctx) == [Row(d, disks[k], ctx)]
    ensures Resolvable(d, disks, ctx) <==> Join(d, disks, ctx) != []
    ensures |Join(d, disks, ctx)| <= 1
  {
    var rows := Join(d, disks, ctx);
    var ps := Positions(disks, (desc: DiskDesc) => Pairs(d, desc, ctx));
    JoinMeans(d, disks, ctx);
    if |ps| > 1 {
      UniquePair(d, disks, ctx, ps[0], ps[1]);
    }
    forall k | 0 <= k < |disks| && Pairs(d, disks[k], ctx) ensures rows == [Row(d, disks[k], ctx)] {
      assert k in ps;
    }
  }

  /** With unique disk IDs the disk list is the resolvable drives' rows, one each, in order. */
  lemma {:induction false} JoinIsOrderedSelection(ds: seq<Drive>, disks: seq<DiskDesc>, ctx: Context)
    requires ReadableDrives(ds, disks) && UniqueIds(disks)
    ensures var ps := Positions(ds, (d: Drive) => Resolvable(d, disks, ctx));
            && |JoinAll(ds, disks, ctx)| == |ps|
            && forall k :: 0 <= k < |ps| ==>
                 Join(ds[ps[k]], disks, ctx) == [JoinAll(ds, disks, ctx)[k]]
  {
    if ds != [] {
      JoinIsOrderedSelection(ds[..|ds| - 1], disks, ctx);
      JoinOnce(ds[|ds| - 1], disks, ctx);
    }
  }

  /** Two disks under one ID give their drive two rows, even with everything else in order. */
  lemma RepeatedIdRepeatsDisk(d: Drive, a: DiskDesc, b: DiskDesc, ctx: Context)
    requires IsDrive(d.item) && d.item.hostResource != [] && Pairs(d, a, ctx) && Pairs(d, b, ctx)
    ensures Join(d, [a, b], ctx) == [Row(d, a, ctx), Row(d, b, ctx)]
  {
    assert [a, b][..1] == [a] && [a][..0] == [];
    assert Join(d, [a], ctx) == [Row(d, a, ctx)];
  }

  // ---------------------------------------------------------------- the parser

  datatype Settings = Settings(fw: Firmware, hw: Hardware, nis: seq<Network.NetworkInfo>, dis: seq<DiskInfo>)

  const START := Settings(Firmware(false, false, false), Hardware(0, 0), [], [])

  /** What a whole envelope says, aspect by aspect. */
  function AfterSection(st: Settings, s: Section, disks: seq<DiskDesc>, ctx: Context, model: string): Settings
    requires ReadableSection(s, disks)
  {
    Settings(SectionFirmware(st.fw, s), HardwarePass(st.hw, s.items, ctx.pow), st.nis + Nics(s.items, model),
             st.dis + JoinAll(SectionDrives(s), disks, ctx))
  }

  function AfterSections(sections: seq<Section>, disks: seq<DiskDesc>, ctx: Context, model: string): Settings
    requires ReadableSections(sections, disks)
  {
    if sections == [] then START
    else
      AfterSection(AfterSections(sections[..|sections| - 1], disks, ctx, model), sections[|sections| - 1],
                   disks, ctx, model)
  }

  /** The bus of a drive's parent, where one is found and detected. */
  method DriveBus(item: Item, siblings: seq<Item>, otherwise: string) returns (busType: string)
    ensures busType == Bus(Drive(item, siblings), otherwise)
  {
    busType := otherwise;
    if item.parent.Some? {
      var parentItem := FindResourceAllocationSettingData(siblings, item.parent.value);
      if parentItem.Some? {
        var detected := DetectDiskBusType(parentItem.value);
        if detected.Some? {
          busType := detected.value;
        }
      }
    }
  }

  method JoinDrive(item: Item, siblings: seq<Item>, disks: seq<DiskDesc>, ctx: Context, before: seq<DiskInfo>)
    returns (dis: seq<DiskInfo>, panicked: bool)
    requires IsDrive(item)
    ensures panicked <==> !ReadableDrive(item, disks)
    ensures !panicked ==> dis == before + Join(Drive(item, siblings), disks, ctx)
  {
    dis, panicked := before, false;
    if item.hostResource == [] {
      return before, true;
    }
    var diskId := Base(item.hostResource[0]);
    for i := 0 to |disks|
      invariant ReadableDrive(item, disks[..i])
      invariant dis == before + Join(Drive(item, siblings), disks[..i], ctx)
    {
      assert disks[..i + 1][..i] == disks[..i] && disks[..i + 1][i] == disks[i];
      if disks[i].id == diskId {
        if disks[i].fileRef.None? {
          return before, true;
        }
        var ref := ResolveReference(ctx.refs, disks[i].fileRef.value);
        if ref.Some? {
          var busType := DriveBus(item, siblings, ctx.bus);
          var size := ParseCapacity(disks[i].capacity, disks[i].units, ctx.pow);
          dis := dis + [ImportTypes.ExportedDisk(ref.value.href, size, "", busType)];
        }
      }
    }
    assert disks[..|disks|] == disks;
  }

  /** The switch on the resource type of an item. */
  method ParseItem(st: Settings, item: Item, siblings: seq<Item>, disks: seq<DiskDesc>, ctx: Context, model: string)
    returns (r: Settings, panicked: bool)
    ensures panicked <==> !ReadableItem(item, disks)
    ensures !panicked ==>
              && r.fw == st.fw && r.hw == WithResource(st.hw, item, ctx.pow)
              && r.nis == st.nis + (if IsNic(item) then [Nic(item, model)] else [])
              && r.dis == st.dis + (if IsDrive(item) then Join(Drive(item, siblings), disks, ctx) else [])
  {
    r, panicked := st, false;
    match item.resource {
      case Some(Processor) =>
        if item.quantity.None? {
          return st, true;
        }
        r := r.(hw := r.hw.(cpus := item.quantity.value % 0x1_0000_0000));
      case Some(Memory) =>
        if item.quantity.None? {
          return st, true;
        }
        var bytes := ParseVirtualQuantity(item.quantity.value, item.units, ctx.pow);
        r := r.(hw := r.hw.(memoryMb := Quotient(bytes, MEBIBYTE)));
      case Some(EthernetAdapter) =>
        if item.connection == [] {
          return st, true;
        }
        var macAddress := "";
        if item.automatic == Some(true) && item.address.Some? {
          macAddress := item.address.value;
        }
        r := r.(nis := r.nis + [Network.NetworkInfo(item.connection[0], macAddress, "", Model(item.subType, model))]);
      case Some(DiskDrive) =>
        var dis;
        dis, panicked := JoinDrive(item, siblings, disks, ctx, r.dis);
        r := r.(dis := dis);
      case _ =>
    }
  }

  /** The loop over the configuration entries. */
  method ApplyConfigs(before: Firmware, configs: seq<KeyValue>) returns (fw: Firmware)
    ensures fw == ConfigPass(before, configs)
  {
    fw := before;
    for j := 0 to |configs|
      invariant fw == ConfigPass(before, configs[..j])
    {
      assert configs[..j + 1][..j] == configs[..j];
      if configs[j].key == SECURE_BOOT {
        fw := fw.(secureBoot := ParseBool(configs[j].value));
      } else if configs[j].key == FIRMWARE {
        if Lower(configs[j].value) == "efi" {
          fw := fw.(uefi := true);
        }
      } else if configs[j].key == "tpm.present" || configs[j].key == "tpm20.enabled" {
        fw := fw.(tpm := ParseBool(configs[j].value));
      }
    }
    assert configs[..|configs|] == configs;
  }

  lemma ReadableNext(items: seq<Item>, item: Item, disks: seq<DiskDesc>)
    requires ReadableItems(items, disks)
    ensures ReadableItems(items + [item], disks) <==> ReadableItem(item, disks)
  {
    assert (items + [item])[|items|] == item;
    forall i | 0 <= i < |items| ensures (items + [item])[i] == items[i] {
    }
  }

  /** What has been read of a section: each setting by its own pass over the items done. */
  ghost predicate ReadSoFar(st: Settings, done: seq<Item>, r: Settings, s: Section, disks: seq<DiskDesc>, ctx: Context,
                            model: string)
    requires ReadableItems(done, disks)
  {
    && r.fw == NestedPass(st.fw, done, s.configs)
    && r.hw == HardwarePass(st.hw, done, ctx.pow)
    && r.nis == st.nis + Nics(done, model)
    && r.dis == st.dis + JoinAll(DrivesOf(done, s.items), disks, ctx)
  }

  lemma NisNext(before: seq<Network.NetworkInfo>, done: seq<Item>, item: Item, model: string)
    requires Connected(done) && (IsNic(item) ==> item.connection != [])
    ensures before + Nics(done + [item], model) ==
            before + Nics(done, model) + if IsNic(item) then [Nic(item, model)] else []
  {
    NicsNext(done, item, model);
    Assoc(before, Nics(done, model), if IsNic(item) then [Nic(item, model)] else []);
  }

  lemma DisNext(before: seq<DiskInfo>, done: seq<Item>, item: Item, siblings: seq<Item>, disks: seq<DiskDesc>,
                ctx: Context)
    requires ReadableStorage(done, disks) && ReadableDrive(item, disks)
    ensures before + JoinAll(DrivesOf(done + [item], siblings), disks, ctx) ==
            before + JoinAll(DrivesOf(done, siblings), disks, ctx)
            + if IsDrive(item) then Join(Drive(item, siblings), disks, ctx) else []
  {
    DrivesNext(done, item, siblings, disks, ctx);
    Assoc(before, JoinAll(DrivesOf(done, siblings), disks, ctx),
          if IsDrive(item) then Join(Drive(item, siblings), disks, ctx) else []);
  }

  /** One turn of the item loop: the item itself, its subtype, then all configuration entries. */
  method ParseNext(ghost st: Settings, ghost done: seq<Item>, r: Settings, item: Item, s: Section,
                   disks: seq<DiskDesc>, ctx: Context, model: string)
    returns (next: Settings, panicked: bool)
    requires ReadableItems(done, disks) && ReadSoFar(st, done, r, s, disks, ctx, model)
    ensures panicked <==> !ReadableItem(item, disks)
    ensures !panicked ==>
              ReadableItems(done + [item], disks) && ReadSoFar(st, done + [item], next, s, disks, ctx, model)
  {
    next, panicked := ParseItem(r, item, s.items, disks, ctx, model);
    if panicked {
      return;
    }
    if item.subType == Some(VTPM) {
      next := next.(fw := next.fw.(tpm := true));
    }
    var fw := ApplyConfigs(next.fw, s.configs);
    next := next.(fw := fw);
    ReadableNext(done, item, disks);
    NestedNext(st.fw, done, item, s.configs);
    HardwareNext(st.hw, done, item, ctx.pow);
    NisNext(st.nis, done, item, model);
    DisNext(st.dis, done, item, s.items, disks, ctx);
  }

  /** All items of a section, with the configuration entries after each. */
  method ParseItems(st: Settings, s: Section, disks: seq<DiskDesc>, ctx: Context, model: string)
    returns (r: Settings, panicked: bool)
    ensures panicked <==> !ReadableItems(s.items, disks)
    ensures !panicked ==>
              && r.fw == SectionFirmware(st.fw, s)
              && r.hw == HardwarePass(st.hw, s.items, ctx.pow)
              && r.nis == st.nis + Nics(s.items, model)
              && r.dis == st.dis + JoinAll(DrivesOf(s.items, s.items), disks, ctx)
  {
    r, panicked := st, false;
    ghost var done: seq<Item> := [];
    for i := 0 to |s.items|
      invariant done == s.items[..i] && ReadableItems(done, disks)
      invariant ReadSoFar(st, done, r, s, disks, ctx, model)
    {
      r, panicked := ParseNext(st, done, r, s.items[i], s, disks, ctx, model);
      if panicked {
        return;
      }
      done := done + [s.items[i]];
    }
    assert s.items[..|s.items|] == s.items;
  }

  lemma NestedNext(fw: Firmware, items: seq<Item>, item: Item, cs: seq<KeyValue>)
    ensures NestedPass(fw, items + [item], cs) == ConfigPass(WithItem(NestedPass(fw, items, cs), item), cs)
  {
    assert (items + [item])[..|items|] == items;
  }

  lemma HardwareNext(hw: Hardware, items: seq<Item>, item: Item, pow: Power)
    requires Quantified(items) && (IsQuantified(item) ==> item.quantity.Some?)
    ensures HardwarePass(hw, items + [item], pow) == WithResource(HardwarePass(hw, items, pow), item, pow)
  {
    assert (items + [item])[..|items|] == items;
  }

  lemma NicsNext(items: seq<Item>, item: Item, model: string)
    requires Connected(items) && (IsNic(item) ==> item.connection != [])
    ensures Nics(items + [item], model) == Nics(items, model) + if IsNic(item) then [Nic(item, model)] else []
  {
    assert (items + [item])[..|items|] == items;
  }

  /** One more item, and its rows if it is a drive. */
  lemma DrivesNext(items: seq<Item>, item: Item, siblings: seq<Item>, disks: seq<DiskDesc>, ctx: Context)
    requires ReadableStorage(items, disks) && ReadableDrive(item, disks)
    ensures JoinAll(DrivesOf(items + [item], siblings), disks, ctx) ==
            JoinAll(DrivesOf(items, siblings), disks, ctx)
            + if IsDrive(item) then Join(Drive(item, siblings), disks, ctx) else []
  {
    assert (items + [item])[..|items|] == items;
    var before := DrivesOf(items, siblings);
    if IsDrive(item) {
      var after := before + [Drive(item, siblings)];
      assert DrivesOf(items + [item], siblings) == after;
      assert after[..|before|] == before;
    } else {
      assert DrivesOf(items + [item], siblings) == before;
    }
  }

  /** The storage items of a section: disk drives only. */
  method ParseStorageItems(before: seq<DiskInfo>, s: Section, disks: seq<DiskDesc>, ctx: Context)
    returns (dis: seq<DiskInfo>, panicked: bool)
    ensures panicked <==> !ReadableStorage(s.storageItems, disks)
    ensures !panicked ==> dis == before + JoinAll(DrivesOf(s.storageItems, s.items), disks, ctx)
  {
    dis, panicked := before, false;
    ghost var done: seq<Item> := [];
    for i := 0 to |s.storageItems|
      invariant done == s.storageItems[..i] && ReadableStorage(done, disks)
      invariant dis == before + JoinAll(DrivesOf(done, s.items), disks, ctx)
    {
      ghost var item := s.storageItems[i];
      assert s.storageItems[..i + 1] == done + [item];
      if IsDrive(s.storageItems[i]) {
        dis, panicked := JoinDrive(s.storageItems[i], s.items, disks, ctx, dis);
        if panicked {
          return;
        }
      }
      DisNext(before, done, item, s.items, disks, ctx);
      done := done + [item];
    }
    assert s.storageItems[..|s.storageItems|] == s.storageItems;
  }

  method ParseSection(st: Settings, s: Section, disks: seq<DiskDesc>, ctx: Context, model: string)
    returns (r: Settings, panicked: bool)
    ensures panicked <==> !ReadableSection(s, disks)
    ensures !panicked ==> r == AfterSection(st, s, disks, ctx, model)
  {
    r, panicked := ParseItems(st, s, disks, ctx, model);
    if !panicked {
      var dis;
      dis, panicked := ParseStorageItems(r.dis, s, disks, ctx);
      if !panicked {
        var fromItems := DrivesOf(s.items, s.items);
        var fromStorage := DrivesOf(s.storageItems, s.items);
        JoinAllConcat(fromItems, fromStorage, disks, ctx);
        Assoc(st.dis, JoinAll(fromItems, disks, ctx), JoinAll(fromStorage, disks, ctx));
      }
      r := r.(dis := dis);
    }
  }

  lemma {:induction false} JoinAllConcat(x: seq<Drive>, y: seq<Drive>, disks: seq<DiskDesc>, ctx: Context)
    requires ReadableDrives(x, disks) && ReadableDrives(y, disks)
    ensures ReadableDrives(x + y, disks)
    ensures JoinAll(x + y, disks, ctx) == JoinAll(x, disks, ctx) + JoinAll(y, disks, ctx)
  {
    if y == [] {
      assert x + y == x;
    } else {
      var init, last := y[..|y| - 1], y[|y| - 1];
      assert y == init + [last];
      JoinAllConcat(x, init, disks, ctx);
      assert (x + y)[..|x + y| - 1] == x + init;
      Assoc(JoinAll(x, disks, ctx), JoinAll(init, disks, ctx), Join(last, disks, ctx));
    }
  }

  lemma SectionsNext(done: seq<Section>, s: Section, disks: seq<DiskDesc>, ctx: Context, model: string)
    requires ReadableSections(done, disks)
    ensures ReadableSections(done + [s], disks) <==> ReadableSection(s, disks)
    ensures ReadableSection(s, disks) ==>
              AfterSections(done + [s], disks, ctx, model) ==
              AfterSection(AfterSections(done, disks, ctx, model), s, disks, ctx, model)
  {
    assert (done + [s])[|done|] == s && (done + [s])[..|done|] == done;
    forall i | 0 <= i < |done| ensures (done + [s])[i] == done[i] {
    }
  }

  method ParseSections(sections: seq<Section>, disks: seq<DiskDesc>, ctx: Context, model: string)
    returns (r: Settings, panicked: bool)
    ensures panicked <==> !ReadableSections(sections, disks)
    ensures !panicked ==> r == AfterSections(sections, disks, ctx, model)
  {
    r, panicked := START, false;
    ghost var done: seq<Section> := [];
    for i := 0 to |sections|
      invariant done == sections[..i] && ReadableSections(done, disks)
      invariant r == AfterSections(done, disks, ctx, model)
    {
      SectionsNext(done, sections[i], disks, ctx, model);
      r, panicked := ParseSection(r, sections[i], disks, ctx, model);
      if panicked {
        return;
      }
      done := done + [sections[i]];
    }
    assert sections[..|sections|] == sections;
  }

  /** The whole parser: a panic exactly on an unreadable envelope, else every section applied in order. */
  method ParseEnvelope(e: Envelope, defaults: Defaults) returns (r: Settings, panicked: bool)
    ensures panicked <==> !Readable(e)
    ensures !panicked ==>
              var ctx := Context(e.references, defaults.bus, defaults.pow);
              r == AfterSections(Sections(e), Disks(e), ctx, defaults.model)
  {
    r, panicked := START, false;
    if e.system.Some? {
      var ctx := Context(e.references, defaults.bus, defaults.pow);
      r, panicked := ParseSections(e.system.value, Disks(e), ctx, defaults.model);
    }
  }

  // ---------------------------------------------------------------- the envelope as a whole

  lemma {:induction false} HardwareConcat(hw: Hardware, x: seq<Item>, y: seq<Item>, pow: Power)
    requires Quantified(x) && Quantified(y)
    ensures Quantified(x + y) && HardwarePass(hw, x + y, pow) == HardwarePass(HardwarePass(hw, x, pow), y, pow)
  {
    if y == [] {
      assert x + y == x;
    } else {
      var init, last := y[..|y| - 1], y[|y| - 1];
      HardwareConcat(hw, x, init, pow);
      HardwareNext(hw, x + init, last, pow);
      assert y == init + [last] && x + y == (x + init) + [last];
    }
  }

  lemma {:induction false} NicsConcat(x: seq<Item>, y: seq<Item>, model: string)
    requires Connected(x) && Connected(y)
    ensures Connected(x + y) && Nics(x + y, model) == Nics(x, model) + Nics(y, model)
  {
    if y == [] {
      assert x + y == x;
    } else {
      var init, last := y[..|y| - 1], y[|y| - 1];
      NicsConcat(x, init, model);
      NicsNext(x + init, last, model);
      NicsNext(init, last, model);
      Assoc(Nics(x, model), Nics(init, model), if IsNic(last) then [Nic(last, model)] else []);
      assert y == init + [last] && x + y == (x + init) + [last];
    }
  }

  /** Sections do not matter to hardware, interfaces and disks: they come from one list of items and one of drives. */
  lemma {:induction false} EnvelopeFlattens(sections: seq<Section>, disks: seq<DiskDesc>, ctx: Context, model: string)
    requires ReadableSections(sections, disks)
    ensures Quantified(AllItems(sections)) && Connected(AllItems(sections))
    ensures ReadableDrives(AllDrives(sections), disks)
    ensures var st := AfterSections(sections, disks, ctx, model);
            && st.hw == HardwarePass(START.hw, AllItems(sections), ctx.pow)
            && st.nis == Nics(AllItems(sections), model)
            && st.dis == JoinAll(AllDrives(sections), disks, ctx)
  {
    if sections != [] {
      var init, last := sections[..|sections| - 1], sections[|sections| - 1];
      EnvelopeFlattens(init, disks, ctx, model);
      HardwareConcat(START.hw, AllItems(init), last.items, ctx.pow);
      NicsConcat(AllItems(init), last.items, model);
      JoinAllConcat(AllDrives(init), SectionDrives(last), disks, ctx);
    }
  }

  /** The memory of "<quantity> byte * 2^20" is the quantity. */
  lemma MemoryInMebibytes(quantity: nat, pow: Power)
    requires ExactOnTwo(pow) && quantity * MEBIBYTE < INT64_LIMIT
    ensures Quotient(Quantity(quantity, Some(Exponential(20)), pow), MEBIBYTE) == quantity
  {
    PowersOfTwo();
    ExponentialForm(quantity, 20, pow);
  }
}
