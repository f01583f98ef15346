/** What the parser makes of an envelope, in terms of the envelope's own fields
    (pkg/source/ova/client.go:499-705). */
module OvfMeaning {
  import opened Wrappers
  import opened OvfUnits
  import opened OvfEnvelope
  import Network

  // ---------------------------------------------------------------- firmware

  /** The setting is the boolean of the last entry with one of these keys, anything but a true word being false;
      without such an entry it is as given. */
  ghost predicate LastSays(cs: seq<KeyValue>, keys: set<string>, otherwise: bool, b: bool) {
    if forall i :: 0 <= i < |cs| ==> cs[i].key !in keys then b == otherwise
    else exists i :: 0 <= i < |cs| && cs[i].key in keys && (forall j :: i < j < |cs| ==> cs[j].key !in keys)
                     && (b <==> cs[i].value in {"1", "t", "T", "TRUE", "true", "True"})
  }

  lemma {:induction false} LastOfSays(cs: seq<KeyValue>, keys: set<string>, counts: string -> bool, otherwise: bool)
    requires forall k :: counts(k) <==> k in keys
    ensures LastSays(cs, keys, otherwise, Or(LastOf(cs, counts), otherwise))
  {
    if cs != [] {
      var init, last := cs[..|cs| - 1], cs[|cs| - 1];
      if last.key !in keys {
        LastOfSays(init, keys, counts, otherwise);
        LastSaysMore(init, last, keys, otherwise, Or(LastOf(init, counts), otherwise));
        assert cs == init + [last];
      }
    }
  }

  lemma LastSaysMore(cs: seq<KeyValue>, c: KeyValue, keys: set<string>, otherwise: bool, b: bool)
    requires LastSays(cs, keys, otherwise, b) && c.key !in keys
    ensures LastSays(cs + [c], keys, otherwise, b)
  {
    var more := cs + [c];
    if forall i :: 0 <= i < |cs| ==> cs[i].key !in keys {
      assert forall i :: 0 <= i < |more| ==> more[i].key !in keys;
    } else {
      var i :| 0 <= i < |cs| && cs[i].key in keys && (forall j :: i < j < |cs| ==> cs[j].key !in keys)
               && (b <==> cs[i].value in {"1", "t", "T", "TRUE", "true", "True"});
      assert more[i] == cs[i];
    }
  }

  predicate AsksForEfi(cs: seq<KeyValue>) {
    exists i :: 0 <= i < |cs| && cs[i].key == "firmware" && Spelled(cs[i].value, "efi")
  }

  predicate HasTpmDevice(items: seq<Item>) {
    exists i :: 0 <= i < |items| && items[i].subType == Some("vmware.vtpm")
  }

  /** The firmware after a section: without a single item it is as before. With items, UEFI is set by any "firmware"
      entry that says efi and never unset; the TPM by the last of its two settings or else by a virtual TPM device;
      secure boot by its last setting. */
  lemma SectionFirmwareReads(fw: Firmware, s: Section)
    ensures var after := SectionFirmware(fw, s);
            if s.items == [] then after == fw
            else
              && (after.uefi <==> fw.uefi || AsksForEfi(s.configs))
              && LastSays(s.configs, {"tpm.present", "tpm20.enabled"}, fw.tpm || HasTpmDevice(s.items), after.tpm)
              && LastSays(s.configs, {"bootOptions.efiSecureBootEnabled"}, fw.secureBoot, after.secureBoot)
  {
    FirmwareMeans(fw, s);
    LastOfSays(s.configs, {"tpm.present", "tpm20.enabled"}, k => IsTpmKey(k), fw.tpm || HasTpmDevice(s.items));
    LastOfSays(s.configs, {"bootOptions.efiSecureBootEnabled"}, k => k == SECURE_BOOT, fw.secureBoot);
    EfiSays(s.configs);
  }

  lemma EfiSays(cs: seq<KeyValue>)
    ensures SaysEfi(cs) <==> AsksForEfi(cs)
  {
    forall i | 0 <= i < |cs| ensures Lower(cs[i].value) == "efi" <==> Spelled(cs[i].value, "efi") {
      LowerSpelled(cs[i].value, "efi");
    }
  }

  // ---------------------------------------------------------------- network interfaces

  /** The models that an adapter's subtype names, in any capitalization; any other subtype, or none, leaves the
      default. */
  predicate IsModel(subType: Option<string>, otherwise: string, model: string) {
    match subType
    case None => model == otherwise
    case Some(s) =>
      if Spelled(s, "rtl8139") then model == "rtl8139"
      else if Spelled(s, "e1000") then model == "e1000"
      else if Spelled(s, "e1000e") then model == "e1000e"
      else if Spelled(s, "pcnet32") then model == "pcnet"
      else if Spelled(s, "vmxnet") || Spelled(s, "vmxnet2") || Spelled(s, "vmxnet3") || Spelled(s, "virtio") then
        model == "virtio"
      else model == otherwise
  }

  lemma ModelMeans(subType: Option<string>, otherwise: string)
    ensures IsModel(subType, otherwise, Model(subType, otherwise))
  {
    if subType.Some? {
      var s := subType.value;
      LowerSpelled(s, "rtl8139");
      LowerSpelled(s, "e1000");
      LowerSpelled(s, "e1000e");
      LowerSpelled(s, "pcnet32");
      LowerSpelled(s, "vmxnet");
      LowerSpelled(s, "vmxnet2");
      LowerSpelled(s, "vmxnet3");
      LowerSpelled(s, "virtio");
    }
  }

  /** The interface of an adapter: its first connection, its address if it is allocated automatically, and its
      model; no network is mapped yet. */
  predicate IsNicOf(item: Item, model: string, ni: Network.NetworkInfo) {
    && item.connection != [] && ni.name == item.connection[0] && ni.mapped == ""
    && ni.mac == (match item.address
                  case Some(address) => if item.automatic == Some(true) then address else ""
                  case None => "")
    && IsModel(item.subType, model, ni.model)
  }

  /** One interface for each ethernet adapter of all items, in order. */
  lemma NicsRead(items: seq<Item>, model: string)
    requires Connected(items)
    ensures var ps := Positions(items, (item: Item) => item.resource == Some(EthernetAdapter));
            && |Nics(items, model)| == |ps|
            && forall k :: 0 <= k < |ps| ==> IsNicOf(items[ps[k]], model, Nics(items, model)[k])
  {
    NicsMean(items, model);
    SamePositions(items, IsNic, (item: Item) => item.resource == Some(EthernetAdapter));
    forall item: Item | item.connection != [] ensures IsNicOf(item, model, Nic(item, model)) {
      ModelMeans(item.subType, model);
    }
  }

  lemma {:induction false} SamePositions<T(!new)>(xs: seq<T>, p: T -> bool, q: T -> bool)
    requires forall x :: p(x) <==> q(x)
    ensures Positions(xs, p) == Positions(xs, q)
  {
    if xs != [] {
      SamePositions(xs[..|xs| - 1], p, q);
    }
  }

  // ---------------------------------------------------------------- the bus of a disk

  /** The text holds the word, in any capitalization. */
  predicate HasWord(s: string, word: string) {
    exists i: nat :: i <= |s| && WordAt(s, i, word)
  }

  predicate WordAt(s: string, i: nat, word: string) {
    i + |word| <= |s| && Spelled(s[i..i + |word|], word)
  }

  lemma LowerPart(s: string, i: nat, n: nat)
    requires i + n <= |s|
    ensures |Lower(s)| == |s| && Lower(s)[i..][..n] == Lower(s[i..i + n])
  {
    LowerAt(s);
    LowerAt(s[i..i + n]);
  }

  lemma ContainsWord(s: string, word: string)
    requires NoCapital(word)
    ensures Contains(Lower(s), word) <==> HasWord(s, word)
  {
    LowerAt(s);
    forall i: nat | i + |word| <= |s| ensures Lower(s)[i..][..|word|] == word <==> WordAt(s, i, word) {
      LowerPart(s, i, |word|);
      LowerSpelled(s[i..i + |word|], word);
    }
    if i: nat :| i <= |s| && WordAt(s, i, word) {
      assert Lower(s)[i..][..|word|] == word;
    }
  }

  /** The bus of a controller: by the words of its subtype if it has one, else by its type; otherwise the default. */
  predicate IsBusOf(item: Item, otherwise: string, bus: string) {
    match item.subType
    case Some(s) =>
      if HasWord(s, "scsi") || HasWord(s, "buslogic") || HasWord(s, "lsilogic") then bus == "scsi"
      else if HasWord(s, "ahci") || HasWord(s, "sata") || HasWord(s, "ide") then bus == "sata"
      else if Spelled(s, "virtio") || HasWord(s, "nvme") then bus == "virtio"
      else if HasWord(s, "usb") then bus == "usb"
      else bus == otherwise
    case None =>
      if item.resource == Some(IdeController) then bus == "sata"
      else if item.resource == Some(ParallelScsiHba) then bus == "scsi"
      else if item.resource == Some(OtherStorage) || item.resource == Some(UsbController) then bus == "virtio"
      else bus == otherwise
  }

  lemma DetectMeans(item: Item, otherwise: string)
    ensures var bus := DetectDiskBusType(item);
            IsBusOf(item, otherwise, if bus.Some? then bus.value else otherwise)
  {
    if item.subType.Some? {
      var s := item.subType.value;
      ContainsWord(s, "scsi");
      ContainsWord(s, "buslogic");
      ContainsWord(s, "lsilogic");
      ContainsWord(s, "ahci");
      ContainsWord(s, "sata");
      ContainsWord(s, "ide");
      ContainsWord(s, "nvme");
      ContainsWord(s, "usb");
      LowerSpelled(s, "virtio");
    }
  }

  /** The bus of a drive: that of the first item among its siblings that bears its parent's ID; otherwise the
      default. */
  predicate IsDriveBus(d: Drive, otherwise: string, bus: string) {
    match d.item.parent
    case None => bus == otherwise
    case Some(parent) =>
      if forall i :: 0 <= i < |d.siblings| ==> d.siblings[i].instanceId != parent then bus == otherwise
      else exists i :: 0 <= i < |d.siblings| && d.siblings[i].instanceId == parent
                       && (forall j :: 0 <= j < i ==> d.siblings[j].instanceId != parent)
                       && IsBusOf(d.siblings[i], otherwise, bus)
  }

  lemma BusMeans(d: Drive, otherwise: string)
    ensures IsDriveBus(d, otherwise, Bus(d, otherwise))
  {
    if d.item.parent.Some? {
      var named := (item: Item) => item.instanceId == d.item.parent.value;
      var k := FirstFrom(d.siblings, named, 0);
      if k < |d.siblings| {
        DetectMeans(d.siblings[k], otherwise);
        assert d.siblings[k].instanceId == d.item.parent.value;
      }
    }
  }

  // ---------------------------------------------------------------- the disks of a drive

  /** The first file with this ID. */
  predicate FirstFile(refs: seq<File>, id: string, i: nat) {
    i < |refs| && refs[i].id == id && forall j :: 0 <= j < i ==> refs[j].id != id
  }

  /** The disk bears the ID that the drive's host resource ends in, and its file is listed. */
  predicate Belongs(d: Drive, desc: DiskDesc, refs: seq<File>) {
    && d.item.hostResource != [] && desc.id == Base(d.item.hostResource[0])
    && desc.fileRef.Some? && exists i :: 0 <= i < |refs| && refs[i].id == desc.fileRef.value
  }

  /** The row of a drive and a disk: the location of the file, the disk's capacity, and the drive's bus. */
  ghost predicate IsRow(d: Drive, desc: DiskDesc, ctx: Context, row: DiskInfo) {
    && desc.fileRef.Some?
    && (exists i: nat :: FirstFile(ctx.refs, desc.fileRef.value, i) && row.name == ctx.refs[i].href)
    && row.size == Capacity(desc.capacity, desc.units, ctx.pow)
    && row.localPath == "" && IsDriveBus(d, ctx.bus, row.bus)
  }

  lemma RowMeans(d: Drive, desc: DiskDesc, ctx: Context)
    requires IsDrive(d.item) && d.item.hostResource != []
    ensures Pairs(d, desc, ctx) <==> Belongs(d, desc, ctx.refs)
    ensures Pairs(d, desc, ctx) ==> IsRow(d, desc, ctx, Row(d, desc, ctx))
  {
    if desc.fileRef.Some? {
      var named := (f: File) => f.id == desc.fileRef.value;
      var k := FirstFrom(ctx.refs, named, 0);
      if k < |ctx.refs| {
        assert FirstFile(ctx.refs, desc.fileRef.value, k);
      }
    }
    BusMeans(d, ctx.bus);
  }

  /** A drive gives one row for each disk that belongs to it, in the order of the disks. */
  lemma DriveRows(d: Drive, disks: seq<DiskDesc>, ctx: Context)
    requires IsDrive(d.item) && ReadableDrive(d.item, disks) && d.item.hostResource != []
    ensures var ps := Positions(disks, (desc: DiskDesc) => Belongs(d, desc, ctx.refs));
            && |Join(d, disks, ctx)| == |ps|
            && forall k :: 0 <= k < |ps| ==> IsRow(d, disks[ps[k]], ctx, Join(d, disks, ctx)[k])
  {
    JoinMeans(d, disks, ctx);
    forall desc: DiskDesc
      ensures (Pairs(d, desc, ctx) <==> Belongs(d, desc, ctx.refs))
              && (Pairs(d, desc, ctx) ==> IsRow(d, desc, ctx, Row(d, desc, ctx)))
    {
      RowMeans(d, desc, ctx);
    }
    SamePositions(disks, (desc: DiskDesc) => Pairs(d, desc, ctx), (desc: DiskDesc) => Belongs(d, desc, ctx.refs));
  }

  // ---------------------------------------------------------------- the drives of a section

  /** The disk drives among the items, in order, each with these siblings. */
  ghost predicate AreDrives(items: seq<Item>, siblings: seq<Item>, ds: seq<Drive>) {
    var ps := Positions(items, (item: Item) => item.resource == Some(DiskDrive));
    |ds| == |ps| && forall k :: 0 <= k < |ps| ==> ds[k] == Drive(items[ps[k]], siblings)
  }

  lemma AreDrivesNext(items: seq<Item>, siblings: seq<Item>, ds: seq<Drive>, last: Item)
    requires AreDrives(items, siblings, ds)
    ensures AreDrives(items + [last], siblings,
                      ds + if last.resource == Some(DiskDrive) then [Drive(last, siblings)] else [])
  {
    PositionsNext(items, last, (item: Item) => item.resource == Some(DiskDrive));
  }

  lemma {:induction false} DrivesMean(items: seq<Item>, siblings: seq<Item>)
    ensures AreDrives(items, siblings, DrivesOf(items, siblings))
  {
    if items != [] {
      var init, last := items[..|items| - 1], items[|items| - 1];
      DrivesMean(init, siblings);
      AreDrivesNext(init, siblings, DrivesOf(init, siblings), last);
      assert items == init + [last];
    }
  }

  lemma {:induction false} DrivesConcat(x: seq<Item>, y: seq<Item>, siblings: seq<Item>)
    ensures DrivesOf(x + y, siblings) == DrivesOf(x, siblings) + DrivesOf(y, siblings)
  {
    if y == [] {
      assert x + y == x;
    } else {
      var init, last := y[..|y| - 1], y[|y| - 1];
      DrivesConcat(x, init, siblings);
      assert (x + y)[..|x + y| - 1] == x + init && (x + y)[|x + y| - 1] == last;
      Assoc(DrivesOf(x, siblings), DrivesOf(init, siblings), if IsDrive(last) then [Drive(last, siblings)] else []);
    }
  }

  /** The drives of a section are the disk drives among its items and then its storage items, in order; their
      parents are looked up among the plain items only. */
  lemma SectionDrivesMean(s: Section)
    ensures AreDrives(s.items + s.storageItems, s.items, SectionDrives(s))
  {
    DrivesConcat(s.items, s.storageItems, s.items);
    DrivesMean(s.items + s.storageItems, s.items);
  }

  /** All items and all drives are those of one section after the other. */
  lemma {:induction false} SectionsConcat(x: seq<Section>, y: seq<Section>)
    ensures AllItems(x + y) == AllItems(x) + AllItems(y)
    ensures AllDrives(x + y) == AllDrives(x) + AllDrives(y)
  {
    if y == [] {
      assert x + y == x;
    } else {
      var init, last := y[..|y| - 1], y[|y| - 1];
      SectionsConcat(x, init);
      assert (x + y)[..|x + y| - 1] == x + init && (x + y)[|x + y| - 1] == last;
      Assoc(AllItems(x), AllItems(init), last.items);
      Assoc(AllDrives(x), AllDrives(init), SectionDrives(last));
    }
  }

  lemma OneSection(s: Section)
    ensures AllItems([s]) == s.items && AllDrives([s]) == SectionDrives(s)
  {
    assert [s][..0] == [] && AllItems([]) == [] && AllDrives([]) == [];
  }

  /** Over the whole envelope, UEFI is set exactly if some section with an item asks for it. */
  lemma {:induction false} EnvelopeUefi(sections: seq<Section>, disks: seq<DiskDesc>, ctx: Context, model: string)
    requires ReadableSections(sections, disks)
    ensures AfterSections(sections, disks, ctx, model).fw.uefi <==>
            exists i :: 0 <= i < |sections| && sections[i].items != [] && AsksForEfi(sections[i].configs)
  {
    if sections != [] {
      var init, last := sections[..|sections| - 1], sections[|sections| - 1];
      EnvelopeUefi(init, disks, ctx, model);
      SectionFirmwareReads(AfterSections(init, disks, ctx, model).fw, last);
      forall i | 0 <= i < |init| ensures init[i] == sections[i] {
      }
    }
  }
}
