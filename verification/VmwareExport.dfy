/** The VMware export: disk sizes from the two-pass device map, and the two loops over the disks
    (pkg/source/vmware/client.go:235-377). */
module VmwareExport {
  import opened Wrappers
  import opened Integers
  import opened DeviceId
  import opened ImportTypes
  import opened Handler

  datatype Device =
    | Controller(key: int, bus: int)
    | VirtualDisk(controllerKey: int, unit: Option<int>, capacityInKB: int)
    | OtherDevice

  // ---------------------------------------------------------------- the two passes

  function Buses(devs: seq<Device>): map<int, int> {
    if devs == [] then map[]
    else
      var n, d := |devs| - 1, devs[|devs| - 1];
      if d.Controller? then Buses(devs[..n])[d.key := d.bus] else Buses(devs[..n])
  }

  predicate Placed(d: Device, buses: map<int, int>) {
    d.VirtualDisk? && d.unit.Some? && d.controllerKey in buses
  }

  function Place(d: Device, buses: map<int, int>): Address
    requires Placed(d, buses)
  {
    Address(buses[d.controllerKey], d.unit.value)
  }

  function DisksAt(devs: seq<Device>, buses: map<int, int>): map<Address, Device> {
    if devs == [] then map[]
    else
      var n, d := |devs| - 1, devs[|devs| - 1];
      if Placed(d, buses) then DisksAt(devs[..n], buses)[Place(d, buses) := d] else DisksAt(devs[..n], buses)
  }

  /** Two passes, because a disk can come before its controller in the list. */
  method MapDisks(devs: seq<Device>) returns (diskByBusUnit: map<Address, Device>)
    ensures diskByBusUnit == DisksAt(devs, Buses(devs))
  {
    var controllerBus: map<int, int> := map[];
    for i := 0 to |devs|
      invariant controllerBus == Buses(devs[..i])
    {
      assert devs[..i + 1][..i] == devs[..i];
      if devs[i].Controller? {
        controllerBus := controllerBus[devs[i].key := devs[i].bus];
      }
    }
    assert devs[..|devs|] == devs;
    diskByBusUnit := map[];
    for i := 0 to |devs|
      invariant diskByBusUnit == DisksAt(devs[..i], controllerBus)
    {
      assert devs[..i + 1][..i] == devs[..i];
      var d := devs[i];
      if d.VirtualDisk? && d.unit.Some? && d.controllerKey in controllerBus {
        diskByBusUnit := diskByBusUnit[Address(controllerBus[d.controllerKey], d.unit.value) := d];
      }
    }
  }

  lemma {:induction false} BusesMean(devs: seq<Device>)
    ensures var m := Buses(devs);
            && (forall k :: k in m ==> Controller(k, m[k]) in devs)
            && (forall d :: d in devs && d.Controller? ==> d.key in m)
  {
    if devs != [] {
      var n := |devs| - 1;
      BusesMean(devs[..n]);
      forall k | k in Buses(devs) ensures Controller(k, Buses(devs)[k]) in devs {
        if devs[n].Controller? && k == devs[n].key {
          assert devs[n] == Controller(k, devs[n].bus);
        } else {
          assert Controller(k, Buses(devs)[k]) in devs[..n];
        }
      }
    }
  }

  lemma {:induction false} DiskAtMeans(devs: seq<Device>, buses: map<int, int>, k: Address)
    requires k in DisksAt(devs, buses)
    ensures var d := DisksAt(devs, buses)[k]; d in devs && Placed(d, buses) && Place(d, buses) == k
  {
    var n := |devs| - 1;
    if !(Placed(devs[n], buses) && Place(devs[n], buses) == k) {
      DiskAtMeans(devs[..n], buses, k);
    }
  }

  lemma {:induction false} PlacedIsThere(devs: seq<Device>, buses: map<int, int>, d: Device)
    requires d in devs && Placed(d, buses)
    ensures Place(d, buses) in DisksAt(devs, buses)
  {
    var n := |devs| - 1;
    if d != devs[n] {
      assert d in devs[..n];
      PlacedIsThere(devs[..n], buses, d);
    }
  }

  // ---------------------------------------------------------------- independence of the device order

  /** Controller keys name one bus each. */
  ghost predicate UniqueKeys(devs: seq<Device>) {
    forall c, d :: c in devs && d in devs && c.Controller? && d.Controller? && c.key == d.key ==> c.bus == d.bus
  }

  /** The disk sits behind the controller at this address. */
  ghost predicate SitsAt(devs: seq<Device>, d: Device, at: Address) {
    d in devs && d.VirtualDisk? && d.unit == Some(at.unit) && Controller(d.controllerKey, at.bus) in devs
  }

  /** No two disks share an address. The map's key has no controller type, so this is not a given: a SCSI and
      an IDE controller can both be bus 0. */
  ghost predicate UniqueAddresses(devs: seq<Device>) {
    forall c, d, at :: SitsAt(devs, c, at) && SitsAt(devs, d, at) ==> c == d
  }

  /** The map holds exactly the disks that sit behind a known controller, each under its address. */
  lemma MapMeans(devs: seq<Device>, at: Address, d: Device)
    requires UniqueKeys(devs) && UniqueAddresses(devs)
    ensures var m := DisksAt(devs, Buses(devs)); at in m && m[at] == d <==> SitsAt(devs, d, at)
  {
    var buses := Buses(devs);
    var m := DisksAt(devs, buses);
    BusesMean(devs);
    if at in m {
      DiskAtMeans(devs, buses, at);
      assert Controller(m[at].controllerKey, buses[m[at].controllerKey]) in devs;
      assert SitsAt(devs, m[at], at);
    }
    if SitsAt(devs, d, at) {
      var c := Controller(d.controllerKey, at.bus);
      assert c.key in buses;
      assert Controller(c.key, buses[c.key]) in devs;
      assert buses[d.controllerKey] == at.bus;
      PlacedIsThere(devs, buses, d);
      DiskAtMeans(devs, buses, at);
      assert SitsAt(devs, m[at], at);
    }
  }

  /** Any reordering of the device list gives the same map. */
  lemma MapIgnoresOrder(devs: seq<Device>, other: seq<Device>)
    requires multiset(devs) == multiset(other)
    requires UniqueKeys(devs) && UniqueAddresses(devs)
    ensures DisksAt(devs, Buses(devs)) == DisksAt(other, Buses(other))
  {
    assert forall d :: d in devs <==> d in other by {
      forall d ensures d in devs <==> d in other {
        assert d in devs <==> d in multiset(devs);
        assert d in other <==> d in multiset(other);
      }
    }
    forall c, d, at | SitsAt(other, c, at) && SitsAt(other, d, at) ensures c == d {
      assert SitsAt(devs, c, at) && SitsAt(devs, d, at);
    }
    var m, o := DisksAt(devs, Buses(devs)), DisksAt(other, Buses(other));
    forall at | at in m || at in o ensures at in m && at in o && m[at] == o[at] {
      if at in m {
        MapMeans(devs, at, m[at]);
        assert SitsAt(other, m[at], at);
        MapMeans(other, at, m[at]);
      } else {
        MapMeans(other, at, o[at]);
        assert SitsAt(devs, o[at], at);
        MapMeans(devs, at, o[at]);
      }
    }
    assert m.Keys == o.Keys;
  }

  /** Without unique addresses the order decides: the later disk hides the earlier one. */
  lemma SharedAddressDependsOnOrder(scsi: Device, ide: Device, a: Device, b: Device)
    requires scsi == Controller(1000, 0) && ide == Controller(200, 0)
    requires a == VirtualDisk(1000, Some(0), 1024) && b == VirtualDisk(200, Some(0), 2048)
    ensures DisksAt([scsi, ide, a, b], Buses([scsi, ide, a, b])) == map[Address(0, 0) := b]
    ensures DisksAt([scsi, ide, b, a], Buses([scsi, ide, b, a])) == map[Address(0, 0) := a]
  {
    LastDiskWins(scsi, ide, a, b);
    LastDiskWins(scsi, ide, b, a);
  }

  lemma LastDiskWins(scsi: Device, ide: Device, x: Device, y: Device)
    requires scsi == Controller(1000, 0) && ide == Controller(200, 0)
    requires x.VirtualDisk? && y.VirtualDisk? && x.unit == y.unit == Some(0)
    requires x.controllerKey in {200, 1000} && y.controllerKey in {200, 1000}
    ensures DisksAt([scsi, ide, x, y], Buses([scsi, ide, x, y])) == map[Address(0, 0) := y]
  {
    var devs := [scsi, ide, x, y];
    var buses := Buses(devs);
    assert devs[..3] == [scsi, ide, x] && [scsi, ide, x][..2] == [scsi, ide];
    assert [scsi, ide][..1] == [scsi] && [scsi][..0] == [];
    BusesMean(devs);
    assert 200 in buses && buses[200] == 0 by {
      assert ide in devs;
      assert Controller(200, buses[200]) in devs;
    }
    assert 1000 in buses && buses[1000] == 0 by {
      assert scsi in devs;
      assert Controller(1000, buses[1000]) in devs;
    }
    var m := DisksAt(devs, buses);
    assert m == DisksAt(devs[..3], buses)[Address(0, 0) := y];
    forall k | k in m ensures k == Address(0, 0) {
      DiskAtMeans(devs, buses, k);
      assert Placed(m[k], buses) && Place(m[k], buses) == k;
    }
  }

  // ---------------------------------------------------------------- sizes

  datatype LeaseItem = LeaseItem(path: string, deviceId: string, size: int)

  predicate OnlyDisks(disks: map<Address, Device>) {
    forall k :: k in disks ==> disks[k].VirtualDisk?
  }

  lemma MapHoldsDisks(devs: seq<Device>)
    ensures OnlyDisks(DisksAt(devs, Buses(devs)))
  {
    forall k | k in DisksAt(devs, Buses(devs)) ensures DisksAt(devs, Buses(devs))[k].VirtualDisk? {
      DiskAtMeans(devs, Buses(devs), k);
    }
  }

  function DiskMap(devs: seq<Device>): (m: map<Address, Device>)
    ensures OnlyDisks(m) && m == DisksAt(devs, Buses(devs))
  {
    MapHoldsDisks(devs);
    DisksAt(devs, Buses(devs))
  }

  /** The disk's capacity in bytes, in int64 arithmetic. */
  function Bytes(d: Device): int
    requires d.VirtualDisk?
  {
    Int64(d.capacityInKB * 1024)
  }

  function DiskSize(disks: map<Address, Device>, item: LeaseItem): int
    requires OnlyDisks(disks)
  {
    var at := AddressOf(item.deviceId);
    var mapped := if at.Some? && at.value in disks then Bytes(disks[at.value]) else 0;
    if mapped == 0 then item.size else mapped
  }

  ghost predicate Names(devs: seq<Device>, item: LeaseItem, d: Device) {
    AddressOf(item.deviceId).Some? && SitsAt(devs, d, AddressOf(item.deviceId).value)
  }

  /** The size a lease item stands for: the capacity, in KB, of the disk at the address that its device ID names,
      times 1024 in int64 arithmetic; the size that the lease reports if that is zero or there is no such disk. */
  ghost predicate Sized(devs: seq<Device>, item: LeaseItem, size: int) {
    && (forall d, w :: Names(devs, item, d) && Wraps(d.capacityInKB * 1024, w) ==>
                         size == if w == 0 then item.size else w)
    && ((forall d :: !Names(devs, item, d)) ==> size == item.size)
  }

  /** With unique keys and addresses every item is sized so. */
  lemma SizeOfMatchedDisk(devs: seq<Device>, item: LeaseItem)
    requires UniqueKeys(devs) && UniqueAddresses(devs)
    ensures Sized(devs, item, DiskSize(DiskMap(devs), item))
  {
    var m, at := DiskMap(devs), AddressOf(item.deviceId);
    forall d | Names(devs, item, d) ensures at.value in m && m[at.value] == d {
      MapMeans(devs, at.value, d);
    }
    forall d, w | Names(devs, item, d) && Wraps(d.capacityInKB * 1024, w)
      ensures DiskSize(m, item) == if w == 0 then item.size else w
    {
      WrapsOnce(d.capacityInKB * 1024, w);
    }
    if at.Some? && at.value in m {
      MapMeans(devs, at.value, m[at.value]);
      assert Names(devs, item, m[at.value]);
    }
  }

  /** A capacity below 2^53 KB is sized exactly. */
  lemma SizeIsExact(devs: seq<Device>, item: LeaseItem, size: int, d: Device)
    requires Sized(devs, item, size) && Names(devs, item, d) && 0 < d.capacityInKB < 0x20_0000_0000_0000
    ensures size == d.capacityInKB * 1024
  {
    assert Wraps(d.capacityInKB * 1024, d.capacityInKB * 1024);
  }

  // ---------------------------------------------------------------- download and convert

  /** The parts of the import and the library calls that name and classify a disk. */
  datatype Naming = Naming(
    vmName: string, prefix: string, busOf: string -> string, baseName: string -> string, tempDir: string)

  predicate EndsWith(s: string, suffix: string) {
    |s| >= |suffix| && s[|s| - |suffix|..] == suffix
  }

  const VMDK := ".vmdk"
  const IMG := ".img"

  function Downloaded(n: Naming, disks: map<Address, Device>, item: LeaseItem): DiskInfo
    requires OnlyDisks(disks)
  {
    DiskInfo(if n.vmName <= item.path then item.path else n.prefix + item.path,
             DiskSize(disks, item), "", "", [], n.busOf(item.deviceId))
  }

  /** The disks of the first lease items, in order; images of other kinds are skipped. */
  function Downloads(n: Naming, disks: map<Address, Device>, items: seq<LeaseItem>): seq<DiskInfo>
    requires OnlyDisks(disks)
  {
    if items == [] then []
    else
      var rest := Downloads(n, disks, items[..|items| - 1]);
      var item := items[|items| - 1];
      if EndsWith(item.path, VMDK) then rest + [Downloaded(n, disks, item)] else rest
  }

  /** The disk that a lease item is listed as. */
  ghost predicate ListedAs(n: Naming, devs: seq<Device>, item: LeaseItem, d: DiskInfo) {
    && d.name == (if n.vmName <= item.path then item.path else n.prefix + item.path)
    && d.bus == n.busOf(item.deviceId) && d.localPath == "" && d.image == "" && d.conds == []
    && (UniqueKeys(devs) && UniqueAddresses(devs) ==> Sized(devs, item, d.size))
  }

  predicate IsVmdk(item: LeaseItem) {
    |item.path| >= 5 && item.path[|item.path| - 5..] == ".vmdk"
  }

  /** The VMDK items, one disk for each, in order. */
  ghost predicate Lists(n: Naming, devs: seq<Device>, items: seq<LeaseItem>, disks: seq<DiskInfo>) {
    var ps := Positions(items, (item: LeaseItem) => IsVmdk(item));
    |disks| == |ps| && forall k :: 0 <= k < |ps| ==> ListedAs(n, devs, items[ps[k]], disks[k])
  }

  lemma DownloadedListed(n: Naming, devs: seq<Device>, item: LeaseItem)
    ensures ListedAs(n, devs, item, Downloaded(n, DiskMap(devs), item))
  {
    if UniqueKeys(devs) && UniqueAddresses(devs) {
      SizeOfMatchedDisk(devs, item);
    }
  }

  /** One more item, which is listed if it is a VMDK. */
  lemma ListsNext(n: Naming, devs: seq<Device>, items: seq<LeaseItem>, disks: seq<DiskInfo>, item: LeaseItem,
                  more: seq<DiskInfo>)
    requires Lists(n, devs, items, disks)
    requires if IsVmdk(item) then |more| == 1 && ListedAs(n, devs, item, more[0]) else more == []
    ensures Lists(n, devs, items + [item], disks + more)
  {
    PositionsNext(items, item, (item: LeaseItem) => IsVmdk(item));
    var ps := Positions(items, (item: LeaseItem) => IsVmdk(item));
    forall k | 0 <= k < |ps| ensures ListedAs(n, devs, (items + [item])[ps[k]], (disks + more)[k]) {
      assert (items + [item])[ps[k]] == items[ps[k]] && (disks + more)[k] == disks[k];
    }
  }

  lemma {:induction false} DownloadsMean(n: Naming, devs: seq<Device>, items: seq<LeaseItem>)
    ensures Lists(n, devs, items, Downloads(n, DiskMap(devs), items))
  {
    if items != [] {
      var init, last := items[..|items| - 1], items[|items| - 1];
      DownloadsMean(n, devs, init);
      DownloadedListed(n, devs, last);
      var more := if EndsWith(last.path, VMDK) then [Downloaded(n, DiskMap(devs), last)] else [];
      ListsNext(n, devs, init, Downloads(n, DiskMap(devs), init), last, more);
      assert items == init + [last];
    }
  }

  /** The first disks are converted: they have the raw image's name and place, and all else as before. */
  ghost predicate ConvertedTo(n: Naming, before: seq<DiskInfo>, after: seq<DiskInfo>, to: nat) {
    && |after| == |before| && to <= |before|
    && (forall i :: 0 <= i < to ==>
          after[i] == before[i].(localPath := n.tempDir, name := n.baseName(before[i].name) + ".img"))
    && (forall i :: to <= i < |before| ==> after[i] == before[i])
  }

  /** The download loop: the VMDK items in order, up to the first failing download. */
  method DownloadDisks(n: Naming, vm: ImportObject, ghost devs: seq<Device>, disks: map<Address, Device>,
                       items: seq<LeaseItem>, downloadOk: nat -> bool)
    returns (done: nat)
    requires disks == DiskMap(devs)
    modifies vm`disks
    ensures done <= |items| && |vm.disks| >= |old(vm.disks)| && vm.disks[..|old(vm.disks)|] == old(vm.disks)
    ensures vm.disks == old(vm.disks) + Downloads(n, disks, items[..done])
    ensures Lists(n, devs, items[..done], vm.disks[|old(vm.disks)|..])
    ensures forall i :: 0 <= i < done && IsVmdk(items[i]) ==> downloadOk(i)
    ensures done < |items| ==> IsVmdk(items[done]) && !downloadOk(done)
  {
    ghost var before := vm.disks;
    for i := 0 to |items|
      invariant vm.disks == before + Downloads(n, disks, items[..i])
      invariant forall j :: 0 <= j < i && EndsWith(items[j].path, VMDK) ==> downloadOk(j)
    {
      assert items[..i + 1][..i] == items[..i];
      if EndsWith(items[i].path, VMDK) {
        if !downloadOk(i) {
          DownloadsMean(n, devs, items[..i]);
          return i;
        }
        vm.disks := vm.disks + [Downloaded(n, disks, items[i])];
      }
    }
    DownloadsMean(n, devs, items[..|items|]);
    return |items|;
  }

  /** The conversion loop, in place over the whole list, up to the first failing conversion. */
  method ConvertDisks(n: Naming, vm: ImportObject, convertOk: nat -> bool) returns (done: nat)
    modifies vm`disks
    ensures ConvertedTo(n, old(vm.disks), vm.disks, done)
    ensures forall i :: 0 <= i < done ==> convertOk(i)
    ensures done < |vm.disks| ==> !convertOk(done)
  {
    ghost var listed := vm.disks;
    for i := 0 to |vm.disks|
      invariant |vm.disks| == |listed| && ConvertedTo(n, listed, vm.disks, i)
      invariant forall j :: 0 <= j < i ==> convertOk(j)
    {
      if !convertOk(i) {
        return i;
      }
      vm.disks := vm.disks[i := vm.disks[i].(localPath := n.tempDir, name := n.baseName(vm.disks[i].name) + IMG)];
    }
    return |vm.disks|;
  }

  /** How far an export came: the number of lease items handled and of disks converted. */
  datatype Reach = Reach(items: nat, converted: nat, ok: bool)

  /** Both loops, each up to its first failing call; what was done before a failure stays in the list. The list
      that is converted is the old one followed by the VMDK items handled. */
  method ExportDisks(n: Naming, vm: ImportObject, devs: seq<Device>, items: seq<LeaseItem>,
                     downloadOk: nat -> bool, convertOk: nat -> bool)
    returns (p: Reach, ghost listed: seq<DiskInfo>)
    modifies vm`disks
    ensures p.items <= |items|
    ensures |listed| >= |old(vm.disks)| && listed[..|old(vm.disks)|] == old(vm.disks)
    ensures listed == old(vm.disks) + Downloads(n, DiskMap(devs), items[..p.items])
    ensures Lists(n, devs, items[..p.items], listed[|old(vm.disks)|..])
    ensures ConvertedTo(n, listed, vm.disks, p.converted)
    ensures p.ok <==> p.items == |items| && p.converted == |listed|
    ensures p.items == |items| && p.converted < |listed| ==> !convertOk(p.converted)
    ensures forall i :: 0 <= i < p.items && IsVmdk(items[i]) ==> downloadOk(i)
    ensures forall i :: 0 <= i < p.converted ==> convertOk(i)
    ensures p.items < |items| ==> p.converted == 0 && IsVmdk(items[p.items]) && !downloadOk(p.items)
  {
    var disks := MapDisks(devs);
    assert disks == DiskMap(devs);
    var handled := DownloadDisks(n, vm, devs, disks, items, downloadOk);
    listed := vm.disks;
    if handled < |items| {
      return Reach(handled, 0, false), listed;
    }
    var converted := ConvertDisks(n, vm, convertOk);
    return Reach(handled, converted, converted == |vm.disks|), listed;
  }
}
