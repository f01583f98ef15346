/** Network mapping, from the preflight check to the interfaces of the new VM
    (pkg/controllers/migration/virtualmachine.go:270-314, pkg/source/network.go). */
module Network {
  import opened Wrappers
  import opened Text

  datatype NetworkMapping = NetworkMapping(source: string, destination: string, model: Option<string>)

  datatype NetworkInfo = NetworkInfo(name: string, mac: string, mapped: string, model: string)

  // ---------------------------------------------------------------- preflight

  datatype MappingCheck =
    | MappingOk | DuplicateSource(name: string) | BadDestination(name: string) | Missing(name: string)

  /** The destination names an existing network attachment: a name in the import's namespace, or a namespace and a
      name with one slash between them. */
  predicate Resolves(ns: string, nads: set<(string, string)>, destination: string) {
    (NoChar(destination, '/') && (ns, destination) in nads)
    || exists k :: 0 <= k < |destination| && SlashAt(destination, k)
                   && (destination[..k], destination[k + 1..]) in nads
  }

  /** One slash at k, and none elsewhere. */
  predicate SlashAt(s: string, k: nat) {
    k < |s| && s[k] == '/' && NoChar(s[..k], '/') && NoChar(s[k + 1..], '/')
  }

  lemma SplitAtSlash(s: string, k: nat)
    requires SlashAt(s, k)
    ensures Split(s, '/') == [s[..k], s[k + 1..]]
  {
    assert s == s[..k] + ['/'] + s[k + 1..];
    SplitOnce(s[..k], s[k + 1..], '/');
    SplitNone(s[k + 1..], '/');
  }

  lemma SlashOfParts(s: string) returns (k: nat)
    requires |Split(s, '/')| == 2
    ensures SlashAt(s, k) && Split(s, '/') == [s[..k], s[k + 1..]]
  {
    var parts := Split(s, '/');
    SplitInTwo(s, '/');
    k := |parts[0]|;
    assert s[..k] == parts[0] && s[k + 1..] == parts[1] && s[k] == '/';
  }

  lemma PartsResolve(ns: string, nads: set<(string, string)>, destination: string)
    ensures var parts := Split(destination, '/');
            Resolves(ns, nads, destination) <==>
              (|parts| == 1 && (ns, parts[0]) in nads) || (|parts| == 2 && (parts[0], parts[1]) in nads)
  {
    var parts := Split(destination, '/');
    SplitCount(destination, '/');
    NoCharCount(destination, '/');
    if NoChar(destination, '/') {
      SplitNone(destination, '/');
    } else if |parts| == 2 {
      var k := SlashOfParts(destination);
    }
    if k: nat :| SlashAt(destination, k) && (destination[..k], destination[k + 1..]) in nads {
      SplitAtSlash(destination, k);
    }
  }

  predicate DistinctSources(ms: seq<NetworkMapping>) {
    forall i, j :: 0 <= i < j < |ms| ==> ms[i].source != ms[j].source
  }

  predicate AllResolve(ns: string, nads: set<(string, string)>, ms: seq<NetworkMapping>) {
    forall i :: 0 <= i < |ms| ==> Resolves(ns, nads, ms[i].destination)
  }

  /** The mapping at i is the first whose destination does not resolve. */
  predicate FirstUnresolved(ns: string, nads: set<(string, string)>, ms: seq<NetworkMapping>, i: nat)
    requires i < |ms|
  {
    !Resolves(ns, nads, ms[i].destination) && AllResolve(ns, nads, ms[..i])
  }

  /** Accepts exactly the mappings with distinct sources and existing destinations; otherwise a doubled source is
      reported, or else the first destination that does not resolve, as malformed if it has more than one slash. */
  method CheckMappings(ns: string, nads: set<(string, string)>, ms: seq<NetworkMapping>) returns (r: MappingCheck)
    ensures r == MappingOk <==> DistinctSources(ms) && AllResolve(ns, nads, ms)
    ensures r.DuplicateSource? <==> !DistinctSources(ms)
    ensures r.DuplicateSource? ==> exists i, j :: 0 <= i < j < |ms| && ms[i].source == r.name && ms[j].source == r.name
    ensures r.BadDestination? || r.Missing? ==>
              exists i :: 0 <= i < |ms| && ms[i].destination == r.name && FirstUnresolved(ns, nads, ms, i)
    ensures (r.BadDestination? ==> Count(r.name, '/') > 1) && (r.Missing? ==> Count(r.name, '/') <= 1)
  {
    var seen: set<string> := {};
    for i := 0 to |ms|
      invariant forall s :: s in seen <==> exists j :: 0 <= j < i && ms[j].source == s
      invariant DistinctSources(ms[..i])
    {
      if ms[i].source in seen {
        var j :| 0 <= j < i && ms[j].source == ms[i].source;
        assert !DistinctSources(ms);
        return DuplicateSource(ms[i].source);
      }
      seen := seen + {ms[i].source};
      assert ms[..i + 1] == ms[..i] + [ms[i]];
    }
    assert ms[..|ms|] == ms;
    for i := 0 to |ms|
      invariant AllResolve(ns, nads, ms[..i])
    {
      PartsResolve(ns, nads, ms[i].destination);
      SplitCount(ms[i].destination, '/');
      var parts := Split(ms[i].destination, '/');
      if |parts| == 1 {
        parts := [ns, parts[0]];
      }
      if |parts| != 2 {
        assert FirstUnresolved(ns, nads, ms, i);
        return BadDestination(ms[i].destination);
      }
      if (parts[0], parts[1]) !in nads {
        assert FirstUnresolved(ns, nads, ms, i);
        return Missing(ms[i].destination);
      }
      assert ms[..i + 1] == ms[..i] + [ms[i]];
    }
    return MappingOk;
  }

  // ---------------------------------------------------------------- mapping

  /** One mapping applied to one NIC; without an override the detected model stays. */
  function Mapped(ni: NetworkInfo, nm: NetworkMapping): NetworkInfo {
    ni.(mapped := nm.destination, model := if nm.model.Some? then nm.model.value else ni.model)
  }

  /** Every mapping of the NIC's network, each applied on top of the previous ones. */
  function MapOne(ni: NetworkInfo, ms: seq<NetworkMapping>): seq<NetworkInfo>
    decreases |ms|
  {
    if ms == [] then []
    else if ms[0].source == ni.name then [Mapped(ni, ms[0])] + MapOne(Mapped(ni, ms[0]), ms[1..])
    else MapOne(ni, ms[1..])
  }

  function MapAll(infos: seq<NetworkInfo>, ms: seq<NetworkMapping>): seq<NetworkInfo> {
    if infos == [] then [] else MapOne(infos[0], ms) + MapAll(infos[1..], ms)
  }

  method MapNetworks(infos: seq<NetworkInfo>, ms: seq<NetworkMapping>) returns (result: seq<NetworkInfo>)
    ensures result == MapAll(infos, ms)
  {
    result := [];
    for i := 0 to |infos|
      invariant MapAll(infos, ms) == result + MapAll(infos[i..], ms)
    {
      var ni := infos[i];
      ghost var done := result;
      for k := 0 to |ms|
        invariant ni.name == infos[i].name
        invariant done + MapOne(infos[i], ms) == result + MapOne(ni, ms[k..])
      {
        if ms[k].source == ni.name {
          ni := ni.(mapped := ms[k].destination);
          if ms[k].model.Some? {
            ni := ni.(model := ms[k].model.value);
          }
          result := result + [ni];
        }
      }
      assert result == done + MapOne(infos[i], ms);
    }
  }

  // ---------------------------------------------------------------- the mapping as a join

  /** The mapping as a table by source network. */
  ghost function Table(ms: seq<NetworkMapping>): (t: map<string, NetworkMapping>)
    ensures forall k :: k in t ==> t[k] in ms && t[k].source == k
    ensures forall i :: 0 <= i < |ms| ==> ms[i].source in t
  {
    if ms == [] then map[] else Table(ms[1..])[ms[0].source := ms[0]]
  }

  /** The NICs whose network is in the table, in order, each once with its looked-up mapping. */
  ghost function Join(infos: seq<NetworkInfo>, t: map<string, NetworkMapping>): seq<NetworkInfo> {
    if infos == [] then []
    else (if infos[0].name in t then [Mapped(infos[0], t[infos[0].name])] else []) + Join(infos[1..], t)
  }

  lemma {:induction false} MapOneAbsent(ni: NetworkInfo, ms: seq<NetworkMapping>)
    requires forall i :: 0 <= i < |ms| ==> ms[i].source != ni.name
    ensures MapOne(ni, ms) == []
    decreases |ms|
  {
    if ms != [] {
      MapOneAbsent(ni, ms[1..]);
    }
  }

  lemma {:induction false} MapOneLooksUp(ni: NetworkInfo, ms: seq<NetworkMapping>)
    requires DistinctSources(ms)
    ensures MapOne(ni, ms) == if ni.name in Table(ms) then [Mapped(ni, Table(ms)[ni.name])] else []
    decreases |ms|
  {
    if ms != [] {
      if ms[0].source == ni.name {
        MapOneAbsent(Mapped(ni, ms[0]), ms[1..]);
      } else {
        MapOneLooksUp(ni, ms[1..]);
      }
    }
  }

  predicate IsMapped(name: string, ms: seq<NetworkMapping>) {
    exists i :: 0 <= i < |ms| && ms[i].source == name
  }

  /** The NIC's network is sent where its mapping says, under the model that the mapping overrides or the NIC has;
      all else of the NIC stays. */
  predicate SentBy(ni: NetworkInfo, m: NetworkMapping, sent: NetworkInfo) {
    && m.source == ni.name && sent.name == ni.name && sent.mac == ni.mac && sent.mapped == m.destination
    && sent.model == match m.model
                     case Some(model) => model
                     case None => ni.model
  }

  predicate Sent(ni: NetworkInfo, ms: seq<NetworkMapping>, sent: NetworkInfo) {
    exists i :: 0 <= i < |ms| && SentBy(ni, ms[i], sent)
  }

  /** Each NIC with a mapping is sent once, in the order of the NICs. */
  ghost predicate Sends(infos: seq<NetworkInfo>, ms: seq<NetworkMapping>, sent: seq<NetworkInfo>) {
    var ps := Positions(infos, (ni: NetworkInfo) => IsMapped(ni.name, ms));
    |sent| == |ps| &&
    forall k :: 0 <= k < |ps| ==> Sent(infos[ps[k]], ms, sent[k])
  }

  /** For the mappings that preflight accepts, field by field: exactly the NICs with a mapping, in order. */
  lemma {:induction false} MapSends(infos: seq<NetworkInfo>, ms: seq<NetworkMapping>)
    requires DistinctSources(ms)
    ensures Sends(infos, ms, MapAll(infos, ms))
  {
    if infos != [] {
      var init, last := infos[..|infos| - 1], infos[|infos| - 1];
      MapSends(init, ms);
      MapSendsNext(init, last, ms);
      assert infos == init + [last];
    }
  }

  lemma MapSendsNext(infos: seq<NetworkInfo>, ni: NetworkInfo, ms: seq<NetworkMapping>)
    requires DistinctSources(ms) && Sends(infos, ms, MapAll(infos, ms))
    ensures Sends(infos + [ni], ms, MapAll(infos + [ni], ms))
  {
    MapAllNext(infos, ni, ms);
    MapOneLooksUp(ni, ms);
    SendsNext(infos, ni, ms, MapAll(infos, ms), MapOne(ni, ms));
  }

  lemma {:induction false} MapAllNext(infos: seq<NetworkInfo>, ni: NetworkInfo, ms: seq<NetworkMapping>)
    ensures MapAll(infos + [ni], ms) == MapAll(infos, ms) + MapOne(ni, ms)
  {
    var whole := infos + [ni];
    if infos == [] {
      assert whole[1..] == [] && MapAll([], ms) == [];
    } else {
      assert whole[1..] == infos[1..] + [ni] && whole[0] == infos[0];
      MapAllNext(infos[1..], ni, ms);
      Assoc(MapOne(infos[0], ms), MapAll(infos[1..], ms), MapOne(ni, ms));
    }
  }

  lemma SendsNext(infos: seq<NetworkInfo>, ni: NetworkInfo, ms: seq<NetworkMapping>, sent: seq<NetworkInfo>,
                  more: seq<NetworkInfo>)
    requires Sends(infos, ms, sent)
    requires more == if ni.name in Table(ms) then [Mapped(ni, Table(ms)[ni.name])] else []
    ensures Sends(infos + [ni], ms, sent + more)
  {
    PositionsNext(infos, ni, (ni: NetworkInfo) => IsMapped(ni.name, ms));
    var ps := Positions(infos, (ni: NetworkInfo) => IsMapped(ni.name, ms));
    forall k | 0 <= k < |ps| ensures Sent((infos + [ni])[ps[k]], ms, (sent + more)[k]) {
      assert (infos + [ni])[ps[k]] == infos[ps[k]] && (sent + more)[k] == sent[k];
    }
    if ni.name in Table(ms) {
      var i :| 0 <= i < |ms| && ms[i] == Table(ms)[ni.name];
      assert SentBy(ni, ms[i], more[0]);
      assert IsMapped(ni.name, ms) && (sent + more)[|sent|] == more[0];
    } else {
      assert !IsMapped(ni.name, ms);
    }
  }

  /** For the mappings that preflight accepts, MapNetworks is the join of the NICs with the table. */
  lemma {:induction false} MapIsJoin(infos: seq<NetworkInfo>, ms: seq<NetworkMapping>)
    requires DistinctSources(ms)
    ensures MapAll(infos, ms) == Join(infos, Table(ms))
  {
    if infos != [] {
      MapOneLooksUp(infos[0], ms);
      MapIsJoin(infos[1..], ms);
    }
  }

  /** With a source listed twice, which preflight refuses, its NICs would come out twice. */
  lemma DuplicateSourceDuplicatesNic(ni: NetworkInfo, a: NetworkMapping, b: NetworkMapping)
    requires a.source == ni.name && b.source == ni.name
    ensures |MapAll([ni], [a, b])| == 2
  {
    assert [a, b][1..] == [b] && [b][1..] == [] && [ni][1..] == [];
    var first := Mapped(ni, a);
    assert MapOne(first, [b]) == [Mapped(first, b)] + MapOne(Mapped(first, b), []);
    assert MapOne(ni, [a, b]) == [first] + MapOne(first, [b]);
    assert MapAll([ni], [a, b]) == MapOne(ni, [a, b]) + MapAll([], [a, b]);
  }

  /** A NIC without a mapping beside one with a mapping is dropped: it is not attached to any network, wherever
      it stands. */
  lemma UnmatchedNicDropped(matched: NetworkInfo, other: NetworkInfo, m: NetworkMapping)
    requires m.source == matched.name && m.source != other.name
    ensures MapAll([matched, other], [m]) == MapAll([other, matched], [m])
    ensures |MapAll([matched, other], [m])| == 1 && SentBy(matched, m, MapAll([matched, other], [m])[0])
  {
    OneMapping(matched, m);
    OneMapping(other, m);
    assert [matched, other][1..] == [other] && [other, matched][1..] == [matched];
  }

  lemma OneMapping(ni: NetworkInfo, m: NetworkMapping)
    ensures MapOne(ni, [m]) == MapAll([ni], [m]) == if m.source == ni.name then [Mapped(ni, m)] else []
  {
    assert [m][1..] == [] && [ni][1..] == [];
    assert MapOne(ni, []) == [] && MapOne(Mapped(ni, m), []) == [];
    assert MapAll([ni], [m]) == MapOne(ni, [m]) + MapAll([], [m]);
  }

  // ---------------------------------------------------------------- networks and interfaces

  datatype Attachment = Multus(network: string) | Pod

  datatype KubeNetwork = KubeNetwork(name: string, attachment: Attachment)

  datatype Binding = Bridge | Masquerade

  datatype KubeInterface = KubeInterface(name: string, mac: string, model: string, binding: Binding)

  const MIGRATED := "migrated-"
  const POD_NETWORK := "pod-network"

  method GenerateNetworkInterfaceConfigs(infos: seq<NetworkInfo>, defaultModel: string)
    returns (networks: seq<KubeNetwork>, interfaces: seq<KubeInterface>)
    ensures |networks| == |interfaces| == if infos == [] then 1 else |infos|
    ensures forall i :: 0 <= i < |networks| ==> networks[i].name == interfaces[i].name
    ensures forall i :: 0 <= i < |infos| ==> networks[i].name == "migrated-" + Decimal(i)
    ensures forall i, j :: 0 <= i < j < |networks| ==> networks[i].name != networks[j].name
    ensures forall i :: 0 <= i < |infos| ==>
      networks[i].attachment == Multus(infos[i].mapped) &&
      interfaces[i] == KubeInterface(networks[i].name, infos[i].mac, infos[i].model, Bridge)
    ensures (exists i :: 0 <= i < |networks| && networks[i].attachment == Pod) <==> infos == []
    ensures infos == [] ==> networks == [KubeNetwork("pod-network", Pod)]
                            && interfaces == [KubeInterface("pod-network", "", defaultModel, Masquerade)]
  {
    networks, interfaces := [], [];
    for i := 0 to |infos|
      invariant |networks| == |interfaces| == i
      invariant forall k :: 0 <= k < i ==>
        networks[k] == KubeNetwork(MIGRATED + Decimal(k), Multus(infos[k].mapped)) &&
        interfaces[k] == KubeInterface(MIGRATED + Decimal(k), infos[k].mac, infos[k].model, Bridge)
    {
      networks := networks + [KubeNetwork(MIGRATED + Decimal(i), Multus(infos[i].mapped))];
      interfaces := interfaces + [KubeInterface(MIGRATED + Decimal(i), infos[i].mac, infos[i].model, Bridge)];
    }
    forall i, j | 0 <= i < j < |networks| ensures networks[i].name != networks[j].name {
      MigratedNamesDiffer(i, j);
    }
    if |networks| == 0 {
      networks := networks + [KubeNetwork(POD_NETWORK, Pod)];
      interfaces := interfaces + [KubeInterface(POD_NETWORK, "", defaultModel, Masquerade)];
      assert networks[0].attachment == Pod;
    }
  }

  lemma MigratedNamesDiffer(i: nat, j: nat)
    requires i != j
    ensures MIGRATED + Decimal(i) != MIGRATED + Decimal(j)
  {
    DecimalInjective(i, j);
    assert (MIGRATED + Decimal(i))[|MIGRATED|..] == Decimal(i);
    assert (MIGRATED + Decimal(j))[|MIGRATED|..] == Decimal(j);
  }

  /** A pod network is attached exactly when no NIC's network is mapped. */
  lemma {:induction false} JoinEmptyIffNoneMapped(infos: seq<NetworkInfo>, t: map<string, NetworkMapping>)
    ensures Join(infos, t) == [] <==> forall i :: 0 <= i < |infos| ==> infos[i].name !in t
  {
    if infos != [] {
      JoinEmptyIffNoneMapped(infos[1..], t);
      if infos[0].name !in t && forall i :: 0 <= i < |infos[1..]| ==> infos[1..][i].name !in t {
        forall i | 0 <= i < |infos| ensures infos[i].name !in t {
          if i > 0 { assert infos[i] == infos[1..][i - 1]; }
        }
      }
      if forall i :: 0 <= i < |infos| ==> infos[i].name !in t {
        forall i | 0 <= i < |infos[1..]| ensures infos[1..][i].name !in t {
          assert infos[1..][i] == infos[i + 1];
        }
      }
    }
  }

  /** The network of a NIC is the destination of its mapping, the interface has its MAC address and the model that
      the mapping overrides or the NIC has. */
  ghost predicate Attached(ni: NetworkInfo, ms: seq<NetworkMapping>, network: KubeNetwork, interface: KubeInterface) {
    exists i :: 0 <= i < |ms| && ms[i].source == ni.name &&
      network.attachment == Multus(ms[i].destination) && interface.mac == ni.mac && interface.binding == Bridge &&
      interface.model == match ms[i].model case Some(model) => model case None => ni.model
  }

  /** The networks and interfaces of the NICs with a mapping, in order, and nothing else unless there is none. */
  ghost predicate Attaches(infos: seq<NetworkInfo>, ms: seq<NetworkMapping>, networks: seq<KubeNetwork>,
                           interfaces: seq<KubeInterface>) {
    var ps := Positions(infos, (ni: NetworkInfo) => IsMapped(ni.name, ms));
    && |networks| == |interfaces| == (if ps == [] then 1 else |ps|)
    && forall k :: 0 <= k < |ps| ==> Attached(infos[ps[k]], ms, networks[k], interfaces[k])
  }

  /** End to end: what a GenerateVirtualMachine of any source does with its NICs, once preflight has accepted
      the mapping. Every attached network exists, in the order of the NICs. */
  method AttachNetworks(ns: string, nads: set<(string, string)>, infos: seq<NetworkInfo>, ms: seq<NetworkMapping>,
                        defaultModel: string)
    returns (accepted: bool, networks: seq<KubeNetwork>, interfaces: seq<KubeInterface>)
    ensures accepted <==> DistinctSources(ms) && AllResolve(ns, nads, ms)
    ensures accepted ==>
      var joined := Join(infos, Table(ms));
      && |networks| == |interfaces| == (if joined == [] then 1 else |joined|)
      && (forall i :: 0 <= i < |networks| ==> networks[i].name == interfaces[i].name)
      && (forall i, j :: 0 <= i < j < |networks| ==> networks[i].name != networks[j].name)
      && (forall i :: 0 <= i < |joined| ==>
            && networks[i].attachment == Multus(joined[i].mapped)
            && Resolves(ns, nads, joined[i].mapped)
            && interfaces[i] == KubeInterface(networks[i].name, joined[i].mac, joined[i].model, Bridge))
      && ((exists i :: 0 <= i < |networks| && networks[i].attachment == Pod) <==>
            forall i :: 0 <= i < |infos| ==> infos[i].name !in Table(ms))
      && Attaches(infos, ms, networks, interfaces)
  {
    var check := CheckMappings(ns, nads, ms);
    accepted, networks, interfaces := check == MappingOk, [], [];
    if accepted {
      var result := MapNetworks(infos, ms);
      MapIsJoin(infos, ms);
      MapSends(infos, ms);
      JoinEmptyIffNoneMapped(infos, Table(ms));
      JoinResolves(ns, nads, infos, ms, Table(ms));
      networks, interfaces := GenerateNetworkInterfaceConfigs(result, defaultModel);
      SentAttaches(infos, ms, result, networks, interfaces);
    }
  }

  lemma SentAttaches(infos: seq<NetworkInfo>, ms: seq<NetworkMapping>, sent: seq<NetworkInfo>,
                     networks: seq<KubeNetwork>, interfaces: seq<KubeInterface>)
    requires Sends(infos, ms, sent) && |networks| == |interfaces| == if sent == [] then 1 else |sent|
    requires forall i :: 0 <= i < |sent| ==>
               networks[i].attachment == Multus(sent[i].mapped) && interfaces[i].mac == sent[i].mac
               && interfaces[i].model == sent[i].model && interfaces[i].binding == Bridge
    ensures Attaches(infos, ms, networks, interfaces)
  {
    var ps := Positions(infos, (ni: NetworkInfo) => IsMapped(ni.name, ms));
    forall k | 0 <= k < |ps| ensures Attached(infos[ps[k]], ms, networks[k], interfaces[k]) {
      assert Sent(infos[ps[k]], ms, sent[k]);
      var i :| 0 <= i < |ms| && SentBy(infos[ps[k]], ms[i], sent[k]);
    }
  }

  lemma {:induction false} JoinResolves(ns: string, nads: set<(string, string)>, infos: seq<NetworkInfo>,
                                        ms: seq<NetworkMapping>, t: map<string, NetworkMapping>)
    requires AllResolve(ns, nads, ms) && forall k :: k in t ==> t[k] in ms
    ensures forall i :: 0 <= i < |Join(infos, t)| ==> Resolves(ns, nads, Join(infos, t)[i].mapped)
  {
    if infos != [] {
      JoinResolves(ns, nads, infos[1..], ms, t);
    }
  }
}
