/**
 * NetworkInterface of baleful/iface.py: the per-family address and gateway
 * lists kept by `refresh`, and `rule`, which turns them into an array of
 * rules restricted to the interface and to source/destination routes.
 * The address and gateway data netifaces reports are parameters here.
 */
module Interfaces {
  import opened Wrappers
  import opened Dicts
  import opened Rules

  /** The address families netifaces reports on. */
  datatype Family = AfInet | AfInet6 | AfLink

  /** NetworkInterface.PROTOCOLS, in its order. */
  const Protocols: seq<(string, Family)> := [("ip", AfInet), ("ip6", AfInet6), ("link", AfLink)]

  /** One address entry of an interface: its 'addr' and 'netmask'. */
  datatype AddrEntry = AddrEntry(addr: string, netmask: string)

  /** One gateway tuple: (gateway address, interface name, is default). */
  datatype Gateway = Gateway(address: string, iface: string, isDefault: bool)

  // ---------------------------------------------------------------- refresh

  /** `addrs[n] if n in addrs else list()` */
  function FamilyAddrs(addrs: map<Family, seq<AddrEntry>>, n: Family): seq<AddrEntry> {
    if n in addrs then addrs[n] else []
  }

  /** `[gate for gate in gs if gate[1] == name]`: the gateways on interface `name`, in order. */
  function OnInterface(gs: seq<Gateway>, name: string): (r: seq<Gateway>)
    ensures |r| <= |gs|
    ensures forall g :: g in r <==> g in gs && g.iface == name
    decreases |gs|
  {
    if gs == [] then []
    else
      var g := gs[|gs| - 1];
      var pre := gs[..|gs| - 1];
      assert gs == pre + [g];
      OnInterface(pre, name) + (if g.iface == name then [g] else [])
  }

  /** A single gateway is kept iff it is on the interface. */
  lemma OnInterfaceSingle(g: Gateway, name: string)
    ensures OnInterface([g], name) == if g.iface == name then [g] else []
  {
    assert [g][..0] == [];
  }

  /** The filter keeps order: the gateways of a concatenation are those of the first part, then those of the second. */
  lemma {:induction false} OnInterfaceConcat(a: seq<Gateway>, b: seq<Gateway>, name: string)
    ensures OnInterface(a + b, name) == OnInterface(a, name) + OnInterface(b, name)
    decreases |b|
  {
    if b == [] {
      assert a + b == a;
    } else {
      var n := |b| - 1;
      var last := if b[n].iface == name then [b[n]] else [];
      assert (a + b)[..|a + b| - 1] == a + b[..n];
      assert (a + b)[|a + b| - 1] == b[n];
      assert OnInterface(a + b, name) == OnInterface(a + b[..n], name) + last;
      OnInterfaceConcat(a, b[..n], name);
      var fa, fb := OnInterface(a, name), OnInterface(b[..n], name);
      assert OnInterface(b, name) == fb + last;
      assert (fa + fb) + last == fa + (fb + last);
    }
  }

  /** Each gateway on the interface is kept as many times as it occurs; no other gateway is kept. */
  lemma {:induction false} OnInterfaceCount(gs: seq<Gateway>, name: string, g: Gateway)
    ensures multiset(OnInterface(gs, name))[g] == if g.iface == name then multiset(gs)[g] else 0
    decreases |gs|
  {
    if gs != [] {
      var n := |gs| - 1;
      assert gs == gs[..n] + [gs[n]];
      OnInterfaceCount(gs[..n], name, g);
    }
  }

  /** The gateway list `refresh` keeps for a family: those on this interface, or none if the family has no entry. */
  function FamilyGates(gws: map<Family, seq<Gateway>>, n: Family, name: string): seq<Gateway> {
    if n in gws then OnInterface(gws[n], name) else []
  }

  /** `self.addr` after the refresh loop has handled the protocols `ps`. */
  function RefreshAddrs(m: map<string, seq<AddrEntry>>, addrs: map<Family, seq<AddrEntry>>, ps: seq<(string, Family)>): map<string, seq<AddrEntry>>
    decreases |ps|
  {
    if ps == [] then m
    else
      var (p, n) := ps[|ps| - 1];
      RefreshAddrs(m, addrs, ps[..|ps| - 1])[p := FamilyAddrs(addrs, n)]
  }

  /** `self.gate` after the refresh loop has handled the protocols `ps`. */
  function RefreshGates(m: map<string, seq<Gateway>>, gws: map<Family, seq<Gateway>>, name: string, ps: seq<(string, Family)>): map<string, seq<Gateway>>
    decreases |ps|
  {
    if ps == [] then m
    else
      var (p, n) := ps[|ps| - 1];
      RefreshGates(m, gws, name, ps[..|ps| - 1])[p := FamilyGates(gws, n, name)]
  }

  /**
   * After refresh, "ip", "ip6" and "link" hold the interface's addresses of that family (or none)
   * and the gateways of that family on this interface (or none); other entries are kept.
   */
  lemma RefreshedEntries(ma: map<string, seq<AddrEntry>>, mg: map<string, seq<Gateway>>,
                         addrs: map<Family, seq<AddrEntry>>, gws: map<Family, seq<Gateway>>, name: string)
    ensures RefreshAddrs(ma, addrs, Protocols) == ma["ip" := FamilyAddrs(addrs, AfInet)]["ip6" := FamilyAddrs(addrs, AfInet6)]["link" := FamilyAddrs(addrs, AfLink)]
    ensures RefreshGates(mg, gws, name, Protocols) == mg["ip" := FamilyGates(gws, AfInet, name)]["ip6" := FamilyGates(gws, AfInet6, name)]["link" := FamilyGates(gws, AfLink, name)]
    ensures forall p :: p in RefreshGates(mg, gws, name, Protocols) && p in {"ip", "ip6", "link"} ==>
      forall g :: g in RefreshGates(mg, gws, name, Protocols)[p] ==> g.iface == name
  {
    var ps := Protocols;
    assert ps[..1][..0] == [] && ps[..2][..1] == ps[..1] && ps[..3][..2] == ps[..2] && ps[..3] == ps;
    assert RefreshAddrs(ma, addrs, ps[..1]) == ma["ip" := FamilyAddrs(addrs, AfInet)];
    assert RefreshAddrs(ma, addrs, ps[..2]) == ma["ip" := FamilyAddrs(addrs, AfInet)]["ip6" := FamilyAddrs(addrs, AfInet6)];
    assert RefreshGates(mg, gws, name, ps[..1]) == mg["ip" := FamilyGates(gws, AfInet, name)];
    assert RefreshGates(mg, gws, name, ps[..2]) == mg["ip" := FamilyGates(gws, AfInet, name)]["ip6" := FamilyGates(gws, AfInet6, name)];
  }

  // ---------------------------------------------------------------- rule

  /** NetworkInterface.__CHAIN_IF: which interface selectors a chain can carry. */
  const ChainIf: map<string, seq<string>> := map[
    "PREROUTING" := ["in_interface"],
    "INPUT" := ["in_interface"],
    "FORWARD" := ["in_interface", "out_interface"],
    "OUTPUT" := ["out_interface"],
    "POSTROUTING" := ["out_interface"]]

  /** Whether `rule` sets selector `netif`, given the restriction flags. */
  predicate Restricts(netif: string, restrictIn: bool, restrictOut: bool) {
    (restrictIn && netif == "in_interface") || (restrictOut && netif == "out_interface")
  }

  /** The params `rule` starts from: interface selectors for the chain, or KeyError for an unknown chain. */
  function InterfaceParams(name: string, chain: Option<string>, restrictIn: bool, restrictOut: bool): Result<Params> {
    if chain.None? || chain.value == "" then Ok(map[])
    else if chain.value !in ChainIf then Err(KeyError)
    else Ok(map netif | netif in ChainIf[chain.value] && Restricts(netif, restrictIn, restrictOut) :: Str(name))
  }

  /**
   * in_interface is set only on PREROUTING, INPUT and FORWARD and only if restrict_in; out_interface
   * only on FORWARD, OUTPUT and POSTROUTING and only if restrict_out; both carry the interface name,
   * nothing else is set, and a chain outside those five raises KeyError.
   */
  lemma InterfaceParamsSpec(name: string, chain: Option<string>, restrictIn: bool, restrictOut: bool)
    ensures InterfaceParams(name, chain, restrictIn, restrictOut).Err? <==>
      chain.Some? && chain.value != "" && chain.value !in {"PREROUTING", "INPUT", "FORWARD", "OUTPUT", "POSTROUTING"}
    ensures InterfaceParams(name, chain, restrictIn, restrictOut).Ok? ==> (
      var p := InterfaceParams(name, chain, restrictIn, restrictOut).value;
      && p.Keys <= {"in_interface", "out_interface"}
      && ("in_interface" in p <==> restrictIn && chain.Some? && chain.value in {"PREROUTING", "INPUT", "FORWARD"})
      && ("out_interface" in p <==> restrictOut && chain.Some? && chain.value in {"FORWARD", "OUTPUT", "POSTROUTING"})
      && forall k :: k in p ==> p[k] == Str(name))
  {
    if chain.Some? && chain.value in ChainIf {
      var l := ChainIf[chain.value];
      assert "in_interface" in l <==> chain.value in {"PREROUTING", "INPUT", "FORWARD"};
      assert "out_interface" in l <==> chain.value in {"FORWARD", "OUTPUT", "POSTROUTING"};
    }
  }

  /**
   * The route list of a level: 0 one None per gateway, 1 the gateway addresses, 2 "addr/netmask"
   * per address, 3 the bare addresses; any other level is a KeyError (None here).
   */
  function RouteList(level: int, addr: seq<AddrEntry>, gate: seq<Gateway>): Option<seq<Option<string>>> {
    if level == 0 then Some(seq(|gate|, i requires 0 <= i < |gate| => None))
    else if level == 1 then Some(seq(|gate|, i requires 0 <= i < |gate| => Some(gate[i].address)))
    else if level == 2 then Some(seq(|addr|, i requires 0 <= i < |addr| => Some(addr[i].addr + "/" + addr[i].netmask)))
    else if level == 3 then Some(seq(|addr|, i requires 0 <= i < |addr| => Some(addr[i].addr)))
    else None
  }

  /** Python truthiness of a route entry: None and the empty string are false. */
  predicate Truthy(e: Option<string>) {
    e.Some? && e.value != ""
  }

  function Min(a: int, b: int): int {
    if a <= b then a else b
  }

  /** One zip step: a true src sets 'src', a true dst sets 'dst'; a false one leaves the key as it was. */
  function Step(p: Params, s: Option<string>, d: Option<string>): Params {
    var p1 := if Truthy(s) then p["src" := Str(s.value)] else p;
    if Truthy(d) then p1["dst" := Str(d.value)] else p1
  }

  /** The shared params dictionary after the first `i` zip steps. */
  function Snapshot(p0: Params, ss: seq<Option<string>>, ds: seq<Option<string>>, i: nat): Params
    requires i <= |ss| && i <= |ds|
  {
    if i == 0 then p0 else Step(Snapshot(p0, ss, ds, i - 1), ss[i - 1], ds[i - 1])
  }

  /**
   * The params the returned rules end up holding. A rule built while the shared dictionary is
   * non-empty keeps a reference to it, so it shows the dictionary's final state; one built while it
   * is empty gets a dictionary of its own, which stays empty.
   */
  function AsBuilt(p0: Params, ss: seq<Option<string>>, ds: seq<Option<string>>): seq<Params> {
    var n := Min(|ss|, |ds|);
    var fin := Snapshot(p0, ss, ds, n);
    (if ss == [] then [p0] else [])
      + seq(n, i requires 0 <= i < n => if Snapshot(p0, ss, ds, i + 1) == map[] then map[] else fin)
  }

  /** The rules `rule` returns, their params as `params` holds them once `rule` has returned. */
  function InterfaceRules(name: string, addrs: map<string, seq<AddrEntry>>, gates: map<string, seq<Gateway>>,
                          table: Option<string>, chain: Option<string>, ipv: Option<int>,
                          src: int, dst: int, restrictIn: bool, restrictOut: bool): Result<seq<Rule>>
  {
    var p := if ipv == Some(6) then "ip6" else "ip";
    if p !in addrs || p !in gates then Err(KeyError)
    else RulesOn(name, addrs[p], gates[p], table, chain, ipv, src, dst, restrictIn, restrictOut)
  }

  /** InterfaceRules once the address and gateway lists of the family are chosen. */
  function RulesOn(name: string, addr: seq<AddrEntry>, gate: seq<Gateway>,
                   table: Option<string>, chain: Option<string>, ipv: Option<int>,
                   src: int, dst: int, restrictIn: bool, restrictOut: bool): Result<seq<Rule>>
  {
    match InterfaceParams(name, chain, restrictIn, restrictOut)
    case Err(e) => Err(e)
    case Ok(p0) =>
      match RouteList(src, addr, gate)
      case None => Err(KeyError)
      case Some(ss) =>
        match RouteList(dst, addr, gate)
        case None => Err(KeyError)
        case Some(ds) => Ok(RulesFrom(AsBuilt(p0, ss, ds), table, chain, ipv))
  }

  /** `Rule(params=..., chain=chain, table=table, ipv=ipv)` for each params dictionary in turn. */
  function RulesFrom(ps: seq<Params>, table: Option<string>, chain: Option<string>, ipv: Option<int>): (rs: seq<Rule>)
    ensures |rs| == |ps|
  {
    seq(|ps|, i requires 0 <= i < |ps| => NewRule(ps[i], None, chain, table, ipv, map[]))
  }

  /** The shared dictionary only gains keys. */
  lemma {:induction false} SnapshotGrows(p0: Params, ss: seq<Option<string>>, ds: seq<Option<string>>, i: nat, j: nat)
    requires i <= j <= |ss| && j <= |ds|
    ensures Snapshot(p0, ss, ds, i).Keys <= Snapshot(p0, ss, ds, j).Keys
    decreases j
  {
    if i < j {
      SnapshotGrows(p0, ss, ds, i, j - 1);
    }
  }

  /**
   * An empty source list yields exactly one rule, holding the interface params; otherwise there is
   * one rule per zipped (src, dst) pair. Every rule has target ACCEPT, the given table and chain
   * (FILTER and OUTPUT when None), the given ipv and no match modules.
   */
  lemma InterfaceRulesShape(name: string, addrs: map<string, seq<AddrEntry>>, gates: map<string, seq<Gateway>>,
                            table: Option<string>, chain: Option<string>, ipv: Option<int>,
                            src: int, dst: int, restrictIn: bool, restrictOut: bool)
    requires InterfaceRules(name, addrs, gates, table, chain, ipv, src, dst, restrictIn, restrictOut).Ok?
    ensures (
      var p := if ipv == Some(6) then "ip6" else "ip";
      var ss := RouteList(src, addrs[p], gates[p]).value;
      var ds := RouteList(dst, addrs[p], gates[p]).value;
      var rs := InterfaceRules(name, addrs, gates, table, chain, ipv, src, dst, restrictIn, restrictOut).value;
      && |rs| == (if ss == [] then 1 else Min(|ss|, |ds|))
      && (ss == [] ==> rs[0].params == InterfaceParams(name, chain, restrictIn, restrictOut).value)
      && forall i :: 0 <= i < |rs| ==>
           rs[i].target == "ACCEPT" && rs[i].chain == OrDefault(chain, "OUTPUT") &&
           rs[i].table == OrDefault(table, "FILTER") && rs[i].ipv == OrDefault(ipv, 4) && rs[i].kwargs == map[])
  {
    var p := if ipv == Some(6) then "ip6" else "ip";
    var p0 := InterfaceParams(name, chain, restrictIn, restrictOut).value;
    var ss := RouteList(src, addrs[p], gates[p]).value;
    var ds := RouteList(dst, addrs[p], gates[p]).value;
    var ps := AsBuilt(p0, ss, ds);
    var rs := InterfaceRules(name, addrs, gates, table, chain, ipv, src, dst, restrictIn, restrictOut).value;
    assert rs == RulesFrom(ps, table, chain, ipv);
    if ss == [] {
      assert ps[0] == p0;
    }
  }

  /** Once a zipped rule has non-empty params, every later rule holds those same params. */
  lemma AsBuiltShared(p0: Params, ss: seq<Option<string>>, ds: seq<Option<string>>, i: nat, j: nat)
    requires ss != [] && i <= j < Min(|ss|, |ds|)
    requires AsBuilt(p0, ss, ds)[i] != map[]
    ensures AsBuilt(p0, ss, ds)[j] == AsBuilt(p0, ss, ds)[i] == Snapshot(p0, ss, ds, Min(|ss|, |ds|))
  {
    SnapshotGrows(p0, ss, ds, i + 1, j + 1);
  }

  /** Two local addresses as source and destination (level 3): both rules end with the second address. */
  lemma AliasingCounterexample()
    ensures (
      var a1 := AddrEntry("10.0.0.1", "255.0.0.0");
      var a2 := AddrEntry("10.0.0.2", "255.0.0.0");
      var rs := InterfaceRules("eth0", map["ip" := [a1, a2]], map["ip" := []], None, None, Some(4), 3, 3, true, true);
      && rs.Ok? && |rs.value| == 2
      && rs.value[0].params == map["src" := Str("10.0.0.2"), "dst" := Str("10.0.0.2")]
      && rs.value[1].params == rs.value[0].params)
  {
    var a1 := AddrEntry("10.0.0.1", "255.0.0.0");
    var a2 := AddrEntry("10.0.0.2", "255.0.0.0");
    var ss := RouteList(3, [a1, a2], []).value;
    assert ss == [Some("10.0.0.1"), Some("10.0.0.2")];
    var e: Params := map[];
    assert Snapshot(e, ss, ss, 0) == e;
    var s1 := Step(e, ss[0], ss[0]);
    assert Snapshot(e, ss, ss, 1) == s1;
    assert s1 == e["src" := Str("10.0.0.1")]["dst" := Str("10.0.0.1")];
    var s2 := Step(s1, ss[1], ss[1]);
    assert Snapshot(e, ss, ss, 2) == s2;
    assert s2 == s1["src" := Str("10.0.0.2")]["dst" := Str("10.0.0.2")];
    assert s2 == map["src" := Str("10.0.0.2"), "dst" := Str("10.0.0.2")];
    var ps := AsBuilt(e, ss, ss);
    assert |ps| == 2 && ps[0] == s2 && ps[1] == s2;
    var rs := InterfaceRules("eth0", map["ip" := [a1, a2]], map["ip" := []], None, None, Some(4), 3, 3, true, true);
    assert InterfaceParams("eth0", None, true, true) == Ok(e);
    assert rs == Ok(RulesFrom(ps, None, None, Some(4)));
  }

  /** The evidently intended params: each rule gets a copy of the dictionary as it stands when the rule is built. */
  function Copied(p0: Params, ss: seq<Option<string>>, ds: seq<Option<string>>): seq<Params> {
    var n := Min(|ss|, |ds|);
    (if ss == [] then [p0] else []) + seq(n, i requires 0 <= i < n => Snapshot(p0, ss, ds, i + 1))
  }

  /**
   * With copies, the rule of the i-th zipped pair holds that pair's src and dst whenever they are
   * true, and otherwise the last true one before it (or none); the interface params are always kept.
   */
  lemma {:induction false} CopiedCarriesRoute(p0: Params, ss: seq<Option<string>>, ds: seq<Option<string>>, i: nat)
    requires i < |ss| && i < |ds|
    requires "src" !in p0 && "dst" !in p0
    ensures i < |Copied(p0, ss, ds)|
    ensures Truthy(ss[i]) ==> Get(Copied(p0, ss, ds)[i], "src") == Some(Str(ss[i].value))
    ensures Truthy(ds[i]) ==> Get(Copied(p0, ss, ds)[i], "dst") == Some(Str(ds[i].value))
    ensures (forall k :: 0 <= k <= i ==> !Truthy(ss[k])) ==> "src" !in Copied(p0, ss, ds)[i]
    ensures forall k :: k in p0 ==> Get(Copied(p0, ss, ds)[i], k) == Some(p0[k])
  {
    SnapshotKeeps(p0, ss, ds, i + 1);
  }

  lemma {:induction false} SnapshotKeeps(p0: Params, ss: seq<Option<string>>, ds: seq<Option<string>>, j: nat)
    requires j <= |ss| && j <= |ds|
    requires "src" !in p0 && "dst" !in p0
    ensures forall k :: k in p0 ==> Get(Snapshot(p0, ss, ds, j), k) == Some(p0[k])
    ensures (forall k :: 0 <= k < j ==> !Truthy(ss[k])) ==> "src" !in Snapshot(p0, ss, ds, j)
    decreases j
  {
    if j > 0 {
      SnapshotKeeps(p0, ss, ds, j - 1);
    }
  }

  // ---------------------------------------------------------------- the objects

  /** A params dictionary object, shared by reference between `rule`'s loop and the rules it builds. */
  class ParamDict {
    var entries: Params

    constructor (entries: Params)
      ensures this.entries == entries
    {
      this.entries := entries;
    }

    /** `params[key] = value` */
    method Set(key: string, value: Value)
      modifies this
      ensures entries == old(entries)[key := value]
    {
      entries := entries[key := value];
    }
  }

  /** A Rule object built by `rule`: its params dictionary held by reference. */
  datatype BuiltRule = BuiltRule(params: ParamDict, target: string, chain: string, table: string, ipv: int, kwargs: Matches)

  /** The rules a list of built rules currently holds. */
  function BuiltValues(rs: seq<BuiltRule>): seq<Rule>
    reads set r | r in rs :: r.params
  {
    seq(|rs|, i requires 0 <= i < |rs| reads set r | r in rs :: r.params =>
      Rule(rs[i].params.entries, rs[i].target, rs[i].chain, rs[i].table, rs[i].ipv, rs[i].kwargs))
  }

  /** A Python NetworkInterface object. */
  class NetworkInterface {
    var name: string
    var addr: map<string, seq<AddrEntry>>
    var gate: map<string, seq<Gateway>>

    /** NetworkInterface.__init__ for an existing interface: empty tables, then refresh. */
    constructor (name: string, addrs: map<Family, seq<AddrEntry>>, gws: map<Family, seq<Gateway>>)
      ensures this.name == name
      ensures addr == RefreshAddrs(map[], addrs, Protocols)
      ensures gate == RefreshGates(map[], gws, name, Protocols)
    {
      this.name := name;
      this.addr := map[];
      this.gate := map[];
      new;
      Refresh(addrs, gws);
    }

    /** NetworkInterface.refresh, with what netifaces reports for this interface passed in. */
    method Refresh(addrs: map<Family, seq<AddrEntry>>, gws: map<Family, seq<Gateway>>)
      modifies this
      ensures name == old(name)
      ensures addr == RefreshAddrs(old(addr), addrs, Protocols)
      ensures gate == RefreshGates(old(gate), gws, name, Protocols)
    {
      var i := 0;
      while i < |Protocols|
        invariant 0 <= i <= |Protocols|
        invariant name == old(name)
        invariant addr == RefreshAddrs(old(addr), addrs, Protocols[..i])
        invariant gate == RefreshGates(old(gate), gws, name, Protocols[..i])
      {
        var (p, n) := Protocols[i];
        assert Protocols[..i + 1][..i] == Protocols[..i];
        addr := addr[p := if n in addrs then addrs[n] else []];
        gate := gate[p := if n in gws then OnInterface(gws[n], name) else []];
        i := i + 1;
      }
      assert Protocols[..i] == Protocols;
    }

    /**
     * NetworkInterface.rule: the returned rules hold the params InterfaceRules describes, and any two
     * rules with non-empty params hold the very same dictionary object.
     */
    method GenerateRules(table: Option<string>, chain: Option<string>, ipv: Option<int>,
                         src: int, dst: int, restrictIn: bool, restrictOut: bool)
      returns (res: Result<seq<BuiltRule>>)
      ensures res.Err? <==> InterfaceRules(name, addr, gate, table, chain, ipv, src, dst, restrictIn, restrictOut).Err?
      ensures res.Err? ==> res.error == KeyError
      ensures res.Ok? ==> BuiltValues(res.value) == InterfaceRules(name, addr, gate, table, chain, ipv, src, dst, restrictIn, restrictOut).value
      ensures res.Ok? ==> forall i, j :: 0 <= i < |res.value| && 0 <= j < |res.value| ==>
        (res.value[i].params.entries != map[] && res.value[j].params.entries != map[] ==> res.value[i].params == res.value[j].params)
    {
      var p := "ip";
      if ipv == Some(6) {
        p := "ip6";
      }
      if p !in addr || p !in gate {
        return Err(KeyError);
      }
      res := BuildRules(name, addr[p], gate[p], table, chain, ipv, src, dst, restrictIn, restrictOut);
    }
  }

  /**
   * The body of NetworkInterface.rule once the family's address and gateway lists are chosen; any two
   * returned rules with non-empty params hold the very same dictionary object.
   */
  method BuildRules(name: string, addrList: seq<AddrEntry>, gateList: seq<Gateway>,
                    table: Option<string>, chain: Option<string>, ipv: Option<int>,
                    src: int, dst: int, restrictIn: bool, restrictOut: bool)
    returns (res: Result<seq<BuiltRule>>)
    ensures res.Err? <==> RulesOn(name, addrList, gateList, table, chain, ipv, src, dst, restrictIn, restrictOut).Err?
    ensures res.Err? ==> res.error == KeyError
    ensures res.Ok? ==> BuiltValues(res.value) == RulesOn(name, addrList, gateList, table, chain, ipv, src, dst, restrictIn, restrictOut).value
    ensures res.Ok? ==> forall i, j :: 0 <= i < |res.value| && 0 <= j < |res.value| ==>
      (res.value[i].params.entries != map[] && res.value[j].params.entries != map[] ==> res.value[i].params == res.value[j].params)
  {
    var pr := NewInterfaceParams(name, chain, restrictIn, restrictOut);
    if pr.Err? {
      return Err(KeyError);
    }
    var params := pr.value;
    ghost var p0 := params.entries;
    var ssOpt := RouteList(src, addrList, gateList);
    if ssOpt.None? {
      return Err(KeyError);
    }
    var ss := ssOpt.value;
    var placement := NewRule(map[], None, chain, table, ipv, map[]);
    var rarr: seq<BuiltRule> := [];
    if ss == [] {
      var b := Build(params, placement);
      rarr := [b];
    }
    var dsOpt := RouteList(dst, addrList, gateList);
    if dsOpt.None? {
      return Err(KeyError);
    }
    var ds := dsOpt.value;
    ghost var base := rarr;
    rarr := ZipRules(params, ss, ds, placement, rarr);
    AssembledRules(rarr, base, params, p0, ss, ds, placement, table, chain, ipv);
    return Ok(rarr);
  }

  /**
   * The rules `rule` assembled hold the params AsBuilt describes, and those with non-empty params
   * all hold the shared dictionary.
   */
  lemma AssembledRules(rarr: seq<BuiltRule>, base: seq<BuiltRule>, params: ParamDict, p0: Params,
                       ss: seq<Option<string>>, ds: seq<Option<string>>, placement: Rule,
                       table: Option<string>, chain: Option<string>, ipv: Option<int>)
    requires placement == NewRule(map[], None, chain, table, ipv, map[])
    requires |base| == (if ss == [] then 1 else 0)
    requires |base| == 1 ==> HoldsAsBuilt(base[0], params, p0, placement)
    requires params.entries == Snapshot(p0, ss, ds, Min(|ss|, |ds|))
    requires |rarr| == |base| + Min(|ss|, |ds|) && rarr[..|base|] == base
    requires forall k :: |base| <= k < |rarr| ==> HoldsAsBuilt(rarr[k], params, Snapshot(p0, ss, ds, k - |base| + 1), placement)
    ensures BuiltValues(rarr) == RulesFrom(AsBuilt(p0, ss, ds), table, chain, ipv)
    ensures forall k :: 0 <= k < |rarr| && rarr[k].params.entries != map[] ==> rarr[k].params == params
  {
    var ps := AsBuilt(p0, ss, ds);
    forall k | 0 <= k < |rarr|
      ensures rarr[k].params.entries == ps[k]
      ensures rarr[k].params.entries != map[] ==> rarr[k].params == params
    {
      if k < |base| {
        assert rarr[k] == base[0];
      } else {
        assert HoldsAsBuilt(rarr[k], params, Snapshot(p0, ss, ds, k - |base| + 1), placement);
      }
    }
  }

  /** The interface-selector part of `rule`: a new dictionary holding InterfaceParams, or KeyError. */
  method NewInterfaceParams(name: string, chain: Option<string>, restrictIn: bool, restrictOut: bool)
    returns (res: Result<ParamDict>)
    ensures res.Ok? ==> fresh(res.value) && InterfaceParams(name, chain, restrictIn, restrictOut) == Ok(res.value.entries)
    ensures res.Err? ==> InterfaceParams(name, chain, restrictIn, restrictOut) == Err(KeyError)
  {
    var params := new ParamDict(map[]);
    if chain.Some? && chain.value != "" {
      if chain.value !in ChainIf {
        return Err(KeyError);
      }
      var netifs := ChainIf[chain.value];
      var k := 0;
      while k < |netifs|
        invariant 0 <= k <= |netifs|
        invariant params.entries == map netif | netif in netifs[..k] && Restricts(netif, restrictIn, restrictOut) :: Str(name)
      {
        if Restricts(netifs[k], restrictIn, restrictOut) {
          params.Set(netifs[k], Str(name));
        }
        k := k + 1;
        assert netifs[..k] == netifs[..k - 1] + [netifs[k - 1]];
      }
      assert netifs[..k] == netifs;
    }
    return Ok(params);
  }

  /** `Rule(params=params, ...)`: the rule holds `params` itself, or a new empty dictionary if `params` is empty. */
  method Build(params: ParamDict, placement: Rule) returns (b: BuiltRule)
    ensures params.entries == map[] ==> fresh(b.params) && b.params.entries == map[]
    ensures params.entries != map[] ==> b.params == params
    ensures b.target == placement.target && b.chain == placement.chain && b.table == placement.table
    ensures b.ipv == placement.ipv && b.kwargs == placement.kwargs
  {
    var rp := params;
    if params.entries == map[] {
      rp := new ParamDict(map[]);
    }
    b := BuiltRule(rp, placement.target, placement.chain, placement.table, placement.ipv, placement.kwargs);
  }

  /**
   * What a built rule holds once `rule` has returned, given the shared dictionary and that
   * dictionary's contents when the rule was built.
   */
  ghost predicate HoldsAsBuilt(b: BuiltRule, shared: ParamDict, snap: Params, placement: Rule)
    reads b.params
  {
    && (snap == map[] ==> b.params != shared && b.params.entries == map[])
    && (snap != map[] ==> b.params == shared)
    && b.target == placement.target && b.chain == placement.chain && b.table == placement.table
    && b.ipv == placement.ipv && b.kwargs == placement.kwargs
  }

  /** The zip loop of `rule`: one Step per (src, dst) pair on the shared dictionary, then one rule built from it. */
  method ZipRules(params: ParamDict, ss: seq<Option<string>>, ds: seq<Option<string>>, placement: Rule, rarr0: seq<BuiltRule>)
    returns (rarr: seq<BuiltRule>)
    modifies params
    ensures params.entries == Snapshot(old(params.entries), ss, ds, Min(|ss|, |ds|))
    ensures |rarr| == |rarr0| + Min(|ss|, |ds|) && rarr[..|rarr0|] == rarr0
    ensures forall k :: |rarr0| <= k < |rarr| ==>
      HoldsAsBuilt(rarr[k], params, Snapshot(old(params.entries), ss, ds, k - |rarr0| + 1), placement)
  {
    ghost var p0 := params.entries;
    var n := Min(|ss|, |ds|);
    rarr := rarr0;
    var i := 0;
    while i < n
      invariant 0 <= i <= n
      invariant params.entries == Snapshot(p0, ss, ds, i)
      invariant |rarr| == |rarr0| + i && rarr[..|rarr0|] == rarr0
      invariant forall k :: |rarr0| <= k < |rarr| ==> HoldsAsBuilt(rarr[k], params, Snapshot(p0, ss, ds, k - |rarr0| + 1), placement)
    {
      if Truthy(ss[i]) {
        params.Set("src", Str(ss[i].value));
      }
      if Truthy(ds[i]) {
        params.Set("dst", Str(ds[i].value));
      }
      var b := Build(params, placement);
      rarr := rarr + [b];
      i := i + 1;
    }
  }
}
