/**
 * Rule.flip of baleful/rule.py: the direction reversal of a rule, driven by
 * the two swap tables FLIP_KEYS (which keys change places) and FLIP_VALS
 * (which values change into which), and the Rule object that it changes in place.
 */
module Flip {
  import opened Wrappers
  import opened Dicts
  import opened Rules

  /** A swap table: one `(left, right)` pair per dictionary item, in the dictionary's order. */
  type Pairs = seq<(string, string)>

  /** Rule.__FLIP_KEYS: for the rule's own params ("") and some match modules, the keys that change places. */
  const FlipKeys: seq<(string, Pairs)> := [
    ("", [("src", "dst"), ("in_interface", "out_interface")]),
    ("tcp", [("sport", "dport")]),
    ("udp", [("sport", "dport")]),
    ("iprange", [("src-range", "dst-range")])]

  /** One item of Rule.__FLIP_VALS: the table for the chain, or per-field tables of one match module. */
  datatype ValueTable = ChainTable(pairs: Pairs) | MatchTable(mname: string, fields: seq<(string, Pairs)>)

  const ChainPairs: Pairs := [("INPUT", "OUTPUT"), ("PREROUTING", "POSTROUTING"), ("FORWARD", "FORWARD")]

  const IcmpTypePairs: Pairs := [("echo-request", "echo-reply")]

  /** Rule.__FLIP_VALS, in its order: '' (no fields), 'chain', 'icmp'. */
  const FlipVals: seq<ValueTable> := [
    MatchTable("", []),
    ChainTable(ChainPairs),
    MatchTable("icmp", [("icmp_type", IcmpTypePairs)])]

  // ---------------------------------------------------------------- keys

  /** The key whose entry lands under `k` when `skey` and `dkey` change places. */
  function Partner(k: string, skey: string, dkey: string): string {
    if k == skey then dkey else if k == dkey then skey else k
  }

  /** Rule.__flip_key: swap two keys of a dictionary; a lone key moves to its partner. */
  function FlipKey(m: Params, skey: string, dkey: string): (r: Params)
    ensures forall k :: Get(r, k) == Get(m, Partner(k, skey, dkey))
  {
    if skey in m && dkey in m then m[skey := m[dkey]][dkey := m[skey]]
    else if skey in m then (m - {skey})[dkey := m[skey]]
    else if dkey in m then (m - {dkey})[skey := m[dkey]]
    else m
  }

  /** Swapping the same two keys twice gives the dictionary back. */
  lemma FlipKeyInvolutive(m: Params, skey: string, dkey: string)
    ensures FlipKey(FlipKey(m, skey, dkey), skey, dkey) == m
  {
    var twice := FlipKey(FlipKey(m, skey, dkey), skey, dkey);
    forall k ensures Get(twice, k) == Get(m, k) {
      assert Partner(Partner(k, skey, dkey), skey, dkey) == k;
    }
    GetExtensional(twice, m);
  }

  // ---------------------------------------------------------------- values

  /** `rdict[value]` when `value in rdict`: the right side of the pair whose left side is `key`. */
  function Lookup(pairs: Pairs, key: string): (r: Option<string>)
    ensures r.None? <==> forall i :: 0 <= i < |pairs| ==> pairs[i].0 != key
    ensures r.Some? ==> exists i :: 0 <= i < |pairs| && pairs[i] == (key, r.value)
  {
    if pairs == [] then None
    else if pairs[0].0 == key then Some(pairs[0].1)
    else
      var r := Lookup(pairs[1..], key);
      assert r.Some? ==> exists i :: 0 <= i < |pairs[1..]| && pairs[1..][i] == (key, r.value);
      assert forall i :: 1 <= i < |pairs| ==> pairs[i] == pairs[1..][i - 1];
      r
  }

  /**
   * The inverse dictionary `dict((v, k) for k, v in rdict.items())` looked up at `value`:
   * the left side of the last pair whose right side is `value`.
   */
  function InverseLookup(pairs: Pairs, value: string): (r: Option<string>)
    ensures r.None? <==> forall i :: 0 <= i < |pairs| ==> pairs[i].1 != value
    ensures r.Some? ==> exists i :: 0 <= i < |pairs| && pairs[i] == (r.value, value)
    decreases |pairs|
  {
    if pairs == [] then None
    else if pairs[|pairs| - 1].1 == value then Some(pairs[|pairs| - 1].0)
    else
      var r := InverseLookup(pairs[..|pairs| - 1], value);
      assert forall i :: 0 <= i < |pairs| - 1 ==> pairs[i] == pairs[..|pairs| - 1][i];
      r
  }

  /** Rule.__flip_val: a left side maps to its right side, a right side back to its left side, anything else to itself. */
  function FlipVal(value: string, pairs: Pairs): string {
    match Lookup(pairs, value)
    case Some(w) => w
    case None =>
      match InverseLookup(pairs, value)
      case Some(k) => k
      case None => value
  }

  /** `__flip_val` on a match parameter: an int is never a key or value of a table. */
  function FlipValue(v: Value, pairs: Pairs): Value {
    match v
    case Str(s) => Str(FlipVal(s, pairs))
    case Int(_) => v
  }

  /**
   * A table that `__flip_val` turns into an involution: left sides distinct,
   * right sides distinct, and a left side that is also a right side maps to itself.
   */
  ghost predicate SwapTable(pairs: Pairs) {
    && (forall i, j :: 0 <= i < j < |pairs| ==> pairs[i].0 != pairs[j].0 && pairs[i].1 != pairs[j].1)
    && (forall i, j :: 0 <= i < |pairs| && 0 <= j < |pairs| && pairs[i].0 == pairs[j].1 ==> pairs[i].0 == pairs[i].1)
  }

  lemma ChainPairsSwapTable()
    ensures SwapTable(ChainPairs)
  {
  }

  lemma IcmpTypePairsSwapTable()
    ensures SwapTable(IcmpTypePairs)
  {
  }

  /** In a swap table, each left side looks up its own right side. */
  lemma LookupInTable(pairs: Pairs, i: int)
    requires SwapTable(pairs) && 0 <= i < |pairs|
    ensures Lookup(pairs, pairs[i].0) == Some(pairs[i].1)
  {
    var r := Lookup(pairs, pairs[i].0);
    var j :| 0 <= j < |pairs| && pairs[j] == (pairs[i].0, r.value);
    assert i == j;
  }

  /** In a swap table, each right side looks up its own left side in the inverse. */
  lemma InverseLookupInTable(pairs: Pairs, i: int)
    requires SwapTable(pairs) && 0 <= i < |pairs|
    ensures InverseLookup(pairs, pairs[i].1) == Some(pairs[i].0)
  {
    var r := InverseLookup(pairs, pairs[i].1);
    var j :| 0 <= j < |pairs| && pairs[j] == (r.value, pairs[i].1);
    assert i == j;
  }

  /** `__flip_val` with a swap table undoes itself. */
  lemma FlipValInvolutive(pairs: Pairs, v: string)
    requires SwapTable(pairs)
    ensures FlipVal(FlipVal(v, pairs), pairs) == v
  {
    var w := FlipVal(v, pairs);
    if Lookup(pairs, v).Some? {
      var i :| 0 <= i < |pairs| && pairs[i] == (v, w);
      if Lookup(pairs, w).Some? {
        var u := Lookup(pairs, w).value;
        var j :| 0 <= j < |pairs| && pairs[j] == (w, u);
        assert pairs[j].0 == pairs[i].1;
        assert i == j;
      } else {
        InverseLookupInTable(pairs, i);
      }
    } else if InverseLookup(pairs, v).Some? {
      var i :| 0 <= i < |pairs| && pairs[i] == (w, v);
      LookupInTable(pairs, i);
    }
  }

  /** The chain table: INPUT and OUTPUT change places, so do PREROUTING and POSTROUTING; every other chain is kept. */
  lemma FlipChain(c: string)
    ensures FlipVal(c, ChainPairs) ==
      if c == "INPUT" then "OUTPUT" else if c == "OUTPUT" then "INPUT"
      else if c == "PREROUTING" then "POSTROUTING" else if c == "POSTROUTING" then "PREROUTING"
      else c
  {
    ChainPairsSwapTable();
    if c == "INPUT" || c == "PREROUTING" || c == "FORWARD" {
      var i := if c == "INPUT" then 0 else if c == "PREROUTING" then 1 else 2;
      LookupInTable(ChainPairs, i);
    } else if c == "OUTPUT" || c == "POSTROUTING" {
      var i := if c == "OUTPUT" then 0 else 1;
      InverseLookupInTable(ChainPairs, i);
    }
  }

  /** The ICMP type table: echo-request and echo-reply change places; every other value is kept. */
  lemma FlipIcmpType(v: Value)
    ensures FlipValue(v, IcmpTypePairs) ==
      if v == Str("echo-request") then Str("echo-reply")
      else if v == Str("echo-reply") then Str("echo-request")
      else v
  {
    IcmpTypePairsSwapTable();
    if v == Str("echo-request") {
      LookupInTable(IcmpTypePairs, 0);
    } else if v == Str("echo-reply") {
      InverseLookupInTable(IcmpTypePairs, 0);
    }
  }

  // ---------------------------------------------------------------- the whole rule

  /** One FLIP_KEYS item applied in order: swaps in params for "", in an existing match group otherwise. */
  function FlipKeysOf(r: Rule, mname: string, pairs: Pairs): Rule
    decreases |pairs|
  {
    if pairs == [] then r
    else
      var r' := FlipKeysOf(r, mname, pairs[..|pairs| - 1]);
      var (skey, dkey) := pairs[|pairs| - 1];
      if mname == "" then r'.(params := FlipKey(r'.params, skey, dkey))
      else if mname in r'.kwargs then r'.(kwargs := r'.kwargs[mname := FlipKey(r'.kwargs[mname], skey, dkey)])
      else r'
  }

  /** The FLIP_KEYS items applied one after the other. */
  function ApplyKeyFlips(r: Rule, table: seq<(string, Pairs)>): Rule
    decreases |table|
  {
    if table == [] then r
    else FlipKeysOf(ApplyKeyFlips(r, table[..|table| - 1]), table[|table| - 1].0, table[|table| - 1].1)
  }

  /** The per-field value tables of one FLIP_VALS item, applied to a present field of a present mname. */
  function FlipFieldValues(r: Rule, mname: string, fields: seq<(string, Pairs)>): Rule
    decreases |fields|
  {
    if fields == [] then r
    else
      var r' := FlipFieldValues(r, mname, fields[..|fields| - 1]);
      var (field, pairs) := fields[|fields| - 1];
      if mname in r'.kwargs && field in r'.kwargs[mname] then
        r'.(kwargs := r'.kwargs[mname := r'.kwargs[mname][field := FlipValue(r'.kwargs[mname][field], pairs)]])
      else r'
  }

  function FlipValuesOf(r: Rule, entry: ValueTable): Rule {
    match entry
    case ChainTable(pairs) => r.(chain := FlipVal(r.chain, pairs))
    case MatchTable(mname, fields) => FlipFieldValues(r, mname, fields)
  }

  /** The FLIP_VALS items applied one after the other. */
  function ApplyValueFlips(r: Rule, table: seq<ValueTable>): Rule
    decreases |table|
  {
    if table == [] then r
    else FlipValuesOf(ApplyValueFlips(r, table[..|table| - 1]), table[|table| - 1])
  }

  /** Rule.flip as it runs: the FLIP_KEYS items, then the FLIP_VALS items, in table order. */
  function FlipByTables(r: Rule): Rule {
    ApplyValueFlips(ApplyKeyFlips(r, FlipKeys), FlipVals)
  }

  /**
   * What flip does to a rule, field by field: src/dst and in_interface/out_interface swapped in
   * params, the chain through the chain table, each match group through FlipGroup; target, table
   * and ipv kept.
   */
  function FlipRule(r: Rule): Rule {
    r.(params := FlipKey(FlipKey(r.params, "src", "dst"), "in_interface", "out_interface"),
       chain := FlipVal(r.chain, ChainPairs),
       kwargs := FlipGroups(r.kwargs))
  }

  /** What flip does to one match group. */
  function FlipGroup(m: string, g: Params): Params {
    if m == "tcp" || m == "udp" then FlipKey(g, "sport", "dport")
    else if m == "iprange" then FlipKey(g, "src-range", "dst-range")
    else if m == "icmp" && "icmp_type" in g then g["icmp_type" := FlipValue(g["icmp_type"], IcmpTypePairs)]
    else g
  }

  lemma ApplyKeyFlipsStep(r: Rule, table: seq<(string, Pairs)>, i: int)
    requires 0 <= i < |table|
    ensures ApplyKeyFlips(r, table[..i + 1]) == FlipKeysOf(ApplyKeyFlips(r, table[..i]), table[i].0, table[i].1)
  {
    assert table[..i + 1][..i] == table[..i];
  }

  lemma ApplyValueFlipsStep(r: Rule, table: seq<ValueTable>, i: int)
    requires 0 <= i < |table|
    ensures ApplyValueFlips(r, table[..i + 1]) == FlipValuesOf(ApplyValueFlips(r, table[..i]), table[i])
  {
    assert table[..i + 1][..i] == table[..i];
  }

  /** The group of match module `m` flipped, when present. */
  function FlipGroupIn(ms: Matches, m: string): Matches {
    if m in ms then ms[m := FlipGroup(m, ms[m])] else ms
  }

  /** A FLIP_KEYS item with one key pair for a match module: that module's group swapped, when present. */
  lemma FlipKeysOfGroup(r: Rule, mname: string, skey: string, dkey: string)
    requires mname != ""
    ensures FlipKeysOf(r, mname, [(skey, dkey)]) ==
      if mname in r.kwargs then r.(kwargs := r.kwargs[mname := FlipKey(r.kwargs[mname], skey, dkey)]) else r
  {
    var ps := [(skey, dkey)];
    assert ps[..0] == [];
  }

  /** The match groups after the keys pass: tcp, udp and iprange swapped, the rest as they were. */
  function KeyGroups(ms: Matches): Matches {
    map m | m in ms :: if m in {"tcp", "udp", "iprange"} then FlipGroup(m, ms[m]) else ms[m]
  }

  /** Every match group flipped. */
  function FlipGroups(ms: Matches): Matches {
    map m | m in ms :: FlipGroup(m, ms[m])
  }

  /** The three match-module swaps of FLIP_KEYS, key by key. */
  lemma FlipGroupsInKeys(ms: Matches)
    ensures FlipGroupIn(FlipGroupIn(FlipGroupIn(ms, "tcp"), "udp"), "iprange") == KeyGroups(ms)
  {
    var l := FlipGroupIn(FlipGroupIn(FlipGroupIn(ms, "tcp"), "udp"), "iprange");
    forall m ensures Get(l, m) == Get(KeyGroups(ms), m) {
    }
    GetExtensional(l, KeyGroups(ms));
  }

  /** The icmp value swap after the keys pass completes the flip of every group. */
  lemma FlipGroupsComplete(ms: Matches)
    ensures FlipGroupIn(KeyGroups(ms), "icmp") == FlipGroups(ms)
  {
    var l := FlipGroupIn(KeyGroups(ms), "icmp");
    forall m ensures Get(l, m) == Get(FlipGroups(ms), m) {
    }
    GetExtensional(l, FlipGroups(ms));
  }

  /** The first FLIP_KEYS item: src/dst and in_interface/out_interface swapped in params. */
  lemma KeyFlipsSelectors(r: Rule)
    ensures ApplyKeyFlips(r, FlipKeys[..1]) ==
      r.(params := FlipKey(FlipKey(r.params, "src", "dst"), "in_interface", "out_interface"))
  {
    var t := FlipKeys;
    assert t[..0] == [];
    var ps := t[0].1;
    assert ps[..1][..0] == [] && ps[..2][..1] == ps[..1] && ps[..2] == ps;
    ApplyKeyFlipsStep(r, t, 0);
  }

  /** A FLIP_KEYS item for tcp, udp or iprange flips that module's group, when present. */
  lemma KeyFlipsGroupStep(r: Rule, t: seq<(string, Pairs)>, i: int)
    requires 0 <= i < |t| && t[i].0 in {"tcp", "udp", "iprange"}
    requires t[i].1 == if t[i].0 == "iprange" then [("src-range", "dst-range")] else [("sport", "dport")]
    ensures ApplyKeyFlips(r, t[..i + 1]) ==
      ApplyKeyFlips(r, t[..i]).(kwargs := FlipGroupIn(ApplyKeyFlips(r, t[..i]).kwargs, t[i].0))
  {
    ApplyKeyFlipsStep(r, t, i);
    FlipKeysOfGroup(ApplyKeyFlips(r, t[..i]), t[i].0, t[i].1[0].0, t[i].1[0].1);
  }

  /** The keys pass of flip: params swapped, and tcp, udp and iprange groups swapped where present. */
  lemma KeyFlipsFields(r: Rule)
    ensures ApplyKeyFlips(r, FlipKeys) == r.(
      params := FlipKey(FlipKey(r.params, "src", "dst"), "in_interface", "out_interface"),
      kwargs := KeyGroups(r.kwargs))
  {
    KeyFlipsTable(r, FlipKeys);
  }

  lemma KeyFlipsTable(r: Rule, t: seq<(string, Pairs)>)
    requires t == FlipKeys
    ensures ApplyKeyFlips(r, t) == r.(
      params := FlipKey(FlipKey(r.params, "src", "dst"), "in_interface", "out_interface"),
      kwargs := KeyGroups(r.kwargs))
  {
    KeyFlipsSelectors(r);
    var k1 := ApplyKeyFlips(r, t[..1]);
    KeyFlipsGroupStep(r, t, 1);
    assert ApplyKeyFlips(r, t[..2]) == k1.(kwargs := FlipGroupIn(r.kwargs, "tcp"));
    KeyFlipsGroupStep(r, t, 2);
    assert ApplyKeyFlips(r, t[..3]) == k1.(kwargs := FlipGroupIn(FlipGroupIn(r.kwargs, "tcp"), "udp"));
    KeyFlipsGroupStep(r, t, 3);
    assert t[..4] == t;
    FlipGroupsInKeys(r.kwargs);
  }

  /** The values pass of flip: the chain through its table, an icmp_type through the ICMP table. */
  lemma ValueFlipsFields(r: Rule)
    ensures ApplyValueFlips(r, FlipVals) == r.(
      chain := FlipVal(r.chain, ChainPairs),
      kwargs := FlipGroupIn(r.kwargs, "icmp"))
  {
    ValueFlipsTable(r, FlipVals);
  }

  lemma ValueFlipsTable(r: Rule, t: seq<ValueTable>)
    requires t == FlipVals
    ensures ApplyValueFlips(r, t) == r.(
      chain := FlipVal(r.chain, ChainPairs),
      kwargs := FlipGroupIn(r.kwargs, "icmp"))
  {
    assert t[..3] == t;
    assert t[..0] == [];
    ApplyValueFlipsStep(r, t, 0);
    var none: seq<(string, Pairs)> := [];
    assert ApplyValueFlips(r, t[..1]) == FlipFieldValues(r, "", none) == r;
    ApplyValueFlipsStep(r, t, 1);
    var v2 := r.(chain := FlipVal(r.chain, ChainPairs));
    assert ApplyValueFlips(r, t[..2]) == v2;
    ApplyValueFlipsStep(r, t, 2);
    var fields := [("icmp_type", IcmpTypePairs)];
    assert fields[..0] == [];
    assert FlipFieldValues(v2, "icmp", fields[..0]) == v2;
    assert ApplyValueFlips(r, t) == FlipFieldValues(v2, "icmp", fields);
    if "icmp" in r.kwargs && "icmp_type" in r.kwargs["icmp"] {
      var g := r.kwargs["icmp"];
      assert FlipFieldValues(v2, "icmp", fields) == v2.(kwargs := r.kwargs["icmp" := g["icmp_type" := FlipValue(g["icmp_type"], IcmpTypePairs)]]);
    } else if "icmp" in r.kwargs {
      assert r.kwargs["icmp" := FlipGroup("icmp", r.kwargs["icmp"])] == r.kwargs;
    }
  }

  /** Walking the FLIP_KEYS and FLIP_VALS tables does exactly what FlipRule says, field by field. */
  lemma FlipTablesAgree(r: Rule)
    ensures FlipByTables(r) == FlipRule(r)
  {
    KeyFlipsFields(r);
    ValueFlipsFields(ApplyKeyFlips(r, FlipKeys));
    FlipGroupsComplete(r.kwargs);
  }

  /** Flip swaps src/dst and in_interface/out_interface and leaves every other selector alone. */
  lemma FlipSwapsSelectors(r: Rule)
    ensures Get(FlipRule(r).params, "src") == Get(r.params, "dst")
    ensures Get(FlipRule(r).params, "dst") == Get(r.params, "src")
    ensures Get(FlipRule(r).params, "in_interface") == Get(r.params, "out_interface")
    ensures Get(FlipRule(r).params, "out_interface") == Get(r.params, "in_interface")
    ensures forall k :: k !in {"src", "dst", "in_interface", "out_interface"} ==>
      Get(FlipRule(r).params, k) == Get(r.params, k)
  {
  }

  /**
   * Flip on one match group: sport/dport change places in tcp and udp, src-range/dst-range
   * in iprange, an icmp_type echo-request/echo-reply flips; every other parameter is kept.
   */
  lemma FlipGroupSwaps(m: string, g: Params)
    ensures (m == "tcp" || m == "udp") ==>
      Get(FlipGroup(m, g), "sport") == Get(g, "dport") && Get(FlipGroup(m, g), "dport") == Get(g, "sport")
    ensures m == "iprange" ==>
      Get(FlipGroup(m, g), "src-range") == Get(g, "dst-range") &&
      Get(FlipGroup(m, g), "dst-range") == Get(g, "src-range")
    ensures m == "icmp" ==> ("icmp_type" in FlipGroup(m, g) <==> "icmp_type" in g)
    ensures m == "icmp" && Get(g, "icmp_type") == Some(Str("echo-request")) ==>
      FlipGroup(m, g)["icmp_type"] == Str("echo-reply")
    ensures m == "icmp" && Get(g, "icmp_type") == Some(Str("echo-reply")) ==>
      FlipGroup(m, g)["icmp_type"] == Str("echo-request")
    ensures m == "icmp" && Get(g, "icmp_type") != Some(Str("echo-request")) && Get(g, "icmp_type") != Some(Str("echo-reply")) ==>
      FlipGroup(m, g) == g
    ensures forall k :: Get(FlipGroup(m, g), k) != Get(g, k) ==>
      ((m == "tcp" || m == "udp") && k in {"sport", "dport"}) ||
      (m == "iprange" && k in {"src-range", "dst-range"}) ||
      (m == "icmp" && k == "icmp_type")
  {
    if m == "icmp" && "icmp_type" in g {
      FlipIcmpType(g["icmp_type"]);
    }
  }

  /** Flipping a match group twice gives it back. */
  lemma FlipGroupInvolutive(m: string, g: Params)
    ensures FlipGroup(m, FlipGroup(m, g)) == g
  {
    if m == "tcp" || m == "udp" {
      FlipKeyInvolutive(g, "sport", "dport");
    } else if m == "iprange" {
      FlipKeyInvolutive(g, "src-range", "dst-range");
    } else if m == "icmp" && "icmp_type" in g {
      IcmpTypePairsSwapTable();
      var v := g["icmp_type"];
      if v.Str? {
        FlipValInvolutive(IcmpTypePairs, v.s);
      }
      assert FlipValue(FlipValue(v, IcmpTypePairs), IcmpTypePairs) == v;
    }
  }

  lemma PartnerCommute(k: string, a: string, b: string, c: string, d: string)
    requires a != c && a != d && b != c && b != d
    ensures Partner(Partner(k, c, d), a, b) == Partner(Partner(k, a, b), c, d)
  {
  }

  /** Swaps of two disjoint key pairs can be done in either order. */
  lemma FlipKeyCommute(m: Params, a: string, b: string, c: string, d: string)
    requires a != c && a != d && b != c && b != d
    ensures FlipKey(FlipKey(m, a, b), c, d) == FlipKey(FlipKey(m, c, d), a, b)
  {
    var x := FlipKey(FlipKey(m, a, b), c, d);
    var y := FlipKey(FlipKey(m, c, d), a, b);
    forall k ensures Get(x, k) == Get(y, k) {
      var ab := FlipKey(m, a, b);
      var cd := FlipKey(m, c, d);
      assert Get(x, k) == Get(ab, Partner(k, c, d));
      assert Get(ab, Partner(k, c, d)) == Get(m, Partner(Partner(k, c, d), a, b));
      assert Get(y, k) == Get(cd, Partner(k, a, b));
      assert Get(cd, Partner(k, a, b)) == Get(m, Partner(Partner(k, a, b), c, d));
      PartnerCommute(k, a, b, c, d);
    }
    GetExtensional(x, y);
  }

  /** The selector swaps of flip undo themselves. */
  lemma FlipParamsInvolutive(p: Params)
    ensures FlipKey(FlipKey(FlipKey(FlipKey(p, "src", "dst"), "in_interface", "out_interface"), "src", "dst"), "in_interface", "out_interface") == p
  {
    var q1 := FlipKey(FlipKey(p, "src", "dst"), "in_interface", "out_interface");
    FlipKeyCommute(FlipKey(p, "src", "dst"), "in_interface", "out_interface", "src", "dst");
    FlipKeyInvolutive(p, "src", "dst");
    assert FlipKey(q1, "src", "dst") == FlipKey(p, "in_interface", "out_interface");
    FlipKeyInvolutive(p, "in_interface", "out_interface");
  }

  /** Flip is an involution: flipping twice restores the rule exactly, chain included. */
  lemma FlipInvolutive(r: Rule)
    ensures FlipRule(FlipRule(r)) == r
  {
    var f := FlipRule(r);
    var ff := FlipRule(f);
    FlipParamsInvolutive(r.params);
    forall m ensures Get(ff.kwargs, m) == Get(r.kwargs, m) {
      if m in r.kwargs {
        FlipGroupInvolutive(m, r.kwargs[m]);
      }
    }
    GetExtensional(ff.kwargs, r.kwargs);
    ChainPairsSwapTable();
    FlipValInvolutive(ChainPairs, r.chain);
  }

  // ---------------------------------------------------------------- the object

  /** A Python Rule object: its attributes, which `flip` reassigns in place. */
  class RuleObject {
    var params: Params
    var target: string
    var chain: string
    var table: string
    var ipv: int
    var kwargs: Matches

    /** The rule this object currently holds. */
    function Value(): Rule
      reads this
    {
      Rule(params, target, chain, table, ipv, kwargs)
    }

    /** Rule.__init__ */
    constructor (params: Params, target: Option<string>, chain: Option<string>,
                 table: Option<string>, ipv: Option<int>, kwargs: Matches)
      ensures Value() == NewRule(params, target, chain, table, ipv, kwargs)
    {
      var r := NewRule(params, target, chain, table, ipv, kwargs);
      this.params := r.params;
      this.target := r.target;
      this.chain := r.chain;
      this.table := r.table;
      this.ipv := r.ipv;
      this.kwargs := r.kwargs;
    }

    /** Rule.copy: a new object with its own copies of both dictionary levels. */
    method Copy() returns (c: RuleObject)
      ensures fresh(c) && c.Value() == Value()
    {
      c := new RuleObject(params, Some(target), Some(chain), Some(table), Some(ipv), kwargs);
    }

    /** Rule.flip: walk FLIP_KEYS swapping keys, then FLIP_VALS flipping values, in place. */
    method Flip()
      modifies this
      ensures Value() == FlipRule(old(Value()))
    {
      FlipTablesAgree(Value());
      FlipKeysPass(FlipKeys);
      FlipValuesPass(FlipVals);
    }

    /** The FLIP_KEYS loop of flip, over the given table. */
    method FlipKeysPass(table: seq<(string, Pairs)>)
      modifies this
      ensures Value() == ApplyKeyFlips(old(Value()), table)
    {
      ghost var start := Value();
      var i := 0;
      while i < |table|
        invariant 0 <= i <= |table|
        invariant Value() == ApplyKeyFlips(start, table[..i])
      {
        var (mname, pairs) := table[i];
        FlipKeysEntry(mname, pairs);
        ApplyKeyFlipsStep(start, table, i);
        i := i + 1;
      }
      assert table[..i] == table;
    }

    /** One FLIP_KEYS item: each key pair swapped in params, or in the mname's group when present. */
    method FlipKeysEntry(mname: string, pairs: Pairs)
      modifies this
      ensures Value() == FlipKeysOf(old(Value()), mname, pairs)
    {
      ghost var before := Value();
      var j := 0;
      while j < |pairs|
        invariant 0 <= j <= |pairs|
        invariant Value() == FlipKeysOf(before, mname, pairs[..j])
      {
        var (skey, dkey) := pairs[j];
        if mname == "" {
          params := FlipKey(params, skey, dkey);
        } else if mname in kwargs {
          kwargs := kwargs[mname := FlipKey(kwargs[mname], skey, dkey)];
        }
        j := j + 1;
        assert pairs[..j][..j - 1] == pairs[..j - 1];
      }
      assert pairs[..j] == pairs;
    }

    /** The FLIP_VALS loop of flip, over the given table. */
    method FlipValuesPass(table: seq<ValueTable>)
      modifies this
      ensures Value() == ApplyValueFlips(old(Value()), table)
    {
      ghost var start := Value();
      var i := 0;
      while i < |table|
        invariant 0 <= i <= |table|
        invariant Value() == ApplyValueFlips(start, table[..i])
      {
        match table[i] {
          case ChainTable(pairs) =>
            chain := FlipVal(chain, pairs);
          case MatchTable(mname, fields) =>
            FlipFieldsEntry(mname, fields);
        }
        ApplyValueFlipsStep(start, table, i);
        i := i + 1;
      }
      assert table[..i] == table;
    }

    /** One FLIP_VALS item for a match module: each present field's value through its table. */
    method FlipFieldsEntry(mname: string, fields: seq<(string, Pairs)>)
      modifies this
      ensures Value() == FlipFieldValues(old(Value()), mname, fields)
    {
      ghost var before := Value();
      var j := 0;
      while j < |fields|
        invariant 0 <= j <= |fields|
        invariant Value() == FlipFieldValues(before, mname, fields[..j])
      {
        var (field, pairs) := fields[j];
        if mname in kwargs && field in kwargs[mname] {
          var value := kwargs[mname][field];
          kwargs := kwargs[mname := kwargs[mname][field := FlipValue(value, pairs)]];
        }
        j := j + 1;
        assert fields[..j][..j - 1] == fields[..j - 1];
      }
      assert fields[..j] == fields;
    }
  }
}
