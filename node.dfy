/**
 * Node of baleful/node.py: the rules of one host, its chain policies, and
 * `start` / `set_policy`, run against an abstract iptables backend that
 * holds each chain's rules top to bottom and each built-in chain's policy.
 */
module Nodes {
  import opened Wrappers
  import opened Rules

  /** A chain as a rule addresses it: IP version, table and chain name. */
  datatype ChainId = ChainId(ipv: int, table: string, chain: string)

  /** The chain a rule is installed into. */
  function ChainOf(r: Rule): ChainId {
    ChainId(r.ipv, r.table, r.chain)
  }

  /** One call `start` makes on the backend. */
  datatype Call = Append(chain: ChainId, rule: Rule) | Insert(chain: ChainId, rule: Rule)

  type Chains = map<ChainId, seq<Rule>>

  /** A Node's `policy` dictionary, in its order: ip version to (chain name to action). */
  type Policy = seq<(int, map<string, string>)>

  /** The rules of a chain, top to bottom; a chain never written to holds none. */
  function RulesIn(chains: Chains, c: ChainId): seq<Rule> {
    if c in chains then chains[c] else []
  }

  // ---------------------------------------------------------------- ordering

  /** The rules of `rs` that belong to chain `c`, in the order of `rs`. */
  function OnChain(rs: seq<Rule>, c: ChainId): seq<Rule>
    decreases |rs|
  {
    if rs == [] then []
    else OnChain(rs[..|rs| - 1], c) + (if ChainOf(rs[|rs| - 1]) == c then [rs[|rs| - 1]] else [])
  }

  function Reverse<T>(s: seq<T>): seq<T>
    decreases |s|
  {
    if s == [] then [] else [s[|s| - 1]] + Reverse(s[..|s| - 1])
  }

  /** The chains after `chain.append_rule` of each rule of `rs`, in order. */
  function AppendAll(chains: Chains, rs: seq<Rule>): Chains
    decreases |rs|
  {
    if rs == [] then chains
    else
      var before := AppendAll(chains, rs[..|rs| - 1]);
      var r := rs[|rs| - 1];
      before[ChainOf(r) := RulesIn(before, ChainOf(r)) + [r]]
  }

  /** The chains after `chain.insert_rule` (at the head) of each rule of `rs`, in order. */
  function InsertAll(chains: Chains, rs: seq<Rule>): Chains
    decreases |rs|
  {
    if rs == [] then chains
    else
      var before := InsertAll(chains, rs[..|rs| - 1]);
      var r := rs[|rs| - 1];
      before[ChainOf(r) := [r] + RulesIn(before, ChainOf(r))]
  }

  /** The calls `start` makes for `rs`: appends with no position, head inserts otherwise. */
  function CallsFor(rs: seq<Rule>, append: bool): seq<Call> {
    seq(|rs|, i requires 0 <= i < |rs| => if append then Append(ChainOf(rs[i]), rs[i]) else Insert(ChainOf(rs[i]), rs[i]))
  }

  /** Appending leaves each chain's old rules on top and adds its own rules of `rs` below, in order. */
  lemma {:induction false} AppendAllChain(chains: Chains, rs: seq<Rule>, c: ChainId)
    ensures RulesIn(AppendAll(chains, rs), c) == RulesIn(chains, c) + OnChain(rs, c)
    decreases |rs|
  {
    if rs != [] {
      AppendAllChain(chains, rs[..|rs| - 1], c);
    }
  }

  /** Head-inserting puts each chain's own rules of `rs` on top, last inserted first. */
  lemma {:induction false} InsertAllChain(chains: Chains, rs: seq<Rule>, c: ChainId)
    ensures RulesIn(InsertAll(chains, rs), c) == Reverse(OnChain(rs, c)) + RulesIn(chains, c)
    decreases |rs|
  {
    if rs != [] {
      var n := |rs| - 1;
      InsertAllChain(chains, rs[..n], c);
      var o := OnChain(rs[..n], c);
      if ChainOf(rs[n]) == c {
        assert RulesIn(InsertAll(chains, rs), c) == [rs[n]] + RulesIn(InsertAll(chains, rs[..n]), c);
        assert OnChain(rs, c) == o + [rs[n]];
        assert (o + [rs[n]])[..|o|] == o;
        assert Reverse(o + [rs[n]]) == [rs[n]] + Reverse(o);
        assert RulesIn(InsertAll(chains, rs), c) == [rs[n]] + (Reverse(o) + RulesIn(chains, c));
      } else {
        assert OnChain(rs, c) == o;
        assert RulesIn(InsertAll(chains, rs), c) == RulesIn(InsertAll(chains, rs[..n]), c);
      }
    }
  }

  lemma {:induction false} ReverseConcat<T>(a: seq<T>, b: seq<T>)
    ensures Reverse(a + b) == Reverse(b) + Reverse(a)
    decreases |b|
  {
    if b == [] {
      assert a + b == a;
    } else {
      var n := |b| - 1;
      assert (a + b)[..|a + b| - 1] == a + b[..n];
      ReverseConcat(a, b[..n]);
    }
  }

  lemma {:induction false} ReverseInvolutive<T>(s: seq<T>)
    ensures Reverse(Reverse(s)) == s
    decreases |s|
  {
    if s != [] {
      var n := |s| - 1;
      ReverseConcat([s[n]], Reverse(s[..n]));
      ReverseInvolutive(s[..n]);
      assert Reverse([s[n]]) == [s[n]];
      assert s[..n] + [s[n]] == s;
    }
  }

  lemma {:induction false} OnChainConcat(a: seq<Rule>, b: seq<Rule>, c: ChainId)
    ensures OnChain(a + b, c) == OnChain(a, c) + OnChain(b, c)
    decreases |b|
  {
    if b == [] {
      assert a + b == a;
    } else {
      var n := |b| - 1;
      assert (a + b)[..|a + b| - 1] == a + b[..n];
      OnChainConcat(a, b[..n], c);
    }
  }

  /** Filtering a reversed list is reversing the filtered list. */
  lemma {:induction false} OnChainReverse(rs: seq<Rule>, c: ChainId)
    ensures OnChain(Reverse(rs), c) == Reverse(OnChain(rs, c))
    decreases |rs|
  {
    if rs != [] {
      var n := |rs| - 1;
      var x := rs[n];
      OnChainConcat([x], Reverse(rs[..n]), c);
      OnChainReverse(rs[..n], c);
      var t := if ChainOf(x) == c then [x] else [];
      assert [x][..0] == [];
      assert OnChain([x], c) == t;
      ReverseConcat(OnChain(rs[..n], c), t);
      assert Reverse(t) == t;
    }
  }

  /**
   * Whatever the position, each chain's new rules appear top to bottom in the order of the
   * list `start` was given: appended below the old rules with no position, reversed and
   * head-inserted above them otherwise.
   */
  lemma StartOrder(chains: Chains, rs: seq<Rule>, c: ChainId)
    ensures RulesIn(AppendAll(chains, rs), c) == RulesIn(chains, c) + OnChain(rs, c)
    ensures RulesIn(InsertAll(chains, Reverse(rs)), c) == OnChain(rs, c) + RulesIn(chains, c)
  {
    AppendAllChain(chains, rs, c);
    InsertAllChain(chains, Reverse(rs), c);
    OnChainReverse(rs, c);
    ReverseInvolutive(OnChain(rs, c));
  }

  /** Chains no rule of `rs` belongs to are left as they were. */
  lemma StartFrames(chains: Chains, rs: seq<Rule>, c: ChainId)
    requires forall i :: 0 <= i < |rs| ==> ChainOf(rs[i]) != c
    ensures RulesIn(AppendAll(chains, rs), c) == RulesIn(chains, c)
    ensures RulesIn(InsertAll(chains, Reverse(rs)), c) == RulesIn(chains, c)
  {
    StartOrder(chains, rs, c);
    NotOnChain(rs, c);
  }

  lemma {:induction false} NotOnChain(rs: seq<Rule>, c: ChainId)
    requires forall i :: 0 <= i < |rs| ==> ChainOf(rs[i]) != c
    ensures OnChain(rs, c) == []
    decreases |rs|
  {
    if rs != [] {
      NotOnChain(rs[..|rs| - 1], c);
    }
  }

  // ---------------------------------------------------------------- policies

  /** The policies after one item of the policy dictionary: chains of that version named in `v` get `v`'s action. */
  function ApplyPolicy(pol: map<ChainId, string>, ipv: int, v: map<string, string>): map<ChainId, string> {
    map c | c in pol :: if c.ipv == ipv && c.chain in v then v[c.chain] else pol[c]
  }

  /** The policy items applied in order. */
  function ApplyPolicies(pol: map<ChainId, string>, items: Policy): map<ChainId, string>
    decreases |items|
  {
    if items == [] then pol
    else
      var (ipv, v) := items[|items| - 1];
      ApplyPolicy(ApplyPolicies(pol, items[..|items| - 1]), ipv, v)
  }

  /** Rule.IPTABLES has entries for ip versions 4 and 6 only. */
  predicate KnownIpv(ipv: int) {
    ipv == 4 || ipv == 6
  }

  /** How many items `set_policy` gets through before the first unknown ip version raises KeyError. */
  function ValidPrefix(items: Policy): (n: nat)
    ensures n <= |items|
    ensures forall k :: 0 <= k < n ==> KnownIpv(items[k].0)
    ensures n < |items| ==> !KnownIpv(items[n].0)
  {
    if items == [] then 0
    else if !KnownIpv(items[0].0) then 0
    else
      var n := 1 + ValidPrefix(items[1..]);
      assert forall k :: 1 <= k < |items| ==> items[k] == items[1..][k - 1];
      n
  }

  /** Dictionary keys are distinct. */
  ghost predicate DistinctVersions(items: Policy) {
    forall k, l :: 0 <= k < l < |items| ==> items[k].0 != items[l].0
  }

  /**
   * The effect of the applied policy items on one chain: the action its version's map names for it,
   * or its old policy when no item names it; no chain is added or removed.
   */
  lemma {:induction false} ApplyPoliciesEffect(pol: map<ChainId, string>, items: Policy, c: ChainId)
    requires DistinctVersions(items)
    ensures ApplyPolicies(pol, items).Keys == pol.Keys
    ensures c in pol ==> forall k :: 0 <= k < |items| && items[k].0 == c.ipv && c.chain in items[k].1 ==>
      ApplyPolicies(pol, items)[c] == items[k].1[c.chain]
    ensures c in pol && (forall k :: 0 <= k < |items| ==> !(items[k].0 == c.ipv && c.chain in items[k].1)) ==>
      ApplyPolicies(pol, items)[c] == pol[c]
    decreases |items|
  {
    if items != [] {
      var n := |items| - 1;
      var pre := items[..n];
      ApplyPoliciesEffect(pol, pre, c);
      assert forall k :: 0 <= k < n ==> pre[k] == items[k];
    }
  }

  /** The default policy of Node.__init__: ACCEPT on INPUT, OUTPUT and FORWARD, for versions 4 and 6. */
  const AcceptAll: map<string, string> := map["INPUT" := "ACCEPT", "OUTPUT" := "ACCEPT", "FORWARD" := "ACCEPT"]
  const DefaultPolicy: Policy := [(4, AcceptAll), (6, AcceptAll)]

  /** With the default policy, set_policy makes every INPUT, OUTPUT and FORWARD chain ACCEPT and leaves the rest. */
  lemma DefaultPolicyEffect(pol: map<ChainId, string>, c: ChainId)
    requires c in pol
    ensures ValidPrefix(DefaultPolicy) == |DefaultPolicy|
    ensures c in ApplyPolicies(pol, DefaultPolicy)
    ensures ApplyPolicies(pol, DefaultPolicy)[c] ==
      if KnownIpv(c.ipv) && c.chain in {"INPUT", "OUTPUT", "FORWARD"} then "ACCEPT" else pol[c]
  {
    ApplyPoliciesEffect(pol, DefaultPolicy, c);
    if KnownIpv(c.ipv) && c.chain in {"INPUT", "OUTPUT", "FORWARD"} {
      var k := if c.ipv == 4 then 0 else 1;
      assert DefaultPolicy[k].0 == c.ipv && c.chain in DefaultPolicy[k].1;
    }
  }

  // ---------------------------------------------------------------- the backend

  /** The iptables state seen through python-iptc: rules per chain, policy per built-in chain, calls made. */
  class Backend {
    var chains: Chains
    var policies: map<ChainId, string>
    var calls: seq<Call>

    constructor (chains: Chains, policies: map<ChainId, string>)
      ensures this.chains == chains && this.policies == policies && this.calls == []
    {
      this.chains := chains;
      this.policies := policies;
      this.calls := [];
    }

    /** `chain.append_rule(rule)`: the rule goes to the bottom of its chain. */
    method AppendRule(r: Rule)
      modifies this
      ensures chains == old(chains)[ChainOf(r) := RulesIn(old(chains), ChainOf(r)) + [r]]
      ensures policies == old(policies)
      ensures calls == old(calls) + [Append(ChainOf(r), r)]
    {
      chains := chains[ChainOf(r) := RulesIn(chains, ChainOf(r)) + [r]];
      calls := calls + [Append(ChainOf(r), r)];
    }

    /** `chain.insert_rule(rule)` with python-iptc's default position 0: the rule goes to the top. */
    method InsertRule(r: Rule)
      modifies this
      ensures chains == old(chains)[ChainOf(r) := [r] + RulesIn(old(chains), ChainOf(r))]
      ensures policies == old(policies)
      ensures calls == old(calls) + [Insert(ChainOf(r), r)]
    {
      chains := chains[ChainOf(r) := [r] + RulesIn(chains, ChainOf(r))];
      calls := calls + [Insert(ChainOf(r), r)];
    }

    /** `chain.set_policy(action)` */
    method SetChainPolicy(c: ChainId, action: string)
      requires c in policies
      modifies this
      ensures policies == old(policies)[c := action]
      ensures chains == old(chains) && calls == old(calls)
    {
      policies := policies[c := action];
    }
  }

  // ---------------------------------------------------------------- the node

  /** A Python Node object. */
  class Node {
    var hostname: string
    var rules: seq<Rule>
    var policy: Policy
    var finalRules: seq<Rule>

    /** Node.__init__: a missing or empty argument takes its default. */
    constructor (hostname: string, rules: Option<seq<Rule>>, policy: Option<Policy>, finalRules: Option<seq<Rule>>)
      ensures this.hostname == hostname
      ensures this.rules == (if rules.Some? then rules.value else [])
      ensures this.policy == (if policy.Some? && policy.value != [] then policy.value else DefaultPolicy)
      ensures this.finalRules == (if finalRules.Some? then finalRules.value else [])
    {
      this.hostname := hostname;
      this.rules := if rules.Some? && rules.value != [] then rules.value else [];
      this.policy := if policy.Some? && policy.value != [] then policy.value else DefaultPolicy;
      this.finalRules := if finalRules.Some? && finalRules.value != [] then finalRules.value else [];
    }

    /**
     * Node.start: installs a new list `rules + final_rules`, appending each rule with no position,
     * otherwise reversing the list and inserting each rule at the head. One backend call per rule;
     * the node itself is not changed.
     */
    method Start(backend: Backend, position: Option<int>)
      modifies backend
      ensures backend.chains == (
        if position.None? then AppendAll(old(backend.chains), rules + finalRules)
        else InsertAll(old(backend.chains), Reverse(rules + finalRules)))
      ensures backend.calls == old(backend.calls) + (
        if position.None? then CallsFor(rules + finalRules, true)
        else CallsFor(Reverse(rules + finalRules), false))
      ensures backend.policies == old(backend.policies)
    {
      var rs := rules + finalRules;
      if position.Some? {
        rs := Reverse(rs);
      }
      var i := 0;
      while i < |rs|
        invariant 0 <= i <= |rs|
        invariant backend.chains == (
          if position.None? then AppendAll(old(backend.chains), rs[..i]) else InsertAll(old(backend.chains), rs[..i]))
        invariant backend.calls == old(backend.calls) + CallsFor(rs[..i], position.None?)
        invariant backend.policies == old(backend.policies)
      {
        assert rs[..i + 1][..i] == rs[..i];
        assert CallsFor(rs[..i + 1], position.None?) == CallsFor(rs[..i], position.None?) + CallsFor([rs[i]], position.None?);
        if position.None? {
          backend.AppendRule(rs[i]);
        } else {
          backend.InsertRule(rs[i]);
        }
        i := i + 1;
      }
      assert rs[..i] == rs;
    }

    /**
     * Node.set_policy: for each version of the policy dictionary in order, every chain of that
     * version whose name the version's map holds gets the mapped action. A version Rule.IPTABLES
     * does not know raises KeyError after the items before it have been applied.
     */
    method SetPolicy(backend: Backend) returns (res: Result<()>)
      modifies backend
      ensures backend.policies == ApplyPolicies(old(backend.policies), policy[..ValidPrefix(policy)])
      ensures res.Err? <==> ValidPrefix(policy) < |policy|
      ensures res.Err? ==> res.error == KeyError
      ensures backend.chains == old(backend.chains) && backend.calls == old(backend.calls)
    {
      var n := 0;
      while n < |policy|
        invariant 0 <= n <= ValidPrefix(policy)
        invariant backend.policies == ApplyPolicies(old(backend.policies), policy[..n])
        invariant backend.chains == old(backend.chains) && backend.calls == old(backend.calls)
      {
        var (ipv, v) := policy[n];
        if !KnownIpv(ipv) {
          return Err(KeyError);
        }
        ghost var before := backend.policies;
        SetVersionPolicy(backend, ipv, v);
        assert policy[..n + 1][..n] == policy[..n];
        assert backend.policies == ApplyPolicy(before, ipv, v);
        n := n + 1;
      }
      return Ok(());
    }
  
    /** The inner loops of set_policy: every chain of version `ipv`, in every table, whose name `v` holds. */
    static method SetVersionPolicy(backend: Backend, ipv: int, v: map<string, string>)
      modifies backend
      ensures backend.policies == ApplyPolicy(old(backend.policies), ipv, v)
      ensures backend.chains == old(backend.chains) && backend.calls == old(backend.calls)
    {
      var todo := backend.policies.Keys;
      while todo != {}
        invariant todo <= old(backend.policies).Keys
        invariant backend.policies.Keys == old(backend.policies).Keys
        invariant forall c :: c in old(backend.policies) ==> (backend.policies[c] ==
          if c !in todo && c.ipv == ipv && c.chain in v then v[c.chain] else old(backend.policies)[c])
        invariant backend.chains == old(backend.chains) && backend.calls == old(backend.calls)
        decreases todo
      {
        var c :| c in todo;
        if c.ipv == ipv && c.chain in v {
          backend.SetChainPolicy(c, v[c.chain]);
        }
        todo := todo - {c};
      }
    }
  }
}
