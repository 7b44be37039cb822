# baleful — a verified model of the firewall-rule algebra

baleful builds iptables rules for a host out of small pieces that combine like algebraic terms.
The pieces are rules, rule arrays, topologies (a forward and a reverse rule array) and network
interfaces. A `Node` finally installs the resulting rules and the chain policies through python-iptc.
This project models that core in Dafny, file by file:

- `rule.dfy` (module `Rules`) holds the `Rule` value: selector `params`, the placement
  (`target`, `chain`, `table`, `ipv`) and the match-module groups `kwargs`. It also holds
  `Rule.__init__` with its defaults, `+` (update by the right operand), `-` (drop equal entries),
  `==` and `!=`. `+` and `-` are methods with loops, proved equal to the functions `Plus` and `Minus`.
  The lemmas state precedence, associativity, identities, idempotence and how `-` undoes `+`.
- `flip.dfy` (module `Flip`) holds `Rule.flip`. A `RuleObject` class keeps the Python attributes
  and is flipped in place by walking the `__FLIP_KEYS` and `__FLIP_VALS` tables. That walk is proved
  equal to a field-wise reference definition `FlipRule`, and `FlipRule` is proved to be an involution.
- `rulearray.dfy` (module `RuleArrays`) holds the `RuleArray` constructor, `copy`, `*`, `rmul`,
  `@`, `/` and `rtruediv`. Each is a method with a loop, proved equal to a function. Lemmas relate
  those functions to `Merge` and `Remove`.
- `topo.dfy` (module `Topologies`) holds `Topology`, `combine` (deep copies flipped pair by pair in a
  zip loop) and the `*` dispatch.
- `node.dfy` (module `Nodes`) holds `Node.__init__`, `start` and `set_policy`. They run against an
  abstract backend that keeps each chain's rules top to bottom, each chain's policy and the calls made.
- `iface.dfy` (module `Interfaces`) holds `NetworkInterface.refresh` and `rule`, with the shared
  params dictionary modelled as a heap object.
- `address.dfy` (module `Addresses`) holds `Address` and `Route`.
- `wrappers.dfy` holds `Option`, `Result` and the Python exceptions raised (`TypeError`, `KeyError`,
  `ValueError`, `AttributeError`), with dictionary lookup `Dicts.Get`.

Python dictionaries are Dafny maps, and `dict.update` is the right-biased map union `+`.
Where a dictionary's iteration order decides what happens, it is a sequence of pairs in insertion order.
Examples are the flip tables, `PROTOCOLS` and a node's policy dictionary.

Where the system's specification and the code disagree, the model follows the code:

- `Rule.__add__` lets the right operand override: its placement and its params win. The specification
  describes a "fill gaps" precedence where the left operand's set fields win.
- No subsumption test exists. `__add__` raises no family-mismatch error.
- `Topology * Rule` and `Topology * RuleArray` call `Topology(...)` with one argument, so they raise
  `TypeError`. `combine` hands whole lists to `Rule.__add__`, so it raises `TypeError` unless both
  arrays of the left topology are empty. The specification describes a flattened composition instead.
- `set_policy` raises `KeyError` at the first ip version other than 4 and 6.
- `start` has no per-rule error capture. `stop`, `lock`, `panic` and `flush` have no bodies.

## Model

| member | source | states |
|---|---|---|
| Rules.NewRule | baleful/rule.py:18-51 | Each placement argument left as None takes its default (ACCEPT, OUTPUT, FILTER, 4). Params and match groups are kept as given. |
| Rules.Add | baleful/rule.py:53-86 | `x + y` raises TypeError unless y is a Rule. Otherwise it is the copy-and-update loop, equal to `Merge(x, y)`. |
| Rules.MergeMatchesAt | baleful/rule.py:72-84 | A match module is in the sum iff it is in either operand. Its group is x's group updated by y's. |
| Rules.MergePrecedence | baleful/rule.py:53-86 | The sum takes y's target, chain, table and ipv. Each param key reads y's value if y has it, else x's. The module set is the union. Each module's key reads y's value first. |
| Rules.MergeMatchesAssociative | baleful/rule.py:72-84 | Merging match groups is associative. |
| Rules.MergeAssociative | baleful/rule.py:53-86 | `(a + b) + c == a + (b + c)`. |
| Rules.MergeEmptyLeft | baleful/rule.py:53-86 | `Rule() + a == a`. |
| Rules.MergeEmptyRight | baleful/rule.py:53-86 | `a + Rule()` equals a under `__eq__`. Its placement is reset to the defaults. |
| Rules.MergeIdempotent | baleful/rule.py:53-86 | `a + a == a`. |
| Rules.DiffDict | baleful/rule.py:99-109 | The inner `diff` removes exactly the entries of x that y holds with an equal value. |
| Rules.DiffAfterUpdate | baleful/rule.py:99-109 | Diffing `x.update(y)` by y leaves x without y's keys. |
| Rules.Sub | baleful/rule.py:88-116 | `x - y` raises TypeError unless y is a Rule. It raises KeyError when x has a match module y lacks. Otherwise it equals `Remove(x, y)`. |
| Rules.RemoveEntries | baleful/rule.py:88-116 | Subtraction keeps x's placement and module set. A param or module key survives iff y does not hold it with an equal value. |
| Rules.RemoveIdempotent | baleful/rule.py:88-116 | Subtracting the same rule twice is subtracting it once. |
| Rules.MinusSelf | baleful/rule.py:88-116 | `a - a` empties the params and every module group and keeps a's placement. |
| Rules.MergeThenMinus | baleful/rule.py:53-116 | `(a + b) - b` raises KeyError iff a has a module b lacks. Otherwise it is a's params without b's keys, b's placement, and for each of b's modules a's group without b's keys there. |
| Rules.EqIff | baleful/rule.py:118-128 | `a == b` iff the params are equal and the match groups are equal apart from a module named "". Placement is ignored. |
| Rules.Ne | baleful/rule.py:130-131 | `a != b` is the negation of the `__eq__` condition. |
| Rules.EqOp | baleful/rule.py:125-128 | `a == other` raises AttributeError unless other is a Rule, because `__eq__` calls `other.dict()`. For a Rule it holds iff the params are equal and the match groups are equal apart from a module named "". |
| Rules.NeOp | baleful/rule.py:130-131 | `a != other` raises exactly where `==` does. Otherwise it holds iff the params or the match groups (apart from "") differ. |
| Flip.FlipKey | baleful/rule.py:186-206 | After `__flip_key`, every key reads the value of its partner key: skey and dkey are exchanged, whether one, both or neither is present. Every other key is unchanged. |
| Flip.FlipKeyInvolutive | baleful/rule.py:186-206 | Swapping the same two keys twice restores the dictionary. |
| Flip.FlipKeyCommute | baleful/rule.py:186-206 | Swaps of disjoint key pairs commute. |
| Flip.Lookup | baleful/rule.py:211-212 | The lookup fails iff no pair has the key. Otherwise it returns a value paired with the key. |
| Flip.InverseLookup | baleful/rule.py:213-215 | The reverse lookup fails iff no pair has the value. Otherwise it returns a key paired with it. |
| Flip.ChainPairsSwapTable | baleful/rule.py:178-181 | The chain table has distinct keys and distinct values, and a key that is also a value (FORWARD) maps to itself. |
| Flip.IcmpTypePairsSwapTable | baleful/rule.py:182-184 | The ICMP type table has the same property. |
| Flip.FlipValInvolutive | baleful/rule.py:208-217 | With such a table, `__flip_val` applied twice returns the value. |
| Flip.FlipChain | baleful/rule.py:176-181 | Flipping a chain exchanges INPUT/OUTPUT and PREROUTING/POSTROUTING and keeps every other name. |
| Flip.FlipIcmpType | baleful/rule.py:182-184 | Flipping an icmp_type exchanges echo-request and echo-reply and keeps every other value. |
| Flip.KeyFlipsFields | baleful/rule.py:150-156 | The keys pass swaps src/dst and in_interface/out_interface in params. It swaps sport/dport in the tcp and udp groups and src-range/dst-range in iprange, where present. It changes nothing else. |
| Flip.ValueFlipsFields | baleful/rule.py:158-167 | The values pass flips the chain through the chain table and an icmp group's icmp_type through the ICMP table. It changes nothing else. |
| Flip.FlipTablesAgree | baleful/rule.py:145-184 | Walking FLIP_KEYS then FLIP_VALS in order gives exactly the field-wise reference flip `FlipRule`. |
| Flip.FlipSwapsSelectors | baleful/rule.py:150-156 | A flipped rule's src, dst, in_interface and out_interface are the original's dst, src, out_interface and in_interface. Every other param is unchanged. |
| Flip.FlipGroupSwaps | baleful/rule.py:170-184 | In a match group: tcp/udp exchange sport and dport. iprange exchanges src-range and dst-range. icmp exchanges echo-request and echo-reply in icmp_type and leaves the group unchanged for any other icmp_type. A key can change only if it is one that its own module swaps. |
| Flip.FlipGroupInvolutive | baleful/rule.py:170-217 | Flipping a match group twice restores it. |
| Flip.FlipParamsInvolutive | baleful/rule.py:150-156 | Flipping the params twice restores them. |
| Flip.FlipInvolutive | baleful/rule.py:145-217 | `flip` is an involution on every rule. |
| Flip.RuleObject.constructor | baleful/rule.py:23-51 | A new Rule object holds `NewRule` of its arguments. |
| Flip.RuleObject.Copy | baleful/rule.py:133-143 | `copy` returns a fresh object holding an equal rule. |
| Flip.RuleObject.Flip | baleful/rule.py:145-167 | `flip` changes the object in place to `FlipRule` of its old value. |
| Flip.RuleObject.FlipKeysPass | baleful/rule.py:150-156 | The outer keys loop leaves the object holding the table fold `ApplyKeyFlips` of its old value. |
| Flip.RuleObject.FlipKeysEntry | baleful/rule.py:151-156 | The inner keys loop for one table entry swaps each pair in params or in that module's group. |
| Flip.RuleObject.FlipValuesPass | baleful/rule.py:158-167 | The outer values loop leaves the object holding the table fold `ApplyValueFlips` of its old value. |
| Flip.RuleObject.FlipFieldsEntry | baleful/rule.py:163-167 | The inner values loop flips each listed field of the module group that is present. |
| RuleArrays.ArrayOf | baleful/rule.py:320-330 | `RuleArray(*args)` succeeds iff every argument is a Rule, holding them in order. Otherwise it raises TypeError. |
| RuleArrays.NewRuleArray | baleful/rule.py:320-330 | The constructor loop computes `ArrayOf`. |
| RuleArrays.CopyRules | baleful/rule.py:332-337 | `copy` returns pairwise distinct fresh objects holding the same rules in order. |
| RuleArrays.Mul | baleful/rule.py:347-352 | `arr * other` is `Broadcast`: each element merged with other on its right. It raises TypeError for a non-Rule operand unless arr is empty. |
| RuleArrays.RMul | baleful/rule.py:339-345 | `other * arr` is `RBroadcast`: other merged with each element on its right. It has the same TypeError case. |
| RuleArrays.BroadcastTypeError | baleful/rule.py:339-352 | Both broadcasts fail iff arr is non-empty and the operand is not a Rule, and then with TypeError. |
| RuleArrays.BroadcastCompose | baleful/rule.py:347-352 | `(arr * b) * c == arr * (b + c)`. |
| RuleArrays.BroadcastIdempotent | baleful/rule.py:347-352 | `(arr * b) * b == arr * b`. |
| RuleArrays.RBroadcastCompose | baleful/rule.py:339-345 | `c * (b * arr) == (c + b) * arr`. |
| RuleArrays.MatMul | baleful/rule.py:354-360 | `x @ y` is the cross product in x-major order, raising TypeError when y is not a list of rules and x is non-empty. |
| RuleArrays.CrossSeqLength | baleful/rule.py:354-360 | The cross product has `|x| * |y|` elements. |
| RuleArrays.CrossSeqAt | baleful/rule.py:354-360 | Element `i * |y| + j` of the cross product is `x[i] + y[j]`. |
| RuleArrays.CrossSingleton | baleful/rule.py:339-360 | `x @ [b] == x * b` and `[a] @ y == a * y`. |
| RuleArrays.TrueDiv | baleful/rule.py:369-374 | `arr / other` subtracts other from every element. It raises TypeError for a non-Rule operand and KeyError when an element has a match module other lacks (arr non-empty). |
| RuleArrays.DivideEachIdempotent | baleful/rule.py:369-374 | Dividing twice by the same rule is dividing once. |
| RuleArrays.RTrueDiv | baleful/rule.py:362-367 | `other / arr` subtracts every element from a copy of other, in order. |
| RuleArrays.RemoveAllOk | baleful/rule.py:362-367 | `other / arr` succeeds iff every element has all of other's match modules. Otherwise it raises KeyError. The module set is kept. |
| RuleArrays.RemoveAllPrefixErr | baleful/rule.py:362-367 | Once a subtraction in the loop raises, the result is that error. |
| RuleArrays.StripStep | baleful/rule.py:362-367 | One more `diff` of the running params by y is the strip over the elements so far plus y. |
| RuleArrays.RemoveAllEntries | baleful/rule.py:362-367 | On success the result is other with every entry removed that some element holds with an equal value, in params and in each group. |
| Topologies.CombineOutcome | baleful/topo.py:24-45 | combine raises TypeError unless both arrays of x are empty, and then returns a topology of two empty arrays. |
| Topologies.Topology.constructor | baleful/topo.py:14-22 | A Topology stores both arrays by reference. |
| Topologies.Topology.FlippedCopies | baleful/topo.py:35-41 | Both flipped arrays are fresh copies whose rules are the element-wise flip of y.forward. |
| Topologies.Topology.FlipZip | baleful/topo.py:38-41 | The zip loop flips every pair of copies in place and touches nothing else. |
| Topologies.Topology.FlipPair | baleful/topo.py:40-41 | One zip step flips both copies in place. |
| Topologies.Topology.Combine | baleful/topo.py:24-45 | combine fails iff `CombineSpec` fails, with its error. Otherwise it returns a fresh topology holding `CombineSpec`'s arrays. |
| Topologies.Topology.Mul | baleful/topo.py:47-57 | The method `t.__mul__(other)` returns NotImplemented iff other is no Rule, RuleArray or Topology; through the `*` operator Python then tries other's `__rmul__` and raises TypeError if that declines too. It raises TypeError for a Rule or RuleArray. For a Topology it is combine with t on the left. |
| Topologies.Topology.RMul | baleful/topo.py:59-69 | The method `t.__rmul__(other)`, called directly, dispatches like `__mul__`, still with t on the left of combine. Through the `*` operator, a Topology or RuleArray on the left runs its own `__mul__` first. Only a Rule (which has no `__mul__`) or a foreign value reaches `__rmul__`, giving TypeError or NotImplemented. |
| Nodes.AppendAllChain | baleful/node.py:52-56 | Appending keeps a chain's old rules on top and adds its rules of the list below, in list order. |
| Nodes.InsertAllChain | baleful/node.py:57-59 | Head-inserting puts a chain's rules of the list on top, last inserted first. |
| Nodes.OnChainReverse | baleful/node.py:48-50 | Taking a chain's rules out of a reversed list is reversing that chain's rules. |
| Nodes.ReverseInvolutive | baleful/node.py:48-50 | Reversing twice restores a list. |
| Nodes.StartOrder | baleful/node.py:42-59 | Whether appending or inserting, each chain ends with its new rules in the order of `rules + final_rules`: below its old rules when appending, above them when inserting. |
| Nodes.StartFrames | baleful/node.py:42-59 | A chain no rule belongs to is left as it was. |
| Nodes.ValidPrefix | baleful/node.py:34-35 | set_policy gets through the longest prefix of policy items whose ip version is 4 or 6. |
| Nodes.ApplyPoliciesEffect | baleful/node.py:34-40 | With distinct versions, a chain gets the action its version's map names for it, or keeps its policy. No chain is added or removed. |
| Nodes.DefaultPolicyEffect | baleful/node.py:22-28 | With the default policy, every INPUT, OUTPUT and FORWARD chain of versions 4 and 6 becomes ACCEPT. The rest keep their policy. |
| Nodes.Backend.AppendRule | baleful/node.py:55-56 | `append_rule` adds the rule at the bottom of its chain and logs the call. |
| Nodes.Backend.InsertRule | baleful/node.py:58-59 | `insert_rule` adds the rule at the top of its chain and logs the call. |
| Nodes.Backend.SetChainPolicy | baleful/node.py:40 | `set_policy` changes that chain's policy only. |
| Nodes.Node.constructor | baleful/node.py:9-29 | A missing or empty argument takes its default: no rules, the ACCEPT policy for versions 4 and 6. |
| Nodes.Node.Start | baleful/node.py:42-59 | start issues one append per rule of `rules + final_rules` when no position is given. Otherwise it issues one head insert per rule of the reversed list. Policies are untouched. |
| Nodes.Node.SetPolicy | baleful/node.py:31-40 | set_policy applies the items before the first unknown version in order. It raises KeyError iff such a version exists. Rules are untouched. |
| Nodes.Node.SetVersionPolicy | baleful/node.py:35-40 | The inner loops set every chain of the version whose name the map holds. |
| Interfaces.OnInterface | baleful/iface.py:37-39 | The gateway list keeps exactly the gateways on this interface. |
| Interfaces.OnInterfaceSingle | baleful/iface.py:37-39 | A one-gateway list keeps its gateway exactly when that gateway is on the interface. |
| Interfaces.OnInterfaceConcat | baleful/iface.py:37-39 | Filtering a concatenation is the concatenation of the filtered parts, so the kept gateways stay in their original order. |
| Interfaces.OnInterfaceCount | baleful/iface.py:37-39 | Each gateway on the interface is kept as many times as it occurs in the host's list; no other gateway is kept. |
| Interfaces.RefreshedEntries | baleful/iface.py:30-39 | refresh sets ip, ip6 and link to the family's addresses, or none. Every kept gateway is on this interface. |
| Interfaces.NetworkInterface.constructor | baleful/iface.py:14-28 | A new interface starts with empty tables and then refreshes. |
| Interfaces.NetworkInterface.Refresh | baleful/iface.py:30-39 | The refresh loop over PROTOCOLS gives the tables `RefreshAddrs` and `RefreshGates` describe. |
| Interfaces.InterfaceParamsSpec | baleful/iface.py:49-95 | in_interface is set iff restrict_in and the chain is PREROUTING, INPUT or FORWARD. out_interface is set iff restrict_out and the chain is FORWARD, OUTPUT or POSTROUTING. Both hold the interface name. Any other non-empty chain raises KeyError. |
| Interfaces.NewInterfaceParams | baleful/iface.py:88-95 | The restriction loop builds a fresh dictionary holding `InterfaceParams`, or raises KeyError. |
| Interfaces.InterfaceRulesShape | baleful/iface.py:55-117 | rule returns one rule if the src route list is empty, else one per zipped pair. Every rule has target ACCEPT, the given placement with defaults, and no match modules. |
| Interfaces.SnapshotGrows | baleful/iface.py:104-110 | The shared params dictionary only gains keys during the zip loop. |
| Interfaces.AsBuiltShared | baleful/iface.py:104-115 | Once a zipped rule has non-empty params, it and every later rule show the dictionary's final contents. |
| Interfaces.AliasingCounterexample | baleful/iface.py:104-115 | Two local addresses as source and destination yield two rules that both carry the second address. |
| Interfaces.CopiedCarriesRoute | baleful/iface.py:104-115 | With a copy per rule, the i-th rule carries the i-th true src and dst and keeps the interface selectors. |
| Interfaces.SnapshotKeeps | baleful/iface.py:88-110 | The zip loop never removes the interface selectors. |
| Interfaces.ParamDict.Set | baleful/iface.py:107-109 | An item assignment changes that key only. |
| Interfaces.Build | baleful/iface.py:111-115 | `Rule(params=params, ...)` holds the shared dictionary itself if it is non-empty, else a fresh empty one. |
| Interfaces.ZipRules | baleful/iface.py:104-115 | The zip loop leaves the dictionary at the final snapshot and appends one rule per pair, each holding the dictionary as of its step. |
| Interfaces.AssembledRules | baleful/iface.py:97-115 | The assembled rules hold the params `AsBuilt` describes. Those with non-empty params hold the shared dictionary. |
| Interfaces.BuildRules | baleful/iface.py:80-117 | Once the family's lists are chosen, rule gives the values `RulesOn` describes, or KeyError. Its non-empty params dictionaries are one object. |
| Interfaces.NetworkInterface.GenerateRules | baleful/iface.py:55-117 | rule gives the values `InterfaceRules` describes: KeyError for a missing family, an unknown chain or a route level outside 0-3. Any two rules with non-empty params share one dictionary object. |
| Addresses.NewRoute | baleful/address.py:29-45 | A Route is built iff src and dst are of the same IP version, else ValueError. Its fields are kept as given. |
| Addresses.SplitArrow | baleful/address.py:47-48 | The source has no parser. This is the inverse of the `Route.__str__` format that the round-trip lemmas use: splitting at the first " -> " gives two texts that rejoin to the original. |
| Addresses.SplitJoin | baleful/address.py:47-48 | Joining two texts with " -> " and splitting gives them back when the first has no space. |
| Addresses.RouteStrSplits | baleful/address.py:14-48 | `str(route)` determines both address texts. |
| Addresses.NewRouteStr | baleful/address.py:29-48 | A route built from two same-version addresses prints as those two addresses. |

## Left out

- The python-iptc conversion (`Rule.iptc` and its helpers, rule.py:219-314) and the iptc objects are left out. Rules go to the backend as `Rule` values. Tables and chains are addressed as (ipv, table, chain) names.
- netifaces is not modelled. The address and gateway data it reports are parameters of `NetworkInterface.constructor` and `NetworkInterface.Refresh`. The "No such interface!" ValueError of `__init__` and the generator `NetworkInterface.iter` are left out.
- Interfaces.RouteList: the dictionary literal of iface.py:82-86 builds all four levels eagerly. An address entry lacking 'netmask' therefore raises KeyError there. In the model every entry has a netmask, so that error is not modelled.
- Interfaces.NetworkInterface.GenerateRules: `src`/`dst` are integers. A Python bool level selects the same list as 0 or 1.
- Nodes.Node.SetPolicy: python-iptc's enumeration of tables and chains is the key set of the backend's policy map, in no fixed order. Errors python-iptc raises (for instance, setting a policy on a user chain) are not modelled.
- Nodes.Node.Start: the rules passed to the backend are `Rule` values. `rule.iptc()` and its errors are left out.
- The `targets` argument of `Node.__init__` is ignored by the source and has no field here.
- `Node.stop`, `__str__`, `log`, `status`, `lock`, `panic` and `flush` have no bodies in the source and are not modelled.
- The operands of Rule and RuleArray operators are a Rule, a list of rules, or anything else (`Operand`). `ListOperand` stands for any collection of rules that can be iterated more than once, a list or a tuple: `__matmul__` iterates its operand, so `x @ (r1, r2)` works like `x @ [r1, r2]`. One-shot iterators such as generators are not modelled: `__matmul__` iterates its operand once per element of x, so a generator is used up by x's first element. Iterables holding non-Rule items, and an object of another class that defines its own `dict()` or `copy()`, are not modelled.
- RuleArrays.RTrueDiv takes a Rule on the left. `x / arr` with another x calls `x.copy()` (rule.py:364). That raises AttributeError for a value without `copy`. A list or dict with `copy` is returned as a copy when arr is empty, and otherwise raises TypeError at `rule -= r`. None of these paths is modelled.
- Flip.RuleObject.Flip: the object holds `params` and `kwargs` as values. In the source, `Rule.__init__` keeps a non-empty params dictionary and every match-group dictionary by reference (rule.py:50-51), and `flip` changes those dictionaries in place (rule.py:151-167). Flipping one Rule therefore also flips the caller's dictionary and every other Rule that shares it, for example all non-empty rules built by `NetworkInterface.rule`. The model flips only the object itself. `combine` flips fresh deep copies, so it is not affected. A rule whose match groups share one dictionary, such as `Rule(tcp=d, udp=d)`, is not modelled either: the loop at rule.py:151-156 swaps that dictionary once per group, so with d = {'sport': 1} both groups end as {'sport': 1}, where the model gives {'dport': 1} for each.
- Topologies.Topology: both fields are taken to be rule arrays. Python does not check this, and other contents are not modelled.
- Addresses.Address: parsing with `ipaddress.ip_address` is not modelled. An address is its IP version and normal text form. An unparsable address raises ValueError in the source, which the model does not capture.
- `baleful/interface.py` and `baleful/app.py` are not part of this model.
- Interfaces.NetworkInterface.GenerateRules models the code as written, with the shared-dictionary behaviour below. The copying version exists only as the function `Interfaces.Copied` with its lemma, not as a method.

## Findings

| source | as written | input that shows it | evidently intended | confidence | as-written member | corrected member |
|---|---|---|---|---|---|---|
| baleful/iface.py:104-115 | The zip loop updates one `params` dictionary and builds each rule from it. `Rule.__init__` keeps a non-empty dictionary by reference, so every rule shows the values of the last zipped pair. | Interface eth0 with IPv4 addresses 10.0.0.1 and 10.0.0.2, `rule(ipv=4, src=3, dst=3)`: two rules, both with src = dst = 10.0.0.2. | One rule per (src, dst) pair, each carrying that pair's addresses, with a copy of the dictionary per rule. | not executed | Interfaces.AliasingCounterexample | Interfaces.CopiedCarriesRoute |
