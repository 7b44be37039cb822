/**
 * The `Rule` value of baleful/rule.py: selector parameters, match-module
 * parameter groups and placement (target, chain, table, IP version), with
 * the `+` merge, the `-` difference and the `==` comparison.
 *
 * A Python Rule is a mutable object, but `+`, `-` and `==` never change
 * their operands (they work on a copy), so they are modelled on values.
 * The one operation that changes a Rule in place, `flip`, lives in
 * module Flip together with the object that it changes.
 */
module Rules {
  import opened Wrappers
  import opened Dicts

  /** A parameter value; Python's 22 and '22' are different values. */
  datatype Value = Int(i: int) | Str(s: string)

  /** A parameter dictionary: `params`, or one match module's parameters. */
  type Params = map<string, Value>

  /** `kwargs`: match-module name to its parameter dictionary. */
  type Matches = map<string, Params>

  datatype Rule = Rule(
    params: Params,
    target: string,
    chain: string,
    table: string,
    ipv: int,
    kwargs: Matches)

  /** Rule.DEFAULTS */
  const DefaultTarget := "ACCEPT"
  const DefaultChain := "OUTPUT"
  const DefaultTable := "FILTER"
  const DefaultIpv := 4

  /** A right operand of `+` or `-`: only a Rule is accepted. */
  datatype Operand = RuleOperand(rule: Rule) | ListOperand(items: seq<Rule>) | OtherOperand

  function OrDefault<T>(o: Option<T>, default: T): T {
    match o
    case Some(v) => v
    case None => default
  }

  /**
   * `Rule(params, target, chain, table, ipv, **kwargs)`: every placement
   * argument left as None takes its default; a missing `params` is `{}`.
   */
  function NewRule(params: Params, target: Option<string>, chain: Option<string>,
                   table: Option<string>, ipv: Option<int>, kwargs: Matches): (r: Rule)
    ensures r.params == params && r.kwargs == kwargs
    ensures r.target == (if target.None? then "ACCEPT" else target.value)
    ensures r.chain == (if chain.None? then "OUTPUT" else chain.value)
    ensures r.table == (if table.None? then "FILTER" else table.value)
    ensures r.ipv == (if ipv.None? then 4 else ipv.value)
  {
    Rule(params, OrDefault(target, DefaultTarget), OrDefault(chain, DefaultChain),
         OrDefault(table, DefaultTable), OrDefault(ipv, DefaultIpv), kwargs)
  }

  /** `Rule()`: no selectors, no match modules, default placement. */
  function Empty(): Rule {
    NewRule(map[], None, None, None, None, map[])
  }

  /** Parameter `k` of match module `m`, None when the module or the key is absent. */
  function MatchParam(ms: Matches, m: string, k: string): Option<Value> {
    if m in ms then Get(ms[m], k) else None
  }

  // ---------------------------------------------------------------- `+`

  /** Match group `m` of `ms`, or `{}` when the module is absent. */
  function Group(ms: Matches, m: string): Params {
    if m in ms then ms[m] else map[]
  }

  /** Match groups of `a + b`: shared modules updated by b, one-sided modules carried over. */
  function MergeMatches(x: Matches, y: Matches): Matches {
    map m | m in x.Keys + y.Keys ::
      if m in x && m in y then x[m] + y[m] else if m in x then x[m] else y[m]
  }

  /** `a + b` for a Rule `b`. */
  function Merge(a: Rule, b: Rule): Rule {
    Rule(a.params + b.params, b.target, b.chain, b.table, b.ipv, MergeMatches(a.kwargs, b.kwargs))
  }

  /** The outcome of `a + other`. */
  function Plus(a: Rule, other: Operand): Result<Rule> {
    if other.RuleOperand? then Ok(Merge(a, other.rule)) else Err(TypeError)
  }

  /** Module `m` of merged match groups: present when either side has it; x's group updated by y's. */
  lemma MergeMatchesAt(x: Matches, y: Matches, m: string)
    ensures m in MergeMatches(x, y) <==> m in x || m in y
    ensures Group(MergeMatches(x, y), m) == Group(x, m) + Group(y, m)
  {
    if m in x && m !in y {
      assert x[m] + map[] == x[m];
    } else if m !in x && m in y {
      assert map[] + y[m] == y[m];
    } else if m !in x && m !in y {
      var e: Params := map[];
      assert e + e == e;
    }
  }

  /** Rule.__add__: copy `a`, take b's placement, update params, then merge the match groups key by key. */
  method Add(a: Rule, other: Operand) returns (res: Result<Rule>)
    ensures res == Plus(a, other)
  {
    if !other.RuleOperand? {
      return Err(TypeError);
    }
    var b := other.rule;
    var params := a.params;
    var kwargs := a.kwargs;
    params := params + b.params;
    var keys := a.kwargs.Keys + b.kwargs.Keys;
    while keys != {}
      invariant keys <= a.kwargs.Keys + b.kwargs.Keys
      invariant forall m :: m in kwargs <==> m in a.kwargs || (m in b.kwargs && m !in keys)
      invariant forall m :: m in kwargs ==>
        kwargs[m] == if m in b.kwargs && m !in keys then Group(a.kwargs, m) + b.kwargs[m] else a.kwargs[m]
      decreases keys
    {
      var key :| key in keys;
      if key in kwargs && key in b.kwargs {
        kwargs := kwargs[key := kwargs[key] + b.kwargs[key]];
      } else if key in b.kwargs {
        kwargs := kwargs[key := b.kwargs[key]];
        assert map[] + b.kwargs[key] == b.kwargs[key];
      }
      keys := keys - {key};
    }
    var merged := MergeMatches(a.kwargs, b.kwargs);
    forall m ensures Get(kwargs, m) == Get(merged, m) {
      MergeMatchesAt(a.kwargs, b.kwargs, m);
      if m in a.kwargs && m !in b.kwargs {
        assert a.kwargs[m] + map[] == a.kwargs[m];
      }
    }
    GetExtensional(kwargs, merged);
    res := Ok(Rule(params, b.target, b.chain, b.table, b.ipv, kwargs));
  }

  /** The merge is right-biased and takes its placement wholly from the right operand. */
  lemma MergePrecedence(a: Rule, b: Rule)
    ensures Merge(a, b).target == b.target && Merge(a, b).chain == b.chain
    ensures Merge(a, b).table == b.table && Merge(a, b).ipv == b.ipv
    ensures forall k :: (Get(Merge(a, b).params, k) ==
      if k in b.params then Get(b.params, k) else Get(a.params, k))
    ensures Merge(a, b).kwargs.Keys == a.kwargs.Keys + b.kwargs.Keys
    ensures forall m, k :: (MatchParam(Merge(a, b).kwargs, m, k) ==
      if MatchParam(b.kwargs, m, k).Some? then MatchParam(b.kwargs, m, k) else MatchParam(a.kwargs, m, k))
  {
  }

  /** MergeMatches is associative, module by module. */
  lemma MergeMatchesAssociative(x: Matches, y: Matches, z: Matches)
    ensures MergeMatches(MergeMatches(x, y), z) == MergeMatches(x, MergeMatches(y, z))
  {
    var l := MergeMatches(MergeMatches(x, y), z);
    var r := MergeMatches(x, MergeMatches(y, z));
    forall m ensures Get(l, m) == Get(r, m) {
      MergeMatchesAssociativeAt(x, y, z, m);
    }
    GetExtensional(l, r);
  }

  /** One module of MergeMatchesAssociative. */
  lemma MergeMatchesAssociativeAt(x: Matches, y: Matches, z: Matches, m: string)
    ensures Get(MergeMatches(MergeMatches(x, y), z), m) == Get(MergeMatches(x, MergeMatches(y, z)), m)
  {
    var l := MergeMatches(MergeMatches(x, y), z);
    var r := MergeMatches(x, MergeMatches(y, z));
    MergeMatchesAt(x, y, m);
    MergeMatchesAt(y, z, m);
    MergeMatchesAt(MergeMatches(x, y), z, m);
    MergeMatchesAt(x, MergeMatches(y, z), m);
    UpdateAssociative(Group(x, m), Group(y, m), Group(z, m));
    if m in l {
      assert Group(l, m) == l[m] && Group(r, m) == r[m];
    }
  }

  /** Dictionary update is associative. */
  lemma UpdateAssociative(a: Params, b: Params, c: Params)
    ensures a + b + c == a + (b + c)
  {
  }

  /** `(a + b) + c == a + (b + c)`. */
  lemma MergeAssociative(a: Rule, b: Rule, c: Rule)
    ensures Merge(Merge(a, b), c) == Merge(a, Merge(b, c))
  {
    MergeMatchesAssociative(a.kwargs, b.kwargs, c.kwargs);
    UpdateAssociative(a.params, b.params, c.params);
  }

  /** `Rule() + a` is `a` itself. */
  lemma MergeEmptyLeft(a: Rule)
    ensures Merge(Empty(), a) == a
  {
    assert map[] + a.params == a.params;
    assert MergeMatches(map[], a.kwargs) == a.kwargs;
  }

  /** `a + Rule()` equals `a` under `==`, but its placement is the default one. */
  lemma MergeEmptyRight(a: Rule)
    ensures Eq(Merge(a, Empty()), a)
    ensures Merge(a, Empty()).target == DefaultTarget && Merge(a, Empty()).chain == DefaultChain
    ensures Merge(a, Empty()).table == DefaultTable && Merge(a, Empty()).ipv == DefaultIpv
  {
    assert a.params + map[] == a.params;
    assert MergeMatches(a.kwargs, map[]) == a.kwargs;
  }

  /** `a + a == a`. */
  lemma MergeIdempotent(a: Rule)
    ensures Merge(a, a) == a
  {
    assert a.params + a.params == a.params;
    var mm := MergeMatches(a.kwargs, a.kwargs);
    forall m | m in mm ensures mm[m] == a.kwargs[m] {
      assert a.kwargs[m] + a.kwargs[m] == a.kwargs[m];
    }
  }

  // ---------------------------------------------------------------- `-`

  /** The nested `diff(x, y)`: drop every entry of x that y holds with an equal value. */
  function DiffParams(x: Params, y: Params): Params {
    map k | k in x && !(k in y && x[k] == y[k]) :: x[k]
  }

  /** `a - b` for a Rule `b` holding every match module of `a`; a module b lacks is diffed against `{}`. */
  function Remove(a: Rule, b: Rule): Rule {
    a.(params := DiffParams(a.params, b.params),
       kwargs := map m | m in a.kwargs :: DiffParams(a.kwargs[m], Group(b.kwargs, m)))
  }

  /** The outcome of `a - other`. */
  function Minus(a: Rule, other: Operand): Result<Rule> {
    if !other.RuleOperand? then Err(TypeError)
    else if !(a.kwargs.Keys <= other.rule.kwargs.Keys) then Err(KeyError)
    else Ok(Remove(a, other.rule))
  }

  /** The nested `diff(x, y)` as written: collect the keys to drop, then pop them. */
  method DiffDict(x: Params, y: Params) returns (r: Params)
    ensures r == DiffParams(x, y)
  {
    var p: seq<string> := [];
    var todo := x.Keys;
    while todo != {}
      invariant todo <= x.Keys
      invariant forall k :: k in p <==> k in x && k !in todo && k in y && x[k] == y[k]
      decreases todo
    {
      var k :| k in todo;
      if k in y && x[k] == y[k] {
        p := p + [k];
      }
      todo := todo - {k};
    }
    r := x;
    var i := 0;
    while i < |p|
      invariant 0 <= i <= |p|
      invariant r == x - set j | 0 <= j < i :: p[j]
    {
      r := r - {p[i]};
      i := i + 1;
      assert (set j | 0 <= j < i :: p[j]) == (set j | 0 <= j < i - 1 :: p[j]) + {p[i - 1]};
    }
    assert (set j | 0 <= j < |p| :: p[j]) == set k | k in p;
  }

  /** Rule.__sub__: TypeError for a non-Rule, KeyError for a match module `a` has and `b` lacks. */
  method Sub(a: Rule, other: Operand) returns (res: Result<Rule>)
    ensures res == Minus(a, other)
  {
    if !other.RuleOperand? {
      return Err(TypeError);
    }
    var b := other.rule;
    var params := DiffDict(a.params, b.params);
    var kwargs := a.kwargs;
    var keys := a.kwargs.Keys;
    while keys != {}
      invariant keys <= a.kwargs.Keys && kwargs.Keys == a.kwargs.Keys
      invariant forall m :: m in a.kwargs && m !in keys ==> m in b.kwargs
      invariant forall m :: m in kwargs ==>
        kwargs[m] == if m in keys then a.kwargs[m] else DiffParams(a.kwargs[m], b.kwargs[m])
      decreases keys
    {
      var key :| key in keys;
      if key !in b.kwargs {
        return Err(KeyError);
      }
      var d := DiffDict(kwargs[key], b.kwargs[key]);
      kwargs := kwargs[key := d];
      keys := keys - {key};
    }
    res := Ok(a.(params := params, kwargs := kwargs));
    assert kwargs == Remove(a, b).kwargs;
  }

  /** `a - b` removes exactly the entries b holds with an equal value and keeps a's placement. */
  lemma RemoveEntries(a: Rule, b: Rule)
    ensures Remove(a, b).target == a.target && Remove(a, b).chain == a.chain
    ensures Remove(a, b).table == a.table && Remove(a, b).ipv == a.ipv
    ensures forall k :: (Get(Remove(a, b).params, k) ==
      if Get(a.params, k) == Get(b.params, k) then None else Get(a.params, k))
    ensures Remove(a, b).kwargs.Keys == a.kwargs.Keys
    ensures forall m, k :: m in a.kwargs && m in b.kwargs ==> (MatchParam(Remove(a, b).kwargs, m, k) ==
      if MatchParam(a.kwargs, m, k) == MatchParam(b.kwargs, m, k) then None else MatchParam(a.kwargs, m, k))
  {
  }

  /** `(a - b) - b == a - b`. */
  lemma RemoveIdempotent(a: Rule, b: Rule)
    ensures Remove(Remove(a, b), b) == Remove(a, b)
  {
    var once := Remove(a, b);
    assert DiffParams(once.params, b.params) == once.params;
    var twice := Remove(once, b);
    forall m | m in once.kwargs ensures twice.kwargs[m] == once.kwargs[m] {
      assert DiffParams(once.kwargs[m], Group(b.kwargs, m)) == once.kwargs[m];
    }
  }

  /** `a - a` keeps a's placement and match modules but empties every dictionary. */
  lemma MinusSelf(a: Rule)
    ensures Minus(a, RuleOperand(a)) == Ok(a.(params := map[], kwargs := map m | m in a.kwargs :: map[]))
  {
    assert DiffParams(a.params, a.params) == map[];
    var r := Remove(a, a);
    var emptied: Matches := map m | m in a.kwargs :: map[];
    forall m | m in a.kwargs ensures r.kwargs[m] == emptied[m] {
      assert DiffParams(a.kwargs[m], a.kwargs[m]) == map[];
    }
    assert r.kwargs == emptied;
  }

  /** Diffing `x` updated by `y` against `y` leaves x without y's keys. */
  lemma DiffAfterUpdate(x: Params, y: Params)
    ensures DiffParams(x + y, y) == x - y.Keys
  {
    forall k ensures Get(DiffParams(x + y, y), k) == Get(x - y.Keys, k) {
    }
    GetExtensional(DiffParams(x + y, y), x - y.Keys);
  }

  /**
   * `(a + b) - b`: KeyError exactly when `a` has a match module `b` lacks;
   * otherwise a's selectors minus every key `b` sets, b's placement, and for each
   * module of `b` a's parameters minus every key `b` sets there.
   */
  lemma MergeThenMinus(a: Rule, b: Rule)
    ensures Minus(Merge(a, b), RuleOperand(b)).Err? <==> !(a.kwargs.Keys <= b.kwargs.Keys)
    ensures a.kwargs.Keys <= b.kwargs.Keys ==> (Minus(Merge(a, b), RuleOperand(b)) ==
      Ok(Rule(a.params - b.params.Keys, b.target, b.chain, b.table, b.ipv,
              map m | m in b.kwargs :: Group(a.kwargs, m) - b.kwargs[m].Keys)))
  {
    var s := Merge(a, b);
    if a.kwargs.Keys <= b.kwargs.Keys {
      DiffAfterUpdate(a.params, b.params);
      var r := Remove(s, b);
      var want: Matches := map m | m in b.kwargs :: Group(a.kwargs, m) - b.kwargs[m].Keys;
      forall m ensures Get(r.kwargs, m) == Get(want, m) {
        MergeMatchesAt(a.kwargs, b.kwargs, m);
        if m in b.kwargs {
          DiffAfterUpdate(Group(a.kwargs, m), b.kwargs[m]);
        }
      }
      GetExtensional(r.kwargs, want);
    } else {
      var m :| m in a.kwargs && m !in b.kwargs;
      MergeMatchesAt(a.kwargs, b.kwargs, m);
    }
  }

  // ---------------------------------------------------------------- `==`

  /** Rule.dict(): the match groups, with the selectors filed under the key "". */
  function View(r: Rule): Matches {
    r.kwargs["" := r.params]
  }

  /** Rule.__eq__: the dictionary views are equal. */
  predicate Eq(a: Rule, b: Rule) {
    View(a) == View(b)
  }

  /** `==` looks only at the selectors and the match groups (a match module named "" is shadowed). */
  lemma EqIff(a: Rule, b: Rule)
    ensures Eq(a, b) <==> a.params == b.params && a.kwargs - {""} == b.kwargs - {""}
  {
    if Eq(a, b) {
      assert View(a)[""] == View(b)[""];
      assert a.kwargs - {""} == View(a) - {""};
      assert b.kwargs - {""} == View(b) - {""};
    }
    if a.params == b.params && a.kwargs - {""} == b.kwargs - {""} {
      assert View(a).Keys == View(b).Keys by {
        assert View(a).Keys == (a.kwargs - {""}).Keys + {""};
        assert View(b).Keys == (b.kwargs - {""}).Keys + {""};
      }
      forall m | m in View(a) ensures View(a)[m] == View(b)[m] {
        if m != "" {
          assert (a.kwargs - {""})[m] == (b.kwargs - {""})[m];
        }
      }
    }
  }

  /** Rule.__ne__: the negation of `==`, so it too ignores target, chain, table and ipv. */
  predicate Ne(a: Rule, b: Rule)
    ensures Ne(a, b) <==> a.params != b.params || a.kwargs - {""} != b.kwargs - {""}
  {
    EqIff(a, b);
    !Eq(a, b)
  }

  /**
   * `a == other` for any right operand: `__eq__` calls `other.dict()`, which only a Rule has here,
   * so any other operand raises AttributeError.
   */
  function EqOp(a: Rule, other: Operand): (r: Result<bool>)
    ensures r.Ok? <==> other.RuleOperand?
    ensures r.Err? ==> r.error == AttributeError
    ensures r.Ok? ==> (r.value <==> a.params == other.rule.params && a.kwargs - {""} == other.rule.kwargs - {""})
  {
    if other.RuleOperand? then
      EqIff(a, other.rule);
      Ok(Eq(a, other.rule))
    else Err(AttributeError)
  }

  /** `a != other`: `__ne__` goes through `__eq__`, so it raises where `==` does and negates it otherwise. */
  function NeOp(a: Rule, other: Operand): (r: Result<bool>)
    ensures r.Err? <==> EqOp(a, other).Err?
    ensures r.Err? ==> r.error == AttributeError
    ensures r.Ok? ==> (r.value <==> a.params != other.rule.params || a.kwargs - {""} != other.rule.kwargs - {""})
  {
    match EqOp(a, other)
    case Err(e) => Err(e)
    case Ok(b) => Ok(!b)
  }
}
