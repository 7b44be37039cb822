/**
 * Topology of baleful/topo.py: a pair of rule arrays (forward, reverse) and
 * `combine`, which flips deep copies of the other topology's forward array
 * and broadcasts this topology's arrays against list concatenations.
 */
module Topologies {
  import opened Wrappers
  import opened Rules
  import opened Flip
  import opened RuleArrays

  /** The rules of a topology's two arrays. */
  datatype Arrays = Arrays(forward: seq<Rule>, reverse: seq<Rule>)

  /** Each rule flipped. */
  function FlipEach(arr: seq<Rule>): seq<Rule> {
    seq(|arr|, i requires 0 <= i < |arr| => FlipRule(arr[i]))
  }

  /**
   * Topology.combine on values: forward is `x.forward * (y.forward + y.reverse)` and reverse is
   * `x.reverse * (flipped + flipped)`, where both flipped arrays come from y.forward and `+` is
   * list concatenation, so each product hands a list to Rule.__add__.
   */
  function CombineSpec(x: Arrays, y: Arrays): Result<Arrays> {
    var flipped := FlipEach(y.forward);
    match Broadcast(x.forward, ListOperand(y.forward + y.reverse))
    case Err(e) => Err(e)
    case Ok(f) =>
      match Broadcast(x.reverse, ListOperand(flipped + flipped))
      case Err(e) => Err(e)
      case Ok(r) => Ok(Arrays(f, r))
  }

  /** combine raises TypeError unless both of x's arrays are empty, and then yields two empty arrays. */
  lemma CombineOutcome(x: Arrays, y: Arrays)
    ensures CombineSpec(x, y) ==
      if x.forward == [] && x.reverse == [] then Ok(Arrays([], [])) else Err(TypeError)
  {
    BroadcastTypeError(x.forward, ListOperand(y.forward + y.reverse));
    BroadcastTypeError(x.reverse, ListOperand(FlipEach(y.forward) + FlipEach(y.forward)));
  }

  /** The other operand of `t * other` or `other * t`, by its Python type. */
  datatype TopoOperand = RuleArg(rule: Rule) | ArrayArg(rules: seq<Rule>) | TopologyArg(topology: Topology) | OtherArg

  /** What `__mul__` / `__rmul__` does: return NotImplemented, raise, or return a new Topology. */
  datatype Outcome = NotImplemented | Raised(error: Error) | Produced(topology: Topology)

  /** A Python Topology object: two rule arrays stored as given. */
  class Topology {
    var forward: seq<RuleObject>
    var reverse: seq<RuleObject>

    /** Topology.__init__: both arrays are stored unchecked, by reference. */
    constructor (forward: seq<RuleObject>, reverse: seq<RuleObject>)
      ensures this.forward == forward && this.reverse == reverse
    {
      this.forward := forward;
      this.reverse := reverse;
    }

    /** The rules the two arrays currently hold. */
    function Value(): Arrays
      reads this, set o | o in forward, set o | o in reverse
    {
      Arrays(Values(forward), Values(reverse))
    }

    /**
     * The flipped arrays of combine: two deep copies of `yforward`, flipped pair by pair in a
     * zip loop. Both equal the element-wise flip of `yforward`, whose rules are untouched.
     */
    static method FlippedCopies(yforward: seq<RuleObject>) returns (i: seq<RuleObject>, j: seq<RuleObject>)
      ensures |i| == |j| == |yforward|
      ensures forall k :: 0 <= k < |i| ==> fresh(i[k]) && fresh(j[k])
      ensures Values(i) == FlipEach(Values(yforward))
      ensures Values(j) == FlipEach(Values(yforward))
    {
      i := CopyRules(yforward);
      j := CopyRules(yforward);
      FlipZip(i, j, Values(yforward));
    }

    /** The zip loop of combine: i[k] and j[k], both holding orig[k], flipped in place pair by pair. */
    static method FlipZip(i: seq<RuleObject>, j: seq<RuleObject>, ghost orig: seq<Rule>)
      requires |i| == |j| == |orig| && Values(i) == orig && Values(j) == orig
      requires forall m, n :: 0 <= m < n < |i| ==> i[m] != i[n] && j[m] != j[n]
      requires forall m, n :: 0 <= m < |i| && 0 <= n < |j| ==> i[m] != j[n]
      modifies set o | o in i, set o | o in j
      ensures Values(i) == FlipEach(orig) && Values(j) == FlipEach(orig)
    {
      assert forall m :: 0 <= m < |i| ==> i[m].Value() == orig[m] && j[m].Value() == orig[m] by {
        forall m | 0 <= m < |i| ensures i[m].Value() == orig[m] && j[m].Value() == orig[m] {
          assert Values(i)[m] == i[m].Value() && Values(j)[m] == j[m].Value();
        }
      }
      var k := 0;
      while k < |i|
        invariant 0 <= k <= |i|
        invariant forall m :: 0 <= m < |i| ==> i[m].Value() == if m < k then FlipRule(orig[m]) else orig[m]
        invariant forall m :: 0 <= m < |j| ==> j[m].Value() == if m < k then FlipRule(orig[m]) else orig[m]
      {
        label before:
        FlipPair(i[k], j[k]);
        forall m | 0 <= m < |i| && m != k
          ensures i[m].Value() == old@before(i[m].Value()) && j[m].Value() == old@before(j[m].Value())
        {
          assert i[m] != i[k] && i[m] != j[k] && j[m] != i[k] && j[m] != j[k];
        }
        k := k + 1;
      }
    }

    /** One step of the zip loop of combine: both copies flipped in place. */
    static method FlipPair(a: RuleObject, b: RuleObject)
      requires a != b
      modifies a, b
      ensures a.Value() == FlipRule(old(a.Value())) && b.Value() == FlipRule(old(b.Value()))
    {
      a.Flip();
      b.Flip();
    }

    /** Topology.combine: the new topology's rules are CombineSpec of the operands' rules; y is not changed. */
    static method Combine(x: Topology, y: Topology) returns (res: Result<Topology>)
      ensures res.Err? <==> CombineSpec(x.Value(), y.Value()).Err?
      ensures res.Err? ==> res.error == CombineSpec(x.Value(), y.Value()).error
      ensures res.Ok? ==> fresh(res.value) && res.value.Value() == CombineSpec(x.Value(), y.Value()).value
    {
      var xforward := x.forward;
      var xreverse := x.reverse;
      var yforward := y.forward;
      var yreverse := y.reverse;
      var yforwardFlipped, yreverseFlipped := FlippedCopies(y.forward);
      var f := RuleArrays.Mul(Values(xforward), ListOperand(Values(yforward) + Values(yreverse)));
      if f.Err? {
        return Err(f.error);
      }
      var r := RuleArrays.Mul(Values(xreverse), ListOperand(Values(yforwardFlipped) + Values(yreverseFlipped)));
      if r.Err? {
        return Err(r.error);
      }
      var fo := Objects(f.value);
      var ro := Objects(r.value);
      var t := new Topology(fo, ro);
      return Ok(t);
    }

    /**
     * Topology.__mul__: a Topology operand is combined with this one on the left; a Rule or RuleArray
     * goes through a one-argument Topology(...) call, which raises TypeError; anything else is NotImplemented.
     */
    method Mul(other: TopoOperand) returns (out: Outcome)
      ensures out.NotImplemented? <==> other.OtherArg?
      ensures other.RuleArg? || other.ArrayArg? ==> out == Raised(TypeError)
      ensures other.TopologyArg? ==> (
        var spec := CombineSpec(Value(), other.topology.Value());
        && (out.Raised? <==> spec.Err?)
        && (out.Raised? ==> out.error == spec.error)
        && (out.Produced? ==> fresh(out.topology) && out.topology.Value() == spec.value))
    {
      out := Dispatch(other);
    }

    /** Topology.__rmul__: the same dispatch as `__mul__`, with this topology still on the left of combine. */
    method RMul(other: TopoOperand) returns (out: Outcome)
      ensures out.NotImplemented? <==> other.OtherArg?
      ensures other.RuleArg? || other.ArrayArg? ==> out == Raised(TypeError)
      ensures other.TopologyArg? ==> (
        var spec := CombineSpec(Value(), other.topology.Value());
        && (out.Raised? <==> spec.Err?)
        && (out.Raised? ==> out.error == spec.error)
        && (out.Produced? ==> fresh(out.topology) && out.topology.Value() == spec.value))
    {
      out := Dispatch(other);
    }

    /** The body shared by `__mul__` and `__rmul__`. */
    method Dispatch(other: TopoOperand) returns (out: Outcome)
      ensures out.NotImplemented? <==> other.OtherArg?
      ensures other.RuleArg? || other.ArrayArg? ==> out == Raised(TypeError)
      ensures other.TopologyArg? ==> (
        var spec := CombineSpec(Value(), other.topology.Value());
        && (out.Raised? <==> spec.Err?)
        && (out.Raised? ==> out.error == spec.error)
        && (out.Produced? ==> fresh(out.topology) && out.topology.Value() == spec.value))
    {
      match other {
        case RuleArg(r) =>
          var arr := NewRuleArray([RuleOperand(r)]);
          // Topology(RuleArray(other)): the required `reverse` argument is missing.
          return Raised(TypeError);
        case ArrayArg(_) =>
          // Topology(other): the required `reverse` argument is missing.
          return Raised(TypeError);
        case TopologyArg(y) =>
          var res := Combine(this, y);
          if res.Err? {
            return Raised(res.error);
          }
          return Produced(res.value);
        case OtherArg =>
          return NotImplemented;
      }
    }
  }
}
