/**
 * RuleArray of baleful/rule.py: a list that admits only rules, with
 * broadcast merge (`arr * r`, `r * arr`), the cross product (`x @ y`) and
 * broadcast and fold subtraction (`arr / r`, `r / arr`). Every operator
 * works on a copy, so the arrays here are values; RuleArray.copy over
 * rule objects is `CopyRules`.
 */
module RuleArrays {
  import opened Wrappers
  import opened Dicts
  import opened Rules
  import opened Flip

  // ---------------------------------------------------------------- construction

  /** RuleArray(*rules): every argument must be a Rule, and the array keeps their order. */
  function ArrayOf(args: seq<Operand>): (r: Result<seq<Rule>>)
    ensures r.Ok? <==> forall i :: 0 <= i < |args| ==> args[i].RuleOperand?
    ensures r.Err? ==> r.error == TypeError
    ensures r.Ok? ==> |r.value| == |args| && forall i :: 0 <= i < |args| ==> r.value[i] == args[i].rule
    decreases |args|
  {
    if args == [] then Ok([])
    else
      match ArrayOf(args[..|args| - 1])
      case Err(e) => Err(e)
      case Ok(rs) =>
        var last := args[|args| - 1];
        if last.RuleOperand? then Ok(rs + [last.rule]) else Err(TypeError)
  }

  /** RuleArray.__init__: append the arguments one by one, raising TypeError at the first non-Rule. */
  method NewRuleArray(args: seq<Operand>) returns (res: Result<seq<Rule>>)
    ensures res == ArrayOf(args)
  {
    var arr: seq<Rule> := [];
    var i := 0;
    while i < |args|
      invariant 0 <= i <= |args|
      invariant ArrayOf(args[..i]) == Ok(arr)
    {
      assert args[..i + 1][..i] == args[..i];
      if !args[i].RuleOperand? {
        return Err(TypeError);
      }
      arr := arr + [args[i].rule];
      i := i + 1;
    }
    assert args[..i] == args;
    return Ok(arr);
  }

  // ---------------------------------------------------------------- broadcast merge

  /** `arr * other`: each element merged with `other`, which must be a Rule unless the array is empty. */
  function Broadcast(arr: seq<Rule>, other: Operand): Result<seq<Rule>> {
    if arr == [] then Ok([])
    else
      match other
      case RuleOperand(b) => Ok(MergeEach(arr, b))
      case _ => Err(TypeError)
  }

  /** `[e + b for e in arr]` with `b` a Rule. */
  function MergeEach(arr: seq<Rule>, b: Rule): seq<Rule> {
    seq(|arr|, i requires 0 <= i < |arr| => Merge(arr[i], b))
  }

  /** `other + r` for a Rule `r` on the right: only a Rule on the left can be added. */
  function PlusLeft(other: Operand, r: Rule): Result<Rule> {
    match other
    case RuleOperand(a) => Ok(Merge(a, r))
    case _ => Err(TypeError)
  }

  /** `other * arr`: `other` merged with each element, the element taking precedence. */
  function RBroadcast(other: Operand, arr: seq<Rule>): Result<seq<Rule>> {
    if arr == [] then Ok([])
    else
      match other
      case RuleOperand(a) => Ok(Row(a, arr))
      case _ => Err(TypeError)
  }

  /** `[a + e for e in arr]` with every element a Rule. */
  function Row(a: Rule, arr: seq<Rule>): seq<Rule> {
    seq(|arr|, j requires 0 <= j < |arr| => Merge(a, arr[j]))
  }

  /** RuleArray.__mul__: copy, then replace each slot by `r + other`. */
  method Mul(arr: seq<Rule>, other: Operand) returns (res: Result<seq<Rule>>)
    ensures res == Broadcast(arr, other)
  {
    var rarr := arr;
    var i := 0;
    while i < |rarr|
      invariant 0 <= i <= |rarr| == |arr|
      invariant i > 0 ==> other.RuleOperand?
      invariant forall k :: 0 <= k < i ==> rarr[k] == Merge(arr[k], other.rule)
      invariant forall k :: i <= k < |arr| ==> rarr[k] == arr[k]
    {
      var s := Add(rarr[i], other);
      if s.Err? {
        return Err(s.error);
      }
      rarr := rarr[i := s.value];
      i := i + 1;
    }
    if arr != [] {
      assert rarr == MergeEach(arr, other.rule);
    }
    return Ok(rarr);
  }

  /** RuleArray.__rmul__: copy, then replace each slot by `other + r`. */
  method RMul(other: Operand, arr: seq<Rule>) returns (res: Result<seq<Rule>>)
    ensures res == RBroadcast(other, arr)
  {
    var rarr := arr;
    var i := 0;
    while i < |rarr|
      invariant 0 <= i <= |rarr| == |arr|
      invariant i > 0 ==> other.RuleOperand?
      invariant forall k :: 0 <= k < i ==> rarr[k] == Merge(other.rule, arr[k])
      invariant forall k :: i <= k < |arr| ==> rarr[k] == arr[k]
    {
      var s := PlusLeft(other, rarr[i]);
      if s.Err? {
        return Err(s.error);
      }
      rarr := rarr[i := s.value];
      i := i + 1;
    }
    if arr != [] {
      assert rarr == Row(other.rule, arr);
    }
    return Ok(rarr);
  }

  /** Broadcasting `b` and then `c` is broadcasting `b + c` once. */
  lemma BroadcastCompose(arr: seq<Rule>, b: Rule, c: Rule)
    ensures Broadcast(arr, RuleOperand(b)).Ok?
    ensures Broadcast(Broadcast(arr, RuleOperand(b)).value, RuleOperand(c)) == Broadcast(arr, RuleOperand(Merge(b, c)))
  {
    forall i | 0 <= i < |arr| ensures Merge(Merge(arr[i], b), c) == Merge(arr[i], Merge(b, c)) {
      MergeAssociative(arr[i], b, c);
    }
    assert MergeEach(MergeEach(arr, b), c) == MergeEach(arr, Merge(b, c));
  }

  /** Broadcasting the same rule twice changes nothing more. */
  lemma BroadcastIdempotent(arr: seq<Rule>, b: Rule)
    ensures Broadcast(arr, RuleOperand(b)).Ok?
    ensures Broadcast(Broadcast(arr, RuleOperand(b)).value, RuleOperand(b)) == Broadcast(arr, RuleOperand(b))
  {
    if arr != [] {
      BroadcastCompose(arr, b, b);
      MergeIdempotent(b);
    }
  }

  /** Left-broadcasting `b` and then `c` is left-broadcasting `c + b` once. */
  lemma RBroadcastCompose(c: Rule, b: Rule, arr: seq<Rule>)
    ensures Row(c, Row(b, arr)) == Row(Merge(c, b), arr)
  {
    forall j | 0 <= j < |arr| ensures Merge(c, Merge(b, arr[j])) == Merge(Merge(c, b), arr[j]) {
      MergeAssociative(c, b, arr[j]);
    }
  }

  /** A non-Rule operand is refused exactly when there is an element to add it to. */
  lemma BroadcastTypeError(arr: seq<Rule>, other: Operand)
    ensures Broadcast(arr, other).Err? <==> arr != [] && !other.RuleOperand?
    ensures RBroadcast(other, arr).Err? <==> arr != [] && !other.RuleOperand?
    ensures Broadcast(arr, other).Err? ==> Broadcast(arr, other).error == TypeError
  {
  }

  // ---------------------------------------------------------------- cross product

  /** `[i + j for i in x for j in y]`: rows in the order of x. */
  function CrossSeq(x: seq<Rule>, y: seq<Rule>): seq<Rule>
    decreases |x|
  {
    if x == [] then [] else CrossSeq(x[..|x| - 1], y) + Row(x[|x| - 1], y)
  }

  /** `x @ other`: `other` must be iterable (a list) unless x is empty. */
  function Cross(x: seq<Rule>, other: Operand): Result<seq<Rule>> {
    if x == [] then Ok([])
    else
      match other
      case ListOperand(ys) => Ok(CrossSeq(x, ys))
      case _ => Err(TypeError)
  }

  /** RuleArray.__matmul__: append `i + j` for each i of x and, inside, each j of other. */
  method MatMul(x: seq<Rule>, other: Operand) returns (res: Result<seq<Rule>>)
    ensures res == Cross(x, other)
  {
    var newArray: seq<Rule> := [];
    var i := 0;
    while i < |x|
      invariant 0 <= i <= |x|
      invariant i > 0 ==> other.ListOperand?
      invariant i > 0 ==> newArray == CrossSeq(x[..i], other.items)
      invariant i == 0 ==> newArray == []
    {
      if !other.ListOperand? {
        return Err(TypeError);
      }
      var ys := other.items;
      assert x[..i + 1][..i] == x[..i];
      assert CrossSeq(x[..i], ys) == newArray;
      ghost var before := newArray;
      var j := 0;
      while j < |ys|
        invariant 0 <= j <= |ys|
        invariant newArray == before + Row(x[i], ys[..j])
      {
        var s := Add(x[i], RuleOperand(ys[j]));
        assert Row(x[i], ys[..j + 1]) == Row(x[i], ys[..j]) + [s.value];
        newArray := newArray + [s.value];
        j := j + 1;
      }
      assert ys[..j] == ys;
      i := i + 1;
    }
    assert x[..i] == x;
    return Ok(newArray);
  }

  /** The cross product has |x|·|y| rules. */
  lemma {:induction false} CrossSeqLength(x: seq<Rule>, y: seq<Rule>)
    ensures |CrossSeq(x, y)| == |x| * |y|
    decreases |x|
  {
    if x != [] {
      CrossSeqLength(x[..|x| - 1], y);
      assert (|x| - 1) * |y| + |y| == |x| * |y|;
    }
  }

  lemma RowBelow(i: int, j: int, n: int, m: int)
    requires 0 <= i < n && 0 <= j < m
    ensures i * m + j < n * m
  {
    assert i * m <= (n - 1) * m;
  }

  /** The cross product is x-major: entry i·|y| + j is `x[i] + y[j]`. */
  lemma {:induction false} CrossSeqAt(x: seq<Rule>, y: seq<Rule>, i: int, j: int)
    requires 0 <= i < |x| && 0 <= j < |y|
    ensures i * |y| + j < |CrossSeq(x, y)|
    ensures CrossSeq(x, y)[i * |y| + j] == Merge(x[i], y[j])
    decreases |x|
  {
    var n := |x| - 1;
    var x' := x[..n];
    CrossSeqLength(x', y);
    CrossSeqLength(x, y);
    RowBelow(i, j, |x|, |y|);
    if i < n {
      RowBelow(i, j, n, |y|);
      CrossSeqAt(x', y, i, j);
      assert x'[i] == x[i];
    } else {
      assert i * |y| + j - n * |y| == j;
    }
  }

  /** A product with a one-rule array on either side is a broadcast. */
  lemma CrossSingleton(x: seq<Rule>, a: Rule, b: Rule, y: seq<Rule>)
    ensures Cross(x, ListOperand([b])) == Broadcast(x, RuleOperand(b))
    ensures Cross([a], ListOperand(y)) == RBroadcast(RuleOperand(a), y)
  {
    CrossSeqLength(x, [b]);
    CrossSeqLength([a], y);
    if x != [] {
      forall i | 0 <= i < |x| ensures CrossSeq(x, [b])[i] == Merge(x[i], b) {
        CrossSeqAt(x, [b], i, 0);
        assert i * 1 + 0 == i;
      }
      assert CrossSeq(x, [b]) == MergeEach(x, b);
    }
    if y != [] {
      forall j | 0 <= j < |y| ensures CrossSeq([a], y)[j] == Merge(a, y[j]) {
        CrossSeqAt([a], y, 0, j);
      }
      assert CrossSeq([a], y) == Row(a, y);
    }
  }

  // ---------------------------------------------------------------- subtraction

  /** `arr / other`: `other` removed from each element; a Rule is needed, and each element's match modules must be in it. */
  function DivideEach(arr: seq<Rule>, other: Operand): Result<seq<Rule>> {
    if arr == [] then Ok([])
    else
      match other
      case RuleOperand(b) =>
        if forall i :: 0 <= i < |arr| ==> arr[i].kwargs.Keys <= b.kwargs.Keys
        then Ok(RemoveEach(arr, b))
        else Err(KeyError)
      case _ => Err(TypeError)
  }

  /** `[e - b for e in arr]` with `b` a Rule. */
  function RemoveEach(arr: seq<Rule>, b: Rule): seq<Rule> {
    seq(|arr|, i requires 0 <= i < |arr| => Remove(arr[i], b))
  }

  /** RuleArray.__truediv__: copy, then replace each slot by `r - other`. */
  method TrueDiv(arr: seq<Rule>, other: Operand) returns (res: Result<seq<Rule>>)
    ensures res == DivideEach(arr, other)
  {
    var rarr := arr;
    var i := 0;
    while i < |rarr|
      invariant 0 <= i <= |rarr| == |arr|
      invariant i > 0 ==> other.RuleOperand?
      invariant forall k :: 0 <= k < i ==> arr[k].kwargs.Keys <= other.rule.kwargs.Keys
      invariant forall k :: 0 <= k < i ==> rarr[k] == Remove(arr[k], other.rule)
      invariant forall k :: i <= k < |arr| ==> rarr[k] == arr[k]
    {
      var s := Sub(rarr[i], other);
      if s.Err? {
        return Err(s.error);
      }
      rarr := rarr[i := s.value];
      i := i + 1;
    }
    if arr != [] {
      assert rarr == RemoveEach(arr, other.rule);
    }
    return Ok(rarr);
  }

  /** Dividing by the same rule twice removes nothing more. */
  lemma DivideEachIdempotent(arr: seq<Rule>, b: Rule)
    requires DivideEach(arr, RuleOperand(b)).Ok?
    ensures DivideEach(DivideEach(arr, RuleOperand(b)).value, RuleOperand(b)) == DivideEach(arr, RuleOperand(b))
  {
    if arr != [] {
      var once := DivideEach(arr, RuleOperand(b)).value;
      forall i | 0 <= i < |arr| ensures Remove(once[i], b) == once[i] && once[i].kwargs.Keys <= b.kwargs.Keys {
        RemoveIdempotent(arr[i], b);
        RemoveEntries(arr[i], b);
      }
      assert RemoveEach(once, b) == once;
    }
  }

  /** `other / arr`: every element removed from `other` in turn; the first missing match module raises KeyError. */
  function RemoveAll(r: Rule, arr: seq<Rule>): Result<Rule>
    decreases |arr|
  {
    if arr == [] then Ok(r)
    else
      match RemoveAll(r, arr[..|arr| - 1])
      case Err(e) => Err(e)
      case Ok(s) => Minus(s, RuleOperand(arr[|arr| - 1]))
  }

  /** RuleArray.__rtruediv__: copy `other`, then `rule -= r` for each r of the array in order. */
  method RTrueDiv(other: Rule, arr: seq<Rule>) returns (res: Result<Rule>)
    ensures res == RemoveAll(other, arr)
  {
    var rule := other;
    var i := 0;
    while i < |arr|
      invariant 0 <= i <= |arr|
      invariant RemoveAll(other, arr[..i]) == Ok(rule)
    {
      assert arr[..i + 1][..i] == arr[..i];
      var s := Sub(rule, RuleOperand(arr[i]));
      if s.Err? {
        RemoveAllPrefixErr(other, arr, i + 1);
        return Err(s.error);
      }
      rule := s.value;
      i := i + 1;
    }
    assert arr[..i] == arr;
    return Ok(rule);
  }

  /** The entries of `p` that no dictionary of `ps` holds with an equal value. */
  function Strip(p: Params, ps: seq<Params>): Params {
    map k | k in p && (forall i :: 0 <= i < |ps| ==> !(k in ps[i] && ps[i][k] == p[k])) :: p[k]
  }

  lemma StripStep(p: Params, ps: seq<Params>, y: Params)
    ensures DiffParams(Strip(p, ps), y) == Strip(p, ps + [y])
  {
    var l := DiffParams(Strip(p, ps), y);
    var r := Strip(p, ps + [y]);
    forall k ensures Get(l, k) == Get(r, k) {
      if k in p && (forall i :: 0 <= i < |ps| ==> !(k in ps[i] && ps[i][k] == p[k])) {
        assert (ps + [y])[|ps|] == y;
        assert forall i :: 0 <= i < |ps| ==> (ps + [y])[i] == ps[i];
      } else if k in p {
        var i :| 0 <= i < |ps| && k in ps[i] && ps[i][k] == p[k];
        assert (ps + [y])[i] == ps[i];
      }
    }
    GetExtensional(l, r);
  }

  function ParamsOf(arr: seq<Rule>): seq<Params> {
    seq(|arr|, i requires 0 <= i < |arr| => arr[i].params)
  }

  function GroupsOf(arr: seq<Rule>, m: string): seq<Params> {
    seq(|arr|, i requires 0 <= i < |arr| => Group(arr[i].kwargs, m))
  }

  /** Once a prefix of the array has raised, the whole fold raises the same error. */
  lemma {:induction false} RemoveAllPrefixErr(r: Rule, arr: seq<Rule>, k: int)
    requires 0 <= k <= |arr| && RemoveAll(r, arr[..k]).Err?
    ensures RemoveAll(r, arr) == RemoveAll(r, arr[..k])
    decreases |arr|
  {
    if k == |arr| {
      assert arr[..k] == arr;
    } else {
      var n := |arr| - 1;
      assert arr[..n][..k] == arr[..k];
      RemoveAllPrefixErr(r, arr[..n], k);
    }
  }

  /** `r / arr` succeeds exactly when every element holds all of r's match modules. */
  lemma {:induction false} RemoveAllOk(r: Rule, arr: seq<Rule>)
    ensures RemoveAll(r, arr).Ok? <==> forall i :: 0 <= i < |arr| ==> r.kwargs.Keys <= arr[i].kwargs.Keys
    ensures RemoveAll(r, arr).Ok? ==> RemoveAll(r, arr).value.kwargs.Keys == r.kwargs.Keys
    ensures RemoveAll(r, arr).Err? ==> RemoveAll(r, arr).error == KeyError
    decreases |arr|
  {
    if arr != [] {
      var n := |arr| - 1;
      RemoveAllOk(r, arr[..n]);
      assert forall i :: 0 <= i < n ==> arr[..n][i] == arr[i];
    }
  }

  /** The value `r / arr` is claimed to have. */
  function Stripped(r: Rule, arr: seq<Rule>): Rule {
    r.(params := Strip(r.params, ParamsOf(arr)),
       kwargs := map m | m in r.kwargs :: Strip(r.kwargs[m], GroupsOf(arr, m)))
  }

  lemma StrippedStep(r: Rule, pre: seq<Rule>, b: Rule)
    ensures Remove(Stripped(r, pre), b) == Stripped(r, pre + [b])
  {
    StripStep(r.params, ParamsOf(pre), b.params);
    assert ParamsOf(pre) + [b.params] == ParamsOf(pre + [b]);
    StrippedGroupsStep(r, pre, b);
  }

  lemma StrippedGroupsStep(r: Rule, pre: seq<Rule>, b: Rule)
    ensures Remove(Stripped(r, pre), b).kwargs == Stripped(r, pre + [b]).kwargs
  {
    var t := Remove(Stripped(r, pre), b).kwargs;
    var want := Stripped(r, pre + [b]).kwargs;
    forall m ensures Get(t, m) == Get(want, m) {
      if m in r.kwargs {
        StrippedGroupStep(r, pre, b, m);
      }
    }
    GetExtensional(t, want);
  }

  lemma StrippedGroupStep(r: Rule, pre: seq<Rule>, b: Rule, m: string)
    requires m in r.kwargs
    ensures DiffParams(Strip(r.kwargs[m], GroupsOf(pre, m)), Group(b.kwargs, m)) == Strip(r.kwargs[m], GroupsOf(pre + [b], m))
  {
    StripStep(r.kwargs[m], GroupsOf(pre, m), Group(b.kwargs, m));
    assert GroupsOf(pre, m) + [Group(b.kwargs, m)] == GroupsOf(pre + [b], m);
  }

  /**
   * A successful `r / arr` keeps r's placement and match modules and drops exactly
   * the entries that some element holds with an equal value.
   */
  lemma {:induction false} RemoveAllEntries(r: Rule, arr: seq<Rule>)
    requires RemoveAll(r, arr).Ok?
    ensures RemoveAll(r, arr).value == Stripped(r, arr)
    decreases |arr|
  {
    if arr == [] {
      assert Strip(r.params, ParamsOf(arr)) == r.params;
      var want := Stripped(r, arr).kwargs;
      forall m | m in r.kwargs ensures want[m] == r.kwargs[m] {
        assert Strip(r.kwargs[m], GroupsOf(arr, m)) == r.kwargs[m];
      }
      assert want == r.kwargs;
    } else {
      var n := |arr| - 1;
      var pre := arr[..n];
      assert pre + [arr[n]] == arr;
      RemoveAllEntries(r, pre);
      StrippedStep(r, pre, arr[n]);
    }
  }

  // ---------------------------------------------------------------- arrays of rule objects

  /** The rules an array of Rule objects currently holds. */
  function Values(arr: seq<RuleObject>): seq<Rule>
    reads set o | o in arr
  {
    seq(|arr|, i requires 0 <= i < |arr| reads set o | o in arr => arr[i].Value())
  }

  /** RuleArray.copy: a new array of new Rule objects, each a copy of the corresponding element. */
  method CopyRules(arr: seq<RuleObject>) returns (c: seq<RuleObject>)
    ensures |c| == |arr|
    ensures forall i :: 0 <= i < |c| ==> fresh(c[i])
    ensures forall i, j :: 0 <= i < j < |c| ==> c[i] != c[j]
    ensures Values(c) == Values(arr)
  {
    c := [];
    var i := 0;
    while i < |arr|
      invariant 0 <= i <= |arr| && |c| == i
      invariant forall k :: 0 <= k < i ==> fresh(c[k]) && c[k].Value() == arr[k].Value()
      invariant forall k, l :: 0 <= k < l < i ==> c[k] != c[l]
    {
      var r := arr[i].Copy();
      c := c + [r];
      i := i + 1;
    }
  }

  /** Rule objects holding the given rules, one new object per rule. */
  method Objects(rs: seq<Rule>) returns (os: seq<RuleObject>)
    ensures |os| == |rs|
    ensures forall i :: 0 <= i < |os| ==> fresh(os[i])
    ensures Values(os) == rs
  {
    os := [];
    var i := 0;
    while i < |rs|
      invariant 0 <= i <= |rs| && |os| == i
      invariant forall k :: 0 <= k < i ==> fresh(os[k]) && os[k].Value() == rs[k]
    {
      var r := rs[i];
      var o := new RuleObject(r.params, Some(r.target), Some(r.chain), Some(r.table), Some(r.ipv), r.kwargs);
      os := os + [o];
      i := i + 1;
    }
  }
}
