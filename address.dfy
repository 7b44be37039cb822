/**
 * Address and Route of baleful/address.py. An address is kept as what parsing it yields: its IP
 * version and its normal text form; the parsing itself is not modelled.
 */
module Addresses {
  import opened Wrappers
  import opened Rules

  /** The two address classes parsing can produce. */
  datatype IpVersion = V4 | V6

  /** A parsed Address: the class of its address object and that object's text form. */
  datatype Address = Address(version: IpVersion, text: string)

  /** A Route: a client (source) and a server (destination) address, plus extra keyword arguments. */
  datatype Route = Route(src: Address, dst: Address, kwargs: map<string, Value>)

  /** `str(address)`: the text of the parsed address. */
  function AddressStr(a: Address): string {
    a.text
  }

  /** Route.__init__: ValueError unless dst is of the same IP version as src; otherwise everything kept as given. */
  function NewRoute(src: Address, dst: Address, kwargs: map<string, Value>): (r: Result<Route>)
    ensures r.Ok? <==> src.version == dst.version
    ensures r.Err? ==> r.error == ValueError
    ensures r.Ok? ==> r.value.src == src && r.value.dst == dst && r.value.kwargs == kwargs
  {
    if dst.version != src.version then Err(ValueError) else Ok(Route(src, dst, kwargs))
  }

  /** `str(route)`: the source text, " -> ", the destination text. */
  function RouteStr(r: Route): string {
    AddressStr(r.src) + " -> " + AddressStr(r.dst)
  }

  /** Splits a text at its first " -> ", or None when there is none. */
  function SplitArrow(s: string): (r: Option<(string, string)>)
    ensures r.Some? ==> s == r.value.0 + " -> " + r.value.1
    decreases |s|
  {
    if |s| < 4 then None
    else if s[..4] == " -> " then Some(([], s[4..]))
    else
      match SplitArrow(s[1..])
      case None => None
      case Some((a, b)) =>
        assert s == [s[0]] + s[1..];
        Some(([s[0]] + a, b))
  }

  /** Joining two texts with " -> " and splitting at the first arrow gives them back when the first has no space. */
  lemma {:induction false} SplitJoin(a: string, b: string)
    requires ' ' !in a
    ensures SplitArrow(a + " -> " + b) == Some((a, b))
    decreases |a|
  {
    var s := a + " -> " + b;
    if a == [] {
      assert s[..4] == " -> ";
      assert s[4..] == b;
    } else {
      assert s[0] == a[0] && s[..4] != " -> ";
      assert s[1..] == a[1..] + " -> " + b;
      SplitJoin(a[1..], b);
      assert [a[0]] + a[1..] == a;
    }
  }

  /**
   * `str(route)` determines the route's two address texts: the text before the first " -> " is the
   * source, the rest the destination (address texts hold no spaces).
   */
  lemma RouteStrSplits(r: Route)
    requires ' ' !in AddressStr(r.src)
    ensures SplitArrow(RouteStr(r)) == Some((AddressStr(r.src), AddressStr(r.dst)))
  {
    SplitJoin(AddressStr(r.src), AddressStr(r.dst));
  }

  /** A route stored from two same-version addresses prints as those two addresses. */
  lemma NewRouteStr(src: Address, dst: Address, kwargs: map<string, Value>)
    requires src.version == dst.version && ' ' !in src.text
    ensures NewRoute(src, dst, kwargs).Ok?
    ensures SplitArrow(RouteStr(NewRoute(src, dst, kwargs).value)) == Some((src.text, dst.text))
  {
    RouteStrSplits(NewRoute(src, dst, kwargs).value);
  }
}
