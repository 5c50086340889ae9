// Expanding a discovery scope into addresses (backend/app/discovery/scopes.py).

module Scopes {
  import opened Common
  import opened Texts

  datatype Version = V4 | V6 {
    function Bits(): nat { if V4? then 32 else 128 }
  }

  datatype Ip = Ip(version: Version, value: nat)

  // A parsed network; strict=False clears the bits below the prefix.
  datatype Network = Network(version: Version, base: nat, prefix: nat)

  datatype Scope =
    | SingleDevice(address: Option<Parsed<Ip>>)
    | IpRange(start: Option<Parsed<Ip>>, end: Option<Parsed<Ip>>)
    | CidrNetwork(cidr: Option<Parsed<Network>>)
    | NotExecutable

  // Text as given, and what the address library makes of it (None: it raises).
  datatype Parsed<T> = Parsed(text: string, value: Option<T>)

  datatype Failure = ScopeError | MalformedAddress

  function Power(n: nat): (r: nat)
    ensures r >= 1
  {
    if n == 0 then 1 else 2 * Power(n - 1)
  }

  /** All addresses from `first` on, `count` of them. */
  function Run(version: Version, first: nat, count: nat): seq<Ip> {
    seq(count, i requires 0 <= i < count => Ip(version, first + i))
  }

  /** The usable hosts: a network of one or two addresses is used whole; otherwise the
      network address is left out, and for IPv4 the broadcast address too. */
  function Hosts(n: Network): seq<Ip>
    requires n.prefix <= n.version.Bits()
  {
    var size := Power(n.version.Bits() - n.prefix);
    if size <= 2 then Run(n.version, n.base, size)
    else if n.version.V4? then Run(n.version, n.base + 1, size - 2)
    else Run(n.version, n.base + 1, size - 1)
  }

  function Written(show: Ip -> string, ips: seq<Ip>): seq<string> {
    seq(|ips|, i requires 0 <= i < |ips| => show(ips[i]))
  }

  predicate WellFormed(s: Scope) {
    s.CidrNetwork? && s.cidr.Some? && s.cidr.value.value.Some? ==>
      s.cidr.value.value.value.prefix <= s.cidr.value.value.value.version.Bits()
  }

  function Expand(s: Scope, show: Ip -> string, maxTargets: int): (r: Result<seq<string>, Failure>)
    requires WellFormed(s)
  {
    if maxTargets < 1 then Err(ScopeError)
    else
      match s
      case SingleDevice(address) =>
        if address.None? then Err(ScopeError)
        else if address.value.value.None? then Err(MalformedAddress)
        else Ok([address.value.text])
      case IpRange(start, end) =>
        if start.None? || end.None? then Err(ScopeError)
        else if start.value.value.None? || end.value.value.None? then Err(MalformedAddress)
        else
          var (first, last) := (start.value.value.value, end.value.value.value);
          if first.version != last.version || first.value > last.value then Err(ScopeError)
          else
            var count := last.value - first.value + 1;
            if count > maxTargets then Err(ScopeError)
            else Ok(Written(show, Run(first.version, first.value, count)))
      case CidrNetwork(cidr) =>
        if cidr.None? then Err(ScopeError)
        else if cidr.value.value.None? then Err(MalformedAddress)
        else
          var hosts := Hosts(cidr.value.value.value);
          if |hosts| > maxTargets then Err(ScopeError) else Ok(Written(show, hosts))
      case NotExecutable => Err(ScopeError)
  }

  /** Whatever a scope expands to, it is between one address and the limit, and where
      different addresses are written differently no address comes twice. */
  lemma ExpandedAddressesAreDistinct(s: Scope, show: Ip -> string, maxTargets: int)
    requires WellFormed(s) && Expand(s, show, maxTargets).Ok?
    requires forall a, b | show(a) == show(b) :: a == b
    ensures Distinct(Expand(s, show, maxTargets).value)
    ensures 1 <= |Expand(s, show, maxTargets).value| <= maxTargets
  {
    var r := Expand(s, show, maxTargets).value;
    forall i, j | 0 <= i < j < |r| ensures r[i] != r[j] {
      if s.IpRange? {
        var first := s.start.value.value.value;
        assert r[i] == show(Ip(first.version, first.value + i)) && r[j] == show(Ip(first.version, first.value + j));
      } else if s.CidrNetwork? {
        var hosts := Hosts(s.cidr.value.value.value);
        assert r[i] == show(hosts[i]) && r[j] == show(hosts[j]);
      }
    }
  }

  /** When a scope is expanded at all. */
  lemma ExpandsIff(s: Scope, show: Ip -> string, maxTargets: int)
    requires WellFormed(s)
    ensures Expand(s, show, maxTargets).Ok? <==>
      && maxTargets >= 1
      && match s
         case SingleDevice(address) => Reads(address)
         case IpRange(start, end) =>
           && Reads(start) && Reads(end) && start.value.value.value.version == end.value.value.value.version
           && 0 <= end.value.value.value.value - start.value.value.value.value < maxTargets
         case CidrNetwork(cidr) => Reads(cidr) && HostCount(cidr.value.value.value) <= maxTargets
         case NotExecutable => false
    ensures s.SingleDevice? && Expand(s, show, maxTargets).Ok? ==>
      Expand(s, show, maxTargets).value == [s.address.value.text]
  {
  }

  predicate Reads<T>(given: Option<Parsed<T>>) {
    given.Some? && given.value.value.Some?
  }

  /** How many addresses of a network can be used. */
  function HostCount(n: Network): nat
    requires n.prefix <= n.version.Bits()
  {
    var size := Power(n.version.Bits() - n.prefix);
    if size <= 2 then size else if n.version.V4? then size - 2 else size - 1
  }

  /** Addresses come in ascending order, one after the other. */
  lemma ExpandsInOrder(s: Scope, show: Ip -> string, maxTargets: int)
    requires WellFormed(s) && Expand(s, show, maxTargets).Ok? && !s.SingleDevice?
    ensures var r := Expand(s, show, maxTargets).value;
      && var first := if s.IpRange? then s.start.value.value.value else FirstHost(s.cidr.value.value.value);
      && |r| == (if s.IpRange? then s.end.value.value.value.value - first.value + 1 else HostCount(s.cidr.value.value.value))
      && forall i | 0 <= i < |r| :: r[i] == show(Ip(first.version, first.value + i))
  {
  }

  function FirstHost(n: Network): Ip
    requires n.prefix <= n.version.Bits()
  {
    Ip(n.version, if Power(n.version.Bits() - n.prefix) <= 2 then n.base else n.base + 1)
  }

  lemma RunHolds(version: Version, first: nat, count: nat, ip: Ip)
    ensures ip in Run(version, first, count) <==> ip.version == version && first <= ip.value < first + count
  {
    if ip.version == version && first <= ip.value < first + count {
      assert Run(version, first, count)[ip.value - first] == ip;
    }
  }

  lemma WrittenHolds(show: Ip -> string, ips: seq<Ip>, ip: Ip)
    requires forall a, b | show(a) == show(b) :: a == b
    ensures show(ip) in Written(show, ips) <==> ip in ips
  {
    if ip in ips {
      var i :| 0 <= i < |ips| && ips[i] == ip;
      assert Written(show, ips)[i] == show(ip);
    }
  }

  /** A range is expanded to exactly the addresses between its ends. */
  lemma RangeIsComplete(s: Scope, show: Ip -> string, maxTargets: int, ip: Ip)
    requires s.IpRange? && Expand(s, show, maxTargets).Ok?
    requires forall a, b | show(a) == show(b) :: a == b
    ensures
      var first, last := s.start.value.value.value, s.end.value.value.value;
      show(ip) in Expand(s, show, maxTargets).value <==>
        ip.version == first.version && first.value <= ip.value <= last.value
  {
    var first, last := s.start.value.value.value, s.end.value.value.value;
    RunHolds(first.version, first.value, last.value - first.value + 1, ip);
    WrittenHolds(show, Run(first.version, first.value, last.value - first.value + 1), ip);
  }

  /** A network is expanded to exactly its addresses but the first and, for IPv4, the last;
      one of at most two addresses to all of them. */
  lemma NetworkIsComplete(s: Scope, show: Ip -> string, maxTargets: int, ip: Ip)
    requires WellFormed(s) && s.CidrNetwork? && Expand(s, show, maxTargets).Ok?
    requires forall a, b | show(a) == show(b) :: a == b
    ensures
      var n := s.cidr.value.value.value;
      var size := Power(n.version.Bits() - n.prefix);
      show(ip) in Expand(s, show, maxTargets).value <==>
        && ip.version == n.version && n.base <= ip.value < n.base + size
        && (size > 2 ==> ip.value != n.base && (n.version.V4? ==> ip.value != n.base + size - 1))
  {
    var n := s.cidr.value.value.value;
    var size := Power(n.version.Bits() - n.prefix);
    RunHolds(n.version, n.base, size, ip);
    if size > 2 {
      RunHolds(n.version, n.base + 1, size - 2, ip);
      RunHolds(n.version, n.base + 1, size - 1, ip);
    }
    WrittenHolds(show, Hosts(n), ip);
  }
}
