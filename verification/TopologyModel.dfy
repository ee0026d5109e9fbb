/** Topology descriptions, and what it means for one to be consistent, pair by pair. */
module TopologyModel {
  import opened Wrappers
  import opened Bytes
  import opened Literals
  import opened Impairments

  datatype Host = Host(
    name: string, ip: Option<string>, mac: Option<string>, defaultRoute: Option<string>,
    ip6: Option<string>, defaultRoute6: Option<string>)

  /** `suffix` is that of the program's path. */
  datatype Switch = Switch(
    name: string, suffix: string, arch: string, logLevel: string,
    deviceId: Option<nat>, grpcPort: Option<nat>, thriftPort: Option<nat>, cpuPort: Option<nat>)

  datatype Endpoint = Endpoint(
    node: string, port: Option<nat>, iface: Option<string>,
    ip: Option<string>, mac: Option<string>, ip6: Option<string>)

  datatype Link = Link(a: Endpoint, b: Endpoint, shaping: Shaping)

  /** The library's reading of address/prefix texts, as the number of the address, and its check of plain addresses. */
  datatype Parsers = Parsers(
    ip4: string -> Option<nat>, ip6: string -> Option<nat>, address4: string -> bool, address6: string -> bool)

  datatype Layout = Layout(hosts: map<string, Host>, switches: map<string, Switch>, links: seq<Link>)

  datatype TopologyError = TopologyError

  /** What a caller of `add_link` says about one end. */
  datatype EndArgs = EndArgs(
    node: string, port: Option<int>, ip: Option<string>, mac: Option<string>, ip6: Option<string>)

  const SWITCH_PORT_MAX := 510
  const DEVICE_ID_MAX := 0x8000_0000
  const SERVICE_PORT_MIN := 1024
  const SERVICE_PORT_MAX := 65535
  const IFNAME_MAX_BYTES := 15

  /** All endpoints in the order of the links, side a first. */
  function Ends(links: seq<Link>): seq<Endpoint> {
    if |links| == 0 then [] else Ends(links[..|links| - 1]) + [links[|links| - 1].a, links[|links| - 1].b]
  }

  /******* Interface names *******/

  function IfaceName(node: string, port: nat): string {
    node + "-eth" + Dec(port)
  }

  predicate IsSpaceChar(c: char) {
    var n := c as int;
    9 <= n <= 13 || 28 <= n <= 32 || n == 0x85 || n == 0xA0 || n == 0x1680 || 0x2000 <= n <= 0x200A ||
    n == 0x2028 || n == 0x2029 || n == 0x202F || n == 0x205F || n == 0x3000
  }

  function Utf8Length(s: string): nat {
    if |s| == 0 then 0
    else
      var n := s[|s| - 1] as int;
      Utf8Length(s[..|s| - 1]) + if n < 0x80 then 1 else if n < 0x800 then 2 else if n < 0x10000 then 3 else 4
  }

  predicate ValidIfname(name: string) {
    && name != "" && name != "." && name != ".."
    && (forall i | 0 <= i < |name| :: !IsSpaceChar(name[i]) && name[i] !in {'/', ':', '\0'})
    && Utf8Length(name) <= IFNAME_MAX_BYTES
  }

  /******* Descriptions that can be made *******/

  predicate IsLetter(c: char) {
    'a' <= c <= 'z' || 'A' <= c <= 'Z'
  }

  predicate NodeNameOk(name: string) {
    1 <= |name| <= 12 && IsLetter(name[0]) &&
    forall i | 0 < i < |name| :: IsLetter(name[i]) || IsDigit(name[i]) || name[i] == '_' || name[i] == '-'
  }

  /** Six pairs of hexadecimal digits between colons, and nothing after them. */
  predicate MacText(text: string) {
    |text| == 17 && MacShape(text)
  }

  predicate Ip6Text(parsers: Parsers, text: string) {
    '.' !in text && parsers.ip6(text).Some?
  }

  predicate HostOk(parsers: Parsers, host: Host) {
    && NodeNameOk(host.name)
    && (host.ip.Some? ==> parsers.ip4(host.ip.value).Some?)
    && (host.mac.Some? ==> MacText(host.mac.value))
    && (host.defaultRoute.Some? ==> host.ip.Some? && parsers.address4(host.defaultRoute.value))
    && (host.ip6.Some? ==> Ip6Text(parsers, host.ip6.value))
    && (host.defaultRoute6.Some? ==> host.ip6.Some? && parsers.address6(host.defaultRoute6.value))
  }

  predicate SwitchOk(sw: Switch) {
    && NodeNameOk(sw.name)
    && sw.suffix == ".p4" && sw.arch == "v1model" && sw.logLevel in {"trace", "debug", "info", "warn", "error"}
    && (sw.deviceId.Some? ==> sw.deviceId.value < DEVICE_ID_MAX)
    && (sw.grpcPort.Some? ==> SERVICE_PORT_MIN <= sw.grpcPort.value <= SERVICE_PORT_MAX)
    && (sw.thriftPort.Some? ==> SERVICE_PORT_MIN <= sw.thriftPort.value <= SERVICE_PORT_MAX)
    && (sw.cpuPort.Some? ==> 1 <= sw.cpuPort.value <= SWITCH_PORT_MAX)
  }

  /** A link-level MAC or IPv6 address must read as one. */
  predicate EndpointOk(parsers: Parsers, e: Endpoint) {
    (e.mac.Some? ==> MacText(e.mac.value)) && (e.ip6.Some? ==> Ip6Text(parsers, e.ip6.value))
  }

  /******* Effective addresses *******/

  /** `_effective_host_addresses`. */
  function EffectiveHostAddresses(host: Host, e: Endpoint, firstLink: bool): (Option<string>, Option<string>) {
    var ipDefault := if firstLink then host.ip else None;
    var ip6Default := if firstLink then host.ip6 else None;
    (if e.ip.Some? then e.ip else ipDefault, if e.ip6.Some? then e.ip6 else ip6Default)
  }

  /** The addresses that one host endpoint carries. */
  datatype Assigned = Assigned(host: string, iface: Option<string>, ip: Option<string>, ip6: Option<string>)

  function AssignedAt(host: Host, e: Endpoint, firstLink: bool): Assigned {
    var (ip, ip6) := EffectiveHostAddresses(host, e, firstLink);
    Assigned(host.name, e.iface, ip, ip6)
  }

  /** Endpoint k is on the host of this name. */
  predicate OnHost(l: Layout, ends: seq<Endpoint>, k: nat, name: string)
    requires k < |ends|
  {
    ends[k].node in l.hosts && l.hosts[ends[k].node].name == name
  }

  /** Host endpoint k carries its own addresses, or else those of its host if it is the host's first. */
  function Carried(l: Layout, ends: seq<Endpoint>, k: nat): Assigned
    requires k < |ends| && ends[k].node in l.hosts
  {
    var host := l.hosts[ends[k].node];
    AssignedAt(host, ends[k], forall j | 0 <= j < k :: !OnHost(l, ends, j, host.name))
  }

  datatype Family = V4 | V6

  /** The address that is configured for a family, if any. */
  function Text(f: Family, a: Assigned): Option<string> {
    if f.V4? then a.ip else a.ip6
  }

  function Read(parsers: Parsers, f: Family, text: string): Option<nat> {
    if f.V4? then parsers.ip4(text) else parsers.ip6(text)
  }

  function Address(parsers: Parsers, f: Family, a: Assigned): Option<nat> {
    if Text(f, a).Some? then Read(parsers, f, Text(f, a).value) else None
  }

  predicate Unreadable(parsers: Parsers, f: Family, a: Assigned) {
    Text(f, a).Some? && Read(parsers, f, Text(f, a).value).None?
  }

  predicate SameAddress(parsers: Parsers, f: Family, a: Assigned, b: Assigned) {
    a.host != b.host && Address(parsers, f, a).Some? && Address(parsers, f, a) == Address(parsers, f, b)
  }

  /** Endpoint k is a host's, and carries this. */
  predicate Carries(l: Layout, ends: seq<Endpoint>, k: nat, a: Assigned) {
    k < |ends| && ends[k].node in l.hosts && Carried(l, ends, k) == a
  }

  /******* Problems *******/

  datatype Problem =
    | KeyMismatch | SharedName
    | UnknownNode | NoPort | SwitchAddress | PortRange | CpuPortUsed | SelfLoop
    | PortCollision
    | DeviceIdCollision | ServicePortCollision
    | NoIface | BadIface | LoopbackIface | IfaceCollision
    | BadAddress(family: Family) | AddressCollision(family: Family)

  function ServicePort(sw: Switch, grpc: bool): Option<nat> {
    if grpc then sw.grpcPort else sw.thriftPort
  }

  predicate Known(l: Layout, e: Endpoint) {
    e.node in l.hosts || e.node in l.switches
  }

  predicate IfaceOk(e: Endpoint) {
    e.iface.Some? && ValidIfname(e.iface.value) && e.iface.value != "lo"
  }

  /** The final namespace of an endpoint: its host's, or the root one. */
  function Scope(l: Layout, e: Endpoint): Option<string> {
    if e.node in l.hosts then Some(e.node) else None
  }

  predicate SamePort(d: Endpoint, e: Endpoint) {
    d.port.Some? && d.port == e.port && d.node == e.node
  }

  predicate SameIface(l: Layout, d: Endpoint, e: Endpoint) {
    IfaceOk(d) && IfaceOk(e) && Known(l, d) && Known(l, e) && d.iface == e.iface && Scope(l, d) == Scope(l, e)
  }

  predicate EndViolates(l: Layout, e: Endpoint, p: Problem) {
    match p
    case UnknownNode => !Known(l, e)
    case NoPort => e.port.None?
    case SwitchAddress => e.node in l.switches && (e.ip.Some? || e.ip6.Some?)
    case PortRange => e.node in l.switches && e.port.Some? && e.port.value > SWITCH_PORT_MAX
    case CpuPortUsed => e.node in l.switches && e.port.Some? && e.port == l.switches[e.node].cpuPort
    case NoIface => e.iface.None? || e.iface.value == ""
    case BadIface => e.iface.Some? && e.iface.value != "" && !ValidIfname(e.iface.value)
    case LoopbackIface => e.iface == Some("lo")
    case _ => false
  }

  ghost predicate SomeUnreadable(parsers: Parsers, l: Layout, f: Family) {
    exists k: nat, a: Assigned :: Carries(l, Ends(l.links), k, a) && Unreadable(parsers, f, a)
  }

  ghost predicate SomeShared(parsers: Parsers, l: Layout, f: Family) {
    exists j: nat, k: nat, a: Assigned, b: Assigned ::
      Carries(l, Ends(l.links), j, a) && Carries(l, Ends(l.links), k, b) && SameAddress(parsers, f, a, b)
  }

  ghost predicate AddressViolates(parsers: Parsers, l: Layout, p: Problem) {
    match p
    case BadAddress(f) => SomeUnreadable(parsers, l, f)
    case AddressCollision(f) => SomeShared(parsers, l, f)
    case _ => false
  }

  ghost predicate Violates(parsers: Parsers, l: Layout, p: Problem) {
    var ends := Ends(l.links);
    match p
    case KeyMismatch =>
      (exists k <- l.hosts :: l.hosts[k].name != k) || (exists k <- l.switches :: l.switches[k].name != k)
    case SharedName => exists k <- l.hosts :: k in l.switches
    case SelfLoop => exists i | 0 <= i < |l.links| :: l.links[i].a.node == l.links[i].b.node
    case PortCollision => exists i, j | 0 <= i < j < |ends| :: SamePort(ends[i], ends[j])
    case DeviceIdCollision =>
      exists k <- l.switches, m <- l.switches ::
        k != m && l.switches[k].deviceId.Some? && l.switches[k].deviceId == l.switches[m].deviceId
    case ServicePortCollision =>
      exists k <- l.switches, m <- l.switches, f: bool, g: bool ::
        (k != m || f != g) && ServicePort(l.switches[k], f).Some? &&
        ServicePort(l.switches[k], f) == ServicePort(l.switches[m], g)
    case IfaceCollision => exists i, j | 0 <= i < j < |ends| :: SameIface(l, ends[i], ends[j])
    case BadAddress(_) => AddressViolates(parsers, l, p)
    case AddressCollision(_) => AddressViolates(parsers, l, p)
    case _ => exists e <- ends :: EndViolates(l, e, p)
  }

  ghost predicate Consistent(parsers: Parsers, l: Layout) {
    forall p: Problem :: !Violates(parsers, l, p)
  }
}
