/**
 * What the registry facade reads from outside itself: the dynamic
 * configuration, the host's network identity (NetUtils) and java.net.URI.
 * The network and URI calls are not re-implemented; they are given as
 * values and functions supplied by the caller of the model.
 */
module Environment {
  import opened Wrappers

  /** A snapshot of the dynamic configuration: string- and int-valued properties by key. */
  datatype Config = Config(strings: map<string, string>, ints: map<string, int>)

  /** getStringProperty(key, default).get(): the configured value, or the default when the key is absent. */
  function StringProperty(cfg: Config, key: string, default: string): string
  {
    if key in cfg.strings then cfg.strings[key] else default
  }

  /** getIntProperty(key, default).get(): the configured value, or the default when the key is absent. */
  function IntProperty(cfg: Config, key: string, default: int): int
  {
    if key in cfg.ints then cfg.ints[key] else default
  }

  /**
   * A java.net.InetAddress as the facade observes it: its textual address,
   * its host name, and whether it is the wildcard (any-local) address.
   */
  datatype InetAddress = InetAddress(hostAddress: string, hostName: string, anyLocal: bool)

  /**
   * An IpPort produced by NetUtils.parseIpPort, reduced to what the facade
   * reads from its socket address for a result: the resolved InetAddress
   * (None when the socket address is unresolved, so that getAddress() is
   * null). Its port is read only for a log message.
   */
  datatype IpPort = IpPort(address: Option<InetAddress>)

  /**
   * The host's network identity and NetUtils' parser.
   *   hostAddress, hostName: NetUtils.getHostAddress(), NetUtils.getHostName(),
   *                          which the facade returns unchecked (None is null)
   *   interfaces:            the address bound to each network interface name
   *   parseIpPort:           NetUtils.parseIpPort on a possibly-null authority
   */
  datatype Network = Network(
    hostAddress: Option<string>,
    hostName: Option<string>,
    interfaces: map<string, InetAddress>,
    parseIpPort: Option<string> -> Option<IpPort>)

  datatype InterfaceLookup = Found(address: InetAddress) | NotFound(name: string)

  /** NetUtils.ensureGetInterfaceAddress: the interface's address, or an exception naming it. */
  function EnsureGetInterfaceAddress(net: Network, name: string): InterfaceLookup
  {
    if name in net.interfaces then Found(net.interfaces[name]) else NotFound(name)
  }

  /** The components a java.net.URI built from a string exposes (a missing component is None, a missing port -1). */
  datatype ParsedUri = ParsedUri(
    scheme: Option<string>,
    authority: Option<string>,
    userInfo: Option<string>,
    port: int,
    path: Option<string>,
    query: Option<string>,
    fragment: Option<string>)

  /** The arguments of the seven-argument java.net.URI constructor (a null host is None). */
  datatype UriComponents = UriComponents(
    scheme: Option<string>,
    userInfo: Option<string>,
    host: Option<string>,
    port: int,
    path: Option<string>,
    query: Option<string>,
    fragment: Option<string>)

  /**
   * java.net.URI:
   *   parse:   new URI(String); None when it throws URISyntaxException
   *   compose: new URI(scheme, userInfo, host, port, path, query, fragment).toString();
   *            None when the constructor throws URISyntaxException
   * A URI built from a string renders back as that same string, so only the
   * seven-argument form needs a rendering function.
   */
  datatype UriCodec = UriCodec(
    parse: string -> Option<ParsedUri>,
    compose: UriComponents -> Option<string>)
}
