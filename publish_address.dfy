/**
 * Publish-address resolution of RegistryUtils: how the address a transport
 * is bound to becomes the address advertised to other services, and the
 * publish address and host name of the process itself.
 */
module PublishResolution {
  import opened Wrappers
  import opened JavaString
  import opened Environment
  import opened PortKey

  /** Configuration key of the publish address: empty, a literal IP or host, or "{interface name}". */
  const PUBLISH_ADDRESS := "cse.service.publishAddress"

  /** The three readings of the trimmed publish-address setting. */
  datatype PublishSetting = Unset | InterfaceRef(name: string) | Literal(host: string)

  /** The setting starts with '{' and ends with '}'. */
  predicate Braced(t: string)
  {
    StartsWith(t, "{") && EndsWith(t, "}")
  }

  /** A braced setting has at least two characters: the braces and the interface name between them. */
  lemma BracedShape(t: string)
    requires Braced(t)
    ensures |t| >= 2 && t == "{" + t[1..|t| - 1] + "}"
  {
    assert t[..1][0] == t[0];
    assert t[|t| - 1..][0] == t[|t| - 1];
  }

  /** The classification every publish-address function applies to the setting text. */
  function ParseSetting(raw: string): (p: PublishSetting)
    ensures p.Unset? <==> Trim(raw) == []
    ensures p.InterfaceRef? <==> Braced(Trim(raw))
    ensures p.InterfaceRef? ==> |Trim(raw)| >= 2 && p.name == Trim(raw)[1..|Trim(raw)| - 1]
    ensures p.Literal? ==> p.host == Trim(raw)
  {
    var t := Trim(raw);
    if t == [] then Unset
    else if Braced(t) then
      BracedShape(t);
      InterfaceRef(t[1..|t| - 1])
    else Literal(t)
  }

  /** An interface reference names the text between the braces of the trimmed setting. */
  lemma InterfaceNameInBraces(raw: string)
    requires ParseSetting(raw).InterfaceRef?
    ensures var t := Trim(raw);
      && |t| >= 2
      && ParseSetting(raw).name == t[1..|t| - 1]
      && "{" + ParseSetting(raw).name + "}" == t
  {
    BracedShape(Trim(raw));
  }

  /** The configuration text that denotes a setting. */
  function SettingText(p: PublishSetting): string
  {
    match p
    case Unset => ""
    case InterfaceRef(name) => "{" + name + "}"
    case Literal(host) => host
  }

  /** A setting that some configuration text denotes: a literal host is non-empty, unpadded and not braced. */
  predicate Denotable(p: PublishSetting)
  {
    p.Literal? ==> p.host != [] && Trimmed(p.host) && !Braced(p.host)
  }

  /** Parsing the text of a denotable setting gives the setting back. */
  lemma ParseSettingText(p: PublishSetting)
    requires Denotable(p)
    ensures ParseSetting(SettingText(p)) == p
  {
    match p
    case Unset =>
    case InterfaceRef(name) => ParseInterfaceText(name);
    case Literal(host) => ParseLiteralText(host);
  }

  /** "{name}" parses as a reference to interface `name`. */
  lemma ParseInterfaceText(name: string)
    ensures ParseSetting("{" + name + "}") == InterfaceRef(name)
  {
    var t := "{" + name + "}";
    TrimmedIsFixpoint(t);
    assert t[1..|t| - 1] == name;
  }

  /** A non-empty, unpadded, unbraced host parses as itself. */
  lemma ParseLiteralText(host: string)
    requires host != [] && Trimmed(host) && !Braced(host)
    ensures ParseSetting(host) == Literal(host)
  {
    TrimmedIsFixpoint(host);
  }

  /** Every text denotes a setting, and denotes it by its trimmed form. */
  lemma SettingTextParse(raw: string)
    ensures Denotable(ParseSetting(raw))
    ensures SettingText(ParseSetting(raw)) == Trim(raw)
  {
    if ParseSetting(raw).InterfaceRef? {
      InterfaceNameInBraces(raw);
    }
  }

  /** The publish-address setting as configured (empty when absent). */
  function RawSetting(cfg: Config): string
  {
    StringProperty(cfg, PUBLISH_ADDRESS, "")
  }

  /** The classified setting: unset exactly when the configured text is absent or all blank. */
  function Setting(cfg: Config): (p: PublishSetting)
    ensures p.Unset? <==> AllBlank(RawSetting(cfg))
  {
    ParseSetting(RawSetting(cfg))
  }

  /**
   * NoSuchInterface stands for the exception NetUtils.ensureGetInterfaceAddress
   * throws for an unknown interface name; NullDereference for a
   * NullPointerException.
   */
  datatype Failure = NoSuchInterface(name: string) | NullDereference

  /** What a Java method returning a String does: return a value, return null, or throw. */
  datatype Answer = Returned(value: string) | ReturnedNull | Raised(failure: Failure)

  /** A String reference passed on unchecked: null stays null. */
  function Ref(s: Option<string>): Answer
  {
    match s
    case None => ReturnedNull
    case Some(v) => Returned(v)
  }

  /** getPublishAddress(): the address this process advertises. */
  function PublishAddress(cfg: Config, net: Network): (r: Answer)
    ensures r.ReturnedNull? <==> Setting(cfg).Unset? && net.hostAddress.None?
    ensures r.Raised? <==> Setting(cfg).InterfaceRef? && Setting(cfg).name !in net.interfaces
    ensures r.Raised? ==> r.failure == NoSuchInterface(Setting(cfg).name)
  {
    match Setting(cfg)
    case Unset => Ref(net.hostAddress)
    case InterfaceRef(name) =>
      (match EnsureGetInterfaceAddress(net, name)
       case Found(address) => Returned(address.hostAddress)
       case NotFound(missing) => Raised(NoSuchInterface(missing)))
    case Literal(host) => Returned(host)
  }

  /** getPublishHostName(): the host name this process advertises. */
  function PublishHostName(cfg: Config, net: Network): (r: Answer)
    ensures r.ReturnedNull? <==> Setting(cfg).Unset? && net.hostName.None?
    ensures r.Raised? <==> Setting(cfg).InterfaceRef? && Setting(cfg).name !in net.interfaces
    ensures r.Raised? ==> r.failure == NoSuchInterface(Setting(cfg).name)
  {
    match Setting(cfg)
    case Unset => Ref(net.hostName)
    case InterfaceRef(name) =>
      (match EnsureGetInterfaceAddress(net, name)
       case Found(address) => Returned(address.hostName)
       case NotFound(missing) => Raised(NoSuchInterface(missing)))
    case Literal(host) => Returned(host)
  }

  /** An empty or all-blank setting advertises the detected local address and host name. */
  lemma BlankSettingUsesLocalHost(cfg: Config, net: Network)
    requires AllBlank(RawSetting(cfg))
    ensures PublishAddress(cfg, net) == Ref(net.hostAddress)
    ensures PublishHostName(cfg, net) == Ref(net.hostName)
  {
  }

  /**
   * A "{name}" setting advertises the address and host name of interface
   * `name`, the text between the braces, and fails on both when no such
   * interface exists.
   */
  lemma BracedSettingUsesInterface(cfg: Config, net: Network)
    requires Braced(Trim(RawSetting(cfg)))
    ensures var t := Trim(RawSetting(cfg));
      && |t| >= 2
      && var name := t[1..|t| - 1];
      && (name in net.interfaces ==>
            && PublishAddress(cfg, net) == Returned(net.interfaces[name].hostAddress)
            && PublishHostName(cfg, net) == Returned(net.interfaces[name].hostName))
      && (name !in net.interfaces ==>
            PublishAddress(cfg, net) == PublishHostName(cfg, net) == Raised(NoSuchInterface(name)))
  {
    InterfaceNameInBraces(RawSetting(cfg));
  }

  /** Any other setting is advertised verbatim (trimmed) as both address and host name. */
  lemma LiteralSettingIsVerbatim(cfg: Config, net: Network)
    requires Trim(RawSetting(cfg)) != []
    requires !Braced(Trim(RawSetting(cfg)))
    ensures PublishAddress(cfg, net) == PublishHostName(cfg, net) == Returned(Trim(RawSetting(cfg)))
  {
  }

  /** The port to advertise for a transport bound to `boundPort`: a configured 0, or none, keeps it. */
  function PublishPort(cfg: Config, scheme: string, boundPort: int): (port: int)
    ensures var key := "cse." + scheme + ".publishPort";
      port == if key in cfg.ints && cfg.ints[key] != 0 then cfg.ints[key] else boundPort
  {
    var setting := IntProperty(cfg, PublishPortKey(scheme), 0);
    if setting == 0 then boundPort else setting
  }

  /** The components of `original` with its host and port replaced. */
  function WithHostPort(original: ParsedUri, host: Option<string>, port: int): UriComponents
  {
    UriComponents(original.scheme, original.userInfo, host, port, original.path, original.query, original.fragment)
  }

  /** new URI(seven components).toString(), with a URISyntaxException turned into null. */
  function Compose(codec: UriCodec, c: UriComponents): (r: Answer)
    ensures !r.Raised?
    ensures r.ReturnedNull? <==> codec.compose(c).None?
    ensures codec.compose(c).Some? ==> r == Returned(codec.compose(c).value)
  {
    Ref(codec.compose(c))
  }

  /** The text resolution parses: schema + "://" + address, a null schema printing as "null". */
  function BoundUri(schema: Option<string>, address: string): (r: string)
    ensures |r| == |Str(schema)| + 3 + |address|
    ensures r[..|Str(schema)|] == Str(schema)
    ensures r[|Str(schema)|..|Str(schema)| + 3] == "://"
    ensures r[|Str(schema)| + 3..] == address
  {
    Str(schema) + "://" + address
  }

  /** A null schema enters the bound URI text as "null", as Java string concatenation prints it. */
  lemma NullSchemaPrintsNull(address: string)
    ensures BoundUri(None, address) == "null://" + address
  {
  }

  /**
   * Rebuilding the bound URI for a configured host: the port key is built
   * from the parsed scheme (a null scheme makes String.replace throw).
   */
  function Republish(cfg: Config, codec: UriCodec, original: ParsedUri, host: string): (r: Answer)
    ensures r.Raised? <==> original.scheme.None?
    ensures r.Raised? ==> r.failure == NullDereference
  {
    match original.scheme
    case None => Raised(NullDereference)
    case Some(scheme) => Compose(codec, WithHostPort(original, Some(host), PublishPort(cfg, scheme, original.port)))
  }

  /**
   * Publishing a bound URI `text` that parsed as `original` and whose
   * authority resolved to `bound`, under the classified setting `setting`.
   * Without a setting it never throws and keeps a concrete bind as it is;
   * with one, it throws what getPublishAddress() throws, or else rebuilds the
   * URI around the host getPublishAddress() returns.
   */
  function Rewrite(cfg: Config, setting: PublishSetting, net: Network, codec: UriCodec, text: string,
                   original: ParsedUri, bound: InetAddress): (r: Answer)
    ensures setting.Unset? ==> !r.Raised?
    ensures setting.Unset? && !bound.anyLocal ==> r == Returned(text)
    ensures setting == Setting(cfg) && !setting.Unset? && PublishAddress(cfg, net).Raised? ==>
      r == PublishAddress(cfg, net)
    ensures setting == Setting(cfg) && !setting.Unset? && PublishAddress(cfg, net).Returned? ==>
      r == Republish(cfg, codec, original, PublishAddress(cfg, net).value)
  {
    match setting
    case Unset =>
      if bound.anyLocal then Compose(codec, WithHostPort(original, net.hostAddress, original.port))
      else Returned(text)
    case InterfaceRef(name) =>
      (match EnsureGetInterfaceAddress(net, name)
       case Found(iface) => Republish(cfg, codec, original, iface.hostAddress)
       case NotFound(missing) => Raised(NoSuchInterface(missing)))
    case Literal(host) => Republish(cfg, codec, original, host)
  }

  /**
   * Parsing the bound URI text and its authority; a parse failure of either
   * is null, an authority whose host does not resolve throws. A throw for a
   * missing interface is getPublishAddress()'s throw for a setting naming it.
   */
  function PublishBound(cfg: Config, net: Network, codec: UriCodec, text: string): (r: Answer)
    ensures codec.parse(text).None? || net.parseIpPort(codec.parse(text).value.authority).None? ==>
      r == ReturnedNull
    ensures r.Raised? && r.failure.NoSuchInterface? ==>
      r == PublishAddress(cfg, net) && Setting(cfg) == InterfaceRef(r.failure.name)
  {
    match codec.parse(text)
    case None => ReturnedNull
    case Some(original) =>
      match net.parseIpPort(original.authority)
      case None => ReturnedNull
      case Some(ipPort) =>
        match ipPort.address
        case None => Raised(NullDereference)
        case Some(bound) => Rewrite(cfg, Setting(cfg), net, codec, text, original, bound)
  }

  /**
   * getPublishAddress(schema, address): the endpoint advertised for a
   * transport of scheme `schema` bound to `address`.
   */
  function PublishEndpoint(cfg: Config, net: Network, codec: UriCodec, schema: Option<string>, address: Option<string>): (r: Answer)
    ensures address.None? ==> r == ReturnedNull
  {
    if address.None? then ReturnedNull
    else PublishBound(cfg, net, codec, BoundUri(schema, address.value))
  }

  /** A well-formed, resolved bound URI text is published by Rewrite. */
  lemma BoundRewrites(cfg: Config, net: Network, codec: UriCodec, text: string, original: ParsedUri, bound: InetAddress)
    requires codec.parse(text) == Some(original)
    requires net.parseIpPort(original.authority).Some?
    requires net.parseIpPort(original.authority).value.address == Some(bound)
    ensures PublishBound(cfg, net, codec, text) == Rewrite(cfg, Setting(cfg), net, codec, text, original, bound)
  {
  }

  /** The same at the level of getPublishAddress(schema, address). */
  lemma EndpointRewrites(cfg: Config, net: Network, codec: UriCodec, schema: Option<string>, address: string,
                         original: ParsedUri, bound: InetAddress)
    requires codec.parse(BoundUri(schema, address)) == Some(original)
    requires net.parseIpPort(original.authority).Some?
    requires net.parseIpPort(original.authority).value.address == Some(bound)
    ensures PublishEndpoint(cfg, net, codec, schema, Some(address))
         == Rewrite(cfg, Setting(cfg), net, codec, BoundUri(schema, address), original, bound)
  {
    var text := BoundUri(schema, address);
    assert PublishEndpoint(cfg, net, codec, schema, Some(address)) == PublishBound(cfg, net, codec, text);
    BoundRewrites(cfg, net, codec, text, original, bound);
  }

  /**
   * Resolution throws for a missing interface only where getPublishAddress()
   * throws the same, that is, where the setting names that missing interface.
   */
  lemma MissingInterfaceAsPublishAddress(cfg: Config, net: Network, codec: UriCodec, schema: Option<string>, address: Option<string>)
    requires PublishEndpoint(cfg, net, codec, schema, address).Raised?
    requires PublishEndpoint(cfg, net, codec, schema, address).failure.NoSuchInterface?
    ensures PublishEndpoint(cfg, net, codec, schema, address) == PublishAddress(cfg, net)
    ensures Setting(cfg) == InterfaceRef(PublishEndpoint(cfg, net, codec, schema, address).failure.name)
    ensures Setting(cfg).name !in net.interfaces
  {
  }

  /**
   * An address that is not a URI, or whose authority is not ip:port, gives
   * null, whatever the setting (even one naming a missing interface).
   */
  lemma MalformedAddressIsNull(cfg: Config, net: Network, codec: UriCodec, schema: Option<string>, address: string)
    requires codec.parse(BoundUri(schema, address)).None?
      || net.parseIpPort(codec.parse(BoundUri(schema, address)).value.authority).None?
    ensures PublishEndpoint(cfg, net, codec, schema, Some(address)) == ReturnedNull
  {
  }

  /**
   * A bound host that does not resolve leaves the socket address without an
   * InetAddress, and reading its host address throws, whatever the setting.
   */
  lemma UnresolvedBindThrows(cfg: Config, net: Network, codec: UriCodec, schema: Option<string>, address: string,
                             original: ParsedUri)
    requires codec.parse(BoundUri(schema, address)) == Some(original)
    requires net.parseIpPort(original.authority).Some?
    requires net.parseIpPort(original.authority).value.address.None?
    ensures PublishEndpoint(cfg, net, codec, schema, Some(address)) == Raised(NullDereference)
  {
  }

  /** With no setting, an address bound to a concrete host is advertised as the bound URI text itself. */
  lemma ConcreteBindIsKept(cfg: Config, net: Network, codec: UriCodec, schema: Option<string>, address: string,
                           original: ParsedUri, bound: InetAddress)
    requires Setting(cfg).Unset?
    requires codec.parse(BoundUri(schema, address)) == Some(original)
    requires net.parseIpPort(original.authority).Some?
    requires net.parseIpPort(original.authority).value.address == Some(bound)
    requires !bound.anyLocal
    ensures PublishEndpoint(cfg, net, codec, schema, Some(address)) == Returned(BoundUri(schema, address))
  {
  }

  /**
   * Resolving the address part of a kept endpoint again gives the same
   * endpoint. This follows from ConcreteBindIsKept because the kept result is
   * the bound URI text itself, whose address part is the input address.
   */
  lemma ConcreteBindIsIdempotent(cfg: Config, net: Network, codec: UriCodec, schema: Option<string>, address: string,
                                 original: ParsedUri, bound: InetAddress)
    requires Setting(cfg).Unset?
    requires codec.parse(BoundUri(schema, address)) == Some(original)
    requires net.parseIpPort(original.authority).Some?
    requires net.parseIpPort(original.authority).value.address == Some(bound)
    requires !bound.anyLocal
    ensures PublishEndpoint(cfg, net, codec, schema, Some(BoundUri(schema, address)[|Str(schema)| + 3..]))
         == Returned(BoundUri(schema, address))
  {
    ConcreteBindIsKept(cfg, net, codec, schema, address, original, bound);
  }

  /**
   * With no setting, an address bound to the wildcard host is rebuilt with
   * the detected local address as host and everything else, the bound port
   * included, taken from the bound URI: no publish-port setting applies.
   */
  lemma WildcardBindGetsLocalAddress(cfg: Config, net: Network, codec: UriCodec, schema: Option<string>, address: string,
                                     original: ParsedUri, bound: InetAddress)
    requires Setting(cfg).Unset?
    requires codec.parse(BoundUri(schema, address)) == Some(original)
    requires net.parseIpPort(original.authority).Some?
    requires net.parseIpPort(original.authority).value.address == Some(bound)
    requires bound.anyLocal
    ensures PublishEndpoint(cfg, net, codec, schema, Some(address))
         == Compose(codec, WithHostPort(original, net.hostAddress, original.port))
  {
  }

  /**
   * With a setting, the bound URI is rebuilt with the host getPublishAddress()
   * gives and the port PublishPort gives for its scheme; everything else is
   * kept. Where getPublishAddress() throws, so does this.
   */
  lemma ConfiguredHostIsPublishAddress(cfg: Config, net: Network, codec: UriCodec, schema: Option<string>, address: string,
                                       original: ParsedUri, bound: InetAddress)
    requires !Setting(cfg).Unset?
    requires codec.parse(BoundUri(schema, address)) == Some(original)
    requires net.parseIpPort(original.authority).Some?
    requires net.parseIpPort(original.authority).value.address == Some(bound)
    ensures PublishAddress(cfg, net).Raised? ==>
      PublishEndpoint(cfg, net, codec, schema, Some(address)) == PublishAddress(cfg, net)
    ensures PublishAddress(cfg, net).Returned? && original.scheme.Some? ==>
      PublishEndpoint(cfg, net, codec, schema, Some(address))
        == Compose(codec, WithHostPort(original, Some(PublishAddress(cfg, net).value),
                                       PublishPort(cfg, original.scheme.value, original.port)))
    ensures PublishAddress(cfg, net).Returned? && original.scheme.None? ==>
      PublishEndpoint(cfg, net, codec, schema, Some(address)) == Raised(NullDereference)
  {
    EndpointRewrites(cfg, net, codec, schema, address, original, bound);
    match Setting(cfg)
    case InterfaceRef(name) =>
      if name in net.interfaces {
        assert PublishAddress(cfg, net) == Returned(net.interfaces[name].hostAddress);
      } else {
        assert PublishAddress(cfg, net) == Raised(NoSuchInterface(name));
      }
    case Literal(host) =>
      assert PublishAddress(cfg, net) == Returned(host);
  }
}
