# Publish-address resolution and the registry handle of RegistryUtils

This project models the decision logic of `RegistryUtils`, the static façade
a ServiceComb microservice uses to reach its service registry:

- **publish-address resolution** — how the address a transport is bound to
  (`scheme://address`) becomes the endpoint advertised to other services, and
  how the process's own publish address and host name are chosen. All three
  functions read the trimmed `cse.service.publishAddress` setting and classify
  it the same way: empty (use the detected local host), `{name}` (use network
  interface `name`), or anything else (use the text itself as host). The
  endpoint variant also rewrites wildcard binds, applies the per-transport
  `cse.<scheme>.publishPort` override and turns malformed addresses into null;
- **the registry handle** — the static `serviceRegistry` field that `init`
  and `setServiceRegistry` write and `getServiceRegistry` reads.

Modules:

- `Wrappers` — `Option`, standing for a Java reference that may be null.
- `JavaString` — the `java.lang.String` behaviour the source relies on:
  concatenation of a null reference, `trim`, `startsWith`, `endsWith`,
  `replace`. Strings are sequences of Dafny `char`s (Unicode scalar values)
  rather than UTF-16 code units; they differ only outside the Basic
  Multilingual Plane and for lone surrogates, which a Java string can hold
  and a Dafny string cannot, and every comparison made here is against an ASCII
  character.
- `Environment` — what the façade reads from outside: a snapshot of the
  dynamic configuration (`Config`), the host's network identity and
  `NetUtils.parseIpPort` (`Network`), and `java.net.URI` (`UriCodec`).
  Network queries and URI parsing and rendering are supplied as values and
  functions, not re-implemented.
- `PortKey` — the `cse.{transport_name}.publishPort` key template and its
  instantiation.
- `PublishResolution` — the classification of the setting, `getPublishAddress()`,
  `getPublishHostName()` and `getPublishAddress(schema, address)`.
- `Registry` — the `serviceRegistry` field as a class with `Init`,
  `GetServiceRegistry` and `SetServiceRegistry`, and `ServiceRegistry`, a
  stand-in for the external registry that records only how often its
  `init()` was called.

A Java method returning a `String` is modelled by `Answer`: it returns a
value, returns null, or throws. An unknown interface name throws
(`NoSuchInterface`), as `NetUtils.ensureGetInterfaceAddress` does, and the
source does not catch it. A null dereference is `NullDereference`.

The model follows the code as written, including these cases:

- a malformed address gives `null`, not a failure value;
- a bound host whose socket address does not resolve makes line 165 throw
  `NullPointerException`, so resolution can raise there too;
- a non-empty setting with a URI that has no scheme makes
  `String.replace` throw at line 190;
- the handle has no lifecycle states: `init` may be called again, and nothing
  fails fast after `destory`.

## Model

| member | source | states |
|---|---|---|
| `JavaString.TrimStart` | service-registry/src/main/java/io/servicecomb/serviceregistry/RegistryUtils.java:155 | cutting leading blanks (characters up to U+0020) leaves a suffix of the text; everything cut is blank and the rest does not start with a blank |
| `JavaString.TrimEnd` | service-registry/src/main/java/io/servicecomb/serviceregistry/RegistryUtils.java:155 | cutting trailing blanks leaves a prefix of the text; everything cut is blank and the rest does not end with a blank |
| `JavaString.Trim` | service-registry/src/main/java/io/servicecomb/serviceregistry/RegistryUtils.java:155 | `trim()` gives a slice of the text with only blanks before and after it and no blank at either end of its own; it is empty exactly when the whole text is blank |
| `JavaString.TrimIdempotent` | service-registry/src/main/java/io/servicecomb/serviceregistry/RegistryUtils.java:155 | trimming a trimmed text changes nothing |
| `JavaString.ReplaceSkipsPrefix` | service-registry/src/main/java/io/servicecomb/serviceregistry/RegistryUtils.java:190 | `replace` scans left to right: a prefix at which no occurrence of the target starts is copied unchanged |
| `JavaString.ReplaceWithoutTarget` | service-registry/src/main/java/io/servicecomb/serviceregistry/RegistryUtils.java:190 | `replace` leaves a text in which the target does not occur unchanged |
| `JavaString.ReplaceSingle` | service-registry/src/main/java/io/servicecomb/serviceregistry/RegistryUtils.java:190 | `replace` on a text holding the target once, after a prefix without the target's first character and before a tail too short to hold another, yields prefix + replacement + tail |
| `PortKey.PortKeyTemplate` | service-registry/src/main/java/io/servicecomb/serviceregistry/RegistryUtils.java:52 | replacing `{transport_name}` in the template `cse.{transport_name}.publishPort` by a scheme gives `"cse." + scheme + ".publishPort"` |
| `PortKey.PublishPortKey` | service-registry/src/main/java/io/servicecomb/serviceregistry/RegistryUtils.java:190 | the publish-port key of a transport is `"cse." + scheme + ".publishPort"` |
| `PublishResolution.Setting` | service-registry/src/main/java/io/servicecomb/serviceregistry/RegistryUtils.java:152-155 | the classified publish-address setting is unset exactly when the configured text is absent or all blank |
| `PublishResolution.ParseSetting` | service-registry/src/main/java/io/servicecomb/serviceregistry/RegistryUtils.java:109-123 | the setting is unset exactly when it is all blank; it names an interface exactly when its trimmed text starts with `{` and ends with `}`, and the name is the text between the braces; otherwise its trimmed text is the host |
| `PublishResolution.ParseSettingText` | service-registry/src/main/java/io/servicecomb/serviceregistry/RegistryUtils.java:111-123 | parsing the text of any setting that some configuration text can denote gives that setting back |
| `PublishResolution.SettingTextParse` | service-registry/src/main/java/io/servicecomb/serviceregistry/RegistryUtils.java:111-123 | every configuration text parses to a denotable setting whose text is the trimmed configuration text |
| `PublishResolution.PublishAddress` | service-registry/src/main/java/io/servicecomb/serviceregistry/RegistryUtils.java:108-124 | `getPublishAddress()` returns null exactly when the setting is unset and `NetUtils.getHostAddress()` is null; it throws exactly when the setting names an interface that does not exist, and then names that interface |
| `PublishResolution.PublishHostName` | service-registry/src/main/java/io/servicecomb/serviceregistry/RegistryUtils.java:126-141 | `getPublishHostName()` returns null exactly when the setting is unset and `NetUtils.getHostName()` is null; it throws exactly when the setting names an interface that does not exist, and then names that interface |
| `PublishResolution.BlankSettingUsesLocalHost` | service-registry/src/main/java/io/servicecomb/serviceregistry/RegistryUtils.java:109-132 | with an empty or all-blank setting the publish address is what `NetUtils.getHostAddress()` returns and the publish host name what `NetUtils.getHostName()` returns, null included |
| `PublishResolution.BracedSettingUsesInterface` | service-registry/src/main/java/io/servicecomb/serviceregistry/RegistryUtils.java:116-138 | with a `{name}` setting both functions use interface `name` (the text between the braces): its address and its host name; both throw the same failure when it does not exist |
| `PublishResolution.LiteralSettingIsVerbatim` | service-registry/src/main/java/io/servicecomb/serviceregistry/RegistryUtils.java:123-140 | any other non-blank setting is returned, trimmed, by both functions alike |
| `PublishResolution.PublishPort` | service-registry/src/main/java/io/servicecomb/serviceregistry/RegistryUtils.java:190-194 | the advertised port is the value of `"cse." + scheme + ".publishPort"` when it is configured and non-zero, and the bound port otherwise |
| `PublishResolution.Compose` | service-registry/src/main/java/io/servicecomb/serviceregistry/RegistryUtils.java:174-197 | rendering rebuilt URI components, for a wildcard bind (lines 174-177) and for a configured host (lines 195-197), never throws; it returns the rendered URI text, or null exactly when the components do not form a URI (the `URISyntaxException` caught at lines 199-201) |
| `PublishResolution.Republish` | service-registry/src/main/java/io/servicecomb/serviceregistry/RegistryUtils.java:190-197 | rebuilding the bound URI with a configured host throws exactly when the URI has no scheme, and then it is a null dereference in `replace` |
| `PublishResolution.BoundUri` | service-registry/src/main/java/io/servicecomb/serviceregistry/RegistryUtils.java:157 | the text parsed is the schema's text, then `://`, then the address, each recoverable by slicing |
| `PublishResolution.NullSchemaPrintsNull` | service-registry/src/main/java/io/servicecomb/serviceregistry/RegistryUtils.java:157 | a null schema enters that text as `null` |
| `PublishResolution.Rewrite` | service-registry/src/main/java/io/servicecomb/serviceregistry/RegistryUtils.java:167-197 | with no setting the result never throws and a concrete bind is kept as the bound text; with a setting it throws what `getPublishAddress()` throws, and otherwise rebuilds the URI around the host `getPublishAddress()` returns |
| `PublishResolution.PublishBound` | service-registry/src/main/java/io/servicecomb/serviceregistry/RegistryUtils.java:157-165 | a bound text that is not a URI, or whose authority is not ip:port, gives null; a throw for a missing interface is `getPublishAddress()`'s throw for a setting naming that interface |
| `PublishResolution.PublishEndpoint` | service-registry/src/main/java/io/servicecomb/serviceregistry/RegistryUtils.java:146-203 | a null address is returned as null; the other cases are stated by the lemmas below |
| `PublishResolution.MissingInterfaceAsPublishAddress` | service-registry/src/main/java/io/servicecomb/serviceregistry/RegistryUtils.java:183-188 | when resolution throws for a missing interface, it throws what `getPublishAddress()` throws, and only when the setting names that missing interface |
| `PublishResolution.MalformedAddressIsNull` | service-registry/src/main/java/io/servicecomb/serviceregistry/RegistryUtils.java:157-162 | a bound address that is not a URI, or whose authority is not ip:port, gives null whatever the setting, even one naming a missing interface |
| `PublishResolution.UnresolvedBindThrows` | service-registry/src/main/java/io/servicecomb/serviceregistry/RegistryUtils.java:164-165 | a bound host that does not resolve makes resolution throw a null dereference, whatever the setting |
| `PublishResolution.ConcreteBindIsKept` | service-registry/src/main/java/io/servicecomb/serviceregistry/RegistryUtils.java:167-179 | with no setting and a non-wildcard bound host the result is the bound URI text `schema + "://" + address`, unchanged |
| `PublishResolution.ConcreteBindIsIdempotent` | service-registry/src/main/java/io/servicecomb/serviceregistry/RegistryUtils.java:178-179 | resolving the address part of such a kept result again gives the same result |
| `PublishResolution.WildcardBindGetsLocalAddress` | service-registry/src/main/java/io/servicecomb/serviceregistry/RegistryUtils.java:168-177 | with no setting and a wildcard bound host the URI is rebuilt with the detected host address as host, keeping scheme, user info, bound port, path, query and fragment, whatever publish-port setting exists |
| `PublishResolution.ConfiguredHostIsPublishAddress` | service-registry/src/main/java/io/servicecomb/serviceregistry/RegistryUtils.java:183-197 | with a setting the URI is rebuilt with the host `getPublishAddress()` gives and the port `PublishPort` gives for its scheme, keeping scheme, user info, path, query and fragment; it throws where `getPublishAddress()` throws, and on a null scheme |
| `Registry.ServiceRegistry.Init` | service-registry/src/main/java/io/servicecomb/serviceregistry/RegistryUtils.java:61 | the stand-in registry records one more `init()` call and nothing else |
| `Registry.RegistryUtils.constructor` | service-registry/src/main/java/io/servicecomb/serviceregistry/RegistryUtils.java:47 | the handle starts out holding no registry |
| `Registry.RegistryUtils.Init` | service-registry/src/main/java/io/servicecomb/serviceregistry/RegistryUtils.java:57-62 | after `init` the handle holds the registry the factory returned, and `init` has been called on that registry once more |
| `Registry.RegistryUtils.GetServiceRegistry` | service-registry/src/main/java/io/servicecomb/serviceregistry/RegistryUtils.java:72-74 | returns the registry the handle holds, changing nothing |
| `Registry.RegistryUtils.SetServiceRegistry` | service-registry/src/main/java/io/servicecomb/serviceregistry/RegistryUtils.java:76-78 | afterwards the handle holds exactly the given registry (null allowed), on which nothing is called, so a following `GetServiceRegistry` returns it |

## Left out

- `run`, `destory`, `getServiceRegistryClient`, the cache and manager accessors, `getAppId`, `getMicroservice`, `getMicroserviceInstance`, `findServiceInstance`, both `updateInstanceProperties` and `getMicroservice(id)`: they only forward to the external `ServiceRegistry`, whose behaviour (including the unscoped update's multi-microservice case) is not part of this model.
- `EventBus`, `ConfigUtil.getMicroserviceConfigLoader` and `ServiceRegistryFactory.getOrCreate`: the factory's result is a parameter of `Init`.
- Logging: the warnings at lines 160, 170 and 200 have no effect on results.
- Visibility of the static field between threads: the model is sequential.
- `DynamicPropertyFactory`: configuration is a snapshot of string and int properties; its parsing of property text into an int is not modelled, and ints are unbounded rather than 32-bit (no arithmetic is done on them).
- `PublishResolution.PublishBound`: `NetUtils.parseIpPort` and `IpPort.getSocketAddress()` (lines 158 and 164) are taken not to throw; only a null result of `parseIpPort` and a null `getAddress()` are modelled.
- `NetUtils` (`getHostAddress`, `getHostName`, interface addresses, `parseIpPort`, `isAnyLocalAddress`) and `java.net.URI` (parsing, the seven-argument constructor and `toString`): given as values and functions (`getHostAddress` and `getHostName` may be null), because they query the operating system or implement RFC 3986; a URI built from a string is taken to render back as that string, as `java.net.URI` documents.
- `JavaString.Replace`: defined for a non-empty target only, since the source replaces the constant `{transport_name}`.
- foundations/foundation-protobuf/src/main/java/org/apache/servicecomb/foundation/protobuf/internal/bean/PropertyDescriptor.java: a getter/setter holder with no behaviour.
