/** The records the discovery controller works with: annotation keys, the
    entry written into services.yaml, a discovered service, the two YAML
    documents, and the ConfigMap data that holds them. */
module Homepage {

  import Wrappers

  const AnnotationEnabled := "gethomepage.dev/enabled"
  const AnnotationName := "gethomepage.dev/name"
  const AnnotationDescription := "gethomepage.dev/description"
  const AnnotationGroup := "gethomepage.dev/group"
  const AnnotationIcon := "gethomepage.dev/icon"
  const AnnotationHref := "gethomepage.dev/href"
  /** Declared by the controller but never read: Weight stays 0. */
  const AnnotationWeight := "gethomepage.dev/weight"

  const DefaultGroup := "Discovered"

  /** ConfigMap data keys. */
  const ServicesKey := "services.yaml"
  const SettingsKey := "settings.yaml"

  /** What one link looks like inside services.yaml. */
  datatype ServiceEntry = ServiceEntry(description: string, href: string, icon: string)

  datatype DiscoveredService = DiscoveredService(
    name: string,
    description: string,
    group: string,
    icon: string,
    href: string,
    weight: int)

  /** The part of a Kubernetes Service the controller looks at. */
  datatype Service = Service(namespace: string, name: string, annotations: map<string, string>)

  /** services.yaml: a list of group blocks, each a mapping from group name
      to a list of single-entry mappings `name -> entry`. */
  type Entry = map<string, ServiceEntry>
  type Block = map<string, seq<Entry>>
  type Document = seq<Block>

  /** A generic YAML value, as settings.yaml decodes into. */
  datatype Value =
    | Null
    | Str(s: string)
    | Int(n: int)
    | List(items: seq<Value>)
    | Mapping(fields: map<string, Value>)

  type Settings = map<string, Value>

  /** Go's `m[k]` on a map of strings: the empty string for a missing key. */
  function Lookup(m: map<string, string>, k: string): string
  {
    if k in m then m[k] else ""
  }

  /** `order` lists every key of `keys` exactly once: one run of Go's
      randomised map iteration. */
  ghost predicate IsEnumeration(order: seq<string>, keys: set<string>)
  {
    && (forall i, j :: 0 <= i < j < |order| ==> order[i] != order[j])
    && (forall g :: g in order <==> g in keys)
  }

  /** The YAML library, left abstract: decoders that may fail, encoders that
      always succeed. */
  datatype Codec = Codec(
    decodeServices: string -> Wrappers.Option<Document>,
    encodeServices: Document -> string,
    decodeSettings: string -> Wrappers.Option<Settings>,
    encodeSettings: Settings -> string)
}
