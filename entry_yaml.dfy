/** One services.yaml entry as YAML holds it, and the `ServiceEntry` struct
    the program decodes it into and writes back from. Only the three tagged
    fields exist in the struct: yaml.v3 ignores every other key when it
    decodes, and `omitempty` leaves out an empty description or icon when it
    encodes. */
module EntryYaml {

  import opened Wrappers
  import opened Homepage

  /** The struct tags of ServiceEntry. */
  const DescriptionKey := "description"
  const HrefKey := "href"
  const IconKey := "icon"

  /** The decimal text of a natural number. */
  function Digits(n: nat): (s: string)
    ensures |s| > 0
    decreases n
  {
    (if n < 10 then "" else Digits(n / 10)) + [(48 + n % 10) as char]
  }

  /** The text of an integer scalar. */
  function DecimalText(n: int): string
  {
    if n < 0 then "-" + Digits(-n) else Digits(n)
  }

  /** How yaml.v3 fills one string field from the value under its key: a
      missing key or a null leaves it empty, a scalar gives its text, and a
      list or a mapping makes the decode fail. */
  function FieldText(fields: map<string, Value>, key: string): (r: Option<string>)
    ensures r.None? <==> key in fields && (fields[key].List? || fields[key].Mapping?)
    ensures key in fields && fields[key].Str? ==> r == Some(fields[key].s)
    ensures key !in fields || fields[key].Null? ==> r == Some("")
  {
    if key !in fields then Some("")
    else
      match fields[key]
      case Null => Some("")
      case Str(s) => Some(s)
      case Int(n) => Some(DecimalText(n))
      case _ => None
  }

  /** Decoding one entry's mapping into a ServiceEntry. */
  function DecodeEntry(fields: map<string, Value>): (r: Option<ServiceEntry>)
  {
    match (FieldText(fields, DescriptionKey), FieldText(fields, HrefKey), FieldText(fields, IconKey))
    case (Some(d), Some(h), Some(i)) => Some(ServiceEntry(d, h, i))
    case _ => None
  }

  /** Encoding a ServiceEntry: `href` always, `description` and `icon` only
      when they are not empty. */
  function EncodeEntry(e: ServiceEntry): (fields: map<string, Value>)
    ensures fields.Keys <= {DescriptionKey, HrefKey, IconKey}
    ensures HrefKey in fields && fields[HrefKey] == Str(e.href)
    ensures DescriptionKey in fields <==> e.description != ""
    ensures IconKey in fields <==> e.icon != ""
    ensures DescriptionKey in fields ==> fields[DescriptionKey] == Str(e.description)
    ensures IconKey in fields ==> fields[IconKey] == Str(e.icon)
  {
    var withHref := map[HrefKey := Str(e.href)];
    var withDescription := if e.description != "" then withHref[DescriptionKey := Str(e.description)] else withHref;
    if e.icon != "" then withDescription[IconKey := Str(e.icon)] else withDescription
  }

  /** Keys other than the three tagged ones do not reach the struct. */
  lemma DecodeIgnoresOtherKeys(fields: map<string, Value>, key: string, v: Value)
    requires key !in {DescriptionKey, HrefKey, IconKey}
    ensures DecodeEntry(fields[key := v]) == DecodeEntry(fields)
  {
    assert FieldText(fields[key := v], DescriptionKey) == FieldText(fields, DescriptionKey);
    assert FieldText(fields[key := v], HrefKey) == FieldText(fields, HrefKey);
    assert FieldText(fields[key := v], IconKey) == FieldText(fields, IconKey);
  }

  /** Every entry the program writes reads back as itself. */
  lemma EntryRoundTrip(e: ServiceEntry)
    ensures DecodeEntry(EncodeEntry(e)) == Some(e)
  {
    var fields := EncodeEntry(e);
    assert FieldText(fields, HrefKey) == Some(e.href);
    assert FieldText(fields, DescriptionKey) == Some(e.description);
    assert FieldText(fields, IconKey) == Some(e.icon);
  }

  /** The entries that survive a decode and re-encode unchanged: only the
      three tagged keys, a string href, and a non-empty string description
      and icon when present. */
  predicate Canonical(fields: map<string, Value>)
  {
    && fields.Keys <= {DescriptionKey, HrefKey, IconKey}
    && HrefKey in fields && fields[HrefKey].Str?
    && (DescriptionKey in fields ==> fields[DescriptionKey].Str? && fields[DescriptionKey].s != "")
    && (IconKey in fields ==> fields[IconKey].Str? && fields[IconKey].s != "")
  }

  /** A stored entry that decodes is written back unchanged iff it is
      canonical: every other key, and every null or integer field, is lost or
      altered by the rewrite of a foreign block. */
  lemma RewriteKeepsExactlyCanonical(fields: map<string, Value>)
    requires DecodeEntry(fields).Some?
    ensures EncodeEntry(DecodeEntry(fields).value) == fields <==> Canonical(fields)
  {
    var e := DecodeEntry(fields).value;
    var back := EncodeEntry(e);
    if Canonical(fields) {
      assert back.Keys == fields.Keys;
      forall k | k in fields
        ensures back[k] == fields[k]
      {
      }
    }
    if back == fields {
      assert fields[HrefKey] == Str(e.href);
    }
  }

  /** A foreign entry with a `widget` key loses it on the first write. */
  lemma WidgetIsDropped()
    ensures DecodeEntry(map[HrefKey := Str("/x"), "widget" := Mapping(map[])]) == Some(ServiceEntry("", "/x", ""))
    ensures EncodeEntry(ServiceEntry("", "/x", "")) == map[HrefKey := Str("/x")]
  {
    var raw := map[HrefKey := Str("/x"), "widget" := Mapping(map[])];
    DecodeIgnoresOtherKeys(map[HrefKey := Str("/x")], "widget", Mapping(map[]));
    assert map[HrefKey := Str("/x")]["widget" := Mapping(map[])] == raw;
    assert FieldText(map[HrefKey := Str("/x")], HrefKey) == Some("/x");
  }
}
