/**
  The records the asset reconciler works on: discovery sources with their priority, the
  report a source sends, one row of the asset table and one row of the alert table.

  A database value is a text or NULL.  A text carries the network address it spells, if it
  spells one, so that address comparison (two spellings, one address) and text comparison
  stay apart without modelling an address parser.
 */
module AssetRecords {

  import opened Options

  datatype Source =
    | EdrCrowdstrike | EdrSentinelone | EdrDefender
    | NacCiscoIse | NacAruba
    | AdLdap | AzureAd
    | CmdbServicenow | CmdbJira
    | VulnNessus | VulnQualys | VulnRapid7
    | DhcpDns | Infoblox
    | CloudAws | CloudAzure | CloudGcp
    | NmapScan | Manual | AssetApi
    | Other(name: string)

  /** The priority table.  A source outside the table has no entry. */
  function Listed(s: Source): Option<nat> {
    match s
    case EdrCrowdstrike | EdrSentinelone | EdrDefender => Some(10)
    case NacCiscoIse | NacAruba => Some(9)
    case AdLdap | AzureAd | CloudAws | CloudAzure | CloudGcp => Some(8)
    case CmdbServicenow | CmdbJira | AssetApi => Some(7)
    case VulnNessus | VulnQualys | VulnRapid7 => Some(6)
    case DhcpDns | Infoblox => Some(5)
    case NmapScan => Some(4)
    case Manual => Some(3)
    case Other(_) => None
  }

  /** Priority of a source that is reporting: an unlisted one counts 1. */
  function Priority(s: Source): nat {
    if Listed(s).Some? then Listed(s).value else 1
  }

  /** Priority of a source already recorded on an asset: an unlisted one counts 0. */
  function HeldPriority(s: Source): nat {
    if Listed(s).Some? then Listed(s).value else 0
  }

  predicate Authoritative(s: Source) {
    match s
    case AdLdap | AzureAd | CmdbServicenow | CmdbJira | EdrCrowdstrike | EdrSentinelone
      | EdrDefender | CloudAws | CloudAzure | CloudGcp | AssetApi => true
    case _ => false
  }

  /** The eleven fields that follow source priority. */
  datatype Field =
    | Name | Os | Ip | Mac | Segment | EdrStatus | ControlCoverage
    | NetworkExposure | AuthMethod | Criticality | DataClassification

  const MERGED_FIELDS: seq<Field> :=
    [Name, Os, Ip, Mac, Segment, EdrStatus, ControlCoverage,
     NetworkExposure, AuthMethod, Criticality, DataClassification]

  datatype Value = Null | Text(text: string, address: Option<nat>)

  function Plain(s: string): Value { Text(s, None) }

  /** Truthiness of a reported value: neither missing nor empty. */
  predicate Present(v: Value) { v.Text? && v.text != "" }

  type Values = map<Field, Value>

  /** A column nothing was written to is NULL. */
  function Get(values: Values, f: Field): Value {
    if f in values then values[f] else Null
  }

  predicate HasAddress(v: Value) { Present(v) && v.address.Some? }

  /** How the database compares a column with a value: IP and MAC addresses as addresses. */
  predicate Same(f: Field, stored: Value, sought: Value) {
    if f == Ip || f == Mac then HasAddress(stored) && HasAddress(sought) && stored.address == sought.address
    else stored == sought
  }

  /** One entry of a service list: an empty entry, or one whose service key may be missing. */
  datatype Service = Blank | Service(name: Option<string>)

  function ServiceNames(services: seq<Service>): set<Option<string>> {
    set s | s in services && s.Service? :: s.name
  }

  datatype Report = Report(
    given: Values,
    hostname: Value,
    osGuess: Value,
    kind: Option<Value>,
    software: set<string>,
    cpes: set<string>,
    dependencies: set<string>,
    services: seq<Service>)

  datatype Row = Row(
    kind: Value,
    values: Values,
    software: set<string>,
    cpes: set<string>,
    dependencies: set<string>,
    sources: seq<Source>,
    lastSeen: int,
    isShadow: bool,
    isStale: bool,
    services: seq<Service>,
    otherAttrs: map<string, string>)

  datatype AlertKind = Drift | ShadowIt | StaleAsset | EdrGap

  /** `asset` is the position of the row the alert is about. */
  datatype Alert = Alert(kind: AlertKind, asset: nat, subject: Value, createdAt: int, open: bool)

  datatype Store = Store(rows: seq<Row>, alerts: seq<Alert>)

  datatype Match = NoRow | One(row: nat) | Many
}
