/** The records the dashboard exchanges: directory users and security-platform
    devices, with their enumerations. A JavaScript string that may be
    `undefined`, `null` or empty is a `string` here, and its falsy forms are
    all the empty string. */
module Types {

  import opened Wrappers

  datatype RiskLevel = Low | Medium | High | Unknown

  datatype HealthStatus =
    | Active
    | Inactive
    | ImpairedCommunication
    | NoSensorData
    | NoSensorDataImpairedCommunication

  datatype UserRole = Admin | Viewer

  datatype User = User(
    id: string,
    displayName: string,
    mail: string,
    jobTitle: string,
    department: string,
    role: UserRole,
    photoUrl: Option<string>)

  datatype Device = Device(
    id: string,
    userId: string,
    deviceName: string,
    os: string,
    healthStatus: HealthStatus,
    riskLevel: RiskLevel,
    lastSeen: string,
    machineTags: Option<seq<string>>)

  /** The owner hint a device carries when no owner is known. */
  const UnknownOwner: string := "unknown"

  /** The string value of each risk level. */
  function RiskName(r: RiskLevel): string {
    match r
    case Low => "Low"
    case Medium => "Medium"
    case High => "High"
    case Unknown => "Unknown"
  }

  /** The string value of each health status. */
  function HealthName(h: HealthStatus): string {
    match h
    case Active => "Active"
    case Inactive => "Inactive"
    case ImpairedCommunication => "ImpairedCommunication"
    case NoSensorData => "NoSensorData"
    case NoSensorDataImpairedCommunication => "NoSensorDataImpairedCommunication"
  }

  /** JavaScript truthiness of an optional string. */
  predicate Truthy(s: Option<string>) {
    s.Some? && s.value != ""
  }
}
