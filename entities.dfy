/**
 * The entities of the police records system: users and their roles,
 * police stations, register schemas, chat messages, notifications and the
 * daily duty chart. Every one of them is a value; the store that holds
 * them is the class `Database` in module `Store`.
 */
module Entities {
  import opened Wrappers

  // ---------------------------------------------------------------------
  // users and stations

  datatype Role = Admin | StationOfficer | PlainUser

  /**
   * A user. `stationId` is `null` for the administrator; `stationName` is
   * filled in on login and on profile updates. `password` is present only
   * on users created by registration, whose form data (password included)
   * is spread into the stored user object.
   */
  datatype User = User(
    id: string,
    name: string,
    role: Role,
    stationId: Option<string>,
    stationName: Option<string>,
    ssoId: string,
    email: string,
    mobile: string,
    designation: string,
    password: Option<string>)

  predicate IsAdmin(u: User) {
    u.role == Admin
  }

  /** `!!user.stationId`: a station id that is neither `null` nor empty. */
  predicate HasStation(u: User) {
    u.stationId.Some? && u.stationId.value != ""
  }

  /** The guard shared by the record operations: not an admin, and attached to a station. */
  predicate MayUseRecords(u: User) {
    !IsAdmin(u) && HasStation(u)
  }

  datatype Station = Station(id: string, name: string, isActive: bool)

  // ---------------------------------------------------------------------
  // register schemas

  datatype FieldType = Text | Number | Date | TextArea | Select | Checkbox | File

  /**
   * One column of a register. A missing `options` list is the empty
   * sequence. A SELECT field with both `optionsSourceRegisterId` and
   * `optionsSourceDisplayField` takes its options from another register.
   */
  datatype RegisterField = RegisterField(
    id: string,
    labelEn: string,
    labelHi: string,
    fieldType: FieldType,
    required: bool,
    options: seq<string>,
    optionsHi: seq<string>,
    optionsSourceRegisterId: Option<string>,
    optionsSourceDisplayField: Option<string>)

  datatype Register = Register(id: string, name: string, nameHi: string, fields: seq<RegisterField>)

  // ---------------------------------------------------------------------
  // chat and notifications

  /** A chat message; `file` is a data URI, `fileName` and `fileType` describe it. */
  datatype ChatMessage = ChatMessage(
    id: string,
    fromUserId: string,
    toUserId: string,
    text: Option<string>,
    file: Option<string>,
    fileName: Option<string>,
    fileType: Option<string>,
    timestamp: int,
    read: bool)

  datatype NotificationType = Chat | Task | System

  datatype Notification = Notification(
    id: string,
    userId: string,
    kind: NotificationType,
    message: string,
    link: Option<string>,
    timestamp: int,
    read: bool)

  // ---------------------------------------------------------------------
  // duty chart

  /** One line of the personnel list; `presence` is 'P', 'A', 'D' or free text. */
  datatype DutyPersonnel = DutyPersonnel(sno: int, name: string, designation: string, details: string, presence: string)

  /** A duty card: a titled list of officers. */
  datatype DutyAssignment = DutyAssignment(
    title: string,
    titleHi: string,
    officers: seq<string>,
    subtext: Option<string>,
    subtextHi: Option<string>)

  /** A card placed in a seed row, with the number of grid rows it was drawn over. */
  datatype DutyRowAssignment = DutyRowAssignment(content: DutyAssignment, span: int)

  /** The optional cards of a seed row, one per column. */
  datatype RowAssignments = RowAssignments(col1: Option<DutyRowAssignment>, col2: Option<DutyRowAssignment>)

  /** A row of the seed duty chart: one person, and possibly cards beside them. */
  datatype DutyRow = DutyRow(personnel: DutyPersonnel, assignments: Option<RowAssignments>)

  datatype DutySummary = DutySummary(present: int, onLeave: int, absent: int, outstationDuty: int)

  datatype DutyChart = DutyChart(
    date: string,
    personnel: seq<DutyPersonnel>,
    assignments: seq<DutyAssignment>,
    summary: DutySummary)
}
