/** The errors the back end throws, each with the message it carries. */
module Errors {

  datatype ApiError =
    | AdminCannotAdd
    | AdminCannotUpdate
    | AdminCannotDelete
    | RecordNotFound
    | CannotModifyOtherStation
    | CannotDeleteOtherStation
    | UserExists
    | UserNotFound
    | CurrentPasswordRequired
    | IncorrectCurrentPassword
    | StationNotFound
    | EmptyMessage
    | DutyChartNeedsStation

  /** The text of the `Error` thrown. */
  function Message(e: ApiError): string
  {
    match e
    case AdminCannotAdd => "Admins cannot add records for a specific station."
    case AdminCannotUpdate => "Admins cannot update records for a specific station."
    case AdminCannotDelete => "Admins cannot delete records for another station."
    case RecordNotFound => "Record not found"
    case CannotModifyOtherStation => "Access Denied: You cannot modify records for another station."
    case CannotDeleteOtherStation => "Access Denied: You cannot delete records for another station."
    case UserExists => "User with this SSO ID or Email already exists."
    case UserNotFound => "User not found"
    case CurrentPasswordRequired => "Current password is required to set a new one."
    case IncorrectCurrentPassword => "Incorrect current password."
    case StationNotFound => "Station not found"
    case EmptyMessage => "Cannot send an empty message."
    case DutyChartNeedsStation => "Cannot update duty chart without a valid user and station."
  }
}
