/** The database enumerations the controllers read and write. */
module Schema {

  type UserId = string
  type EventId = string

  /** Status of an event registration. */
  datatype RegistrationStatus = Pending | Approved | Rejected

  /** Status of an invitation. */
  datatype InvitationStatus = Sent | Declined | Accepted

  /** Subscription plan of an event or a level. */
  datatype Plan = Basic | Gold | Platinum

  /** The badges a user can hold. */
  datatype Badge =
    | SparkMember
    | After8Insider
    | LegacyMember
    | TableFavourite
    | LegendaryPresence
    | GoldenSpoon
    | TheFoodOracle
    | ThePlusOneMagnet
    | HostTitle
}
