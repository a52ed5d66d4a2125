/** The business constants and the failures the services raise. */
module Consts {

  /** A reservation of this many months or more gets the long-stay discount. */
  const DiscountMonths: int := 12
  /** The long-stay discount, in percent. */
  const DiscountPercentage: int := 10
  /** Reservations must be strictly shorter than this many months. */
  const MaxReservationDuration: int := 36
  /** Customers must be at least this many whole years old. */
  const MinimumAge: int := 18

  /** Each exception message a service throws, by kind. */
  datatype Error =
    | InsertError                  // "Unable to insert"
    | UpdateError                  // "Unable to update"
    | AgeShouldBeBiggerThanEighteen
    | DurationOutOfAllowedRange
    | RoomIsBusy
    | UnableToDelete
    | StoreFailure                 // a failed store write, rethrown with the store's own message
}
