/** The database records of `shared_planner/db/models.py` that the booking
    logic reads, as values. Times of day (`datetime.time`) are microseconds
    since midnight; datetimes are instants of module Clock. */
module Entities {

  datatype User = User(id: int, fullName: string, email: string, admin: bool, group: string)

  /** `volunteers` is the number of people the shop takes at once;
      `minTime` and `maxTime` bound a reservation's length in minutes. */
  datatype Shop = Shop(
    id: int,
    name: string,
    volunteers: int,
    minTime: int,
    maxTime: int,
    availableFrom: int,
    availableUntil: int)

  /** A weekly opening window `OpeningTime`: `day` 0 is Monday. */
  datatype OpeningTime = OpeningTime(id: int, shopId: int, day: int, start: int, end: int)

  datatype Reservation = Reservation(
    id: int,
    userId: int,
    shopId: int,
    start: int,
    end: int,
    validated: bool,
    reminderSent: bool)
}
