/**
 * The records the backend returns, reduced to the fields the modelled logic
 * reads. Dates are already-parsed triples.
 */
module Types {
  import opened Dates

  /** One day's check-in record of one employee. */
  datatype Attendance = Attendance(date: Date)

  /** An attendance record tagged with its owner, as the calendar hands it to the table. */
  datatype UserAttendance = UserAttendance(record: Attendance, username: string)

  /** An employee of the roster, with the attendance records of the queried month. */
  datatype User = User(employeeNumber: string, username: string, attendances: seq<Attendance>)

  /** A public holiday of the holiday calendar. */
  datatype Holiday = Holiday(date: Date, description: string)
}
