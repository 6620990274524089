/** The two scalar helpers the transform stage applies cell by cell (helper.py). */
module Helper {

  /** A calendar month number, as carried by a date. */
  type Month = m: int | 1 <= m <= 12 witness 1

  /** A calendar date; only the year and the month are ever read. */
  datatype Date = Date(year: int, month: Month, day: int)

  /** Weekly working hours implied by a contract type: total, never fails. */
  function SetHours(contractType: string): (hours: int)
    ensures hours == 40 <==> contractType == "Full-time"
    ensures hours == 20 <==> contractType == "Part-time"
    ensures hours == 0 <==> contractType != "Full-time" && contractType != "Part-time"
  {
    if contractType == "Full-time" then 40
    else if contractType == "Part-time" then 20
    else 0
  }

  /** The result of SetHours is one of the three weekly loads. */
  lemma SetHoursRange(contractType: string)
    ensures SetHours(contractType) in {0, 20, 40}
  {
  }

  /**
   * Age in whole calendar years. The current year is a parameter: the clock
   * read that supplies it is outside the model. No month or day adjustment.
   */
  function CalculateAge(dateOfBirth: Date, todayYear: int): int
  {
    todayYear - dateOfBirth.year
  }

  /** The birth year is recovered from the age and the current year. */
  lemma AgeRecoversBirthYear(dateOfBirth: Date, todayYear: int)
    ensures todayYear - CalculateAge(dateOfBirth, todayYear) == dateOfBirth.year
  {
  }

  /** Month and day of birth have no effect: same birth year, same age. */
  lemma AgeIgnoresMonthAndDay(d1: Date, d2: Date, todayYear: int)
    requires d1.year == d2.year
    ensures CalculateAge(d1, todayYear) == CalculateAge(d2, todayYear)
  {
  }

  /** A later birth year never yields a larger age; a strictly later one a strictly smaller age. */
  lemma AgeAntitone(d1: Date, d2: Date, todayYear: int)
    requires d1.year <= d2.year
    ensures CalculateAge(d2, todayYear) <= CalculateAge(d1, todayYear)
    ensures d1.year < d2.year ==> CalculateAge(d2, todayYear) < CalculateAge(d1, todayYear)
  {
  }

  /** Born in 1990, evaluated in 2024: 34, whatever the month and day. */
  lemma AgeExample(month: Month, day: int)
    ensures CalculateAge(Date(1990, month, day), 2024) == 34
  {
  }
}
