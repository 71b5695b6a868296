/**
 The record shapes shared by the keystroke engine, the registration form
 and the stores (src/types/auth.ts).
 */
module AuthTypes {

  /** One timed key press.  A `keyUpTime` of 0 marks a key that has not been released yet. */
  datatype KeystrokeData = KeystrokeData(keyDownTime: real, keyUpTime: real, key: string)

  /** The feature vector of one typed entry: hold durations and flight times. */
  datatype KeystrokePattern = KeystrokePattern(durationTimes: seq<real>, flightTimes: seq<real>)

  /** A registered user with the enrolment samples that form the template. */
  datatype UserData = UserData(username: string, password: string, keystrokePatterns: seq<KeystrokePattern>)
}
