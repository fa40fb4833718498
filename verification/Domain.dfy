/** Enumerations shared by matchmaking and results. */
module Domain {
  datatype TeamSide = A | B

  datatype Position = TOP | JUNGLE | MID | ADC | SUPPORT | FILL

  /** The five lanes, in the order both services use. */
  const LANES: seq<Position> := [TOP, JUNGLE, MID, ADC, SUPPORT]

  datatype BalanceMode = BALANCED | POSITION_FIRST | SKILL_FIRST

  datatype ResultStatus = PARTIAL | CONFIRMED | DISPUTED

  datatype MatchStatus =
    | DRAFT | RECRUITING | LOCKED | BALANCED | IN_PROGRESS | RESULT_PENDING | CONFIRMED | DISPUTED | CLOSED

  datatype ConfirmationAction = CONFIRM | SUGGEST_CHANGE | DISPUTE

  datatype ParticipationStatus = INVITED | ACCEPTED | DECLINED | LOCKED_IN
}
