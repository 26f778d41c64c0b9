/**
 * The values stored in the plugin's vocabulary data: the `MemoryResponse`
 * enumeration and the review record `[time, response, cost]`.
 */
module Records {
  import opened Wrappers

  /** The platform's unified message origin, which identifies a user. */
  type UserId = string

  type Word = string

  /** The enumeration `MemoryResponse` with its integer values. */
  datatype MemoryResponse = Remembered | Unsure | Forgotten {
    function Value(): (v: int)
      ensures 1 <= v <= 3
      ensures v == 1 <==> this == Forgotten
    {
      match this
      case Remembered => 3
      case Unsure => 2
      case Forgotten => 1
    }
  }

  /** Enumeration lookup by value, `MemoryResponse(v)`; no member for other values. */
  function ResponseOf(v: int): (r: Option<MemoryResponse>)
    ensures r.Some? <==> 1 <= v <= 3
    ensures r.Some? ==> r.value.Value() == v
  {
    if v == 3 then Some(Remembered)
    else if v == 2 then Some(Unsure)
    else if v == 1 then Some(Forgotten)
    else None
  }

  /**
   * One review record: the time in whole seconds, the response as stored
   * (an integer code, compared against `Forgotten.Value()`), and the cost in
   * seconds between the draw that prompted it and the confirmation (0 when
   * the word is first recorded).
   */
  datatype Record = Record(time: int, response: int, cost: int)

  /** The record appended for a word the user has just forgotten. */
  function ForgottenAt(now: int, cost: int): (r: Record)
    ensures r.time == now && ResponseOf(r.response) == Some(Forgotten) && r.cost == cost
  {
    Record(now, Forgotten.Value(), cost)
  }
}
