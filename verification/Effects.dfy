/** The declared effect classes, in order of severity. */
module Effects {

  datatype Effect = Pure | ReadOnly | Idempotent | Compensatable | NonIdempotent
  {
    function Rank(): nat {
      match this
      case Pure => 0
      case ReadOnly => 1
      case Idempotent => 2
      case Compensatable => 3
      case NonIdempotent => 4
    }

    predicate FreelyRepeatable() {
      Pure? || ReadOnly? || Idempotent?
    }
  }
}
