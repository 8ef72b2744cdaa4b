/** The boundary to the Groovy interpreter that evaluates the first line of a
    jexler script. The interpreter itself is not modelled: callers pass its
    behaviour in as a function from the evaluated text to an Outcome. */
module Script {

  /** The Java objects an evaluation can produce, as far as meta info cares:
      null, a Boolean, a Map (keys taken as strings) and anything else. */
  datatype Value =
    | VNull
    | VBool(b: bool)
    | VMap(entries: map<string, Value>)
    | VOther

  /** What evaluating a script gives: a value, or any Throwable. */
  datatype Outcome = Threw | Returned(value: Value)

  /** The entries a meta info takes from one evaluation: those of the map the
      evaluation returned, and none when it threw or returned null or a
      value that is not a map. */
  function EntriesOf(outcome: Outcome): (m: map<string, Value>)
    ensures m != map[] ==> outcome == Returned(VMap(m))
    ensures outcome.Returned? && outcome.value.VMap? ==> m == outcome.value.entries
  {
    match outcome
    case Returned(VMap(entries)) => entries
    case _ => map[]
  }
}
