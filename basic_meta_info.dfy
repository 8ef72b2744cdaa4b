/** The meta info of a jexler script: the options map written on the
    script's first line, e.g. `[ autostart : true ]`, read once from the
    file and then queried with typed lookups. */
module Internal {
  import opened Script
  import opened Files

  /** The map a meta info built from `file` holds, or the IOException that
      escapes its construction. Evaluation failures never escape: they leave
      the map empty. */
  function MetaInfoOf(file: FileState, eval: string -> Outcome): (r: Result<map<string, Value>>)
    // no file: empty, nothing is opened or evaluated
    ensures file.Missing? ==> r == Ok(map[])
    // IOExceptions, and only they, reach the caller
    ensures r.Err? <==> file.Present? && (file.io.openFails || file.io.readFails || file.io.closeFails)
    // the exception that escapes: open first; a read failure suppresses a close failure
    ensures r.Err? ==> (r.error == OpenFailed <==> file.io.openFails)
    ensures r.Err? ==> (r.error == ReadFailed <==> !file.io.openFails && file.io.readFails)
    ensures r.Err? ==> (r.error == CloseFailed <==> !file.io.openFails && !file.io.readFails)
    // an empty file gives an empty map (unless closing fails)
    ensures file.Present? && file.content == [] && r.Ok? ==> r.value == map[]
    // entries come only from a map that the first line evaluated to ...
    ensures r.Ok? && r.value != map[] ==>
      file.Present? && file.content != [] &&
      eval(FirstLine(file.content).value) == Returned(VMap(r.value))
    // ... and such a map is taken over exactly
    ensures file.Present? && r.Ok? && file.content != [] &&
            eval(FirstLine(file.content).value).Returned? &&
            eval(FirstLine(file.content).value).value.VMap? ==>
      r.value == eval(FirstLine(file.content).value).value.entries
  {
    match file
    case Missing => Ok(map[])
    case Present(content, io) =>
      if io.openFails then Err(OpenFailed)
      // a read failure is the primary exception; one from close is suppressed
      else if io.readFails then Err(ReadFailed)
      else if io.closeFails then Err(CloseFailed)
      else match FirstLine(content)
        case None => Ok(map[])
        case Some(line) => Ok(EntriesOf(eval(line)))
  }

  /** The meta info depends on the file text only through its first line. */
  lemma SameFirstLineSameMetaInfo(content1: string, content2: string,
                                  io: IoBehaviour, eval: string -> Outcome)
    requires FirstLine(content1) == FirstLine(content2)
    ensures MetaInfoOf(Present(content1, io), eval) == MetaInfoOf(Present(content2, io), eval)
  {
  }

  /** Text after the first line terminator never changes the meta info. */
  lemma LaterLinesIrrelevant(line: string, t: char, rest1: string, rest2: string,
                             io: IoBehaviour, eval: string -> Outcome)
    requires forall i :: 0 <= i < |line| ==> !IsLineEnd(line[i])
    requires IsLineEnd(t)
    ensures MetaInfoOf(Present(line + [t] + rest1, io), eval) ==
            MetaInfoOf(Present(line + [t] + rest2, io), eval)
  {
    FirstLineIgnoresLaterLines(line, t, rest1, rest2);
  }

  /** Only the first line is evaluated: two evaluators that agree on it give
      the same meta info. */
  lemma OnlyFirstLineEvaluated(file: FileState, eval1: string -> Outcome, eval2: string -> Outcome)
    requires file.Present? && file.content != [] ==>
      eval1(FirstLine(file.content).value) == eval2(FirstLine(file.content).value)
    ensures MetaInfoOf(file, eval1) == MetaInfoOf(file, eval2)
  {
  }

  /** A missing or empty file is never evaluated: the evaluator does not
      matter. */
  lemma NoFirstLineNoEvaluation(file: FileState, eval1: string -> Outcome, eval2: string -> Outcome)
    requires file.Missing? || file.content == []
    ensures MetaInfoOf(file, eval1) == MetaInfoOf(file, eval2)
  {
  }

  /** Whether construction throws depends on the file alone, never on what
      the evaluation does. */
  lemma EvaluationFailuresNeverEscape(file: FileState, eval1: string -> Outcome, eval2: string -> Outcome)
    ensures MetaInfoOf(file, eval1).Err? == MetaInfoOf(file, eval2).Err?
    ensures MetaInfoOf(file, eval1).Err? ==> MetaInfoOf(file, eval1).error == MetaInfoOf(file, eval2).error
  {
  }

  class BasicMetaInfo {
    var entries: map<string, Value>

    /** The empty meta info (the EMPTY constant): every lookup gives its default. */
    constructor Empty()
      ensures entries == map[]
      ensures forall name, defaultValue :: IsOn(name, defaultValue) == defaultValue
    {
      entries := map[];
    }

    /** The meta info of a jexler script file: starts empty and, when the
        first line evaluates to a map, copies that map's entries in. */
    static method FromFile(file: FileState, eval: string -> Outcome) returns (r: Result<BasicMetaInfo>)
      ensures r.Err? <==> MetaInfoOf(file, eval).Err?
      ensures r.Err? ==> r.error == MetaInfoOf(file, eval).error
      ensures r.Ok? ==> fresh(r.value) && r.value.entries == MetaInfoOf(file, eval).value
    {
      var info := new BasicMetaInfo.Empty();
      if file.Missing? {
        return Ok(info);
      }
      if file.io.openFails {
        return Err(OpenFailed);
      }
      if file.io.readFails {
        // closing runs too; any failure of it is suppressed
        return Err(ReadFailed);
      }
      var line := FirstLine(file.content);
      if line.Some? {
        var outcome := eval(line.value);
        if outcome.Returned? && outcome.value.VMap? {
          info.PutAll(outcome.value.entries);
        }
      }
      // every early return above this point closes the reader as well
      if file.io.closeFails {
        return Err(CloseFailed);
      }
      return Ok(info);
    }

    /** Map.putAll: the given entries replace or join the existing ones. */
    method PutAll(m: map<string, Value>)
      modifies this
      ensures entries.Keys == old(entries).Keys + m.Keys
      ensures forall k :: k in m ==> entries[k] == m[k]
      ensures forall k :: k in old(entries) && k !in m ==> entries[k] == old(entries)[k]
    {
      entries := entries + m;
    }

    /** The Boolean stored under name, or defaultValue when there is none. */
    function IsOn(name: string, defaultValue: bool): (r: bool)
      reads this
      ensures name in entries && entries[name].VBool? ==> r == entries[name].b
      ensures r != defaultValue ==> name in entries && entries[name] == VBool(r)
    {
      if name in entries && entries[name].VBool? then entries[name].b else defaultValue
    }
  }

  /** The default decides isOn exactly when no Boolean is stored under name
      (absent, null, or another kind of value). */
  lemma DefaultUsedIffNoBoolean(info: BasicMetaInfo, name: string)
    ensures info.IsOn(name, true) != info.IsOn(name, false) <==>
            !(name in info.entries && info.entries[name].VBool?)
  {
  }
}
