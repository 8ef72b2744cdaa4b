/** The boundary to java.io as the meta info constructor uses it: whether a
    file exists, its text, and which of opening, reading the first line and
    closing raise an IOException. */
module Files {

  /** Which reader operations on a present file raise an IOException. */
  datatype IoBehaviour = IoBehaviour(openFails: bool, readFails: bool, closeFails: bool)

  datatype FileState =
    | Missing
    | Present(content: string, io: IoBehaviour)

  /** The IOException that reaches the caller, by the operation that raised it. */
  datatype IoFailure = OpenFailed | ReadFailed | CloseFailed

  datatype Result<T> = Ok(value: T) | Err(error: IoFailure)

  datatype Option<T> = None | Some(value: T)

  /** The characters that end a line for BufferedReader.readLine. */
  predicate IsLineEnd(c: char) {
    c == '\n' || c == '\r'
  }

  /** The text before the first line terminator (all of s when it has none). */
  function LineAt(s: string): (line: string)
    ensures |line| <= |s| && line == s[..|line|]
    ensures forall i :: 0 <= i < |line| ==> !IsLineEnd(line[i])
    ensures |line| < |s| ==> IsLineEnd(s[|line|])
  {
    if s == [] || IsLineEnd(s[0]) then [] else [s[0]] + LineAt(s[1..])
  }

  /** What BufferedReader.readLine returns on a fresh reader over content:
      null (None) at end of input, otherwise the first line without its
      terminator. */
  function FirstLine(content: string): (r: Option<string>)
    ensures r.None? <==> content == []
  {
    if content == [] then None else Some(LineAt(content))
  }

  /** A line followed by a terminator is read back whole, whatever follows. */
  lemma {:induction false} LineAtStopsAtTerminator(line: string, t: char, rest: string)
    requires forall i :: 0 <= i < |line| ==> !IsLineEnd(line[i])
    requires IsLineEnd(t)
    ensures LineAt(line + [t] + rest) == line
  {
    var s := line + [t] + rest;
    if line == [] {
      assert s[0] == t;
    } else {
      assert s[0] == line[0] && s[1..] == line[1..] + [t] + rest;
      LineAtStopsAtTerminator(line[1..], t, rest);
    }
  }

  /** Whatever follows the first line terminator never changes the first line. */
  lemma FirstLineIgnoresLaterLines(line: string, t: char, rest1: string, rest2: string)
    requires forall i :: 0 <= i < |line| ==> !IsLineEnd(line[i])
    requires IsLineEnd(t)
    ensures FirstLine(line + [t] + rest1) == FirstLine(line + [t] + rest2) == Some(line)
  {
    LineAtStopsAtTerminator(line, t, rest1);
    LineAtStopsAtTerminator(line, t, rest2);
  }
}
