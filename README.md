# Jexler meta info — a Dafny model

Jexler runs scripts ("jexlers") that live as files in a directory. The first
line of a jexler script can hold a Groovy map literal of options, for example
`[ autostart : true, autoimport : false ]`. `BasicMetaInfo` builds a jexler's
meta info from that line. It checks the file exists, reads the first line,
evaluates it as Groovy and copies the entries in when the result is a map.
`isOn(name, default)` then looks up a Boolean option and falls back to the
default.

The model has three modules:

- `Script` (`script.dfy`): the values a Groovy evaluation can return (null,
  Boolean, map, anything else) and its outcome (a value, or a thrown
  Throwable). `EntriesOf` gives the entries a meta info takes from one outcome.
- `Files` (`files.dfy`): a file as the constructor sees it. The file is
  missing, or it is present with its text and with flags for which of
  open / readLine / close raise an IOException. `FirstLine` gives what
  `BufferedReader.readLine` returns on a fresh reader. It is `None` (Java
  `null`) at end of input. Otherwise it is the text before the first `\n` or
  `\r`.
- `Internal` (`basic_meta_info.dfy`): the class `BasicMetaInfo` with its map of
  entries. `Empty` is the private constructor behind `EMPTY`. `FromFile` is the
  file constructor, which either gives a meta info or throws an IOException,
  modelled as `Result`. `PutAll` and `IsOn` are the map operations it uses.
  `MetaInfoOf` is the specification function that `FromFile` is proved against.

The Groovy interpreter is a function parameter `eval: string -> Outcome`, so
every property holds for every possible evaluator. The file system is a value
of type `FileState`.

`BasicMetaInfo(File)` declares `throws IOException` (BasicMetaInfo.java:51).
An IOException from opening, reading or closing the file reaches the caller.
Only evaluation failures (lines 67-72) are swallowed. A caller that turns such
an exception into an empty map is not part of this model.

## Model

| member | source | states |
|---|---|---|
| `Script.EntriesOf` | jexler-core/src/main/java/net/jexler/internal/BasicMetaInfo.java:66-82 | an evaluation contributes entries only if it returned a map, and then exactly that map's entries; a Throwable, null or a non-map contributes none |
| `Files.LineAt` | jexler-core/src/main/java/net/jexler/internal/BasicMetaInfo.java:58 | the line read is a prefix of the text, holds no `\n`/`\r`, and is followed by a terminator unless it runs to the end |
| `Files.FirstLine` | jexler-core/src/main/java/net/jexler/internal/BasicMetaInfo.java:58-61 | readLine gives null exactly when the file is empty |
| `Files.LineAtStopsAtTerminator` | jexler-core/src/main/java/net/jexler/internal/BasicMetaInfo.java:58 | a terminator-free line followed by a terminator is read back exactly, whatever comes after |
| `Files.FirstLineIgnoresLaterLines` | jexler-core/src/main/java/net/jexler/internal/BasicMetaInfo.java:57-58 | the first line read does not depend on anything after the first terminator |
| `Internal.MetaInfoOf` | jexler-core/src/main/java/net/jexler/internal/BasicMetaInfo.java:51-84 | a missing file gives the empty map; the result is an IOException exactly when opening, reading or closing fails, with an open failure first and a read failure suppressing a close failure; an empty file gives the empty map; a non-empty map arises only from a first line that evaluated to that map, and such a map is taken over exactly |
| `Internal.SameFirstLineSameMetaInfo` | jexler-core/src/main/java/net/jexler/internal/BasicMetaInfo.java:57-68 | two files whose texts give the same first line give the same meta info, so appending lines to a non-empty file, or changing a `\n` into `\r\n`, changes nothing |
| `Internal.LaterLinesIrrelevant` | jexler-core/src/main/java/net/jexler/internal/BasicMetaInfo.java:57-68 | changing the file after its first line terminator never changes the meta info |
| `Internal.OnlyFirstLineEvaluated` | jexler-core/src/main/java/net/jexler/internal/BasicMetaInfo.java:58-68 | two evaluators that agree on the first line give the same meta info |
| `Internal.NoFirstLineNoEvaluation` | jexler-core/src/main/java/net/jexler/internal/BasicMetaInfo.java:52-61 | a missing or empty file gives the same result under every evaluator, so nothing is evaluated |
| `Internal.EvaluationFailuresNeverEscape` | jexler-core/src/main/java/net/jexler/internal/BasicMetaInfo.java:56-72 | whether construction throws, and which IOException it throws, depends on the file alone and never on the evaluation |
| `Internal.BasicMetaInfo.Empty` | jexler-core/src/main/java/net/jexler/internal/BasicMetaInfo.java:39-46 | the empty meta info holds no entries and every isOn on it returns the default |
| `Internal.BasicMetaInfo.FromFile` | jexler-core/src/main/java/net/jexler/internal/BasicMetaInfo.java:51-84 | a fresh meta info whose entries are `MetaInfoOf(file, eval)`, or the same IOException |
| `Internal.BasicMetaInfo.PutAll` | jexler-core/src/main/java/net/jexler/internal/BasicMetaInfo.java:82 | the keys are the old ones plus the new ones; new entries win; the other old entries stay |
| `Internal.BasicMetaInfo.IsOn` | jexler-core/src/main/java/net/jexler/internal/BasicMetaInfo.java:86-94 | a stored Boolean is returned; the result differs from the default only when that Boolean is stored under the name |
| `Internal.DefaultUsedIffNoBoolean` | jexler-core/src/main/java/net/jexler/internal/BasicMetaInfo.java:87-93 | the default decides isOn exactly when the name is absent, maps to null, or maps to a non-Boolean |

## Left out

- Groovy evaluation (line 68) is a function parameter. Side effects of running the script line, and evaluations that do not terminate, are not modelled.
- `BasicJexler.WorkaroundGroovy7407.wrapGrapeEngineIfConfigured()` (line 63) is taken as a no-op. `BasicJexler` is not part of this model.
- Character decoding by `FileReader` is left out: the file content is already text.
- Whether an I/O operation fails is given as a flag per operation. The model does not capture a readLine that fails part-way after reading some characters.
- Map keys are taken to be strings. The unchecked cast at lines 80-81 lets other key types through in Java; that is not modelled.
- `isOn` with a null name, `serialVersionUID`, and the rest of the inherited `HashMap` API are left out.
- `EMPTY` is a shared static instance in Java. The model has a constructor that builds an equal empty meta info instead.
