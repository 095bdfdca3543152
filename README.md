# MKT task store, modelled in Dafny

MKT ("Manage Kai's Tasks") is a small command-line task manager. It keeps tasks (a name
and a status: Todo, InProgress or Done) as a JSON array in `data/tasks.txt`. This project
models the logic between reading that file and writing it back:

- the command-line parser `Config::build`;
- the byte-wise Levenshtein distance;
- the lookup that finds a task by name or suggests a near miss;
- the decoding of stored statuses;
- the `create`, `read`, `delete` and `list` operations;
- the `run` dispatch on the mode.

The model has four modules:

- `Prelude` (prelude.dfy): bytes, `Str` (a Rust `String` as its UTF-8 bytes), `Option`
  and `Ascii` for literals.
- `Config` (config.rs): `Status`, `Task`, `Mode`, `Config`, the message constants,
  `Display` for `Status`, `make_message_config`, and `Config::build`. `Build` is a method
  that assigns the source's locals (`mode`, `task`, `buildTask`) in the source's order.
  Its postconditions state the whole tested behaviour, and `BuildTests` restates the
  source's unit tests as assertions.
- `Levenshtein` (run.rs): the table fill `LevenshteinDistance` over a two-dimensional
  array, the recurrence `Distance` it computes, and its algebra. The lemma
  `DistanceIsStandard` proves that copying the diagonal on equal bytes (the source's
  shortcut) agrees with the textbook recurrence, which takes the minimum of all three
  neighbours.
- `Run` (run.rs): the store is the sequence of parsed records. Each `Entry` holds the
  "name" and "status" values as text. `create` and `delete` work on these records
  without decoding them, exactly as the source does. `read` and `list` first decode
  them with `DeserializeTasks`, which is specified by the function `DecodeAll`. A store
  goes in as a parameter, and the store to be written comes back as a result.

Where the source calls `exit(0)`, the model returns a result instead:

- an unknown stored status gives `Decoded.InvalidStatus` and the outcome `BadStatus`;
- a duplicate name in `create` gives `created == false`, with the store unchanged.

Behaviour of the code that is easy to miss:

- `delete` removes the first record whose name is exactly equal. It does not use the
  suggesting lookup.
- A `Message` configuration (help, version, usage, errors) also falls into `run`'s
  catch-all arm, so `run` reports "not implemented" for it, as it does for `Update`.
- `create` stores the status of the task it is given, not a forced `Todo`. `Build` only
  ever hands it a `Todo` task.
- A missing database file is not handled: the read panics. That read is outside the model.
- There is no update operation: `run` sends `Update` to the catch-all arm. The database
  is rewritten in place by truncating the file and writing the new text into it.
- The lookup starts its running minimum at 5 and updates it only on a strict decrease.
  As a result, a task at distance 5 or more is never suggested, whatever the threshold
  is, and ties go to the earliest index.

## Model

| member | source | states |
|---|---|---|
| `Levenshtein.LevenshteinDistance` | src/run.rs:34-54 | the nested-loop table fill returns the recurrence `Distance(s1, s2)`, and the length of the other name when one name is empty |
| `Levenshtein.DistanceIsStandard` | src/run.rs:38-53 | the table's recurrence (equal bytes copy the diagonal, otherwise 1 + the least neighbour) equals the textbook edit-distance recurrence for all inputs |
| `Levenshtein.DistanceToSelf` | src/run.rs:34-54 | every name is at distance 0 from itself |
| `Levenshtein.DistanceZeroIff` | src/run.rs:62-66 | distance 0 holds exactly when the two byte strings are equal, which makes the `ld == 0` test an exact-name test |
| `Levenshtein.DistanceAtMostLonger` | src/run.rs:34-54 | the distance is at most the length of the longer name |
| `Levenshtein.DistanceAtLeastLengthGap` | src/run.rs:34-54 | the distance is at least the difference of the two lengths |
| `Levenshtein.DistanceSymmetric` | src/run.rs:34-54 | swapping the two names does not change the distance |
| `Config.StatusText` | src/config.rs:62-74 | `Display` for a status gives a non-empty text; with `StatusTextInjective` and `StatusRoundTrip` it is a rendering that can be read back |
| `Config.StatusTextInjective` | src/config.rs:62-74 | two statuses display the same text exactly when they are the same status |
| `Config.MakeMessageConfig` | src/config.rs:82-88 | a message configuration has mode `Message(message)`, no task and an empty database path |
| `Config.Build` | src/config.rs:91-140 | one or no arguments give the usage message; `--help` and `--version` give their messages whatever follows; each short and long option gives the same mode; list ignores extra arguments and uses `data/tasks.txt` with no task; a task mode without args[2] gives "No task name was given!" plus usage, and otherwise a `Todo` task named args[2]; an unknown option gives "Invalid Option: " plus the option and usage; every result is well formed |
| `Run.MatchOrSuggest` | src/run.rs:57-79 | `Ok(i)` exactly when some task has the query's name, with i the first such index; otherwise `Err(j)` with j >= 0 exactly when some task is at distance below 5 and within the threshold, j then being a valid index of least distance with every earlier index strictly farther; any other result is `Err(-1)` |
| `Run.DecodeStatus` | src/run.rs:87-95 | a decoded status displays as the decoded text, and every display text decodes to its status; anything else is rejected |
| `Run.StatusRoundTrip` | src/run.rs:87-90 | decoding the `Display` text of a status returns that status |
| `Run.DecodeAllMeaning` | src/run.rs:81-100 | decoding succeeds exactly when every stored status is one of the three labels, keeps length, order and names, and otherwise reports the first unknown status |
| `Run.DecodeAllPrefixFailure` | src/run.rs:91-94 | once a record fails to decode, later records do not change the failure |
| `Run.Encode` | src/run.rs:123-126 | the record `create` builds keeps the task's name and a status text that decodes back to the task's status |
| `Run.DecodeEncodeRoundTrip` | src/run.rs:123-126 | decoding the records that `create` builds for a sequence of tasks gives back those tasks |
| `Run.DeserializeTasks` | src/run.rs:81-100 | the push loop computes `DecodeAll` of the parsed records, stopping at the first unknown status |
| `Run.FirstNamed` | src/run.rs:171-179 | the index `delete` stops at holds the name, and no earlier record has it |
| `Run.RemoveAtKeepsRest` | src/run.rs:178 | removing one record keeps the others in order, takes away exactly one copy, keeps names unique and, with unique names, leaves no record of that name |
| `Run.DecodeAfterRemove` | src/run.rs:178 | removing a record from a decodable store removes the matching task from its decoding |
| `Run.Create` | src/run.rs:128-139 | the task is added exactly when no record has its name; then the store is the old store plus the new record at the end, and otherwise it is unchanged; unique names stay unique; a decodable store decodes afterwards to its old tasks plus the new task |
| `Run.Delete` | src/run.rs:170-186 | a record is removed exactly when one has the task's exact name; then the store is the old store without the first such record, and otherwise it is unchanged; exactly one copy goes; unique names stay unique and the name is gone; the decoding loses the matching task |
| `Run.WithStatusMembers` | src/run.rs:198-220 | a task is in a status bucket exactly when it is in the store with that status |
| `Run.WithStatusConcat` | src/run.rs:198-220 | the buckets are stable filters: a bucket of two joined stores is the two buckets joined |
| `Run.ListPartition` | src/run.rs:198-220 | the three buckets together hold every task exactly once, and their sizes add up to the store's |
| `Run.Bucket` | src/run.rs:199-204 | one listing loop yields the names of the tasks with the given status, in store order |
| `Run.ListTasks` | src/run.rs:194-223 | `list` reports an unknown status, or the names in the Todo, InProgress and Done buckets of the decoded store |
| `Run.ReadTask` | src/run.rs:144-163 | `read` reports the first unknown status; otherwise it shows a task exactly when one has the name, and then the first such task; if not, it suggests a name exactly when some task is at distance below 5 and within 3, and then the name of the first task of least distance |
| `Run.WellFormedIsDispatchable` | src/run.rs:14-17 | every configuration `build` can produce carries the task that create, read and delete unwrap |
| `Run.RunConfig` | src/run.rs:10-23 | dispatch on the mode: create and delete change the store as stated for each; read and list leave it alone and report exactly what `ReadTask` and `ListTasks` report; update and message configurations report not implemented; unique names stay unique |

## Left out

- src/main.rs (`env::args`, `eprintln!`, process entry) is not part of this model. It
  only passes the arguments to `Build` and the configuration to `run`.
- `parse_tasks` and `clear_and_write_database` are file I/O and are not modelled. `run`
  takes the parsed records and returns the records to write. This leaves out the
  following:
  - the panic on an unreadable file;
  - a document that does not parse being read as an empty array;
  - truncation, and the `Err(String)` a failed write returns through `run`.
- The `json` crate is a foreign library and is not modelled: parsing, pretty-printing,
  `array_remove`, and `JsonValue` indexing and comparison. A record is taken to hold its
  two values as text. For a record whose "name" is not a string, the source behaves in
  two different ways, and neither is modelled. `create` and `delete` compare the name
  with `JsonValue` equality, which no non-string value satisfies. `read` and `list`
  compare the `to_string` text of the value instead: "null" for a missing or null
  value, and the value's own JSON text otherwise.
- All console output is left out. This covers the listing headers, the "0 changes made"
  notes, the "try ...?" hint, and `delete`'s debug print of every record. The
  suggestion and the listed names are returned instead of printed.
- `exit(0)` is modelled as an error result that leaves the store unchanged, not as process
  termination.
- `RunConfig`: write failures of `create` and `delete` are not modelled, so it never
  returns the source's `Err`.
- `MatchOrSuggest`: the `i as i32` conversion of the suggestion index is taken to be exact.
  It would wrap only for a store of more than 2^31 tasks.
- `LevenshteinDistance`: `usize` arithmetic cannot overflow here, because every cell is
  at most the longer length. The `Vec<Vec<usize>>` table is a two-dimensional array.
- The texts of the help and version messages are copied as constants. Nothing is proved
  about what they say.
