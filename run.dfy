/** src/run.rs without its file and console I/O: the task lookup, the decoding of stored
    statuses, and the create, read, delete and list operations on the store. The store is
    the array of records `parse_tasks` hands over; each record is its "name" and "status"
    values as text. */
module Run {
  import opened Prelude
  import opened Config
  import opened Levenshtein

  /** One stored record, not yet decoded. `create` and `delete` work on these directly. */
  datatype Entry = Entry(name: Str, status: Str)

  /** `Result<usize, i32>` of `match_or_suggest_task`: the index of the task found, or
      the index of a suggestion, -1 standing for none. */
  datatype Lookup = Ok(index: nat) | Err(suggestion: int)

  /** What `deserialize_tasks` produces; `InvalidStatus` is where the source exits. */
  datatype Decoded = Tasks(tasks: seq<Task>) | InvalidStatus(status: Str)

  /** What one run of `run` reports. */
  datatype Outcome =
    | Created
    | AlreadyExists
    | Shown(task: Task)
    | NotFound(suggestion: Option<Str>)
    | Removed
    | Absent
    | Listed(todo: seq<Str>, inProgress: seq<Str>, done: seq<Str>)
    | BadStatus(status: Str)
    | NotImplemented

  /** The starting value of the running minimum: a task at this distance or more is
      never suggested. */
  const NoSuggestionScore: nat := 5

  /** The threshold `read` passes to the lookup. */
  const ReadThreshold: nat := 3

  // ---------------------------------------------------------------------------
  // Task lookup

  /** `match_or_suggest_task`: one scan over the tasks, returning at the first exact name
      and otherwise keeping the first index of least distance below 5. */
  method MatchOrSuggest(allTasks: seq<Task>, task: Task, threshold: nat) returns (r: Lookup)
    ensures r.Ok? <==> exists k :: 0 <= k < |allTasks| && allTasks[k].name == task.name
    ensures r.Ok? ==> r.index < |allTasks| && allTasks[r.index].name == task.name
                      && forall k :: 0 <= k < r.index ==> allTasks[k].name != task.name
    ensures r.Err? ==> r.suggestion == -1 || 0 <= r.suggestion < |allTasks|
    ensures r.Err? ==>
      (r.suggestion >= 0 <==>
         exists k :: 0 <= k < |allTasks| && Distance(allTasks[k].name, task.name) < NoSuggestionScore
                                        && Distance(allTasks[k].name, task.name) <= threshold)
    ensures r.Err? && r.suggestion >= 0 ==>
      forall k :: 0 <= k < |allTasks| ==>
        Distance(allTasks[r.suggestion].name, task.name) <= Distance(allTasks[k].name, task.name)
    ensures r.Err? && r.suggestion >= 0 ==>
      forall k :: 0 <= k < r.suggestion ==>
        Distance(allTasks[r.suggestion].name, task.name) < Distance(allTasks[k].name, task.name)
  {
    ghost var scores := Scores(allTasks, task.name);
    assert |scores| == |allTasks| && forall k :: 0 <= k < |allTasks| ==> scores[k] == Distance(allTasks[k].name, task.name);
    var lowScore := NoSuggestionScore;
    var lowScoreIndex := -1;
    var i := 0;
    while i < |allTasks|
      invariant 0 <= i <= |allTasks|
      invariant forall k :: 0 <= k < i ==> allTasks[k].name != task.name
      invariant lowScoreIndex == -1 || 0 <= lowScoreIndex < i
      invariant lowScoreIndex == -1 ==> lowScore == NoSuggestionScore
      invariant lowScoreIndex >= 0 ==> lowScore == scores[lowScoreIndex] < NoSuggestionScore
      invariant forall k :: 0 <= k < i ==> lowScore <= scores[k]
      invariant forall k :: 0 <= k < lowScoreIndex ==> lowScore < scores[k]
    {
      var ld := LevenshteinDistance(allTasks[i].name, task.name);
      DistanceZeroIff(allTasks[i].name, task.name);
      if ld == 0 {
        return Ok(i);
      }
      if ld < lowScore {
        lowScore := ld;
        lowScoreIndex := i;
      }
      i := i + 1;
    }

    if lowScore > threshold {
      return Err(-1);
    }
    return Err(lowScoreIndex);
  }

  /** The distance of every task's name from the query, in store order. */
  function Scores(allTasks: seq<Task>, name: Str): seq<nat>
  {
    seq(|allTasks|, k requires 0 <= k < |allTasks| => Distance(allTasks[k].name, name))
  }

  // ---------------------------------------------------------------------------
  // Decoding the stored statuses

  /** The status mapping inside `deserialize_tasks`. */
  function DecodeStatus(s: Str): (r: Option<Status>)
    ensures r.Some? ==> StatusText(r.value) == s
    ensures r.None? ==> s != StatusText(Todo) && s != StatusText(InProgress) && s != StatusText(Done)
  {
    if s == Ascii("Todo") then Some(Todo)
    else if s == Ascii("InProgress") then Some(InProgress)
    else if s == Ascii("Done") then Some(Done)
    else None
  }

  /** Decoding the display text of a status gives the status back. */
  lemma StatusRoundTrip(st: Status)
    ensures DecodeStatus(StatusText(st)) == Some(st)
  {
    StatusTextInjective(st, DecodeStatus(StatusText(st)).value);
  }

  /** The record `create` builds for a new task. */
  function Encode(t: Task): (e: Entry)
    ensures e.name == t.name && DecodeStatus(e.status) == Some(t.status)
  {
    StatusRoundTrip(t.status);
    Entry(t.name, StatusText(t.status))
  }

  function EncodeAll(ts: seq<Task>): seq<Entry>
  {
    seq(|ts|, k requires 0 <= k < |ts| => Encode(ts[k]))
  }

  /** The decoding of a store, record by record from the front; the first record with
      an unknown status decides the failure. */
  function DecodeAll(raw: seq<Entry>): (d: Decoded)
    ensures d.Tasks? ==> |d.tasks| == |raw|
  {
    if raw == [] then Tasks([])
    else
      match DecodeAll(raw[..|raw| - 1])
      case InvalidStatus(s) => InvalidStatus(s)
      case Tasks(ts) =>
        match DecodeStatus(raw[|raw| - 1].status)
        case None => InvalidStatus(raw[|raw| - 1].status)
        case Some(st) => Tasks(ts + [Task(raw[|raw| - 1].name, st)])
  }

  /** What decoding means: it succeeds exactly when every status is known, keeps length,
      order and names, and otherwise reports the first unknown status. */
  lemma {:induction false} DecodeAllMeaning(raw: seq<Entry>)
    ensures DecodeAll(raw).Tasks? <==> forall k :: 0 <= k < |raw| ==> DecodeStatus(raw[k].status).Some?
    ensures DecodeAll(raw).Tasks? ==>
      forall k :: 0 <= k < |raw| ==>
        DecodeAll(raw).tasks[k] == Task(raw[k].name, DecodeStatus(raw[k].status).value)
    ensures DecodeAll(raw).InvalidStatus? ==>
      exists k :: 0 <= k < |raw| && DecodeStatus(raw[k].status).None?
                  && DecodeAll(raw).status == raw[k].status
                  && forall j :: 0 <= j < k ==> DecodeStatus(raw[j].status).Some?
  {
    DecodeAllSucceeds(raw);
    DecodeAllFails(raw);
  }

  /** Every stored status is one of the three labels. */
  predicate AllKnown(raw: seq<Entry>)
  {
    forall k :: 0 <= k < |raw| ==> DecodeStatus(raw[k].status).Some?
  }

  /** The first record, if any, has an unknown status equal to s. */
  predicate FirstUnknown(raw: seq<Entry>, s: Str)
  {
    exists k :: 0 <= k < |raw| && DecodeStatus(raw[k].status).None? && s == raw[k].status
                && forall j :: 0 <= j < k ==> DecodeStatus(raw[j].status).Some?
  }

  lemma {:induction false} DecodeAllSucceeds(raw: seq<Entry>)
    ensures DecodeAll(raw).Tasks? <==> AllKnown(raw)
    ensures DecodeAll(raw).Tasks? ==> Decodes(raw, DecodeAll(raw).tasks)
  {
    if raw != [] {
      var n := |raw| - 1;
      var front, last := raw[..n], raw[n];
      DecodeAllSucceeds(front);
      var d := DecodeAll(front);
      if d.InvalidStatus? {
        var k :| 0 <= k < n && DecodeStatus(front[k].status).None?;
        assert raw[k] == front[k];
      } else if DecodeStatus(last.status).None? {
        assert DecodeAll(raw) == InvalidStatus(last.status);
      } else {
        var ts := d.tasks + [Task(last.name, DecodeStatus(last.status).value)];
        assert DecodeAll(raw) == Tasks(ts);
        forall k | 0 <= k < |raw|
          ensures DecodeStatus(raw[k].status).Some? && ts[k] == Task(raw[k].name, DecodeStatus(raw[k].status).value)
        {
          if k < n {
            assert raw[k] == front[k] && ts[k] == d.tasks[k];
          }
        }
      }
    }
  }

  lemma {:induction false} DecodeAllFails(raw: seq<Entry>)
    ensures DecodeAll(raw).InvalidStatus? ==> FirstUnknown(raw, DecodeAll(raw).status)
  {
    if raw != [] {
      var n := |raw| - 1;
      var front := raw[..n];
      DecodeAllFails(front);
      if DecodeAll(front).InvalidStatus? {
        var k :| 0 <= k < n && DecodeStatus(front[k].status).None? && DecodeAll(front).status == front[k].status
                 && forall j :: 0 <= j < k ==> DecodeStatus(front[j].status).Some?;
        assert forall j :: 0 <= j <= k ==> front[j] == raw[j];
      } else if DecodeAll(raw).InvalidStatus? {
        DecodeAllSucceeds(front);
        assert forall j :: 0 <= j < n ==> front[j] == raw[j];
        assert DecodeStatus(raw[n].status).None?;
      }
    }
  }

  /** Once a prefix of the store fails to decode, the whole store fails the same way. */
  lemma {:induction false} DecodeAllPrefixFailure(raw: seq<Entry>, n: nat)
    requires n <= |raw| && DecodeAll(raw[..n]).InvalidStatus?
    ensures DecodeAll(raw) == DecodeAll(raw[..n])
    decreases |raw| - n
  {
    if n < |raw| {
      assert raw[..n + 1][..n] == raw[..n];
      DecodeAllPrefixFailure(raw, n + 1);
    } else {
      assert raw[..n] == raw;
    }
  }

  /** Decoding undoes the encoding of `create`, for any sequence of tasks. */
  lemma {:induction false} DecodeEncodeRoundTrip(ts: seq<Task>)
    ensures DecodeAll(EncodeAll(ts)) == Tasks(ts)
  {
    var es := EncodeAll(ts);
    DecodeAllMeaning(es);
    forall k | 0 <= k < |ts|
      ensures DecodeStatus(es[k].status) == Some(ts[k].status)
    {
      StatusRoundTrip(ts[k].status);
    }
    assert DecodeAll(es).tasks == ts;
  }

  /** `deserialize_tasks`: one loop pushing decoded tasks onto a list. */
  method DeserializeTasks(tasksParsed: seq<Entry>) returns (d: Decoded)
    ensures d == DecodeAll(tasksParsed)
  {
    var taskList: seq<Task> := [];
    for index := 0 to |tasksParsed|
      invariant DecodeAll(tasksParsed[..index]) == Tasks(taskList)
    {
      assert tasksParsed[..index + 1][..index] == tasksParsed[..index];
      var name := tasksParsed[index].name;
      var status := DecodeStatus(tasksParsed[index].status);
      if status.None? {
        DecodeAllPrefixFailure(tasksParsed, index + 1);
        return InvalidStatus(tasksParsed[index].status);
      }
      taskList := taskList + [Task(name, status.value)];
    }
    assert tasksParsed[..|tasksParsed|] == tasksParsed;
    d := Tasks(taskList);
  }

  // ---------------------------------------------------------------------------
  // The store's names

  predicate HasName(entries: seq<Entry>, name: Str)
  {
    exists k :: 0 <= k < |entries| && entries[k].name == name
  }

  /** The invariant the store is meant to keep: no two records share a name. */
  predicate UniqueNames(entries: seq<Entry>)
  {
    forall p, q :: 0 <= p < q < |entries| ==> entries[p].name != entries[q].name
  }

  /** The index of the first record with the given name. */
  function FirstNamed(entries: seq<Entry>, name: Str): (i: nat)
    requires HasName(entries, name)
    ensures i < |entries| && entries[i].name == name
    ensures forall k :: 0 <= k < i ==> entries[k].name != name
  {
    if entries[0].name == name then 0
    else
      assert HasName(entries[1..], name) by {
        var k :| 0 <= k < |entries| && entries[k].name == name;
        assert entries[1..][k - 1].name == name;
      }
      1 + FirstNamed(entries[1..], name)
  }

  function RemoveAt<T>(s: seq<T>, i: nat): (r: seq<T>)
    requires i < |s|
    ensures |r| == |s| - 1
    ensures forall k :: 0 <= k < i ==> r[k] == s[k]
    ensures forall k :: i <= k < |r| ==> r[k] == s[k + 1]
  {
    s[..i] + s[i + 1..]
  }

  /** Removing one record keeps the other records, and their order, and takes away
      exactly one copy of the removed record. */
  lemma RemoveAtKeepsRest(entries: seq<Entry>, i: nat)
    requires i < |entries|
    ensures multiset(RemoveAt(entries, i)) + multiset{entries[i]} == multiset(entries)
    ensures UniqueNames(entries) ==> UniqueNames(RemoveAt(entries, i))
    ensures UniqueNames(entries) ==> !HasName(RemoveAt(entries, i), entries[i].name)
  {
    assert entries == entries[..i] + [entries[i]] + entries[i + 1..];
    var r := RemoveAt(entries, i);
    if UniqueNames(entries) {
      forall p, q | 0 <= p < q < |r| ensures r[p].name != r[q].name {
        var p', q' := if p < i then p else p + 1, if q < i then q else q + 1;
        assert r[p] == entries[p'] && r[q] == entries[q'];
      }
      forall k | 0 <= k < |r| ensures r[k].name != entries[i].name {
        var k' := if k < i then k else k + 1;
        assert r[k] == entries[k'];
      }
    }
  }

  // ---------------------------------------------------------------------------
  // Store operations

  /** The list logic of `create`: a scan for the name, then an append. A duplicate name
      leaves the store as it was (where the source prints and exits). */
  method Create(entries: seq<Entry>, task: Task) returns (created: bool, stored: seq<Entry>)
    ensures created == !HasName(entries, task.name)
    ensures stored == if created then entries + [Encode(task)] else entries
    ensures UniqueNames(entries) ==> UniqueNames(stored)
    ensures created && DecodeAll(entries).Tasks? ==>
      DecodeAll(stored) == Tasks(DecodeAll(entries).tasks + [task])
  {
    var allTasks := entries;
    var contents := Encode(task);
    for index := 0 to |allTasks|
      invariant allTasks == entries
      invariant forall k :: 0 <= k < index ==> allTasks[k].name != task.name
    {
      if task.name == allTasks[index].name {
        return false, entries;
      }
    }
    allTasks := allTasks + [contents];
    StatusRoundTrip(task.status);
    assert allTasks[..|allTasks| - 1] == entries;
    return true, allTasks;
  }

  /** The list logic of `delete`: the first record whose name equals the task's exactly
      is removed; the lookup with suggestions is not used here. */
  method Delete(entries: seq<Entry>, task: Task) returns (removed: bool, stored: seq<Entry>)
    ensures removed == HasName(entries, task.name)
    ensures removed ==> stored == RemoveAt(entries, FirstNamed(entries, task.name))
    ensures !removed ==> stored == entries
    ensures removed ==>
      multiset(stored) + multiset{entries[FirstNamed(entries, task.name)]} == multiset(entries)
    ensures UniqueNames(entries) ==> UniqueNames(stored) && !HasName(stored, task.name)
    ensures removed && DecodeAll(entries).Tasks? ==>
      DecodeAll(stored) == Tasks(RemoveAt(DecodeAll(entries).tasks, FirstNamed(entries, task.name)))
  {
    var allTasks := entries;
    var containsTask := false;
    var i := 0;
    while i < |entries|
      invariant 0 <= i <= |entries|
      invariant allTasks == entries && !containsTask
      invariant forall k :: 0 <= k < i ==> entries[k].name != task.name
    {
      if task.name != entries[i].name {
        i := i + 1;
        continue;
      }
      containsTask := true;
      allTasks := RemoveAt(allTasks, i);
      break;
    }

    if !containsTask {
      return false, entries;
    }
    assert i == FirstNamed(entries, task.name);
    RemoveAtKeepsRest(entries, i);
    if DecodeAll(entries).Tasks? {
      DecodeAfterRemove(entries, i);
    }
    return true, allTasks;
  }

  /** Removing a record from a store that decodes removes the matching task. */
  lemma {:induction false} DecodeAfterRemove(entries: seq<Entry>, i: nat)
    requires i < |entries| && DecodeAll(entries).Tasks?
    ensures DecodeAll(RemoveAt(entries, i)) == Tasks(RemoveAt(DecodeAll(entries).tasks, i))
  {
    var ts := DecodeAll(entries).tasks;
    DecodesExactly(entries, ts);
    DecodesRemoveAt(entries, ts, i);
    DecodesExactly(RemoveAt(entries, i), RemoveAt(ts, i));
  }

  /** Record by record: every status is known and the tasks carry the names and
      statuses of the records. */
  predicate Decodes(raw: seq<Entry>, ts: seq<Task>)
  {
    |ts| == |raw| &&
    forall k :: 0 <= k < |raw| ==> DecodeStatus(raw[k].status).Some? && ts[k] == Task(raw[k].name, DecodeStatus(raw[k].status).value)
  }

  lemma DecodesExactly(raw: seq<Entry>, ts: seq<Task>)
    ensures DecodeAll(raw) == Tasks(ts) <==> Decodes(raw, ts)
  {
    DecodeAllMeaning(raw);
    if Decodes(raw, ts) {
      assert DecodeAll(raw).tasks == ts;
    }
  }

  lemma DecodesRemoveAt(raw: seq<Entry>, ts: seq<Task>, i: nat)
    requires i < |raw| && Decodes(raw, ts)
    ensures Decodes(RemoveAt(raw, i), RemoveAt(ts, i))
  {
  }

  /** The tasks with the given status, in their order in the store. */
  function WithStatus(ts: seq<Task>, s: Status): (r: seq<Task>)
    ensures |r| <= |ts|
  {
    if ts == [] then []
    else
      var last := ts[|ts| - 1];
      WithStatus(ts[..|ts| - 1], s) + (if last.status == s then [last] else [])
  }

  function Names(ts: seq<Task>): seq<Str>
  {
    seq(|ts|, k requires 0 <= k < |ts| => ts[k].name)
  }

  /** A task is in a bucket exactly when it is in the store with that status. */
  lemma {:induction false} WithStatusMembers(ts: seq<Task>, s: Status, t: Task)
    ensures t in WithStatus(ts, s) <==> t in ts && t.status == s
  {
    if ts != [] {
      var front := ts[..|ts| - 1];
      WithStatusMembers(front, s, t);
      assert ts == front + [ts[|ts| - 1]];
    }
  }

  /** Filtering is stable: it distributes over concatenation. */
  lemma {:induction false} WithStatusConcat(a: seq<Task>, b: seq<Task>, s: Status)
    ensures WithStatus(a + b, s) == WithStatus(a, s) + WithStatus(b, s)
    decreases |b|
  {
    if b == [] {
      assert a + b == a;
    } else {
      var front, last := b[..|b| - 1], b[|b| - 1];
      WithStatusConcat(a, front, s);
      var ab := a + b;
      assert ab[..|ab| - 1] == a + front && ab[|ab| - 1] == last;
    }
  }

  /** The three buckets of `list` split the store: every task is in exactly one of them,
      and their sizes add up to the size of the store. */
  lemma ListPartition(ts: seq<Task>)
    ensures multiset(WithStatus(ts, Todo)) + multiset(WithStatus(ts, InProgress))
            + multiset(WithStatus(ts, Done)) == multiset(ts)
    ensures |WithStatus(ts, Todo)| + |WithStatus(ts, InProgress)| + |WithStatus(ts, Done)| == |ts|
  {
    ListPartitionMultiset(ts);
    var todo, inProgress, done := WithStatus(ts, Todo), WithStatus(ts, InProgress), WithStatus(ts, Done);
    assert |multiset(todo) + multiset(inProgress) + multiset(done)| == |multiset(ts)|;
  }

  lemma {:induction false} ListPartitionMultiset(ts: seq<Task>)
    ensures multiset(WithStatus(ts, Todo)) + multiset(WithStatus(ts, InProgress))
            + multiset(WithStatus(ts, Done)) == multiset(ts)
  {
    if ts != [] {
      ListPartitionMultiset(ts[..|ts| - 1]);
      BucketStep(ts, Todo);
      BucketStep(ts, InProgress);
      BucketStep(ts, Done);
    }
  }

  /** What the last task of a non-empty store adds to one bucket. */
  lemma BucketStep(ts: seq<Task>, s: Status)
    requires ts != []
    ensures var front, last := ts[..|ts| - 1], ts[|ts| - 1];
      multiset(ts) == multiset(front) + multiset{last}
    ensures var front, last := ts[..|ts| - 1], ts[|ts| - 1];
      multiset(WithStatus(ts, s))
        == multiset(WithStatus(front, s)) + if last.status == s then multiset{last} else multiset{}
  {
    assert ts == ts[..|ts| - 1] + [ts[|ts| - 1]];
  }

  /** One loop of `list`: the names of the tasks with status s, in store order. */
  method Bucket(allTasks: seq<Task>, s: Status) returns (names: seq<Str>)
    ensures names == Names(WithStatus(allTasks, s))
  {
    names := [];
    for i := 0 to |allTasks|
      invariant names == Names(WithStatus(allTasks[..i], s))
    {
      assert allTasks[..i + 1][..i] == allTasks[..i];
      if allTasks[i].status != s {
        continue;
      }
      names := names + [allTasks[i].name];
    }
    assert allTasks[..|allTasks|] == allTasks;
  }

  /** What `list` reports: an unknown stored status, or the names of the Todo, InProgress
      and Done tasks, each in store order. */
  predicate ListsAs(entries: seq<Entry>, o: Outcome)
  {
    && (DecodeAll(entries).InvalidStatus? ==> o == BadStatus(DecodeAll(entries).status))
    && (DecodeAll(entries).Tasks? ==>
          var ts := DecodeAll(entries).tasks;
          o == Listed(Names(WithStatus(ts, Todo)), Names(WithStatus(ts, InProgress)),
                      Names(WithStatus(ts, Done))))
  }

  /** `list`: decode the store, then the three buckets Todo, InProgress and Done. */
  method ListTasks(entries: seq<Entry>) returns (o: Outcome)
    ensures ListsAs(entries, o)
  {
    var decoded := DeserializeTasks(entries);
    if decoded.InvalidStatus? {
      return BadStatus(decoded.status);
    }
    var allTasks := decoded.tasks;
    var todo := Bucket(allTasks, Todo);
    var inProgress := Bucket(allTasks, InProgress);
    var done := Bucket(allTasks, Done);
    return Listed(todo, inProgress, done);
  }

  /** What `read` reports for a name: an unknown stored status; otherwise the first task
      with exactly that name, or, when there is none, the name of the first task of least
      distance, provided that distance is below 5 and within 3. */
  predicate ReadsAs(entries: seq<Entry>, name: Str, o: Outcome)
  {
    && (DecodeAll(entries).InvalidStatus? ==> o == BadStatus(DecodeAll(entries).status))
    && (DecodeAll(entries).Tasks? ==>
          var ts := DecodeAll(entries).tasks;
          && (o.Shown? || o.NotFound?)
          && (o.Shown? <==> exists k :: 0 <= k < |ts| && ts[k].name == name)
          && (o.Shown? ==>
                exists i :: 0 <= i < |ts| && o.task == ts[i] && ts[i].name == name
                  && forall k :: 0 <= k < i ==> ts[k].name != name)
          && (o.NotFound? ==>
                (o.suggestion.Some? <==>
                   exists k :: 0 <= k < |ts| && Distance(ts[k].name, name) < NoSuggestionScore
                                             && Distance(ts[k].name, name) <= ReadThreshold))
          && (o.NotFound? && o.suggestion.Some? ==>
                exists j :: 0 <= j < |ts| && ts[j].name == o.suggestion.value
                  && (forall k :: 0 <= k < |ts| ==> Distance(ts[j].name, name) <= Distance(ts[k].name, name))
                  && (forall k :: 0 <= k < j ==> Distance(ts[j].name, name) < Distance(ts[k].name, name))))
  }

  /** `read`: decode the store, look the name up with threshold 3, and show the task
      found, or report it missing with the suggested name, if any. */
  method ReadTask(entries: seq<Entry>, task: Task) returns (o: Outcome)
    ensures ReadsAs(entries, task.name, o)
  {
    var decoded := DeserializeTasks(entries);
    if decoded.InvalidStatus? {
      return BadStatus(decoded.status);
    }
    var allTasks := decoded.tasks;
    var taskIndex := MatchOrSuggest(allTasks, task, ReadThreshold);
    if taskIndex.Ok? {
      return Shown(allTasks[taskIndex.index]);
    }
    if taskIndex.suggestion >= 0 {
      return NotFound(Some(allTasks[taskIndex.suggestion].name));
    }
    return NotFound(None);
  }

  /** The modes `run` dispatches on and needs a task for (it unwraps `config.task`). */
  predicate Dispatchable(config: Config)
  {
    (config.mode.Create? || config.mode.Read? || config.mode.Delete?) ==> config.task.Some?
  }

  /** A configuration from `Config::build` can always be run. */
  lemma WellFormedIsDispatchable(config: Config)
    requires WellFormed(config)
    ensures Dispatchable(config)
  {
  }

  /** `run`: dispatch on the mode. Update and message configurations fall to the
      catch-all arm and touch no store. The returned store is what is written back. */
  method RunConfig(config: Config, entries: seq<Entry>) returns (o: Outcome, stored: seq<Entry>)
    requires Dispatchable(config)
    ensures stored != entries ==> o == Created || o == Removed
    ensures UniqueNames(entries) ==> UniqueNames(stored)
    ensures config.mode.Create? ==>
      var t := config.task.value;
      && (o == Created <==> !HasName(entries, t.name))
      && (o == Created ==> stored == entries + [Encode(t)])
      && (o != Created ==> o == AlreadyExists && stored == entries)
    ensures config.mode.Delete? ==>
      var t := config.task.value;
      && (o == Removed <==> HasName(entries, t.name))
      && (o == Removed ==> stored == RemoveAt(entries, FirstNamed(entries, t.name)))
      && (o == Removed && UniqueNames(entries) ==> !HasName(stored, t.name))
      && (o != Removed ==> o == Absent && stored == entries)
    ensures config.mode.Read? ==> stored == entries && ReadsAs(entries, config.task.value.name, o)
    ensures config.mode.List? ==> stored == entries && ListsAs(entries, o)
    ensures config.mode.Update? || config.mode.Message? ==> o == NotImplemented && stored == entries
  {
    stored := entries;
    match config.mode {
      case Create =>
        var created;
        created, stored := Create(entries, config.task.value);
        o := if created then Created else AlreadyExists;
      case Read =>
        o := ReadTask(entries, config.task.value);
      case Delete =>
        var removed;
        removed, stored := Delete(entries, config.task.value);
        o := if removed then Removed else Absent;
      case List =>
        o := ListTasks(entries);
      case _ =>
        o := NotImplemented;
    }
  }
}
