/** src/config.rs: the configuration record, its modes, tasks and statuses, the status
    text, and the command-line parser `Config::build`. */
module Config {
  import opened Prelude

  datatype Status = Todo | InProgress | Done

  datatype Task = Task(name: Str, status: Status)

  datatype Mode = Message(text: Str) | Create | Read | Update | Delete | List

  datatype Config = Config(mode: Mode, task: Option<Task>, databasePath: Str)

  const HelpMessage: Str := Ascii(
    "Usage: mkt [MODE] [TASK NAME] [[KEY] [VALUE]]...\nStores, edits, and lists tasks.\n\n"
    + "MODE OPTIONS\n-c, --create    add task\n-r, --read      read task\n"
    + "-u, --update    update task\n-d, --delete    remove task\n"
    + "-l, --list      list all of the tasks\n\nOTHER OPTIONS\n"
    + "    --help      prints this message\n    --version   prints mkt's version\n    \n"
    + "TASK KEYS\n-n, --name      for editing task name\n-s, --status    Todo, InProgress, Done\n\n"
    + "Examples:\n'mkt --read \"Do the dishes\"'\n'mkt --create \"Make dinner\" -s Todo -c 10:00pm'")

  const UsageMessage: Str := Ascii(
    "Usage: mkt [MODE] [TASK NAME] [[TASK KEY] [TASK VALUE]]...\nTry 'mkt --help' for more information.")

  const VersionMessage: Str := Ascii(
    "mkt (Manage Kai's Tasks) 0.0.1\nMade by Kai Iverson from Alaska.\n"
    + "This is free software; see the source for copying conditions.  There is NO\n"
    + "warranty; not even for MERCHANTABILITY of FITNESS FOR A PARTICULAR PURPOSE.")

  const InvalidOptionPrefix: Str := Ascii("Invalid Option: ")
  const NoTaskNamePrefix: Str := Ascii("No task name was given!\n")
  const DefaultDatabasePath: Str := Ascii("data/tasks.txt")

  const HelpFlag: Str := Ascii("--help")
  const VersionFlag: Str := Ascii("--version")
  const ShortCreate: Str := Ascii("-c")
  const LongCreate: Str := Ascii("--create")
  const ShortRead: Str := Ascii("-r")
  const LongRead: Str := Ascii("--read")
  const ShortUpdate: Str := Ascii("-u")
  const LongUpdate: Str := Ascii("--update")
  const ShortDelete: Str := Ascii("-d")
  const LongDelete: Str := Ascii("--delete")
  const ShortList: Str := Ascii("-l")
  const LongList: Str := Ascii("--list")

  /** The modes that act on one named task. */
  predicate NeedsTask(m: Mode)
  {
    m.Create? || m.Read? || m.Update? || m.Delete?
  }

  /** What every configuration `build` hands out looks like: a message carries no task
      and an empty path; the task modes carry a fresh `Todo` task and the default
      database; listing carries the default database and no task. */
  predicate WellFormed(c: Config)
  {
    && (c.mode.Message? ==> c.task.None? && c.databasePath == [])
    && (NeedsTask(c.mode) ==> c.task.Some? && c.task.value.status == Todo
                              && c.databasePath == DefaultDatabasePath)
    && (c.mode.List? ==> c.task.None? && c.databasePath == DefaultDatabasePath)
  }

  /** `Display` for `Status`: the variant's name. */
  function StatusText(s: Status): (r: Str)
    ensures |r| > 0
  {
    match s
    case Todo => Ascii("Todo")
    case InProgress => Ascii("InProgress")
    case Done => Ascii("Done")
  }

  /** Distinct statuses are displayed differently. */
  lemma StatusTextInjective(s: Status, t: Status)
    ensures StatusText(s) == StatusText(t) <==> s == t
  {
    if s != t {
      var x, y := StatusText(s), StatusText(t);
      if |x| == |y| {
        assert x[0] != y[0];
      }
    }
  }

  /** A configuration that only carries a message to show. */
  function MakeMessageConfig(message: Str): (c: Config)
    ensures WellFormed(c) && c.mode == Message(message)
  {
    Config(Message(message), None, [])
  }

  /** The option spellings are pairwise different, so at most one branch of the match
      on args[1] applies. */
  lemma FlagsDistinct()
    ensures ShortCreate != ShortRead && ShortCreate != ShortUpdate && ShortCreate != ShortDelete
    ensures ShortCreate != ShortList && ShortRead != ShortUpdate && ShortRead != ShortDelete
    ensures ShortRead != ShortList && ShortUpdate != ShortDelete && ShortUpdate != ShortList
    ensures ShortDelete != ShortList
    ensures LongCreate != LongUpdate && LongCreate != LongDelete && LongUpdate != LongDelete
    ensures LongRead != LongList && HelpFlag != LongRead && HelpFlag != LongList
    ensures HelpFlag != LongCreate && HelpFlag != LongUpdate && HelpFlag != LongDelete
    ensures VersionFlag != HelpFlag && VersionFlag != LongCreate && VersionFlag != LongUpdate
    ensures VersionFlag != LongDelete
  {
    assert ShortCreate[1] != ShortRead[1] && ShortCreate[1] != ShortUpdate[1];
    assert ShortCreate[1] != ShortDelete[1] && ShortCreate[1] != ShortList[1];
    assert ShortRead[1] != ShortUpdate[1] && ShortRead[1] != ShortDelete[1];
    assert ShortRead[1] != ShortList[1] && ShortUpdate[1] != ShortDelete[1];
    assert ShortUpdate[1] != ShortList[1] && ShortDelete[1] != ShortList[1];
    assert LongCreate[2] != LongUpdate[2] && LongCreate[2] != LongDelete[2];
    assert LongUpdate[2] != LongDelete[2] && LongRead[2] != LongList[2];
    assert HelpFlag[2] != LongRead[2] && HelpFlag[2] != LongList[2];
  }

  /** `Config::build`: args[0] is the program name, args[1] the option, args[2] the task
      name; later arguments are never read. */
  method Build(args: seq<Str>) returns (c: Config)
    ensures WellFormed(c)
    ensures |args| <= 1 ==> c == MakeMessageConfig(UsageMessage)
    ensures |args| >= 2 && args[1] == HelpFlag ==> c == MakeMessageConfig(HelpMessage)
    ensures |args| >= 2 && args[1] == VersionFlag ==> c == MakeMessageConfig(VersionMessage)
    ensures c.mode == Create <==> |args| >= 3 && (args[1] == ShortCreate || args[1] == LongCreate)
    ensures c.mode == Read <==> |args| >= 3 && (args[1] == ShortRead || args[1] == LongRead)
    ensures c.mode == Update <==> |args| >= 3 && (args[1] == ShortUpdate || args[1] == LongUpdate)
    ensures c.mode == Delete <==> |args| >= 3 && (args[1] == ShortDelete || args[1] == LongDelete)
    ensures c.mode == List <==> |args| >= 2 && (args[1] == ShortList || args[1] == LongList)
    ensures NeedsTask(c.mode) ==> c.task == Some(Task(args[2], Todo))
    ensures c.mode.List? ==> c == Config(List, None, DefaultDatabasePath)
    ensures |args| >= 2 && !IsKnownOption(args[1]) ==>
      c == MakeMessageConfig(InvalidOptionPrefix + args[1] + Ascii("\n") + UsageMessage)
    ensures |args| == 2 && IsTaskOption(args[1]) ==>
      c == MakeMessageConfig(NoTaskNamePrefix + UsageMessage)
  {
    FlagsDistinct();
    var mode: Mode;
    var task: Option<Task> := None;
    var databasePath := DefaultDatabasePath;
    var buildTask := true;

    if |args| <= 1 {
      return MakeMessageConfig(UsageMessage);
    }

    var option := args[1];
    if option == HelpFlag {
      return MakeMessageConfig(HelpMessage);
    } else if option == VersionFlag {
      return MakeMessageConfig(VersionMessage);
    } else if option == ShortCreate || option == LongCreate {
      mode := Create;
    } else if option == ShortRead || option == LongRead {
      mode := Read;
    } else if option == ShortUpdate || option == LongUpdate {
      mode := Update;
    } else if option == ShortDelete || option == LongDelete {
      mode := Delete;
    } else if option == ShortList || option == LongList {
      mode := List;
      buildTask := false;
    } else {
      return MakeMessageConfig(InvalidOptionPrefix + option + Ascii("\n") + UsageMessage);
    }

    if buildTask {
      if |args| <= 2 {
        return MakeMessageConfig(NoTaskNamePrefix + UsageMessage);
      }
      task := Some(Task(args[2], Todo));
    }

    c := Config(mode, task, databasePath);
  }

  /** The options that select a mode acting on one task. */
  predicate IsTaskOption(option: Str)
  {
    || option == ShortCreate || option == LongCreate || option == ShortRead || option == LongRead
    || option == ShortUpdate || option == LongUpdate || option == ShortDelete || option == LongDelete
  }

  /** Every option `build` recognises. */
  predicate IsKnownOption(option: Str)
  {
    || IsTaskOption(option) || option == HelpFlag || option == VersionFlag
    || option == ShortList || option == LongList
  }

  /** The unit tests of src/config.rs, restated as assertions about `Build`. */
  method BuildTests()
  {
    var mkt, example := Ascii("mkt"), Ascii("Example Task");
    var expected := Some(Task(example, Todo));
    var c := Build([mkt]);
    assert c.mode == Message(UsageMessage);
    c := Build([mkt, HelpFlag]);
    assert c.mode == Message(HelpMessage);
    c := Build([mkt, LongCreate, example]);
    assert c == Config(Create, expected, DefaultDatabasePath);
    c := Build([mkt, LongRead, example]);
    assert c == Config(Read, expected, DefaultDatabasePath);
    c := Build([mkt, LongUpdate, example]);
    assert c == Config(Update, expected, DefaultDatabasePath);
    c := Build([mkt, LongDelete, example]);
    assert c == Config(Delete, expected, DefaultDatabasePath);
    c := Build([mkt, LongList, example]);
    assert c == Config(List, None, DefaultDatabasePath);
  }
}
