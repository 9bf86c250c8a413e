/**
  The task table: how the parsed task file becomes the registry the router serves
  from. Each entry gets its name from its key, must name a command, answers to GET
  when it lists no methods, and gets the set of methods it handles.
 */
module TaskTable {
  import opened Wrappers

  /** Go's `Task`. The task file fills `cmd`, `dir`, `payload` and `methods`; loading
      sets `name` and `handled` (Go's `HandledMethods`, a map used as a set). */
  datatype Task = Task(
    name: string,
    cmd: string,
    dir: string,
    payload: bool,
    methods: seq<string>,
    handled: set<string>)

  /** The two ways loading stops the process (`log.Fatal` and `log.Fatalf`). */
  datatype LoadError =
    | Unreadable          // "Invalid task file."
    | NoCommand(task: string)  // "No command specified for task '...'"

  datatype LoadResult = Loaded(list: map<string, Task>) | Failed(error: LoadError)

  /** The method a task without a method list answers to. */
  const DefaultMethod: string := "GET"

  /** The set of methods in a list: compared exactly, duplicates collapsed. */
  function MethodSet(methods: seq<string>): set<string>
  {
    set m | m in methods
  }

  /** The entry the load loop leaves under key `name` for the parsed entry `t`. */
  function Normalise(name: string, t: Task): (u: Task)
    ensures u.name == name && u.cmd == t.cmd && u.dir == t.dir && u.payload == t.payload
    ensures u.methods != [] && (t.methods != [] ==> u.methods == t.methods)
    ensures t.methods == [] ==> u.methods == [DefaultMethod]
    ensures forall m :: m in u.handled <==> m in u.methods
    ensures u.handled != {}
  {
    var methods := if |t.methods| == 0 then t.methods + [DefaultMethod] else t.methods;
    assert methods[0] in MethodSet(methods);
    t.(name := name, methods := methods, handled := MethodSet(methods))
  }

  /** The table a successful load produces from the parsed file. */
  function Normalised(parsed: map<string, Task>): (list: map<string, Task>)
    ensures list.Keys == parsed.Keys
    ensures forall n | n in list :: list[n].name == n && list[n].handled != {}
  {
    map n | n in parsed :: Normalise(n, parsed[n])
  }

  /** Every entry names a command. */
  predicate HasCommands(parsed: map<string, Task>)
  {
    forall n | n in parsed :: parsed[n].cmd != ""
  }

  /** What every loaded table satisfies: each task carries its own key as name, a
      command and a non-empty method list whose set it handles. */
  predicate WellFormed(list: map<string, Task>)
  {
    forall n | n in list ::
      && list[n].name == n
      && list[n].cmd != ""
      && list[n].methods != []
      && list[n].handled == MethodSet(list[n].methods)
  }

  /** `r` is an outcome loading may have for a file whose contents parse to `contents`
      (`None`: the file could not be read). Go iterates maps in random order, so when
      several tasks lack a command, any one of them may be the one reported. */
  predicate LoadsAs(contents: Option<map<string, Task>>, r: LoadResult)
  {
    match r
    case Loaded(list) => contents.Some? && HasCommands(contents.value) && list == Normalised(contents.value)
    case Failed(Unreadable) => contents.None?
    case Failed(NoCommand(n)) => contents.Some? && n in contents.value && contents.value[n].cmd == ""
  }

  /** The inner loop of the load: fills the set of handled methods from the list. */
  method HandledMethods(methods: seq<string>) returns (handled: set<string>)
    ensures forall m :: m in handled <==> m in methods
  {
    handled := {};
    for i := 0 to |methods|
      invariant forall m :: m in handled <==> m in methods[..i]
    {
      assert methods[..i + 1] == methods[..i] + [methods[i]];
      handled := handled + {methods[i]};
    }
    assert methods[..|methods|] == methods;
  }

  /** `NewTasksFromFile` after the file has been read and parsed: visits the entries in
      an arbitrary order and rewrites each one in place, stopping at the first entry
      without a command. */
  method NewTasksFromFile(contents: Option<map<string, Task>>) returns (r: LoadResult)
    ensures r.Loaded? <==> contents.Some? && HasCommands(contents.value)
    ensures LoadsAs(contents, r)
  {
    if contents.None? {
      return Failed(Unreadable);
    }
    var parsed := contents.value;
    var list := parsed;
    var pending := list.Keys;
    while pending != {}
      invariant pending <= list.Keys == parsed.Keys
      invariant forall n | n in list && n !in pending :: parsed[n].cmd != "" && list[n] == Normalise(n, parsed[n])
      invariant forall n | n in pending :: list[n] == parsed[n]
      decreases pending
    {
      var name :| name in pending;
      var task := list[name].(name := name);
      if |task.cmd| == 0 {
        return Failed(NoCommand(name));
      }
      var methods := task.methods;
      if |methods| == 0 {
        methods := methods + [DefaultMethod];
      }
      var handled := HandledMethods(methods);
      assert handled == MethodSet(methods);
      var entry := task.(methods := methods, handled := handled);
      assert entry == Normalise(name, parsed[name]) by {
        assert list[name] == parsed[name];
      }
      list := list[name := entry];
      pending := pending - {name};
    }
    NormalisedByEntries(parsed, list);
    return Loaded(list);
  }

  /** A table that holds the normalised entry under every key of `parsed` is `Normalised(parsed)`. */
  lemma NormalisedByEntries(parsed: map<string, Task>, list: map<string, Task>)
    requires list.Keys == parsed.Keys
    requires forall n | n in list :: list[n] == Normalise(n, parsed[n])
    ensures list == Normalised(parsed)
  {
  }

  /** What loading does to each entry: the key set stays, the name becomes the key,
      command, directory and payload flag stay, an empty method list becomes ["GET"]
      and a non-empty one stays, and the handled set is exactly the listed methods. */
  lemma NormalisedEntry(parsed: map<string, Task>, n: string)
    requires n in parsed
    ensures Normalised(parsed).Keys == parsed.Keys
    ensures var t, u := parsed[n], Normalised(parsed)[n];
      && u.name == n
      && u.cmd == t.cmd && u.dir == t.dir && u.payload == t.payload
      && u.methods == (if t.methods == [] then ["GET"] else t.methods)
      && (forall m :: m in u.handled <==> m in u.methods)
      && u.handled != {}
  {
    var u := Normalised(parsed)[n];
    assert u.methods[0] in u.handled;
  }

  /** A task without a method list handles GET and nothing else. */
  lemma DefaultHandlesOnlyGet(parsed: map<string, Task>, n: string)
    requires n in parsed && parsed[n].methods == []
    ensures Normalised(parsed)[n].handled == {"GET"}
  {
    var u := Normalised(parsed)[n];
    assert u.methods == ["GET"];
    assert forall m :: m in u.handled <==> m == "GET";
  }

  /** Every successfully loaded table is well formed. */
  lemma LoadedIsWellFormed(parsed: map<string, Task>)
    requires HasCommands(parsed)
    ensures WellFormed(Normalised(parsed))
  {
  }

  /** Loading the same contents twice: both succeed or both fail, and two successes
      give the same table, so a reload of an unchanged file changes nothing. */
  lemma LoadDeterministic(contents: Option<map<string, Task>>, r1: LoadResult, r2: LoadResult)
    requires LoadsAs(contents, r1) && LoadsAs(contents, r2)
    ensures r1.Loaded? <==> r2.Loaded?
    ensures r1.Loaded? ==> r1 == r2
  {
  }
}
