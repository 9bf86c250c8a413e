/**
  Request dispatch: the trimmed path selects the reserved reload action or a task;
  a task runs only for a method it handles. Running a task is reduced to the
  invocation it would make and the success flag the process reports.
 */
module Router {
  import opened Wrappers
  import opened Octet
  import opened Text
  import opened TaskTable

  /** The reserved path that reloads the task file; it shadows a task of the same name. */
  const ReloadPath: string := "__reload__"

  /** The child process `Task.Run` starts: the task's command with no arguments, its
      working directory if the task names one, and the payload as standard input if
      the task takes one. */
  datatype Exec = Exec(task: string, cmd: string, dir: Option<string>, stdin: Option<seq<byte>>)

  /** What one request to the router does. */
  datatype Outcome =
    | Reloaded
    | ReloadFailed(error: LoadError)
    | NotFound
    | MethodNotAllowed
    | RanOk(exec: Exec)
    | RanFailed(exec: Exec)

  /** The bytes handed to the task: the JSON form of the request's form fields
      (`form`) when the task takes a payload, and nothing otherwise. */
  function PayloadFor(t: Task, form: seq<byte>): seq<byte>
  {
    if t.payload then form else []
  }

  /** The process `Task.Run` prepares for `t` with `payload`. */
  function Invocation(t: Task, payload: seq<byte>): (e: Exec)
    ensures e.task == t.name && e.cmd == t.cmd
    ensures e.dir.Some? <==> t.dir != ""
    ensures e.dir.Some? ==> e.dir.value == t.dir
    ensures e.stdin.Some? <==> t.payload
    ensures e.stdin.Some? ==> e.stdin.value == payload
  {
    Exec(t.name, t.cmd,
      if |t.dir| != 0 then Some(t.dir) else None,
      if t.payload then Some(payload) else None)
  }

  /** The router's answer for a path that is not the reload path: unknown name, method
      the task does not handle, or the task run once with `ok` as its success. */
  function Answer(list: map<string, Task>, name: string, httpMethod: string, form: seq<byte>, ok: bool): (o: Outcome)
    ensures !o.Reloaded? && !o.ReloadFailed?
    ensures o.NotFound? <==> name !in list
    ensures (o.RanOk? || o.RanFailed?) <==> name in list && httpMethod in list[name].handled
    ensures o.RanOk? ==> ok
    ensures o.RanFailed? ==> !ok
  {
    if name !in list then NotFound
    else if httpMethod !in list[name].handled then MethodNotAllowed
    else
      var t := list[name];
      var e := Invocation(t, PayloadFor(t, form));
      if ok then RanOk(e) else RanFailed(e)
  }

  /** The outcomes of a name that is not reserved: 404 exactly for unknown names, 405
      exactly for known names with an unhandled method, and otherwise one run of
      that task, whose standard input is the form exactly when the task takes a
      payload and whose directory is set exactly when the task names one. */
  lemma AnswerCases(list: map<string, Task>, name: string, httpMethod: string, form: seq<byte>, ok: bool)
    requires WellFormed(list)
    ensures var o := Answer(list, name, httpMethod, form, ok);
      && (o.NotFound? <==> name !in list)
      && (o.MethodNotAllowed? <==> name in list && httpMethod !in list[name].methods)
      && ((o.RanOk? || o.RanFailed?) <==> name in list && httpMethod in list[name].methods)
      && (o.RanOk? ==> ok)
      && (o.RanFailed? ==> !ok)
      && (!o.Reloaded? && !o.ReloadFailed?)
    ensures var o := Answer(list, name, httpMethod, form, ok);
      (o.RanOk? || o.RanFailed?) ==>
        && o.exec.task == name
        && o.exec.cmd == list[name].cmd && o.exec.cmd != ""
        && (o.exec.stdin == if list[name].payload then Some(form) else None)
        && (o.exec.dir == if list[name].dir == "" then None else Some(list[name].dir))
  {
  }

  /** A task named `name` (not the reserved name) that the table `before` lacks answers 404 to
      "GET /name", and after a table is loaded that adds it without a method list, the
      same request runs it. */
  lemma ReloadedTaskAnswersGet(before: map<string, Task>, parsed: map<string, Task>, name: string, form: seq<byte>)
    requires name !in before
    requires HasCommands(parsed) && name in parsed && parsed[name].methods == []
    requires name != ReloadPath
    requires name == [] || (name[0] != '/' && name[|name| - 1] != '/')
    ensures TrimSlashes("/" + name) == name != ReloadPath
    ensures Answer(before, TrimSlashes("/" + name), "GET", form, true) == NotFound
    ensures Answer(Normalised(parsed), TrimSlashes("/" + name), "GET", form, true).RanOk?
  {
    TrimSlashesOfRequestPath(name);
    NormalisedEntry(parsed, name);
  }

  /** The request path "/__reload__" is the reserved path. */
  lemma ReloadRequestPath()
    ensures TrimSlashes("/" + ReloadPath) == ReloadPath
  {
    TrimSlashesOfRequestPath(ReloadPath);
  }

  /** Go's `Tasks`: the task file's path and the table loaded from it. */
  class Registry {
    var file: string
    var list: map<string, Task>

    ghost predicate Valid()
      reads this
    {
      WellFormed(list)
    }

    /** The registry `main` builds from the first successful load. */
    constructor (file: string, list: map<string, Task>)
      requires WellFormed(list)
      ensures Valid() && this.file == file && this.list == list
    {
      this.file := file;
      this.list := list;
    }

    /** `route`: `contents` is what reading and parsing `file` gives at this moment,
        `form` the JSON form of the request's form fields and `ok` whether the task's
        process would succeed. A reload replaces the whole table and keeps the path;
        a failed reload ends the process and leaves the table as it was. */
    method Route(path: string, httpMethod: string, contents: Option<map<string, Task>>, form: seq<byte>, ok: bool)
      returns (o: Outcome)
      requires Valid()
      modifies this
      ensures Valid() && file == old(file)
      ensures (o.Reloaded? || o.ReloadFailed?) <==> TrimSlashes(path) == ReloadPath
      ensures o.Reloaded? ==> LoadsAs(contents, Loaded(list))
      ensures o.ReloadFailed? ==> LoadsAs(contents, Failed(o.error)) && list == old(list)
      ensures TrimSlashes(path) != ReloadPath ==>
        list == old(list) && o == Answer(list, TrimSlashes(path), httpMethod, form, ok)
    {
      var name := TrimSlashes(path);
      if name == ReloadPath {
        var r := NewTasksFromFile(contents);
        if r.Loaded? {
          LoadedIsWellFormed(contents.value);
          list := r.list;
          o := Reloaded;
        } else {
          o := ReloadFailed(r.error);
        }
      } else {
        o := Answer(list, name, httpMethod, form, ok);
      }
    }
  }

  /** Three requests in a row: "GET /name" for a task the table lacks, "GET /__reload__"
      with a task file that adds it without a method list, and "GET /name" again. The
      first answers 404, the reload succeeds and the last runs the task. */
  method ReloadAddsTask(reg: Registry, parsed: map<string, Task>, name: string, form: seq<byte>)
    returns (before: Outcome, reload: Outcome, after: Outcome)
    requires reg.Valid() && name !in reg.list
    requires HasCommands(parsed) && name in parsed && parsed[name].methods == []
    requires name != ReloadPath
    requires name == [] || (name[0] != '/' && name[|name| - 1] != '/')
    modifies reg
    ensures before == NotFound && reload == Reloaded && after.RanOk?
    ensures reg.list == Normalised(parsed)
  {
    TrimSlashesOfRequestPath(name);
    ReloadRequestPath();
    before := reg.Route("/" + name, "GET", Some(parsed), form, true);
    reload := reg.Route("/" + ReloadPath, "GET", Some(parsed), form, true);
    after := reg.Route("/" + name, "GET", Some(parsed), form, true);
    NormalisedEntry(parsed, name);
  }
}
