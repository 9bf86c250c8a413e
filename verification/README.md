# barker, modelled in Dafny

barker is a small HTTP server that runs preconfigured commands. A JSON task file maps
task names to a command, an optional working directory, a flag saying whether the
request's form data is piped to the command, and the HTTP methods the task answers to.
A request to `/<name>` runs that task; `/__reload__` re-reads the task file; an
optional shared secret guards everything.

This project models the decision layer of `barker.go` around its I/O:

- **Loading the task table** (`tasks.dfy`, module `TaskTable`). `NewTasksFromFile` is an
  imperative method. It visits the parsed entries in an arbitrary order and rewrites each
  entry of the map. Go visits its maps in random order, so the method picks keys with
  `:|`. It is proved against `Normalised`, the table a successful load must produce. The
  inner loop that fills `HandledMethods` is the method `HandledMethods`. An unreadable file
  and a task without a command are the two fatal errors (`LoadError`).
- **Dispatch** (`router.dfy`, module `Router`). The class `Registry` holds Go's `Tasks`
  (`file`, `list`). Its method `Route` trims the path, reloads on `__reload__` by
  replacing the whole table, and otherwise answers with `Answer`: not found, method not
  allowed, or one run of the task. A run is reduced to the process it would start
  (`Exec`: command, directory, standard input) and a success flag supplied by the caller.
- **The front door** (`frontdoor.dfy`, module `FrontDoor`). `Configure` turns the `-auth`
  credential into a token. `Check` is the gate on the first `Authorization` value,
  including the panic when that value has fewer than two fields. `Server.Handle` is the
  handler installed by `main`, and `Start` is the start-up load.
- **Library behaviour the logic depends on**: `strings.Trim(path, "/")` and
  `strings.Fields` (`text.dfy`, module `Text`), and the standard base64 encoding of
  section 4 of RFC 4648 (`base64.dfy`, module `Base64`). The encoding comes with a
  decoder and a round-trip proof, so two different credentials never share a token.

External inputs are parameters: the parsed task file (`None` when it cannot be read),
the JSON bytes of the request's form fields, and the success of the task's process.

Behaviour taken from the code where it differs from what a reader of the task-file format might expect:

- A parse error in the task file is not fatal. `json.Unmarshal`'s error is ignored
  (barker.go:57), so the model loads whatever map the parse produced.
- The default applies to an empty `Methods` list. Leaving the field out and writing
  `"Methods": []` have the same effect (barker.go:63).
- Error bodies end in a newline, because `http.Error` writes the text with `Fprintln`.
  The success body `OK` has no newline.
- The 401 challenge is `Basic realm="user")`, with a stray parenthesis (barker.go:115).
- An `Authorization` value with fewer than two fields makes the handler panic
  (barker.go:112). No response is written (`Aborted`); the panic is not a 401.

## Model

| member | source | states |
|---|---|---|
| Text.TrimLeftSlashes | barker.go:75 | the result is the suffix of the path left after the leading run of '/' is removed, and it does not start with '/' |
| Text.TrimRightSlashes | barker.go:75 | the result is the prefix left after the trailing run of '/' is removed, and it does not end with '/' |
| Text.TrimSlashes | barker.go:75 | the trimmed path neither starts nor ends with '/' |
| Text.TrimSlashesIsInfix | barker.go:75 | the trimmed path is a contiguous piece of the original with only slashes around it, so interior slashes are kept |
| Text.TrimSlashesKeepsTrimmed | barker.go:75 | a path without a leading or trailing '/' is unchanged |
| Text.TrimSlashesIdempotent | barker.go:75 | trimming twice equals trimming once |
| Text.TrimSlashesOfRequestPath | barker.go:75 | the path "/name" reaches the name itself |
| Text.SkipSpaces | barker.go:112 | drops exactly the leading whitespace (Go's `unicode.IsSpace`) |
| Text.Word | barker.go:112 | the longest whitespace-free prefix |
| Text.Fields | barker.go:112 | `strings.Fields` yields only non-empty, whitespace-free fields; `FieldsAfterSpace` and `FieldsOfFieldThen` characterise which fields, in order |
| Text.FieldsAfterSpace | barker.go:112 | leading whitespace does not change the fields |
| Text.FieldsOfFieldThen | barker.go:112 | a field followed by the end of the value or by whitespace is the first field, and the rest of the value gives the remaining fields |
| Text.FieldsOfJoin | barker.go:112 | splitting a single-space join of fields gives back exactly those fields |
| Base64.Encode | barker.go:109 | the encoding is 4 characters per started group of 3 bytes |
| Base64.DecodeEncode | barker.go:109 | decoding the encoding gives back the bytes (RFC 4648 section 4, with padding) |
| Base64.EncodeInjective | barker.go:109 | two credentials with the same token are equal |
| Base64.EncodeAlphabet | barker.go:109 | every character of the token is in the base64 alphabet or is '=' |
| TaskTable.Normalise | barker.go:58-69 | the loaded entry takes its key as name, keeps command, directory and payload flag, keeps a non-empty method list, turns an empty one into ["GET"], and handles exactly its listed methods, never none |
| TaskTable.Normalised | barker.go:58-70 | the loaded table has the parsed file's keys, and each entry's name is its key and its handled set is non-empty |
| TaskTable.HandledMethods | barker.go:66-69 | a method is handled exactly when it appears in the list: exact string comparison, duplicates collapsed |
| TaskTable.NewTasksFromFile | barker.go:51-71 | loading succeeds iff the file was read and every task names a command, and then yields `Normalised` of the parsed map; otherwise the error is "unreadable" exactly for an unread file, or names a task whose command is empty |
| TaskTable.NormalisedEntry | barker.go:58-69 | loading keeps the key set, sets each name to its key, keeps command, directory and payload flag, turns an empty method list into ["GET"] and keeps a non-empty one, and the handled set is exactly the listed methods and is never empty |
| TaskTable.DefaultHandlesOnlyGet | barker.go:63-69 | a task without methods handles GET and nothing else |
| TaskTable.LoadedIsWellFormed | barker.go:58-69 | every loaded table keeps the registry invariant: name equals key, non-empty command, non-empty methods, handled set equals the method set |
| TaskTable.LoadDeterministic | barker.go:56-71 | two loads of the same contents both succeed or both fail, and two successes give the same table |
| Router.Invocation | barker.go:25-33 | the process runs the task's command, sets the working directory iff the task names one, and pipes the payload to standard input iff the task takes a payload |
| Router.Answer | barker.go:80-97 | a non-reload path never reloads; 404 iff the name is not in the table; a run iff the task handles the request's method; a run succeeds exactly when the process does |
| Router.AnswerCases | barker.go:80-97 | for a name other than the reload path: 404 iff the name is unknown; 405 iff the task does not list the method; otherwise exactly one run, whose outcome follows the success flag; the run uses the task's command, sets the directory iff the task names one, and passes the form as stdin iff the task takes a payload (barker.go:27-33, 82-86) |
| Router.ReloadedTaskAnswersGet | barker.go:75-97 | "/name" for a name other than `__reload__` trims to that name; a table lacking it answers GET with 404, and a loaded table that adds it without methods runs it on GET |
| Router.ReloadRequestPath | barker.go:75-76 | the request path "/__reload__" trims to the reserved reload path |
| Router.Registry.constructor | barker.go:107 | the registry holds the file path and a well-formed table |
| Router.ReloadAddsTask | barker.go:74-98 | on one registry, "GET /name" for a task the table lacks answers 404, "GET /__reload__" with a file that adds it succeeds, and "GET /name" then runs it |
| Router.Registry.Route | barker.go:74-98 | the trimmed path `__reload__` reloads for any method, even if a task has that name. The new table is the load of the fresh contents, the file path is kept, and a failed reload leaves the table alone. Any other path leaves the table unchanged and answers as `Answer` |
| FrontDoor.Configure | barker.go:108-109 | authentication is off iff the credential is empty; otherwise the token is the credential's standard base64 encoding, which decodes back to the credential |
| FrontDoor.Check | barker.go:111-112 | with authentication off every request passes; with it on, a request passes only if its first `Authorization` value has a second field equal to the token, and the unchecked index fails exactly when that first value has fewer than two fields |
| FrontDoor.ReplyTo | barker.go:79-96 | only a failed reload ends the process; every other outcome gets a response without a challenge and never 401, whose body is "OK" exactly when the status is 200 |
| FrontDoor.Refusal | barker.go:114-116 | a refused request always gets a 401 with the body "Unauthorized." and the `WWW-Authenticate` challenge, except after the index panic, where no response is written; a refusal never ends the process |
| FrontDoor.MissingHeaderUnauthorized | barker.go:112-116 | with a credential set, a request with no `Authorization` header is rejected with 401 and the challenge |
| FrontDoor.ReplyStatus | barker.go:79-96 | 200 iff reload or successful run, 404 iff not found, 405 iff method not allowed, 502 iff failed run; the bodies are "OK" for 200 and, each followed by a newline, "Not found.", "Method Not Allowed" and "Cannot perform task."; a failed reload gets no reply because the process exits |
| FrontDoor.CheckCases | barker.go:111-117 | a request is admitted iff the credential is empty or the first header's second field is the credential's base64 token; the unchecked index fails iff a credential is set and the first header has fewer than two fields |
| FrontDoor.EncodeIsField | barker.go:109-112 | the token of a non-empty credential is one whitespace-free header field |
| FrontDoor.SchemeAndTokenAdmitted | barker.go:112-113 | `Authorization: <any scheme> <token>` is admitted |
| FrontDoor.OtherCredentialRejected | barker.go:112-116 | the token of a different non-empty credential is rejected with 401 |
| FrontDoor.TokenAloneOutOfRange | barker.go:112 | a header holding only the token hits the unchecked index |
| FrontDoor.Server.constructor | barker.go:108-123 | the handler's authentication is the configured one, over the given registry |
| FrontDoor.Server.Handle | barker.go:110-123 | a refused request gets 401 with the challenge, or no reply after the panic, and the table is unchanged. An admitted reload answers 200 "OK" with the fresh table, or exits with the load error. Any other admitted request is answered as `Answer` on the unchanged table |
| FrontDoor.Start | barker.go:106-109 | start-up fails exactly with a load error of the task file; otherwise the server holds the loaded table, the file path and the configured authentication |

## Left out

- Running the process (`Task.Run`, barker.go:25-42) is not modelled: no `os/exec`, no
  stdin pipe, no stderr capture, no logging. The model keeps only the process the task
  would start (`Exec`) and a success flag supplied by the caller.
- Reading the task file and `json.Unmarshal` (barker.go:52-57) are not modelled. The
  parsed map is a parameter, and `None` stands for a read failure.
- A JSON `null` entry would make Go dereference a nil `*Task` at barker.go:59. The
  parsed map here always holds a task, so this panic is not modelled.
- `r.ParseForm` and `json.Marshal(r.Form)` (barker.go:84-85) are not modelled. The form's
  JSON bytes are an opaque parameter.
- The HTTP server is not modelled: flag parsing, `ListenAndServe`, header
  canonicalisation and the response writer (barker.go:100-105, 124-125).
- Path cleaning by Go's default `ServeMux`, on which the handler is registered
  (barker.go:110, 120), is not modelled. The mux answers a path holding `.`, `..` or
  repeated slashes (such as "//__reload__") with a 301 redirect to the cleaned path, before
  the handler and its authentication run. `Server.Handle` models the handler alone, so its
  statements about such paths describe the handler, not the server as a whole.
- The unsynchronised replacement of the registry while other handlers read it
  (barker.go:78) is not modelled. Each request is one sequential step.
- Go rewrites each `*Task` in place. Here each map entry is replaced by a new value, so
  the aliasing of those pointers is not modelled.
- `strings.Fields` decodes the header value's bytes as UTF-8 (an invalid byte becomes
  U+FFFD, which is not whitespace). Header values here are sequences of characters, so
  that decoding is not modelled. The credential is modelled exactly: `[]byte(auth)`
  copies the flag string's bytes unchanged.
- Log messages are not modelled. A fatal load error carries its kind and task name, but
  not the text that `log.Fatal` prints.
