/**
  The handler `main` installs: when a credential is configured, a request reaches the
  router only if the second whitespace-separated field of its first `Authorization`
  header is the base64 form of the credential; otherwise every request is routed.
 */
module FrontDoor {
  import opened Wrappers
  import opened Octet
  import opened Text
  import Base64
  import opened TaskTable
  import opened Router

  /** The authentication `main` sets up from the `-auth` flag. */
  datatype Auth = Open | Token(encoded: string)

  /** What the gate decides for one request. Indexing the second field of a header with
      fewer than two fields is a run-time panic: the handler stops and no response is
      written. */
  datatype Gate = Admit | Reject | IndexOutOfRange

  /** The parts of an HTTP request the server looks at; `authorization` holds every
      value of the `Authorization` header, `form` the JSON form of the form fields. */
  datatype Request = Request(httpMethod: string, path: string, authorization: seq<string>, form: seq<byte>)

  /** What the client sees: a status, a body and the `WWW-Authenticate` header if set;
      or no response at all (the handler panicked); or the process exits while
      reloading. */
  datatype Reply =
    | Respond(status: int, body: string, challenge: Option<string>)
    | Aborted
    | Exited(error: LoadError)

  /** The challenge sent with 401, stray closing parenthesis included. */
  const Challenge: string := "Basic realm=\"user\")"

  /** An empty credential turns authentication off; otherwise its encoding, computed
      once, is the token. */
  function Configure(credential: seq<byte>): (a: Auth)
    ensures a.Open? <==> credential == []
    ensures a.Token? ==> a.encoded == Base64.Encode(credential)
    ensures a.Token? ==> Base64.Decode(a.encoded) == Some(credential)
  {
    if |credential| > 0 then
      Base64.DecodeEncode(credential);
      Token(Base64.Encode(credential))
    else Open
  }

  /** The test on the first `Authorization` value. */
  function Check(auth: Auth, authorization: seq<string>): (g: Gate)
    ensures auth.Open? ==> g == Admit
    ensures auth.Token? && g == Admit ==>
      |authorization| > 0 && |Fields(authorization[0])| >= 2 && Fields(authorization[0])[1] == auth.encoded
    ensures g == IndexOutOfRange <==>
      auth.Token? && |authorization| > 0 && |Fields(authorization[0])| < 2
  {
    match auth
    case Open => Admit
    case Token(token) =>
      if |authorization| == 0 then Reject
      else
        var fields := Fields(authorization[0]);
        if |fields| < 2 then IndexOutOfRange
        else if fields[1] == token then Admit
        else Reject
  }

  /** `fmt.Fprint(w, "OK")` for success; `http.Error`, which ends the text with a
      newline, for the errors. */
  function ReplyTo(o: Outcome): (r: Reply)
    ensures r.Exited? <==> o.ReloadFailed?
    ensures !r.Aborted?
    ensures r.Respond? ==> r.challenge.None? && r.status != 401
    ensures r.Respond? ==> (r.body == "OK" <==> r.status == 200)
  {
    match o
    case Reloaded => Respond(200, "OK", None)
    case RanOk(_) => Respond(200, "OK", None)
    case ReloadFailed(e) => Exited(e)
    case NotFound => Respond(404, "Not found.\n", None)
    case MethodNotAllowed => Respond(405, "Method Not Allowed\n", None)
    case RanFailed(_) => Respond(502, "Cannot perform task.\n", None)
  }

  /** The reply for a request the gate turns away. */
  function Refusal(g: Gate): (r: Reply)
    ensures r.Aborted? <==> g == IndexOutOfRange
    ensures r.Respond? || r.Aborted?
    ensures g != IndexOutOfRange ==> r == Respond(401, "Unauthorized.\n", Some(Challenge))
  {
    if g == IndexOutOfRange then Aborted else Respond(401, "Unauthorized.\n", Some(Challenge))
  }

  /** Status codes: 200 exactly for a reload or a successful run, 502 exactly for a
      failed run, and no router outcome is answered with 401. */
  lemma ReplyStatus(o: Outcome)
    ensures ReplyTo(o).Respond? <==> !o.ReloadFailed?
    ensures ReplyTo(o).Respond? ==>
      && (ReplyTo(o).status == 200 <==> o.Reloaded? || o.RanOk?)
      && (o.Reloaded? || o.RanOk? ==> ReplyTo(o).body == "OK")
      && (o.NotFound? ==> ReplyTo(o).body == "Not found.\n")
      && (o.MethodNotAllowed? ==> ReplyTo(o).body == "Method Not Allowed\n")
      && (o.RanFailed? ==> ReplyTo(o).body == "Cannot perform task.\n")
      && (ReplyTo(o).status == 404 <==> o.NotFound?)
      && (ReplyTo(o).status == 405 <==> o.MethodNotAllowed?)
      && (ReplyTo(o).status == 502 <==> o.RanFailed?)
      && ReplyTo(o).status != 401
      && ReplyTo(o).challenge.None?
  {
  }

  /** A request is routed exactly when authentication is off or the first header's
      second field is the encoded credential; the panic happens exactly when
      authentication is on and the first header has fewer than two fields. */
  lemma CheckCases(credential: seq<byte>, authorization: seq<string>)
    ensures Check(Configure(credential), authorization) == Admit <==>
      || credential == []
      || (|authorization| > 0 && |Fields(authorization[0])| >= 2
          && Base64.Decode(Fields(authorization[0])[1]) == Some(credential)
          && Fields(authorization[0])[1] == Base64.Encode(credential))
    ensures Check(Configure(credential), authorization) == IndexOutOfRange <==>
      credential != [] && |authorization| > 0 && |Fields(authorization[0])| < 2
  {
    if credential != [] {
      Base64.DecodeEncode(credential);
    }
  }

  /** A non-empty byte string encodes to one header field. */
  lemma EncodeIsField(b: seq<byte>)
    requires b != []
    ensures IsField(Base64.Encode(b))
  {
    var s := Base64.Encode(b);
    forall i | 0 <= i < |s|
      ensures !IsSpace(s[i])
    {
      Base64.EncodeAlphabet(b, i);
      if IsSpace(s[i]) {
        SpaceOutsidePrintable(s[i]);
      }
    }
  }

  /** The `Authorization: <scheme> <token>` header is admitted whatever the scheme. */
  lemma SchemeAndTokenAdmitted(credential: seq<byte>, scheme: string)
    requires credential != [] && IsField(scheme)
    ensures Check(Configure(credential), [JoinWithSpaces([scheme, Base64.Encode(credential)])]) == Admit
  {
    EncodeIsField(credential);
    FieldsOfJoin([scheme, Base64.Encode(credential)]);
  }

  /** With a credential set, a request without an `Authorization` header gets 401 and
      the challenge. */
  lemma MissingHeaderUnauthorized(credential: seq<byte>)
    requires credential != []
    ensures Refusal(Check(Configure(credential), [])) == Respond(401, "Unauthorized.\n", Some(Challenge))
    ensures Check(Configure(credential), []) == Reject
  {
  }

  /** The token of a different, non-empty credential is rejected. */
  lemma OtherCredentialRejected(credential: seq<byte>, other: seq<byte>, scheme: string)
    requires credential != [] && other != [] && other != credential && IsField(scheme)
    ensures Check(Configure(credential), [JoinWithSpaces([scheme, Base64.Encode(other)])]) == Reject
  {
    EncodeIsField(other);
    FieldsOfJoin([scheme, Base64.Encode(other)]);
    if Base64.Encode(other) == Base64.Encode(credential) {
      Base64.EncodeInjective(other, credential);
    }
  }

  /** A header holding the token alone, without a scheme, hits the unchecked index. */
  lemma TokenAloneOutOfRange(credential: seq<byte>)
    requires credential != []
    ensures Check(Configure(credential), [Base64.Encode(credential)]) == IndexOutOfRange
  {
    EncodeIsField(credential);
    FieldsOfJoin([Base64.Encode(credential)]);
  }

  /** The server `main` runs: the authentication it configured and the registry its
      handler routes into. */
  class Server {
    const auth: Auth
    const registry: Registry

    constructor (credential: seq<byte>, registry: Registry)
      ensures this.auth == Configure(credential) && this.registry == registry
    {
      this.auth := Configure(credential);
      this.registry := registry;
    }

    /** The handler for one request: the gate first, then `route`. `contents` is what
        the task file holds if the request reloads it, `ok` whether the task's process
        would succeed. */
    method Handle(req: Request, contents: Option<map<string, Task>>, ok: bool) returns (reply: Reply)
      requires registry.Valid()
      modifies registry
      ensures registry.Valid() && registry.file == old(registry.file)
      ensures Check(auth, req.authorization) != Admit ==>
        reply == Refusal(Check(auth, req.authorization)) && registry.list == old(registry.list)
      ensures Check(auth, req.authorization) == Admit && TrimSlashes(req.path) == ReloadPath ==>
        (reply == Respond(200, "OK", None) && LoadsAs(contents, Loaded(registry.list)))
        || (reply.Exited? && LoadsAs(contents, Failed(reply.error)) && registry.list == old(registry.list))
      ensures Check(auth, req.authorization) == Admit && TrimSlashes(req.path) != ReloadPath ==>
        registry.list == old(registry.list)
        && reply == ReplyTo(Answer(registry.list, TrimSlashes(req.path), req.httpMethod, req.form, ok))
    {
      var gate := Check(auth, req.authorization);
      if gate == Admit {
        var o := registry.Route(req.path, req.httpMethod, contents, req.form, ok);
        reply := ReplyTo(o);
      } else {
        reply := Refusal(gate);
      }
    }
  }

  /** `main` up to serving: the first load of the task file (fatal on failure), then the
      authentication set up from the credential. */
  method Start(credential: seq<byte>, file: string, contents: Option<map<string, Task>>)
    returns (server: Server?, failure: Option<LoadError>)
    ensures server == null <==> failure.Some?
    ensures failure.Some? ==> LoadsAs(contents, Failed(failure.value))
    ensures server != null ==>
      && fresh(server) && fresh(server.registry)
      && server.auth == Configure(credential)
      && server.registry.Valid()
      && server.registry.file == file
      && LoadsAs(contents, Loaded(server.registry.list))
  {
    var r := NewTasksFromFile(contents);
    if r.Failed? {
      return null, Some(r.error);
    }
    LoadedIsWellFormed(contents.value);
    var registry := new Registry(file, r.list);
    server := new Server(credential, registry);
    failure := None;
  }
}
