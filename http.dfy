/**
 * What a gateway handler hands back to the web framework, and what the framework
 * then does with it: it sends the response, reading a file response from the
 * store only at that moment, and afterwards runs the handler's background tasks
 * in order (pdf-printer/app/main.py:218-224).
 */
module Http {
  import opened Wrappers
  import opened Conversion

  /** A JSON object with string values, as the handlers answer. */
  type Json = map<string, string>

  /** The staging directory: file name to contents. */
  type Files = map<string, Content>

  datatype Response =
    | JsonReply(status: int, body: Json)
    | ErrorReply(status: int, detail: string, challenge: Option<string>)
    | FileReply(name: string, downloadName: Option<string>)
    | RedirectReply(url: string, status: int)

  /** What reaches the client; `FileVanished` is the server error when a file response names a missing file. */
  datatype Delivery =
    | SentJson(status: int, body: Json)
    | SentError(status: int, detail: string, challenge: Option<string>)
    | SentFile(content: Content, downloadName: Option<string>)
    | FileVanished(name: string)
    | SentRedirect(url: string, status: int)

  /** A background task: `os.remove(path)`, which raises on a missing file, or removal of whichever of `paths` exist. */
  datatype Task = Remove(name: string) | CleanUp(names: seq<string>)

  /** The files left once `names` are removed where present. */
  function Without(files: Files, names: seq<string>): (rest: Files)
    ensures rest.Keys == files.Keys - (set n | n in names)
    ensures forall k :: k in rest ==> rest[k] == files[k]
  {
    files - (set n | n in names)
  }

  /** Sending `r` when the store holds `files`. */
  function Deliver(files: Files, r: Response): (d: Delivery)
    ensures r.FileReply? && r.name in files ==> d == SentFile(files[r.name], r.downloadName)
    ensures r.FileReply? && r.name !in files ==> d == FileVanished(r.name)
    ensures !r.FileReply? ==> !d.SentFile? && !d.FileVanished?
  {
    match r
    case JsonReply(s, b) => SentJson(s, b)
    case ErrorReply(s, m, c) => SentError(s, m, c)
    case FileReply(n, dn) => if n in files then SentFile(files[n], dn) else FileVanished(n)
    case RedirectReply(u, s) => SentRedirect(u, s)
  }

  /** The store after the background tasks ran in order; a `Remove` of a missing file raises and ends the run. */
  function AfterTasks(files: Files, tasks: seq<Task>): (after: Files)
    ensures after.Keys <= files.Keys
    ensures forall k :: k in after ==> after[k] == files[k]
    ensures tasks != [] && tasks[0].Remove? && tasks[0].name !in files ==> after == files
    ensures tasks != [] && tasks[0].Remove? && tasks[0].name in files ==> tasks[0].name !in after
    ensures tasks != [] && tasks[0].CleanUp? ==> forall n :: n in tasks[0].names ==> n !in after
    decreases |tasks|
  {
    if tasks == [] then files
    else match tasks[0]
      case Remove(n) => if n in files then AfterTasks(files - {n}, tasks[1..]) else files
      case CleanUp(ns) => AfterTasks(Without(files, ns), tasks[1..])
  }

  datatype Credentials = Credentials(username: string, password: string)

  /** `verify_credentials` (main.py:54-62): both the user name and the password must match. */
  function VerifyCredentials(user: string, password: string, creds: Credentials): (rejection: Option<Response>)
    ensures rejection.None? <==> creds.username == user && creds.password == password
    ensures rejection.Some? ==> rejection.value == ErrorReply(401, "Unauthorized", Some("Basic"))
  {
    if creds.username == user && creds.password == password then None
    else Some(ErrorReply(401, "Unauthorized", Some("Basic")))
  }
}
