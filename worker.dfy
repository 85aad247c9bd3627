/**
 * The worker (pdf-worker/worker.py): `process_message`, a guard chain that either
 * drops the message or posts a conversion request to the gateway and classifies
 * the reply, and the consuming loop of `main`, which acknowledges each message
 * as it is delivered.
 */
module Worker {
  import opened Wrappers
  import opened JsonText
  import opened Http
  import opened Broker

  /** The worker's environment (worker.py:10, :14-15): the gateway's URL and the login it posts with. */
  datatype WorkerConfig = WorkerConfig(apiUrl: string, user: string, password: string)

  const DefaultWorkerConfig: WorkerConfig :=
    WorkerConfig("http://pdf-printer:5000/convert-in-shared-dir", "user", "password")

  /** The form fields of the conversion request. */
  type Form = map<string, string>

  /** `requests.post(url, data=form, auth=HTTPBasicAuth(user, password))`. */
  datatype Request = Request(url: string, form: Form, user: string, password: string)

  /** The gateway's answer: a status and its body if that parses as a JSON object, or a transport exception. */
  datatype HttpReply = Answered(status: int, json: Option<Json>) | TransportError(message: string)

  /** The oracle standing for the network round trip to the gateway. */
  type Poster = Request -> HttpReply

  datatype DropReason = NoFilename | FileNotFound(name: string)

  /** Where the guard chain of process_message ends. */
  datatype Decision = Drop(reason: DropReason) | Raise | Post(request: Request)

  /** How a message ends up being handled; every one of these returns normally, and none requeues. */
  datatype Outcome =
    | Dropped(reason: DropReason)
    | Converted(pdf: string)
    | ConvertedWithoutName(body: Json)
    | Failed(status: int)
    | Swallowed

  /** The form built at worker.py:34-40: `filename` always, the two options only when truthy. */
  function Payload(filename: string, lo: JsonValue, deleteOriginal: JsonValue): (p: Form)
    ensures "filename" in p && p["filename"] == filename
    ensures "lo_options" in p <==> Truthy(lo)
    ensures "lo_options" in p ==> p["lo_options"] == Dumps(lo)
    ensures "delete_original" in p <==> Truthy(deleteOriginal)
    ensures "delete_original" in p ==> p["delete_original"] == PyStr(deleteOriginal)
    ensures p.Keys <= {"filename", "lo_options", "delete_original"}
  {
    var base := map["filename" := filename];
    var withOptions := if Truthy(lo) then base["lo_options" := Dumps(lo)] else base;
    if Truthy(deleteOriginal) then withOptions["delete_original" := PyStr(deleteOriginal)] else withOptions
  }

  /**
   * The guard chain of process_message (worker.py:19-46). A body that does not decode
   * to an object, and a truthy non-string `xlsx` (which makes `os.path.join` raise), end in
   * an exception; a falsy `xlsx` and a file missing from the shared directory are dropped;
   * anything else is posted.
   */
  function Decide(cfg: WorkerConfig, message: Document, shared: set<string>): (d: Decision)
    ensures d.Post? <==>
      && message.Obj? && Field(message.fields, "xlsx").JStr?
      && Field(message.fields, "xlsx").s != "" && Field(message.fields, "xlsx").s in shared
    ensures d == Drop(NoFilename) <==> message.Obj? && !Truthy(Field(message.fields, "xlsx"))
    ensures d.Drop? && d.reason.FileNotFound? ==> d.reason.name !in shared
    ensures message.Obj? && Field(message.fields, "xlsx").JStr? && Field(message.fields, "xlsx").s != ""
            && Field(message.fields, "xlsx").s !in shared ==>
      d == Drop(FileNotFound(Field(message.fields, "xlsx").s))
    ensures d.Raise? <==>
      message.Malformed? || (Truthy(Field(message.fields, "xlsx")) && !Field(message.fields, "xlsx").JStr?)
    ensures d.Post? ==>
      var fields := message.fields;
      d.request == Request(cfg.apiUrl, Payload(fields["xlsx"].s, Field(fields, "lo_options"), Field(fields, "delete_original")),
                           cfg.user, cfg.password)
  {
    match message
    case Malformed => Raise
    case Obj(fields) =>
      var xlsx := Field(fields, "xlsx");
      if !Truthy(xlsx) then Drop(NoFilename)
      else if !xlsx.JStr? then Raise
      else if xlsx.s !in shared then Drop(FileNotFound(xlsx.s))
      else
        Post(Request(cfg.apiUrl, Payload(xlsx.s, Field(fields, "lo_options"), Field(fields, "delete_original")),
                     cfg.user, cfg.password))
  }

  /** worker.py:48-55: 200 with a `"pdf"` key is success, 200 without it a warning, anything else a failure. */
  function Classify(reply: HttpReply): (o: Outcome)
    ensures o.Converted? <==> reply.Answered? && reply.status == 200 && reply.json.Some? && "pdf" in reply.json.value
    ensures o.Converted? ==> o.pdf == reply.json.value["pdf"]
    ensures o.ConvertedWithoutName? <==>
      reply.Answered? && reply.status == 200 && reply.json.Some? && "pdf" !in reply.json.value
    ensures o.Failed? <==> reply.Answered? && reply.status != 200
    ensures o.Failed? ==> o.status == reply.status
    ensures !o.Dropped?
  {
    match reply
    case TransportError(_) => Swallowed
    case Answered(status, json) =>
      if status != 200 then Failed(status)
      else match json
        case None => Swallowed
        case Some(body) => if "pdf" in body then Converted(body["pdf"]) else ConvertedWithoutName(body)
  }

  /** The outcome of a decision, given how the gateway answers. */
  function Handled(d: Decision, post: Poster): (o: Outcome)
    ensures d.Drop? ==> o == Dropped(d.reason)
    ensures d.Raise? ==> o == Swallowed
    ensures d.Post? ==> o == Classify(post(d.request))
  {
    match d
    case Drop(reason) => Dropped(reason)
    case Raise => Swallowed
    case Post(request) => Classify(post(request))
  }

  /**
   * `process_message`: `sent` is the request posted, if any. It always returns normally:
   * the exceptions of the original end in `Swallowed`.
   */
  method ProcessMessage(cfg: WorkerConfig, message: Document, shared: set<string>, post: Poster)
    returns (o: Outcome, sent: Option<Request>)
    ensures sent == (if Decide(cfg, message, shared).Post? then Some(Decide(cfg, message, shared).request) else None)
    ensures o == Handled(Decide(cfg, message, shared), post)
  {
    sent := None;
    if message.Malformed? {
      o := Swallowed;
      return;
    }
    var xlsxFilename := Field(message.fields, "xlsx");
    var loOptions := Field(message.fields, "lo_options");
    var deleteOriginal := Field(message.fields, "delete_original");
    if !Truthy(xlsxFilename) {
      o := Dropped(NoFilename);
      return;
    }
    if !xlsxFilename.JStr? {
      o := Swallowed;
      return;
    }
    if xlsxFilename.s !in shared {
      o := Dropped(FileNotFound(xlsxFilename.s));
      return;
    }
    var payload := map["filename" := xlsxFilename.s];
    if Truthy(loOptions) {
      payload := payload["lo_options" := Dumps(loOptions)];
    }
    if Truthy(deleteOriginal) {
      payload := payload["delete_original" := PyStr(deleteOriginal)];
    }
    var request := Request(cfg.apiUrl, payload, cfg.user, cfg.password);
    sent := Some(request);
    o := Classify(post(request));
  }

  /** What one turn of the consumer observes. */
  datatype Step = Idle | Processed(outcome: Outcome) | LostInCrash

  /**
   * One delivery with `auto_ack=True`: the head message leaves the queue before it is
   * processed, so a crash during processing (`crash`) loses it for good.
   */
  method DeliverNext(cfg: WorkerConfig, queue: TaskQueue, shared: set<string>, post: Poster, crash: bool)
    returns (step: Step)
    modifies queue
    ensures old(queue.messages) == [] ==> step == Idle && queue.messages == []
    ensures old(queue.messages) != [] ==> queue.messages == old(queue.messages)[1..]
    ensures old(queue.messages) != [] && crash ==> step == LostInCrash
    ensures old(queue.messages) != [] && !crash ==>
      step == Processed(Handled(Decide(cfg, old(queue.messages)[0].body, shared), post))
  {
    var next := queue.Take();
    match next
    case None =>
      step := Idle;
    case Some(envelope) =>
      if crash {
        step := LostInCrash;
      } else {
        var o, _ := ProcessMessage(cfg, envelope.body, shared, post);
        step := Processed(o);
      }
  }

  /**
   * The consuming loop of `main` over the messages waiting now: each is handled once,
   * in order, and none is put back.
   */
  method ConsumeAll(cfg: WorkerConfig, queue: TaskQueue, shared: set<string>, post: Poster)
    returns (outcomes: seq<Outcome>)
    modifies queue
    ensures queue.messages == []
    ensures |outcomes| == |old(queue.messages)|
    ensures forall i :: 0 <= i < |outcomes| ==>
      outcomes[i] == Handled(Decide(cfg, old(queue.messages)[i].body, shared), post)
  {
    outcomes := [];
    while queue.messages != []
      invariant |outcomes| <= |old(queue.messages)|
      invariant queue.messages == old(queue.messages)[|outcomes|..]
      invariant forall i :: 0 <= i < |outcomes| ==>
        outcomes[i] == Handled(Decide(cfg, old(queue.messages)[i].body, shared), post)
      decreases |queue.messages|
    {
      var step := DeliverNext(cfg, queue, shared, post, false);
      outcomes := outcomes + [step.outcome];
    }
  }
}
