/**
 * How gateway and worker fit together: the message queue_job publishes as the
 * worker reads it, and the gateway's answers as the worker classifies them.
 */
module Pipeline {
  import opened Wrappers
  import opened Naming
  import opened JsonText
  import opened Conversion
  import opened Http
  import opened Broker
  import opened Gateway
  import opened Worker

  /**
   * The worker's view of a sent response: a status and the body if it is a JSON object.
   * A redirect is seen with its own status, although `requests.post` would follow it;
   * `/convert-in-shared-dir`, the only endpoint the worker calls, never redirects.
   */
  function AsReply(d: Delivery): (reply: HttpReply)
    ensures reply.Answered?
    ensures d.SentJson? ==> reply == Answered(d.status, Some(d.body))
    ensures d.SentError? ==> reply.status == d.status
  {
    match d
    case SentJson(s, b) => Answered(s, Some(b))
    case SentError(s, detail, _) => Answered(s, Some(map["detail" := detail]))
    case SentFile(_, _) => Answered(200, None)
    case FileVanished(_) => Answered(500, None)
    case SentRedirect(_, s) => Answered(s, None)
  }

  /**
   * A job published by queue_job, read by the worker: it is dropped when the name is
   * empty or the file is gone; otherwise the request names the file, never asks to
   * delete the original, and carries the options only when given, JSON-quoted — so
   * the engine target the gateway then builds is not the one the direct path builds.
   */
  lemma QueuedJobRequest(cfg: WorkerConfig, filename: string, lo: Option<string>, shared: set<string>)
    ensures filename == "" ==> Decide(cfg, QueuedBody(filename, lo), shared) == Drop(NoFilename)
    ensures filename != "" && filename !in shared ==>
      Decide(cfg, QueuedBody(filename, lo), shared) == Drop(FileNotFound(filename))
    ensures filename != "" && filename in shared ==>
      var d := Decide(cfg, QueuedBody(filename, lo), shared);
      && d.Post? && d.request.form["filename"] == filename
      && "delete_original" !in d.request.form
      && ("lo_options" in d.request.form <==> OptionsGiven(lo))
      && (OptionsGiven(lo) ==>
            d.request.form["lo_options"] == Quote(lo.value)
            && Target(Some(d.request.form["lo_options"])) != Target(lo))
  {
    var body := QueuedBody(filename, lo);
    assert Field(body.fields, "delete_original") == JNull;
    if filename != "" && filename in shared && OptionsGiven(lo) {
      var q := Dumps(JStr(lo.value));
      assert q == Quote(lo.value);
      assert |q| > |lo.value|;
      assert Target(Some(q)) == FilterPrefix + q;
      assert |Target(Some(q))| != |Target(lo)|;
    }
  }

  /** With every setting at its default, the worker's login is not the one the gateway accepts. */
  lemma DefaultCredentialsRejected()
    ensures !Authorized(DefaultConfig, Credentials(DefaultWorkerConfig.user, DefaultWorkerConfig.password))
  {
    assert DefaultConfig.printerUser == "admin" != "user";
  }

  /**
   * The worker's reading of each answer convert_in_shared_dir gives: the success
   * answer yields the PDF name; an engine failure, answered with status 200 and an
   * `"error"` body, is read as a conversion without a name; 404 and 401 are failures.
   */
  lemma SharedDirAnswersClassified(files: Files, filename: string, stderr: string)
    ensures Classify(AsReply(Deliver(files, JsonReply(200, map["status" := "success", "pdf" := PdfName(filename)]))))
            == Converted(PdfName(filename))
    ensures Classify(AsReply(Deliver(files, JsonReply(200, map["error" := EngineFailure(stderr)])))).ConvertedWithoutName?
    ensures Classify(AsReply(Deliver(files, ErrorReply(404, "File not found", None)))) == Failed(404)
    ensures Classify(AsReply(Deliver(files, Unauthorized))) == Failed(401)
  {
  }

  /**
   * queue_job followed by the worker draining the queue: the job is handled once,
   * after the jobs already waiting, and, having been staged first, it is posted.
   */
  method QueueThenConsume(gcfg: Config, creds: Credentials, wcfg: WorkerConfig, store: StagingStore,
                          queue: TaskQueue, upload: Upload, lo: Option<string>,
                          reread: Content, engine: Engine, post: Poster)
    returns (r: Response, outcomes: seq<Outcome>)
    modifies store, queue
    ensures queue.messages == []
    ensures Authorized(gcfg, creds) && BrokerConfigured(gcfg) ==>
      && upload.filename in store.files
      && store.files == old(store.files)[upload.filename := upload.content]
      && r == JsonReply(200, map["status" := "queued", "file" := upload.filename])
      && |outcomes| == |old(queue.messages)| + 1
      && (forall i :: 0 <= i < |old(queue.messages)| ==>
            outcomes[i] == Handled(Decide(wcfg, old(queue.messages)[i].body, store.files.Keys), post))
      && outcomes[|outcomes| - 1] == Handled(Decide(wcfg, QueuedBody(upload.filename, lo), store.files.Keys), post)
      && (upload.filename != "" ==> Decide(wcfg, QueuedBody(upload.filename, lo), store.files.Keys).Post?)
  {
    r := store.QueueJob(gcfg, creds, upload, lo, Published, queue, reread, engine);
    ghost var published := queue.messages;
    outcomes := ConsumeAll(wcfg, queue, store.files.Keys, post);
    if Authorized(gcfg, creds) && BrokerConfigured(gcfg) {
      assert published[|published| - 1].body == QueuedBody(upload.filename, lo);
    }
  }
}
