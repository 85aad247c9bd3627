/**
 * The gateway's handlers on the staging directory (pdf-printer/app/main.py). Each
 * handler is a method of `StagingStore`, whose one field is the directory; the
 * conversion engine and the broker are oracles passed in.
 */
module Gateway {
  import opened Wrappers
  import opened Naming
  import opened Conversion
  import opened Http
  import opened JsonText
  import opened Broker

  /** The gateway's environment: broker host and login, and the login it demands of its clients. */
  datatype Config = Config(rabbitHost: string, rabbitUser: string, rabbitPass: string,
                           printerUser: string, printerPass: string)

  /** The defaults of main.py:18-23. */
  const DefaultConfig: Config := Config("rabbitmq", "user", "password", "admin", "password")

  /** `RABBITMQ_HOST and RABBITMQ_USER and RABBITMQ_PASS` (main.py:184). */
  function BrokerConfigured(cfg: Config): (configured: bool)
    ensures !configured <==> cfg.rabbitHost == "" || cfg.rabbitUser == "" || cfg.rabbitPass == ""
    ensures cfg == DefaultConfig ==> configured
  {
    cfg.rabbitHost != "" && cfg.rabbitUser != "" && cfg.rabbitPass != ""
  }

  predicate Authorized(cfg: Config, creds: Credentials)
  {
    VerifyCredentials(cfg.printerUser, cfg.printerPass, creds).None?
  }

  const Unauthorized: Response := ErrorReply(401, "Unauthorized", Some("Basic"))

  /** An uploaded file: its client-given name and the bytes read from it. */
  datatype Upload = Upload(filename: string, content: Content)

  /** How the broker round trip of queue_job ends: cleanly, raising before the publish, or raising on close after it. */
  datatype PublishRun = Published | FailedBeforePublish(error: string) | FailedOnClose(error: string)

  /** `{"xlsx": filename, "lo_options": lo_options}` as the worker decodes it (main.py:195). */
  function QueuedBody(filename: string, lo: Option<string>): (body: Document)
    ensures body.Obj? && body.fields.Keys == {"xlsx", "lo_options"}
    ensures Field(body.fields, "xlsx") == JStr(filename)
    ensures Field(body.fields, "lo_options") == if lo.Some? then JStr(lo.value) else JNull
  {
    Obj(map["xlsx" := JStr(filename), "lo_options" := if lo.Some? then JStr(lo.value) else JNull])
  }

  /** The message queue_job publishes: to the durable job queue, persistent. */
  function QueuedEnvelope(filename: string, lo: Option<string>): (e: Envelope)
    ensures e.routingKey == JobQueue && e.deliveryMode == Persistent
    ensures e.body == QueuedBody(filename, lo)
  {
    Envelope(JobQueue, QueuedBody(filename, lo), Persistent)
  }

  /** What the synchronous conversion answers once the engine has run. */
  function ConvertReply(filename: string, run: EngineRun): (r: Response)
    ensures run.exitCode == 0 ==> r == FileReply(OutputName(filename), Some(PdfName(filename)))
    ensures run.exitCode != 0 ==> r.JsonReply? && r.status == 200 && r.body.Keys == {"error"}
    ensures run.exitCode != 0 ==> r.body["error"] == EngineFailure(run.stderr)
  {
    if run.exitCode != 0 then JsonReply(200, map["error" := EngineFailure(run.stderr)])
    else FileReply(OutputName(filename), Some(PdfName(filename)))
  }

  /** Cleaning up both staged names leaves the store as it was before staging, minus those names. */
  lemma CleanedAfterStaging(files: Files, staged: Files, a: string, b: string)
    requires staged.Keys == files.Keys + {a} || staged.Keys == files.Keys + {a, b}
    requires forall k :: k in staged && k != a && k != b ==> staged[k] == files[k]
    ensures AfterTasks(staged, [CleanUp([a, b])]) == files - {a, b}
  {
    var w := Without(staged, [a, b]);
    assert [CleanUp([a, b])][1..] == [];
    assert AfterTasks(staged, [CleanUp([a, b])]) == w;
    assert w.Keys == files.Keys - {a, b};
    assert forall k :: k in w ==> w[k] == files[k];
  }

  class StagingStore {
    /** The shared directory, keyed by file name. */
    var files: Files

    constructor (initial: Files)
      ensures files == initial
    {
      files := initial;
    }

    /**
     * The framework's side of a request: send `r`, reading a file response from the
     * store as it is now, and only then run the background tasks in order. A failing
     * `os.remove` raises and the tasks after it do not run.
     */
    method Send(r: Response, tasks: seq<Task>) returns (d: Delivery)
      modifies this
      ensures d == Deliver(old(files), r)
      ensures files == AfterTasks(old(files), tasks)
    {
      d := Deliver(files, r);
      var i := 0;
      while i < |tasks|
        invariant 0 <= i <= |tasks|
        invariant AfterTasks(files, tasks[i..]) == AfterTasks(old(files), tasks)
      {
        assert tasks[i..][0] == tasks[i] && tasks[i..][1..] == tasks[i + 1..];
        match tasks[i] {
          case Remove(n) =>
            if n !in files {
              break;
            }
            files := files - {n};
          case CleanUp(ns) =>
            RemoveIfPresent(ns);
        }
        i := i + 1;
      }
    }

    /** The `finally` loop of convert_xlsx (main.py:264-265): remove each name that exists. */
    method RemoveIfPresent(names: seq<string>)
      modifies this
      ensures files == Without(old(files), names)
    {
      for i := 0 to |names|
        invariant files == Without(old(files), names[..i])
      {
        assert names[..i + 1] == names[..i] + [names[i]];
        if names[i] in files {
          files := files - {names[i]};
        }
      }
      assert names[..|names|] == names;
    }

    /** `POST /delete-file` (main.py:142-153): removes the file if present; the answer is the same either way. */
    method DeleteFile(cfg: Config, creds: Credentials, filename: string) returns (r: Response)
      modifies this
      ensures !Authorized(cfg, creds) ==> r == Unauthorized && files == old(files)
      ensures Authorized(cfg, creds) ==> r == RedirectReply("/pdfs", 303) && files == old(files) - {filename}
    {
      var rejection := VerifyCredentials(cfg.printerUser, cfg.printerPass, creds);
      if rejection.Some? {
        r := rejection.value;
        return;
      }
      if filename in files {
        files := files - {filename};
      }
      r := RedirectReply("/pdfs", 303);
    }

    /** `GET /files/{filename}` (main.py:156-165): the file, or a JSON error when it is absent. */
    method GetFile(cfg: Config, creds: Credentials, filename: string) returns (r: Response)
      ensures !Authorized(cfg, creds) ==> r == Unauthorized
      ensures Authorized(cfg, creds) && filename in files ==> r == FileReply(filename, None)
      ensures Authorized(cfg, creds) && filename !in files ==> r == JsonReply(200, map["error" := "File not found"])
    {
      var rejection := VerifyCredentials(cfg.printerUser, cfg.printerPass, creds);
      if rejection.Some? {
        r := rejection.value;
      } else if filename in files {
        r := FileReply(filename, None);
      } else {
        r := JsonReply(200, map["error" := "File not found"]);
      }
    }

    /**
     * `GET /check-pdf/{filename}` (main.py:208-224): 404 when the file is absent;
     * otherwise the file, with its removal scheduled as a background task when `delete`.
     */
    method CheckPdf(cfg: Config, creds: Credentials, filename: string, delete: bool)
      returns (r: Response, tasks: seq<Task>)
      ensures !Authorized(cfg, creds) ==> r == Unauthorized && tasks == []
      ensures Authorized(cfg, creds) && filename !in files ==>
        r == ErrorReply(404, "PDF not ready", None) && tasks == []
      ensures Authorized(cfg, creds) && filename in files ==>
        r == FileReply(filename, Some(filename)) && tasks == (if delete then [Remove(filename)] else [])
    {
      tasks := [];
      var rejection := VerifyCredentials(cfg.printerUser, cfg.printerPass, creds);
      if rejection.Some? {
        r := rejection.value;
        return;
      }
      if filename !in files {
        r := ErrorReply(404, "PDF not ready", None);
        return;
      }
      r := FileReply(filename, Some(filename));
      if delete {
        tasks := tasks + [Remove(filename)];
      }
    }

    /** The engine step shared by both conversion endpoints: build the argv, run the engine, keep its PDF on success. */
    method RunEngine(filename: string, lo: Option<string>, engine: Engine) returns (run: EngineRun)
      modifies this
      ensures run == engine(Command(Join(TmpDir, filename), lo))
      ensures files == if run.exitCode == 0 then old(files)[OutputName(filename) := run.pdf] else old(files)
    {
      var inputPath := Join(TmpDir, filename);
      var convertCmd := ["libreoffice", "--headless", "--convert-to", "pdf", inputPath, "--outdir", TmpDir];
      if OptionsGiven(lo) {
        var convertFilter := FilterPrefix + lo.value;
        convertCmd := ["libreoffice", "--headless", "--convert-to", convertFilter, inputPath, "--outdir", TmpDir];
      }
      run := engine(convertCmd);
      if run.exitCode == 0 {
        // The model assumes the engine writes `input_path.replace(".xlsx", ".pdf")`, which is this key (Naming.OutputPathInDir).
        files := files[OutputName(filename) := run.pdf];
      }
    }

    /**
     * The body of `POST /convert` as written (main.py:233-265): write the upload, convert,
     * answer, and in `finally` remove the input and the output whatever happened.
     */
    method ConvertUpload(upload: Upload, lo: Option<string>, engine: Engine) returns (r: Response)
      modifies this
      ensures files == old(files) - {upload.filename, OutputName(upload.filename)}
      ensures r == ConvertReply(upload.filename, engine(Command(Join(TmpDir, upload.filename), lo)))
    {
      var input := upload.filename;
      var output := OutputName(input);
      files := files[input := upload.content];
      var run := RunEngine(input, lo, engine);
      r := ConvertReply(input, run);
      RemoveIfPresent([input, output]);
    }

    /** `POST /convert` as written. */
    method ConvertXlsx(cfg: Config, creds: Credentials, upload: Upload, lo: Option<string>, engine: Engine)
      returns (r: Response)
      modifies this
      ensures !Authorized(cfg, creds) ==> r == Unauthorized && files == old(files)
      ensures Authorized(cfg, creds) ==>
        files == old(files) - {upload.filename, OutputName(upload.filename)} &&
        r == ConvertReply(upload.filename, engine(Command(Join(TmpDir, upload.filename), lo)))
    {
      var rejection := VerifyCredentials(cfg.printerUser, cfg.printerPass, creds);
      if rejection.Some? {
        r := rejection.value;
        return;
      }
      r := ConvertUpload(upload, lo, engine);
    }

    /**
     * `POST /convert` with the cleanup moved into a background task, so that it runs
     * after the PDF has been sent, as check_pdf does with its deletion.
     */
    method ConvertUploadDeferred(upload: Upload, lo: Option<string>, engine: Engine)
      returns (r: Response, tasks: seq<Task>)
      modifies this
      ensures var run := engine(Command(Join(TmpDir, upload.filename), lo));
        var staged := old(files)[upload.filename := upload.content];
        && files == (if run.exitCode == 0 then staged[OutputName(upload.filename) := run.pdf] else staged)
        && r == ConvertReply(upload.filename, run)
      ensures tasks == [CleanUp([upload.filename, OutputName(upload.filename)])]
    {
      var input := upload.filename;
      var output := OutputName(input);
      files := files[input := upload.content];
      var run := RunEngine(input, lo, engine);
      r := ConvertReply(input, run);
      tasks := [CleanUp([input, output])];
    }

    /** `POST /convert`, corrected. */
    method ConvertXlsxDeferred(cfg: Config, creds: Credentials, upload: Upload, lo: Option<string>, engine: Engine)
      returns (r: Response, tasks: seq<Task>)
      modifies this
      ensures !Authorized(cfg, creds) ==> r == Unauthorized && tasks == [] && files == old(files)
      ensures Authorized(cfg, creds) ==>
        var run := engine(Command(Join(TmpDir, upload.filename), lo));
        var staged := old(files)[upload.filename := upload.content];
        && files == (if run.exitCode == 0 then staged[OutputName(upload.filename) := run.pdf] else staged)
        && r == ConvertReply(upload.filename, run)
        && tasks == [CleanUp([upload.filename, OutputName(upload.filename)])]
    {
      var rejection := VerifyCredentials(cfg.printerUser, cfg.printerPass, creds);
      if rejection.Some? {
        r, tasks := rejection.value, [];
        return;
      }
      r, tasks := ConvertUploadDeferred(upload, lo, engine);
    }

    /**
     * `POST /convert-in-shared-dir` (main.py:267-307): 404 when the input is missing;
     * otherwise convert in place, keep the output, and remove the input only when
     * `delete_original` is non-zero. An engine failure leaves the store as it was.
     */
    method ConvertInSharedDir(cfg: Config, creds: Credentials, filename: string, lo: Option<string>,
                              deleteOriginal: int, engine: Engine)
      returns (r: Response)
      modifies this
      ensures !Authorized(cfg, creds) ==> r == Unauthorized && files == old(files)
      ensures Authorized(cfg, creds) && filename !in old(files) ==>
        r == ErrorReply(404, "File not found", None) && files == old(files)
      ensures Authorized(cfg, creds) && filename in old(files) ==>
        var run := engine(Command(Join(TmpDir, filename), lo));
        var converted := old(files)[OutputName(filename) := run.pdf];
        if run.exitCode != 0 then
          r == JsonReply(200, map["error" := EngineFailure(run.stderr)]) && files == old(files)
        else
          && r == JsonReply(200, map["status" := "success", "pdf" := PdfName(filename)])
          && files == (if deleteOriginal != 0 then converted - {filename} else converted)
      ensures Authorized(cfg, creds) && filename in old(files) && deleteOriginal != 0 && !Occurs(filename, XlsxExt)
              && '/' !in filename && engine(Command(Join(TmpDir, filename), lo)).exitCode == 0 ==>
        r == JsonReply(200, map["status" := "success", "pdf" := filename]) && filename !in files
    {
      var rejection := VerifyCredentials(cfg.printerUser, cfg.printerPass, creds);
      if rejection.Some? {
        r := rejection.value;
        return;
      }
      if filename !in files {
        r := ErrorReply(404, "File not found", None);
        return;
      }
      var run := RunEngine(filename, lo, engine);
      if run.exitCode != 0 {
        r := JsonReply(200, map["error" := EngineFailure(run.stderr)]);
        return;
      }
      if deleteOriginal != 0 {
        files := files - {filename};
      }
      r := JsonReply(200, map["status" := "success", "pdf" := PdfName(filename)]);
    }

    /**
     * `POST /queue-job` (main.py:171-205): stage the upload first; with the broker
     * configured, publish the job; without it, hand over to `convert_xlsx` as written,
     * which reads the upload again (as `reread`) and removes both files before the
     * response is sent. A broker error is answered as `{"error"}`, with the staged
     * file left behind. No background task is scheduled on any path.
     */
    method QueueJob(cfg: Config, creds: Credentials, upload: Upload, lo: Option<string>,
                    broker: PublishRun, queue: TaskQueue, reread: Content, engine: Engine)
      returns (r: Response)
      modifies this, queue
      ensures !Authorized(cfg, creds) ==>
        r == Unauthorized && files == old(files) && queue.messages == old(queue.messages)
      ensures Authorized(cfg, creds) && BrokerConfigured(cfg) ==>
        && files == old(files)[upload.filename := upload.content]
        && queue.messages == (if broker.FailedBeforePublish? then old(queue.messages)
                              else old(queue.messages) + [QueuedEnvelope(upload.filename, lo)])
        && r == (if broker.Published? then JsonReply(200, map["status" := "queued", "file" := upload.filename])
                 else JsonReply(200, map["error" := broker.error]))
      ensures Authorized(cfg, creds) && !BrokerConfigured(cfg) ==>
        var run := engine(Command(Join(TmpDir, upload.filename), lo));
        && queue.messages == old(queue.messages)
        && files == old(files) - {upload.filename, OutputName(upload.filename)}
        && r == ConvertReply(upload.filename, run)
        && (run.exitCode == 0 ==> r.FileReply? && r.name !in files)
    {
      var rejection := VerifyCredentials(cfg.printerUser, cfg.printerPass, creds);
      if rejection.Some? {
        r := rejection.value;
        return;
      }
      files := files[upload.filename := upload.content];
      if !BrokerConfigured(cfg) {
        r := ConvertUpload(Upload(upload.filename, reread), lo, engine);
        return;
      }
      match broker
      case FailedBeforePublish(e) =>
        r := JsonReply(200, map["error" := e]);
      case FailedOnClose(e) =>
        queue.Publish(QueuedEnvelope(upload.filename, lo));
        r := JsonReply(200, map["error" := e]);
      case Published =>
        queue.Publish(QueuedEnvelope(upload.filename, lo));
        r := JsonReply(200, map["status" := "queued", "file" := upload.filename]);
    }

    // ----- Requests as a client sees them: handler, then sending, then background tasks. -----

    /** check_pdf then sending: the client gets the file's bytes, and the file is gone only afterwards. */
    method FetchPdf(cfg: Config, creds: Credentials, filename: string, delete: bool) returns (d: Delivery)
      modifies this
      ensures Authorized(cfg, creds) && filename in old(files) ==>
        && d == SentFile(old(files)[filename], Some(filename))
        && files == (if delete then old(files) - {filename} else old(files))
      ensures Authorized(cfg, creds) && filename !in old(files) ==>
        d == SentError(404, "PDF not ready", None) && files == old(files)
      ensures !Authorized(cfg, creds) ==> d == SentError(401, "Unauthorized", Some("Basic")) && files == old(files)
    {
      var r, tasks := CheckPdf(cfg, creds, filename, delete);
      d := Send(r, tasks);
    }

    /** Deleting twice answers the same as deleting once and leaves the same store. */
    method DeleteTwice(cfg: Config, creds: Credentials, filename: string) returns (first: Response, second: Response)
      modifies this
      ensures first == second
      ensures Authorized(cfg, creds) ==> files == old(files) - {filename}
      ensures !Authorized(cfg, creds) ==> files == old(files)
    {
      first := DeleteFile(cfg, creds, filename);
      second := DeleteFile(cfg, creds, filename);
    }

    /**
     * `POST /convert` as written, sent: on a successful conversion the response names
     * a file that the `finally` clause has already removed.
     */
    method ServeConvertXlsx(cfg: Config, creds: Credentials, upload: Upload, lo: Option<string>, engine: Engine)
      returns (d: Delivery)
      modifies this
      ensures Authorized(cfg, creds) && engine(Command(Join(TmpDir, upload.filename), lo)).exitCode == 0 ==>
        d == FileVanished(OutputName(upload.filename))
      ensures Authorized(cfg, creds) && engine(Command(Join(TmpDir, upload.filename), lo)).exitCode != 0 ==>
        d == SentJson(200, map["error" := EngineFailure(engine(Command(Join(TmpDir, upload.filename), lo)).stderr)])
      ensures Authorized(cfg, creds) ==> files == old(files) - {upload.filename, OutputName(upload.filename)}
      ensures !Authorized(cfg, creds) ==> d == SentError(401, "Unauthorized", Some("Basic")) && files == old(files)
    {
      var r := ConvertXlsx(cfg, creds, upload, lo, engine);
      d := Send(r, []);
    }

    /**
     * `POST /convert` corrected, sent: the client gets the engine's PDF, or the error
     * carrying stderr, and afterwards neither the input nor the output is left.
     */
    method ServeConvertXlsxDeferred(cfg: Config, creds: Credentials, upload: Upload, lo: Option<string>,
                                    engine: Engine)
      returns (d: Delivery)
      modifies this
      ensures Authorized(cfg, creds) ==>
        var run := engine(Command(Join(TmpDir, upload.filename), lo));
        && d == (if run.exitCode == 0 then SentFile(run.pdf, Some(PdfName(upload.filename)))
                 else SentJson(200, map["error" := EngineFailure(run.stderr)]))
        && files == old(files) - {upload.filename, OutputName(upload.filename)}
      ensures !Authorized(cfg, creds) ==> d == SentError(401, "Unauthorized", Some("Basic")) && files == old(files)
    {
      ghost var before := files;
      var r, tasks := ConvertXlsxDeferred(cfg, creds, upload, lo, engine);
      if Authorized(cfg, creds) {
        CleanedAfterStaging(before, files, upload.filename, OutputName(upload.filename));
      }
      d := Send(r, tasks);
    }
  }
}
