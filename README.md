# PDF conversion system: staging-store lifecycle and job dispatch

This project models the coordination core of a spreadsheet-to-PDF service and proves properties of that model. The service has two parts:

- **The gateway** (`pdf-printer/app/main.py`) is an HTTP service. It stages uploads in a shared directory and converts them with a headless LibreOffice. It either converts at once or publishes a job on the `pdf_jobs` queue.
- **The worker** (`pdf-worker/worker.py`) consumes that queue and calls the gateway's `/convert-in-shared-dir` endpoint for each job.

The shared directory is one store that both sides see. The gateway mounts it at `/app/shared` and the worker at `/shared`. The model keys it by file name: `map<string, Content>`.

Modules:

- `Naming`: Python's `str.replace`, `os.path.join` and `os.path.basename`. Also the output name, a copy of the input name with every `".xlsx"` replaced by `".pdf"`.
- `Conversion`: the LibreOffice argv. The engine is an oracle `seq<string> -> EngineRun` that returns an exit code, stderr and the PDF bytes.
- `JsonText`: the JSON scalars of a queue message, Python truthiness, and `json.dumps`. It includes a decoder proved to invert the string escaping.
- `Http`: the responses a handler returns, and what the framework does with them. A file response is read from the store only when it is sent. Background tasks run after that, in order.
- `Broker`: the durable queue, as a class over a `seq` of messages. `Publish` appends a message. `Take` is delivery with `auto_ack=True`: it removes the head at once.
- `Gateway`: the class `StagingStore`, with one method per handler: `DeleteFile`, `GetFile`, `CheckPdf`, `ConvertXlsx`, `ConvertInSharedDir` and `QueueJob`. Each method also applies the credential check first.
- `Worker`: `process_message` as a guard chain (`Decide`), the form it posts (`Payload`) and the classification of the reply (`Classify`). Also the auto-ack consumer (`DeliverNext`, `ConsumeAll`).
- `Pipeline`: lemmas and a method that connect the two sides.

Oracles are parameters of the methods:

- the engine run;
- how the broker round trip ends (`Published`, `FailedBeforePublish`, `FailedOnClose`);
- the upload bytes, and what a second read of the upload returns;
- the gateway's reply to the worker's POST.

Where the code departs from what its own comments announce, the model follows the code:

- **Broker outage.** The route's heading comment (main.py:170) announces the queue as optional, with a fallback to `/convert`. In the code, the fallback happens only when one of `RABBITMQ_HOST`, `RABBITMQ_USER` or `RABBITMQ_PASS` is empty (main.py:184). A broker exception is answered as `{"error": ...}`, and the staged file stays in the store (main.py:203-205).

Observations proved about the code as written:

- **Only 200 is success.** The worker treats every status other than 200 as a failure, other 2xx statuses included (worker.py:48-55, `Worker.Classify`).
- **Default logins differ.** With every setting at its default, the worker logs in as `user`/`password`, while the gateway accepts only `admin`/`password` (`Pipeline.DefaultCredentialsRejected`).
- **Engine failures read as warnings.** `convert_in_shared_dir` answers an engine failure with status 200 and an `"error"` body. The worker reads that as "successful, but no file name returned" (`Pipeline.SharedDirAnswersClassified`).
- **Options are quoted twice.** The worker sends a string `lo_options` JSON-quoted. The export filter built on the queued path is therefore never the one built on the direct path for the same options (`Pipeline.QueuedJobRequest`).
- **The answer can name a file just removed.** For a name without `".xlsx"` and without '/', the `"pdf"` value that `convert_in_shared_dir` answers is the input name itself. With `delete_original` set, that is the file the handler has just removed (`Gateway.StagingStore.ConvertInSharedDir`, last ensures). This holds whatever file the engine writes.

## Model

| member | source | states |
|---|---|---|
| `Naming.ReplaceAll` | pdf-printer/app/main.py:235 | Python `str.replace`: with no occurrence the result is the input; a shorter replacement strictly shortens a string that has an occurrence; no character appears that was in neither the input nor the replacement |
| `Naming.OutputName` | pdf-printer/app/main.py:235 | the derived output name equals the input name exactly when the input holds no ".xlsx", and no ".xlsx" is left in it |
| `Naming.NoXlsxRemains` | pdf-printer/app/main.py:235 | for every input, the replacement leaves no ".xlsx" anywhere in its result, including none formed across a replaced part |
| `Naming.ReplacedPrefix` | pdf-printer/app/main.py:235 | a start of the replaced name that holds no '.' is also the start of the original name, because a replacement only writes ".pdf" |
| `Naming.OutputNameOfXlsx` | pdf-printer/app/main.py:235 | a name ending in ".xlsx" has ".pdf" in place of that ending, after the replacements in the stem |
| `Naming.ReportExample` | pdf-printer/app/main.py:235 | "report.xlsx" becomes "report.pdf" |
| `Naming.EveryOccurrenceExample` | pdf-printer/app/main.py:275 | every occurrence is replaced: "a.xlsx.xlsx" becomes "a.pdf.pdf" |
| `Naming.OtherExtensionExample` | pdf-printer/app/main.py:275 | a name without ".xlsx" ("report.csv") is returned unchanged |
| `Naming.OutputPathInDir` | pdf-printer/app/main.py:234-235 | replacing on the whole path `join(TMP_DIR, name)` gives the path of the replaced name, so output files can be keyed by name |
| `Naming.Join` | pdf-printer/app/main.py:234 | `os.path.join`, as used at main.py:147, :161, :179, :214, :234, :274 and worker.py:28: an absolute name replaces the directory; otherwise the result starts with the directory, ends with the name, and has exactly one '/' added between them when the directory is non-empty and does not end in '/'; when the directory is empty or ends in '/', the result is the directory followed by the name |
| `Naming.Basename` | pdf-printer/app/main.py:303 | `os.path.basename`: the result holds no '/', and a path without '/' is its own base name |
| `Naming.PdfName` | pdf-printer/app/main.py:303 | the `"pdf"` value answered by convert_in_shared_dir is the output name whenever the input name holds no '/' |
| `Conversion.OptionsGiven` | pdf-printer/app/main.py:246 | `if lo_options:` (also main.py:282): the options count as given unless the field is absent (None) or empty |
| `Conversion.Target` | pdf-printer/app/main.py:246-247 | the `--convert-to` target is "pdf" exactly when no options are given; otherwise the engine reads the given options back from it |
| `Conversion.Command` | pdf-printer/app/main.py:242-250 | the argv is the seven words libreoffice, --headless, --convert-to, the target, the input path, --outdir and the staging directory; the target is "pdf" when no options are given, and otherwise the Calc export filter followed by the options, which the engine reads back |
| `Conversion.EngineFailure` | pdf-printer/app/main.py:253-254 | the error text ends with the engine's stderr verbatim |
| `Http.VerifyCredentials` | pdf-printer/app/main.py:54-62 | a request passes exactly when both the user name and the password match; otherwise it gets 401 with a Basic challenge |
| `Http.Without` | pdf-printer/app/main.py:264-265 | removing names where present leaves every other file with its contents |
| `Http.Deliver` | pdf-printer/app/main.py:218-224 | a file response sends the file's current contents, or is a server error if the file is missing |
| `Http.AfterTasks` | pdf-printer/app/main.py:220-221 | background tasks only remove files; a `Remove` of a missing file raises, and the tasks after it do not run, so the store stays as it was; a `Remove` that succeeds, or a clean-up, leaves none of its names behind |
| `JsonText.Field` | pdf-worker/worker.py:20-22 | `dict.get`: an absent key reads as null |
| `JsonText.Truthy` | pdf-worker/worker.py:24 | Python truthiness, as at worker.py:24, :37 and :39: exactly None, False, 0 and "" are falsy |
| `JsonText.Decimal` | pdf-worker/worker.py:40 | `str` of an integer: non-empty, it starts with '-' exactly when the integer is negative, and the digits (after the '-') denote its absolute value |
| `JsonText.PyStr` | pdf-worker/worker.py:40-46 | `str(delete_original)` as the form carries it: a string is itself, booleans are "True"/"False", an integer its decimal text, and a truthy value never gives the empty field |
| `JsonText.Dumps` | pdf-worker/worker.py:38 | `json.dumps` of a string adds surrounding quotes, and its inside decodes back to the string |
| `JsonText.UnescapeEscape` | pdf-worker/worker.py:38 | decoding the escaped text of any string, including characters outside the BMP, yields that string |
| `Broker.TaskQueue.Publish` | pdf-printer/app/main.py:192-197 | a published message joins the tail of the queue |
| `Broker.TaskQueue.Take` | pdf-worker/worker.py:71 | delivery with automatic acknowledgement hands out the head and removes it at once |
| `Gateway.BrokerConfigured` | pdf-printer/app/main.py:184 | the broker path is skipped exactly when one of the host, user or password settings is empty; with the defaults it is taken |
| `Gateway.QueuedBody` | pdf-printer/app/main.py:195 | the job body has exactly the keys xlsx and lo_options: the file name, and the options or null |
| `Gateway.QueuedEnvelope` | pdf-printer/app/main.py:191-197 | jobs go to the pdf_jobs queue with delivery mode 2 |
| `Gateway.ConvertReply` | pdf-printer/app/main.py:252-261 | on exit code 0, a file response for the output, downloaded under its base name; otherwise a 200 JSON whose only key is "error", carrying stderr |
| `Gateway.StagingStore.Send` | pdf-printer/app/main.py:218-224 | the client gets the response read from the store as it was after the handler; only then do the background tasks change the store |
| `Gateway.StagingStore.RemoveIfPresent` | pdf-printer/app/main.py:263-265 | the finally loop removes each listed name that exists and nothing else |
| `Gateway.StagingStore.DeleteFile` | pdf-printer/app/main.py:142-153 | removes the named file if present; the answer is the redirect to /pdfs in both cases; unauthorised requests change nothing |
| `Gateway.StagingStore.DeleteTwice` | pdf-printer/app/main.py:147-153 | a repeated delete answers the same and leaves the same store as a single one |
| `Gateway.StagingStore.GetFile` | pdf-printer/app/main.py:156-165 | an existing file is served; otherwise a JSON "File not found" |
| `Gateway.StagingStore.CheckPdf` | pdf-printer/app/main.py:208-224 | 404 "PDF not ready" when absent; otherwise the file, with its removal scheduled as a background task only when delete is set; the handler itself changes nothing |
| `Gateway.StagingStore.FetchPdf` | pdf-printer/app/main.py:208-224 | the client receives the file's contents even with delete set, and the file is removed only after that; a missing file gets 404 and an unauthorised request 401, with the store unchanged |
| `Gateway.StagingStore.RunEngine` | pdf-printer/app/main.py:282-295 | the engine is run on the argv of `Conversion.Command`; on exit code 0 its PDF is stored under the output name, otherwise nothing changes |
| `Gateway.StagingStore.ConvertUpload` | pdf-printer/app/main.py:233-265 | whatever the engine does, afterwards neither the input nor the output name is in the store, and no other file changed given that the engine writes only the output name; the answer is `ConvertReply` of the engine run |
| `Gateway.StagingStore.ConvertXlsx` | pdf-printer/app/main.py:227-265 | `POST /convert` as written: the credential check, then `ConvertUpload` |
| `Gateway.StagingStore.ServeConvertXlsx` | pdf-printer/app/main.py:227-265 | as written, a successful conversion sends a response for a file that is no longer there; an engine failure sends the error carrying stderr; an unauthorised request gets 401 with the store unchanged |
| `Gateway.StagingStore.ConvertUploadDeferred` | pdf-printer/app/main.py:233-261 | corrected conversion body: the input and, on success, the PDF are staged; the cleanup of both is left to one background task |
| `Gateway.StagingStore.ConvertXlsxDeferred` | pdf-printer/app/main.py:227-261 | corrected `POST /convert`: the credential check, then `ConvertUploadDeferred` |
| `Gateway.StagingStore.ServeConvertXlsxDeferred` | pdf-printer/app/main.py:257-265 | corrected, the client gets the PDF or the error carrying stderr, and afterwards neither input nor output remains and no other file changed |
| `Gateway.StagingStore.ConvertInSharedDir` | pdf-printer/app/main.py:267-307 | 404 with the store unchanged when the input is missing; an engine failure answers the error with the store unchanged; on success the output is kept, the input is removed only when delete_original is non-zero, and the answer is success with the PDF's base name; without ".xlsx" or '/' in the name, the success answer names the input file, which delete_original has just removed |
| `Gateway.StagingStore.QueueJob` | pdf-printer/app/main.py:171-205 | the upload is staged first; with the broker configured the job is published (also when closing raises) and "queued" is answered, while a broker error answers `{"error"}` and keeps the staged file; without configuration `convert_xlsx` as written runs on the re-read upload: both files are removed, and a successful answer names the removed PDF |
| `Worker.Payload` | pdf-worker/worker.py:34-40 | the form always has the file name; lo_options is present only when truthy and is then its JSON encoding; delete_original is present only when truthy; there are no other keys |
| `Worker.Decide` | pdf-worker/worker.py:19-46 | a post happens exactly when the body is an object whose xlsx is a non-empty string naming a file in the shared store; a falsy xlsx is dropped; a non-empty string naming a file missing from the shared store is dropped with that name; the handler raises exactly when the body is not an object or its xlsx is truthy but not a string; the request carries the configured URL and login |
| `Worker.Classify` | pdf-worker/worker.py:48-55 | 200 with a "pdf" key is success with that name; 200 without it is a warning; any other status is a failure; none of these drops or requeues |
| `Worker.Handled` | pdf-worker/worker.py:17-58 | a drop or an exception makes no HTTP call; a post ends in the classification of the gateway's reply |
| `Worker.ProcessMessage` | pdf-worker/worker.py:17-58 | the straight-line handler posts exactly the request `Decide` names, or none, and always returns normally |
| `Worker.DeliverNext` | pdf-worker/worker.py:71 | each delivery removes the head message before processing, so the queue shrinks by one even when the worker crashes mid-way |
| `Worker.ConsumeAll` | pdf-worker/worker.py:61-73 | the consumer handles every waiting message once, in order, and puts none back |
| `Pipeline.AsReply` | pdf-worker/worker.py:48-49 | a sent JSON answer reaches the worker with its status and body |
| `Pipeline.QueuedJobRequest` | pdf-worker/worker.py:20-40 | a job from queue_job is dropped when its name is empty or its file is gone; otherwise the request names the file, never asks to delete the original, and carries the options only when given, JSON-quoted, so that the export filter differs from the direct path's |
| `Pipeline.DefaultCredentialsRejected` | pdf-worker/worker.py:14-15 | with the default settings, the worker's login is not accepted by the gateway (whose defaults are at main.py:22-23) |
| `Pipeline.SharedDirAnswersClassified` | pdf-worker/worker.py:48-55 | the worker reads the gateway's success answer as success with the PDF name, an engine failure (200 with "error") as a warning, and 404 and 401 as failures |
| `Pipeline.QueueThenConsume` | pdf-printer/app/main.py:178-199 | with the broker configured and the publish succeeding, the gateway answers "queued" with the file name and the store holds the staged upload; every job waiting before is handled first, in order, and the new job once, last; because the file was staged before publishing, a non-empty name leads to a post |

## Left out

- The LibreOffice subprocess (main.py:252, :292) is an oracle. On exit code 0 the model stores the PDF under the derived output name, which is where the code expects it. LibreOffice replaces the input's last extension with ".pdf", or appends ".pdf" when there is none: `a.xlsx.xlsx` gives `a.xlsx.pdf`, and `report` gives `report.pdf`. So the two names agree only for names whose only ".xlsx" is a trailing one. That naming rule is not modelled.
- `Gateway.StagingStore.ConvertUpload`, `ConvertInSharedDir`: "no other file changed" and "the output is kept" rest on the engine writing exactly the derived output name. For a name such as `report.csv` the real engine writes `report.pdf`, which the model does not create, and which the code then neither removes nor names in its answer.
- Filesystem details are not modelled: directory creation and permissions (main.py:43-46), directories as opposed to files (`os.path.isfile`, `os.path.exists`), I/O errors when writing an upload, and file bytes (contents are an abstract `seq<bv8>`). The store is keyed by the name the client gives. A name that is absolute or contains ".." leaves the directory in the real system; only `Naming.Join` models that case.
- The upload stream is not modelled. The fallback in queue_job reads the upload a second time (main.py:202, :239) after it was consumed at :181. What that read returns depends on the web framework, so it is a parameter (`reread`).
- The broker connection, declaration and publish mechanics (main.py:185-198, :105-110; worker.py:63-73) are not modelled. The broker round trip is an oracle with three endings.
- The model has one job queue. The worker's queue name is configurable (`QUEUE_NAME`, worker.py:9) while the gateway always publishes to `pdf_jobs` (main.py:191-194). The model assumes the two agree. That the queue is declared durable, so that its messages outlive a broker restart, is not modelled.
- The worker's `requests.post` (worker.py:42-46) is an oracle over the request. How the form is encoded on the wire is not modelled. Neither is how the gateway parses `lo_options` and `delete_original` from it. So the worker's request and the parameters of `ConvertInSharedDir` are not linked by a parsing step.
- JSON values in messages are scalars only: null, booleans, integers and strings. Arrays, objects and floats are not modelled. The decoder rejects lone surrogates, which Python would accept; it is used only to prove the escaping invertible.
- The reconnect loop, its five-second sleep and its retry timing (worker.py:74-76) are not modelled, because they are about liveness and timing. `ConsumeAll` drains the messages present when it starts, where the real consumer would then wait for more.
- `Worker.ConsumeAll` reads the shared directory as a fixed set. The effect of each conversion on the store is not fed back to later messages.
- Concurrent requests racing on one file name, and the scheduling of background tasks, are not modelled. Only the order "send, then run tasks" is.
- `secrets.compare_digest` is modelled as plain equality: the constant-time comparison is not.
- The routes `/`, `/pdfs`, `/fonts`, `/queue-stats`, `/hello` and `/upload-font` are not modelled (main.py:65-139), and neither are templates, README rendering, `fc-cache`, logging and `print`.

## Findings

| source | as written | input that shows it | evidently intended | confidence | as-written member | corrected member |
|---|---|---|---|---|---|---|
| pdf-printer/app/main.py:257-265 | `convert_xlsx` returns `FileResponse(output_path)`, which is read only when it is sent after the handler returns. Its `finally` clause removes `output_path` before that | any upload whose conversion succeeds, e.g. `report.xlsx` with exit code 0: the response names `report.pdf`, which is already gone | send the PDF first, then remove both staged files, the way check_pdf defers its removal to a background task | not executed | `Gateway.StagingStore.ServeConvertXlsx` | `Gateway.StagingStore.ServeConvertXlsxDeferred` |

The queue_job fallback (main.py:200-202) calls `convert_xlsx` and so has the same fault. `Gateway.StagingStore.QueueJob` models it as written: its last ensures states that a successful fallback answers with a file response whose file is no longer in the store.
