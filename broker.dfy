/**
 * The durable task queue between gateway and worker. Publishing appends a message;
 * consuming with `auto_ack=True` (pdf-worker/worker.py:71) takes the head message
 * away as it is delivered, before the worker has processed it.
 */
module Broker {
  import opened Wrappers
  import opened JsonText

  /** The queue name both sides use (pdf-printer/app/main.py:191, pdf-worker/worker.py:9). */
  const JobQueue: string := "pdf_jobs"
  /** `delivery_mode=2`: a persistent message. */
  const Persistent: int := 2

  datatype Envelope = Envelope(routingKey: string, body: Document, deliveryMode: int)

  /** The `pdf_jobs` queue as the broker holds it: the messages waiting, oldest first. */
  class TaskQueue {
    var messages: seq<Envelope>

    /** `queue_declare` of a queue that does not exist yet: it starts empty. */
    constructor ()
      ensures messages == []
    {
      messages := [];
    }

    /** `basic_publish`: the message joins the tail. */
    method Publish(e: Envelope)
      modifies this
      ensures messages == old(messages) + [e]
    {
      messages := messages + [e];
    }

    /** Delivery with automatic acknowledgement: the head is handed out and forgotten at once. */
    method Take() returns (e: Option<Envelope>)
      modifies this
      ensures old(messages) == [] ==> e == None && messages == []
      ensures old(messages) != [] ==> e == Some(old(messages)[0]) && messages == old(messages)[1..]
    {
      if messages == [] {
        e := None;
      } else {
        e := Some(messages[0]);
        messages := messages[1..];
      }
    }
  }
}
