/** The vision/text model the tools talk to. Rendered page images are opaque
    values; the model is an object whose only observable behaviour is the list of
    requests it has been sent and the reply it gives to each. */
module Oracles {
  import opened Wrappers

  /** A page rendered by the rasterizer; its content is never inspected. */
  datatype Image = Image(pixels: seq<int>)

  /** What the rasterizer (`convert_from_path`) yields: the page images in order. */
  type Raster = Result<seq<Image>>

  /** One request to the model. The instruction text of each kind is a fixed
      constant of the tool that sends it, so the kind stands for it. */
  datatype Request =
    | Transcribe(page: Image)        // extract all the text of a page image
    | IdentifyTables(page: Image)    // return the page's tables as markdown, or "No tables found"
    | DescribeImage(page: Image)     // describe an image in detail
    | Organize(prompt: string)       // merge the extracted elements into one document

  /** The model's behaviour: the reply to the n-th request it receives
      (counting from 0), which may depend on the request; `Err` when the call raises. */
  type Reply = (nat, Request) -> Result<string>

  class ChatModel {
    const reply: Reply
    /** Every request sent so far, oldest first. */
    var log: seq<Request>

    constructor (reply: Reply)
      ensures this.reply == reply && log == []
    {
      this.reply := reply;
      log := [];
    }

    /** `llm.invoke(messages)`: records the request and returns its reply. */
    method Invoke(q: Request) returns (r: Result<string>)
      modifies this
      ensures log == old(log) + [q]
      ensures r == reply(|old(log)|, q)
    {
      r := reply(|log|, q);
      log := log + [q];
    }
  }

  /** The replies a model with behaviour `reply` gives to `qs` when the first of
      them is its request number `base`. */
  function Replies(reply: Reply, base: nat, qs: seq<Request>): (rs: seq<Result<string>>)
    ensures |rs| == |qs|
  {
    seq(|qs|, k requires 0 <= k < |qs| => reply(base + k, qs[k]))
  }

  /** The requests of `qs` that a loop stopping at the first failing reply sends. */
  function SentUntilFailure(reply: Reply, base: nat, qs: seq<Request>): (sent: seq<Request>)
    ensures |sent| <= |qs|
  {
    qs[..Attempts(Replies(reply, base, qs))]
  }
}
