/** The reply sent back to Slack: a JSON object with a response type, a
    headline and a list of attachments, or (for one command) a raw body. */
module Slack {

  datatype Attachment = Attachment(text: string)

  datatype Response = Response(responseType: string, text: string, attachments: seq<Attachment>)

  /** What the handler writes: a JSON response built by MkSlackResp, or a raw
      text body written directly to the writer. */
  datatype Reply = Json(resp: Response) | Raw(body: string)

  const InChannel := "in_channel"

  /** The texts of a list of attachments, in order. */
  function Texts(attachments: seq<Attachment>): (r: seq<string>)
    ensures |r| == |attachments|
    ensures forall i :: 0 <= i < |r| ==> r[i] == attachments[i].text
  {
    if attachments == [] then [] else [attachments[0].text] + Texts(attachments[1..])
  }

  /** A reply is an in-channel JSON message with this headline and exactly
      these attachment texts, in this order. */
  ghost predicate Says(reply: Reply, headline: string, details: seq<string>)
  {
    && reply.Json?
    && reply.resp.responseType == InChannel
    && reply.resp.text == headline
    && Texts(reply.resp.attachments) == details
  }

  /** `mkSlackResp`: one attachment per text, in the same order, sent in
      channel. */
  method MkSlackResp(text: string, texts: seq<string>) returns (resp: Response)
    ensures Says(Json(resp), text, texts)
  {
    var attachments: seq<Attachment> := [];
    for k := 0 to |texts|
      invariant |attachments| == k
      invariant forall i :: 0 <= i < k ==> attachments[i].text == texts[i]
    {
      attachments := attachments + [Attachment(texts[k])];
    }
    resp := Response(InChannel, text, attachments);
    assert Texts(attachments) == texts;
  }
}
