/** The webhook relay: past the credential gate it forwards a payload to the
    webhook configured for a channel, creating a message (POST) when no `id`
    is given and editing message `id` (PATCH) otherwise, then passes the
    service's reply back, propagating an error status of 300 or more. */
module PostWebhook {
  import opened Php
  import opened Http
  import Auth

  datatype Verb = Post | Patch

  /** The request handed to the HTTP transport: method, URL and the payload
      (sent JSON-encoded). */
  datatype Outgoing = Outgoing(verb: Verb, url: string, content: Value)

  /** What the transport gives back: false, or the body read and the first
      line of the response headers. */
  datatype Reply = NoReply | Reply(body: string, statusLine: string)

  /** Either a request to send, or the response that ends the script first. */
  datatype Plan = Send(request: Outgoing) | Stop(response: Response)

  const Forum := "forum"

  /** The URL for a create (`id` empty) or for an edit of message `id`; a forum
      channel edits the message inside its own thread. */
  function TargetUrl(webhookUrl: string, channel: string, id: Value, idText: string): string
  {
    if Empty(id) then webhookUrl + "?wait=true"
    else if channel == Forum then webhookUrl + "/messages/" + idText + "?thread_id=" + idText + "&wait=true"
    else webhookUrl + "/messages/" + idText + "?wait=true"
  }

  /** The guards and the request built from the channel, the webhook
      configuration and the decoded body. */
  function BuildRequest(channel: string, webhooks: Value, data: Value): (p: Plan)
    ensures p.Stop? ==> p.response.status == 400 || p.response.status == 500
    ensures p.Send? ==> && Index(webhooks, channel).Some? && !Empty(Index(webhooks, channel).value)
                        && !Empty(Property(data, "payload"))
                        && p.request.content == Property(data, "payload")
  {
    match Index(webhooks, channel)
    // indexing an object configuration raises an uncaught Error
    case None => Stop(Response(500, NoBody))
    case Some(webhookUrl) =>
    if Empty(webhookUrl) then Stop(Exit(400, "No webhook URL found for channel: " + channel))
    else
      var id := Property(data, "id");
      var payload := Property(data, "payload");
      if Empty(payload) then Stop(Exit(400, "Incoming value was empty"))
      else
        var urlText := Interpolate(webhookUrl);
        var idText := if Empty(id) then Some("") else Interpolate(id);
        // interpolating an object raises an uncaught Error
        if urlText.None? || idText.None? then Stop(Response(500, NoBody))
        else
          Send(Outgoing(if Empty(id) then Post else Patch,
                        TargetUrl(urlText.value, channel, id, idText.value),
                        payload))
  }

  predicate IsSpace(c: char) {
    c == ' ' || c == '\t' || c == '\n' || c == '\U{B}' || c == '\U{C}' || c == '\r'
  }

  /** The end of the run of non-space characters starting at `j` (what `\S*`
      matches greedily). */
  function RunEnd(s: string, j: nat): (e: nat)
    requires j <= |s|
    ensures j <= e <= |s|
    ensures e < |s| ==> IsSpace(s[e])
    ensures forall k :: j <= k < e ==> !IsSpace(s[k])
    decreases |s| - j
  {
    if j == |s| || IsSpace(s[j]) then j else RunEnd(s, j + 1)
  }

  /** `/HTTP\/\S*\s(\d{3})/` matches at position `i` with its `\s` at `e`:
      "HTTP/", a run of non-space characters up to `e`, a space at `e`, then
      three digits. */
  predicate MatchAt(s: string, i: int, e: int) {
    && OccursAt(s, "HTTP/", i) && i + 5 <= e && e + 4 <= |s|
    && (forall k :: i + 5 <= k < e ==> !IsSpace(s[k]))
    && IsSpace(s[e]) && IsDigit(s[e + 1]) && IsDigit(s[e + 2]) && IsDigit(s[e + 3])
  }

  /** The number the three captured digits after `e` spell, as `intval` reads
      them. */
  function CodeValue(s: string, e: int): nat
    requires 0 <= e && e + 4 <= |s| && IsDigit(s[e + 1]) && IsDigit(s[e + 2]) && IsDigit(s[e + 3])
  {
    100 * DigitValue(s[e + 1]) + 10 * DigitValue(s[e + 2]) + DigitValue(s[e + 3])
  }

  /** No match starts in positions `i` up to (not including) `j`. */
  ghost predicate NoMatchBetween(s: string, i: int, j: int) {
    forall k, e :: i <= k < j ==> !MatchAt(s, k, e)
  }

  /** An attempt of the pattern at position `i`. Since `\S*` and `\s` cannot
      share a character, the only candidate for `\s` is the first space after
      "HTTP/", so there is at most one match at `i`. */
  function CodeAt(s: string, i: nat): (r: Option<nat>)
    requires i <= |s|
    ensures r.Some? ==> r.value < 1000
    ensures r.Some? ==> exists e :: MatchAt(s, i, e) && r.value == CodeValue(s, e)
    ensures forall e :: MatchAt(s, i, e) ==> r == Some(CodeValue(s, e))
  {
    if !OccursAt(s, "HTTP/", i) then None
    else
      var e := RunEnd(s, i + 5);
      if e + 4 <= |s| && IsSpace(s[e]) && IsDigit(s[e + 1]) && IsDigit(s[e + 2]) && IsDigit(s[e + 3]) then
        assert MatchAt(s, i, e);
        Some(CodeValue(s, e))
      else None
  }

  /** The leftmost match at or after position `i`: none exactly when no
      position from `i` on matches, otherwise the code of the first one. */
  function FirstCode(s: string, i: nat): (r: Option<nat>)
    requires i <= |s|
    ensures r.Some? ==> r.value < 1000
    ensures r.None? <==> NoMatchBetween(s, i, |s| + 1)
    ensures forall j, e :: i <= j && MatchAt(s, j, e) && NoMatchBetween(s, i, j) ==> r == Some(CodeValue(s, e))
    decreases |s| - i
  {
    match CodeAt(s, i)
    case Some(c) => Some(c)
    case None => if i == |s| then None else FirstCode(s, i + 1)
  }

  /** `intval(array_pop($match))`: the three digits of the leftmost match, or 0
      (`intval(null)`) without one. */
  function StatusCode(statusLine: string): (code: nat)
    ensures code < 1000
    ensures NoMatchBetween(statusLine, 0, |statusLine| + 1) ==> code == 0
    ensures forall j, e :: MatchAt(statusLine, j, e) && NoMatchBetween(statusLine, 0, j)
                           ==> code == CodeValue(statusLine, e)
  {
    match FirstCode(statusLine, 0)
    case Some(c) => c
    case None => 0
  }

  /** The answer to the client once the transport has replied: a text
      message exactly when there is no usable reply, otherwise the reply's body
      with a status between 200 and 999. */
  function Answer(reply: Reply): (r: Response)
    ensures r.body.Text? <==> reply.NoReply? || EmptyString(reply.body)
    ensures !r.body.Text? ==> 200 <= r.status < 1000 && r.body == JsonRelay(reply.body)
  {
    if reply.NoReply? || EmptyString(reply.body) then Exit(400, "Failed to get response.")
    else
      var code := StatusCode(reply.statusLine);
      Response(if code >= 300 then code else 200, JsonRelay(reply.body))
  }

  /** The whole script: the gate, the guards, at most one request, the answer. */
  function Relay(req: Request, account: Value, webhooks: Value, sha256: string -> string,
                 send: Outgoing -> Reply): (x: Exchange<Outgoing>)
    ensures |x.calls| <= 1
  {
    match Auth.Check(req, account, sha256)
    case Halt(r) => Exchange([], r)
    case Proceed =>
      match BuildRequest(QueryParam(req.query, "channel", Forum), webhooks, req.body)
      case Stop(r) => Exchange([], r)
      case Send(o) => Exchange([o], Answer(send(o)))
  }

  /** Without a configured URL for the channel the answer is 400 naming the
      channel, whatever the body, and nothing is sent. */
  lemma MissingWebhookRejected(channel: string, webhooks: Value, data1: Value, data2: Value)
    requires Index(webhooks, channel).Some? && Empty(Index(webhooks, channel).value)
    ensures BuildRequest(channel, webhooks, data1) == BuildRequest(channel, webhooks, data2)
      == Stop(Exit(400, "No webhook URL found for channel: " + channel))
  {
  }

  /** An empty payload (missing, null, "", "0", 0, false or []) is answered with
      400 and nothing is sent. */
  lemma EmptyPayloadRejected(channel: string, webhooks: Value, data: Value)
    requires Index(webhooks, channel).Some? && !Empty(Index(webhooks, channel).value)
    requires Empty(Property(data, "payload"))
    ensures BuildRequest(channel, webhooks, data) == Stop(Exit(400, "Incoming value was empty"))
  {
  }

  /** The method is POST exactly when `id` is empty, and the payload is what is
      sent. */
  lemma PostIffNoId(channel: string, webhooks: Value, data: Value)
    requires BuildRequest(channel, webhooks, data).Send?
    ensures var o := BuildRequest(channel, webhooks, data).request;
      && (o.verb == Post <==> Empty(Property(data, "id")))
      && o.content == Property(data, "payload") && !Empty(o.content)
  {
  }

  /** The target URL for a string webhook URL: create with `?wait=true`; an edit
      of message `id` in a forum thread also names the thread; an edit in any
      other channel does not. */
  lemma TargetUrlShapes(channel: string, webhooks: Value, data: Value, url: string)
    requires Index(webhooks, channel) == Some(Str(url)) && !EmptyString(url)
    requires !Empty(Property(data, "payload"))
    requires !Property(data, "id").Obj?
    ensures BuildRequest(channel, webhooks, data).Send?
    ensures var o := BuildRequest(channel, webhooks, data).request;
      var id := Property(data, "id");
      var idText := Interpolate(id).value;
      && (Empty(id) ==> o.url == url + "?wait=true")
      && (!Empty(id) && channel == Forum ==>
            o.url == url + "/messages/" + idText + "?thread_id=" + idText + "&wait=true")
      && (!Empty(id) && channel != Forum ==> o.url == url + "/messages/" + idText + "?wait=true")
  {
  }

  /** Every target URL starts with the configured URL and ends with
      `wait=true`, so the service always answers with the message. */
  lemma {:induction false} TargetUrlFrame(webhookUrl: string, channel: string, id: Value, idText: string)
    ensures var u := TargetUrl(webhookUrl, channel, id, idText);
      && |u| >= |webhookUrl| + 9
      && u[..|webhookUrl|] == webhookUrl
      && u[|u| - 9..] == "wait=true"
  {
    var u := TargetUrl(webhookUrl, channel, id, idText);
    var query := if Empty(id) then "?"
      else if channel == Forum then "/messages/" + idText + "?thread_id=" + idText + "&"
      else "/messages/" + idText + "?";
    assert u == webhookUrl + query + "wait=true";
    SplitThree(webhookUrl, query, "wait=true");
  }

  /** `RunEnd` stops at the first space. */
  lemma {:induction false} RunEndAt(s: string, j: nat, e: nat)
    requires j <= e < |s| && IsSpace(s[e])
    requires forall k :: j <= k < e ==> !IsSpace(s[k])
    ensures RunEnd(s, j) == e
    decreases e - j
  {
    if j < e {
      RunEndAt(s, j + 1, e);
    }
  }

  /** A well-formed status line "HTTP/<version> <ddd>..." yields the number
      written by its three digits. */
  lemma CanonicalStatusLine(version: string, d1: char, d2: char, d3: char, rest: string)
    requires forall k :: 0 <= k < |version| ==> !IsSpace(version[k])
    requires IsDigit(d1) && IsDigit(d2) && IsDigit(d3)
    ensures StatusCode("HTTP/" + version + " " + [d1, d2, d3] + rest)
      == 100 * DigitValue(d1) + 10 * DigitValue(d2) + DigitValue(d3)
  {
    var s := "HTTP/" + version + " " + [d1, d2, d3] + rest;
    var e := 5 + |version|;
    assert s[..5] == "HTTP/";
    assert OccursAt(s, "HTTP/", 0);
    assert s[e] == ' ' && s[e + 1] == d1 && s[e + 2] == d2 && s[e + 3] == d3;
    assert forall k :: 5 <= k < e ==> s[k] == version[k - 5];
    RunEndAt(s, 5, e);
  }

  /** Without "HTTP/" anywhere in the status line there is no match, which
      reads as 0. */
  lemma {:induction false} NoMatchWithoutHttp(s: string, i: nat)
    requires i <= |s|
    requires !Contains(s, "HTTP/")
    ensures FirstCode(s, i) == None
    decreases |s| - i
  {
    if i < |s| {
      NoMatchWithoutHttp(s, i + 1);
    }
  }

  /** A status line without "HTTP/" leaves the status at 200. */
  lemma NoMatchLeavesStatus(body: string, statusLine: string)
    requires !EmptyString(body)
    requires !Contains(statusLine, "HTTP/")
    ensures Answer(Reply(body, statusLine)) == Response(200, JsonRelay(body))
  {
    NoMatchWithoutHttp(statusLine, 0);
  }

  /** A code of 300 or more is propagated, a lower code leaves the status at
      200; the body is passed through either way. An empty reply is 400. */
  lemma StatusPropagation(reply: Reply)
    ensures reply.NoReply? || EmptyString(reply.body) ==> Answer(reply) == Exit(400, "Failed to get response.")
    ensures reply.Reply? && !EmptyString(reply.body) ==>
      && Answer(reply).body == JsonRelay(reply.body)
      && (StatusCode(reply.statusLine) >= 300 ==> Answer(reply).status == StatusCode(reply.statusLine))
      && (StatusCode(reply.statusLine) < 300 ==> Answer(reply).status == 200)
      && 200 <= Answer(reply).status < 1000
  {
  }

  /** Past the gate and the guards exactly one request is sent and its reply
      decides the answer; when a guard or the gate answers, nothing is sent. */
  lemma AtMostOneRequest(req: Request, account: Value, webhooks: Value, sha256: string -> string,
                         send: Outgoing -> Reply)
    ensures var x := Relay(req, account, webhooks, sha256, send);
      && |x.calls| <= 1
      && (|x.calls| == 1 <==> Auth.Check(req, account, sha256) == Auth.Proceed
                              && BuildRequest(QueryParam(req.query, "channel", Forum), webhooks, req.body).Send?)
      && (|x.calls| == 1 ==> x.calls[0] == BuildRequest(QueryParam(req.query, "channel", Forum), webhooks, req.body).request
                             && x.response == Answer(send(x.calls[0])))
  {
  }

  /** With no channel parameter the relay behaves exactly as for
      `channel=forum`: the forum webhook is used and an edit targets the
      message's own thread. */
  lemma ChannelDefaultsToForum(req: Request, account: Value, webhooks: Value, sha256: string -> string,
                               send: Outgoing -> Reply)
    requires "channel" !in req.query
    ensures Relay(req, account, webhooks, sha256, send)
      == Relay(req.(query := req.query["channel" := Forum]), account, webhooks, sha256, send)
  {
    var req2 := req.(query := req.query["channel" := Forum]);
    Auth.SameHeaderSameGate(req, req2, account, sha256);
  }

  /** A webhook configuration that is an object cannot be indexed: the script
      fails with 500 whatever the channel and the body, and nothing is sent. */
  lemma ObjectConfigFails(channel: string, webhooks: Value, data: Value)
    requires webhooks.Obj?
    ensures BuildRequest(channel, webhooks, data) == Stop(Response(500, NoBody))
  {
  }
}
