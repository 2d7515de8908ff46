/**
  `generateReplyForCompose` (background.js:105-249) from the settings to the
  new compose body: the API-key check, the request with its retry, the
  content check, then the plain-text splice or the HTML splice with its
  string fallback.

  The host calls are parameters: the settings read from storage, the compose
  details, what `stripHtml` leaves of the HTML body (`stripHtml` is not
  modelled; the plain-text body is taken as it is), the parsed HTML body, and
  the service, and whether the host accepts the spliced body. The result is
  the new body, or the error the function throws.
*/
module ReplyCompose {
  import opened Text
  import opened Wrappers
  import opened ReplyRequest
  import opened HtmlSplice
  import ReplyText

  /** The fields of `getComposeDetails` the function reads. */
  datatype ComposeDetails = ComposeDetails(isPlainText: bool, plainTextBody: Option<string>, body: Option<string>)

  /** `DOMParser` applied to the HTML body: the body's children, and what the
      signature, citation-prefix and `blockquote` selectors found in it. */
  datatype ParsedBody = ParsedBody(children: seq<Node>, signature: Found, citePrefix: Found, quote: Found)

  /** A selector that found a child of the body names one that exists. */
  predicate Consistent(p: ParsedBody) {
    && (p.signature.Child? ==> p.signature.index < |p.children|)
    && (p.citePrefix.Child? ==> p.citePrefix.index < |p.children|)
    && (p.quote.Child? ==> p.quote.index < |p.children|)
  }

  /** The errors `generateReplyForCompose` throws. */
  datatype Failure =
    | MissingApiKey
    /** `OpenAI error <status>: ...` */
    | ServiceError(status: int)
    | NoContent

  /** What `setComposeDetails` receives: a plain-text body, or an HTML body as
      the spliced children or as the fallback string (both before the final
      trims of empty leading and trailing markup). */
  datatype Update =
    | PlainTextBody(text: string)
    | HtmlChildren(children: seq<Node>)
    | HtmlText(html: string)

  /** `data?.choices?.[0]?.message?.content?.trim()`, with a missing content
      read as the empty string, which the next check rejects the same way. */
  function ReplyContent(r: Response): string {
    match r.content
    case Some(c) => Trim(c)
    case None => ""
  }

  /** The insertion anchor; a child of the body when it is one of them. */
  function AnchorOf(parsed: ParsedBody): (anchor: Found)
    ensures Consistent(parsed) && anchor.Child? ==> anchor.index < |parsed.children|
  {
    ChooseAnchor(parsed.signature, parsed.citePrefix, parsed.quote, |parsed.children|)
  }

  function ContainerFor(content: string): Node {
    ReplyContainer(ReplyText.Interleaved(ReplyText.ReplyLines(Some(content))))
  }

  /** The HTML body for the reply `content`. The spliced body is given to
      `setComposeDetails` inside the `try`; when `insertBefore` throws, or the
      host rejects that body (`spliceAccepted` is false), the `catch` builds
      the string fallback. */
  function HtmlUpdate(content: string, details: ComposeDetails, parsed: ParsedBody, spliceAccepted: bool): Update
    requires Consistent(parsed)
  {
    var anchor := AnchorOf(parsed);
    if anchor.Deeper? || !spliceAccepted then HtmlText(ReplyText.TextToHtml(Some(content)) + details.body.GetOr(""))
    else HtmlChildren(Spliced(parsed.children, ContainerFor(content), InsertionPoint(parsed.children, anchor)))
  }

  /** The text of the message being replied to: the plain-text body, or what
      `stripHtml` leaves of the HTML body, given as `strippedHtml`. */
  function OriginalText(details: ComposeDetails, strippedHtml: string): string {
    if details.isPlainText then details.plainTextBody.GetOr("") else strippedHtml
  }

  /** The outcome of the whole function. */
  function Outcome(settings: Settings, details: ComposeDetails, prompt: string, strippedHtml: string,
                   parsed: ParsedBody, spliceAccepted: bool, service: Service): Result<Update, Failure>
    requires Consistent(parsed)
  {
    if settings.apiKey == "" then Err(MissingApiKey)
    else
      var resp := FinalResponse(PayloadFor(settings, Messages(prompt, OriginalText(details, strippedHtml))), service);
      if !IsOk(resp) then Err(ServiceError(resp.status))
      else
        var content := ReplyContent(resp);
        if content == "" then Err(NoContent)
        else if details.isPlainText then Ok(PlainTextBody(ReplyText.PlainSplice(content, details.plainTextBody)))
        else Ok(HtmlUpdate(content, details, parsed, spliceAccepted))
  }

  /** `generateReplyForCompose`; `sent` lists the request bodies posted. */
  method GenerateReplyForCompose(settings: Settings, details: ComposeDetails, prompt: string, strippedHtml: string,
                                 parsed: ParsedBody, spliceAccepted: bool, service: Service)
    returns (result: Result<Update, Failure>, sent: seq<Payload>)
    requires Consistent(parsed)
    ensures result == Outcome(settings, details, prompt, strippedHtml, parsed, spliceAccepted, service)
    ensures sent == [] <==> settings.apiKey == ""
    ensures settings.apiKey != "" ==> sent == Requests(PayloadFor(settings, Messages(prompt, OriginalText(details, strippedHtml))), service)
  {
    if settings.apiKey == "" {
      return Err(MissingApiKey), [];
    }
    var originalText := if details.isPlainText then details.plainTextBody.GetOr("") else strippedHtml;
    var messages := Messages(prompt, originalText);
    var payload := BuildPayload(settings, messages);
    var resp;
    resp, sent := PostWithFallback(payload, service);
    if !IsOk(resp) {
      return Err(ServiceError(resp.status)), sent;
    }
    var content := ReplyContent(resp);
    if content == "" {
      return Err(NoContent), sent;
    }
    if details.isPlainText {
      var original := details.plainTextBody.GetOr("");
      var trimmedReply := TrimStart(TrimEnd(content));
      var newBody := trimmedReply + "\n" + TrimStart(original);
      return Ok(PlainTextBody(newBody)), sent;
    }
    var replyHtml := ReplyText.TextToHtml(Some(content));
    var original := details.body.GetOr("");
    var body := new Body(parsed.children);
    var span := ReplyText.CreateReplySpan(Some(content));
    var anchor := ChooseAnchor(parsed.signature, parsed.citePrefix, parsed.quote, |body.children|);
    var inserted := SpliceReply(body, ReplyContainer(span.children), anchor);
    if inserted && spliceAccepted {
      result := Ok(HtmlChildren(body.children));
    } else {
      result := Ok(HtmlText(replyHtml + original));
    }
  }

  // ---------------------------------------------------------------------------
  // Properties of the outcome
  // ---------------------------------------------------------------------------

  /** Each error is thrown exactly in its case: a missing key before
      anything else; a failed final response with its status; an accepted
      response whose content is empty after trimming. */
  lemma OutcomeErrors(settings: Settings, details: ComposeDetails, prompt: string, strippedHtml: string,
                      parsed: ParsedBody, spliceAccepted: bool, service: Service)
    requires Consistent(parsed)
    ensures var o := Outcome(settings, details, prompt, strippedHtml, parsed, spliceAccepted, service);
            var resp := FinalResponse(PayloadFor(settings, Messages(prompt, OriginalText(details, strippedHtml))), service);
            && (o == Err(MissingApiKey) <==> settings.apiKey == "")
            && (o.Err? && o.error.ServiceError? <==> settings.apiKey != "" && !IsOk(resp))
            && (o.Err? && o.error.ServiceError? ==> o.error.status == resp.status)
            && (o == Err(NoContent) <==> settings.apiKey != "" && IsOk(resp) && ReplyContent(resp) == "")
            && (o.Ok? <==> settings.apiKey != "" && IsOk(resp) && ReplyContent(resp) != "")
  {
  }

  /** A plain-text compose gets the trimmed reply, a newline, and the old
      body less its leading whitespace. */
  lemma PlainOutcome(settings: Settings, details: ComposeDetails, prompt: string, strippedHtml: string,
                     parsed: ParsedBody, spliceAccepted: bool, service: Service)
    requires Consistent(parsed) && details.isPlainText
    requires Outcome(settings, details, prompt, strippedHtml, parsed, spliceAccepted, service).Ok?
    ensures var resp := FinalResponse(PayloadFor(settings, Messages(prompt, OriginalText(details, strippedHtml))), service);
            Outcome(settings, details, prompt, strippedHtml, parsed, spliceAccepted, service)
              == Ok(PlainTextBody(ReplyContent(resp) + "\n" + TrimStart(details.plainTextBody.GetOr(""))))
  {
    var resp := FinalResponse(PayloadFor(settings, Messages(prompt, OriginalText(details, strippedHtml))), service);
    match resp.content {
      case Some(c) =>
        TrimSpec(c);
        ReplyText.PlainSpliceKeepsTrimmedReply(ReplyContent(resp), details.plainTextBody);
      case None =>
    }
  }

  /** An HTML compose whose anchor is a child of the body, or missing, gets
      the body with the reply container right before the anchor, one text
      node per reply line, after at most three removed empty nodes. */
  lemma HtmlSpliceOutcome(settings: Settings, details: ComposeDetails, prompt: string, strippedHtml: string,
                          parsed: ParsedBody, spliceAccepted: bool, service: Service)
    requires Consistent(parsed)
    requires !details.isPlainText && !AnchorOf(parsed).Deeper? && spliceAccepted
    requires Outcome(settings, details, prompt, strippedHtml, parsed, spliceAccepted, service).Ok?
    ensures var o := Outcome(settings, details, prompt, strippedHtml, parsed, spliceAccepted, service);
            var resp := FinalResponse(PayloadFor(settings, Messages(prompt, OriginalText(details, strippedHtml))), service);
            var at := InsertionPoint(parsed.children, AnchorOf(parsed));
            var n := Removable(parsed.children[..at], MaxRemoved);
            && o.value.HtmlChildren?
            && n <= MaxRemoved
            && o.value.children[..at - n] == parsed.children[..at - n]
            && o.value.children[at - n] == ContainerFor(ReplyContent(resp))
            && o.value.children[at - n + 1..] == parsed.children[at..]
  {
    var resp := FinalResponse(PayloadFor(settings, Messages(prompt, OriginalText(details, strippedHtml))), service);
    var at := InsertionPoint(parsed.children, AnchorOf(parsed));
    SplicedSpec(parsed.children, ContainerFor(ReplyContent(resp)), at);
  }

  /** When the anchor is not a child of the body, `insertBefore` throws; when
      the host rejects the spliced body, `setComposeDetails` throws. Either
      way the body becomes the reply markup, which reads back as the reply
      text, followed by the old HTML unchanged. */
  lemma FallbackOutcome(settings: Settings, details: ComposeDetails, prompt: string, strippedHtml: string,
                        parsed: ParsedBody, spliceAccepted: bool, service: Service)
    requires Consistent(parsed) && !details.isPlainText && (AnchorOf(parsed).Deeper? || !spliceAccepted)
    requires Outcome(settings, details, prompt, strippedHtml, parsed, spliceAccepted, service).Ok?
    ensures var o := Outcome(settings, details, prompt, strippedHtml, parsed, spliceAccepted, service);
            var resp := FinalResponse(PayloadFor(settings, Messages(prompt, OriginalText(details, strippedHtml))), service);
            && o.value.HtmlText?
            && ReplyText.ReadReplyHtml(o.value.html[..|o.value.html| - |details.body.GetOr("")|]) == Some(ReplyText.Cleaned(Some(ReplyContent(resp))))
            && o.value.html[|o.value.html| - |details.body.GetOr("")|..] == details.body.GetOr("")
  {
    var resp := FinalResponse(PayloadFor(settings, Messages(prompt, OriginalText(details, strippedHtml))), service);
    var content := ReplyContent(resp);
    var reply := ReplyText.TextToHtml(Some(content));
    var html := reply + details.body.GetOr("");
    assert html[..|html| - |details.body.GetOr("")|] == reply;
    assert html[|html| - |details.body.GetOr("")|..] == details.body.GetOr("");
    ReplyText.TextToHtmlRoundTrip(Some(content));
  }
}
