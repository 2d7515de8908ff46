/**
  The chat-completion request of `generateReplyForCompose` (background.js):
  the settings with their stored defaults (background.js:3-22), the two
  messages (background.js:117-132), the payload with its sampling fields gated
  by the model name (background.js:135-145) and `postWithFallback`, which
  retries once without the sampling fields when the service rejects a value
  (background.js:147-178).

  A JavaScript number setting is either finite, and sent, or not
  (`Number.isFinite` fails for `null`, `NaN` and the infinities); the model
  holds a finite value as `Some(v)` and anything else as `None`.
*/
module ReplyRequest {
  import opened Text
  import opened Wrappers

  // ---------------------------------------------------------------------------
  // Settings
  // ---------------------------------------------------------------------------

  datatype Settings = Settings(
    apiKey: string,
    model: string,
    temperature: Option<real>,
    topP: Option<real>,
    maxTokens: Option<real>,
    presencePenalty: Option<real>,
    frequencyPenalty: Option<real>)

  /** The defaults `getSettings` passes to the storage lookup. */
  const Defaults: Settings := Settings("", "gpt-4o-mini", Some(0.7), Some(1.0), None, Some(0.0), Some(0.0))

  const DefaultModel: string := "gpt-4o-mini"

  // ---------------------------------------------------------------------------
  // The restricted-model test `/(^|\b)gpt-5(\b|$)/i`
  // ---------------------------------------------------------------------------

  /** The pattern matches with its `gpt-5` at position `p`. Before the `g`,
      which is a word character, `^` or `\b` holds exactly when `p` is 0 or
      the character before is not a word character; after the `5`, likewise,
      `\b` or `$` holds exactly when the name ends there or the next character
      is not a word character. */
  predicate RestrictedAt(name: string, p: nat) {
    && p + 5 <= |name|
    && StartsWithIgnoreCase(name[p..], "gpt-5")
    && (p == 0 || !IsWordChar(name[p - 1]))
    && (p + 5 == |name| || !IsWordChar(name[p + 5]))
  }

  /** The regex engine's search: it tries each start position from `p` on. */
  function MatchFrom(name: string, p: nat): bool
    decreases |name| - p
  {
    if p > |name| then false
    else RestrictedAt(name, p) || MatchFrom(name, p + 1)
  }

  /** `/(^|\b)gpt-5(\b|$)/i.test(name)` */
  function IsRestricted(name: string): bool {
    MatchFrom(name, 0)
  }

  lemma {:induction false} MatchFromSpec(name: string, p: nat)
    ensures MatchFrom(name, p) <==> exists q | p <= q <= |name| :: RestrictedAt(name, q)
    decreases |name| - p
  {
    if p <= |name| {
      MatchFromSpec(name, p + 1);
      if MatchFrom(name, p + 1) {
        var q :| p + 1 <= q <= |name| && RestrictedAt(name, q);
        assert p <= q <= |name|;
      }
    }
  }

  /** The search finds a match exactly when there is a position where `gpt-5`
      stands as its own word-delimited token, in any letter case. */
  lemma IsRestrictedSpec(name: string)
    ensures IsRestricted(name) <==> exists p | 0 <= p <= |name| :: RestrictedAt(name, p)
  {
    MatchFromSpec(name, 0);
  }

  /** A name that starts with the token is restricted whatever follows a
      non-word character, such as `gpt-5-mini` or `GPT-5`. */
  lemma RestrictedPrefix(rest: string)
    requires rest == [] || !IsWordChar(rest[0])
    ensures IsRestricted("gpt-5" + rest)
    ensures IsRestricted("GPT-5" + rest)
  {
    assert RestrictedAt("gpt-5" + rest, 0);
    assert RestrictedAt("GPT-5" + rest, 0);
    IsRestrictedSpec("gpt-5" + rest);
    IsRestrictedSpec("GPT-5" + rest);
  }

  /** The token cannot start at `p` when the letters there are not `g` and,
      four characters on, `5`. */
  lemma NotRestrictedAt(name: string, p: nat)
    requires p + 5 <= |name|
    requires LowerAscii(name[p]) != 'g' || LowerAscii(name[p + 4]) != '5'
    ensures !RestrictedAt(name, p)
  {
  }

  /** A word character after the token defeats the test: `gpt-50` is not
      restricted. */
  lemma UnrestrictedFollowed()
    ensures !IsRestricted("gpt-50")
  {
    var name := "gpt-50";
    IsRestrictedSpec(name);
    assert !RestrictedAt(name, 0) by { assert IsWordChar(name[5]); }
    NotRestrictedAt(name, 1);
  }

  /** A word character before the token defeats the test: `chatgpt-5` is not
      restricted. */
  lemma UnrestrictedPreceded()
    ensures !IsRestricted("chatgpt-5")
  {
    var name := "chatgpt-5";
    IsRestrictedSpec(name);
    NotRestrictedAt(name, 0);
    NotRestrictedAt(name, 1);
    NotRestrictedAt(name, 2);
    NotRestrictedAt(name, 3);
    assert !RestrictedAt(name, 4) by { assert IsWordChar(name[3]); }
  }

  /** A name without the digit `5` is never restricted. */
  lemma WithoutFiveUnrestricted(name: string)
    requires '5' !in name
    ensures !IsRestricted(name)
  {
    IsRestrictedSpec(name);
    forall p | 0 <= p <= |name| ensures !RestrictedAt(name, p) {
      if p + 5 <= |name| {
        assert name[p + 4] != '5';
        NotRestrictedAt(name, p);
      }
    }
  }

  /** The default model and the empty name are not restricted. */
  lemma UnrestrictedDefault()
    ensures !IsRestricted(DefaultModel)
    ensures !IsRestricted("")
  {
    assert '5' !in DefaultModel;
    WithoutFiveUnrestricted(DefaultModel);
    WithoutFiveUnrestricted("");
  }

  // ---------------------------------------------------------------------------
  // Messages
  // ---------------------------------------------------------------------------

  datatype Role = System | User
  datatype Message = Message(role: Role, content: string)

  const SystemPrompt: string :=
    "You are a helpful email assistant. Draft a clear, polite, and concise reply. "
    + "Use the same language as the original email. "
    + "Write only the reply text. Do not include quoted text, signatures, or placeholders."

  /** The header line of background.js:130, in two pieces: the verifier sees
      the characters of a short literal, but not those of one this long. */
  const OriginalHeader: string := "Original" + " email content (quoted below in the compose editor):\n\n"

  /** The user message: the instruction, when there is one, then the header
      and the text of the message being replied to. */
  function UserContent(prompt: string, original: string): string {
    (if prompt != "" then "Instruction: " + prompt + "\n\n" else "") + OriginalHeader + original
  }

  function Messages(prompt: string, original: string): seq<Message> {
    [Message(System, SystemPrompt), Message(User, UserContent(prompt, original))]
  }

  /** The user message carries the original text whole at its end, and the
      instruction line exactly when there is an instruction. */
  lemma UserContentParts(prompt: string, original: string)
    ensures exists head :: UserContent(prompt, original) == head + original
    ensures StartsWith(UserContent(prompt, original), "Instruction: ") <==> prompt != ""
    ensures prompt == "" ==> UserContent(prompt, original) == OriginalHeader + original
  {
    var head := (if prompt != "" then "Instruction: " + prompt + "\n\n" else "") + OriginalHeader;
    assert UserContent(prompt, original) == head + original;
    var content := UserContent(prompt, original);
    if prompt == "" {
      assert content == OriginalHeader + original;
      assert OriginalHeader[0] == 'O';
      assert content[0] == OriginalHeader[0];
      assert !StartsWith(content, "Instruction: ") by { assert "Instruction: "[0] == 'I'; }
    } else {
      var line := "Instruction: " + prompt + "\n\n";
      assert content == line + (OriginalHeader + original);
      assert forall i | 0 <= i < 13 :: content[i] == line[i];
    }
  }

  // ---------------------------------------------------------------------------
  // Payload
  // ---------------------------------------------------------------------------

  /** The request body; a `None` field is absent from the JSON. */
  datatype Payload = Payload(
    model: string,
    messages: seq<Message>,
    temperature: Option<real>,
    topP: Option<real>,
    maxTokens: Option<real>,
    presencePenalty: Option<real>,
    frequencyPenalty: Option<real>)

  /** A sampling setting as the payload carries it. */
  function Gated(restricted: bool, setting: Option<real>): (field: Option<real>)
    ensures field.Some? <==> !restricted && setting.Some?
    ensures field.Some? ==> field == setting
  {
    if !restricted then setting else None
  }

  /** The payload `generateReplyForCompose` builds for these settings. */
  function PayloadFor(settings: Settings, messages: seq<Message>): Payload {
    var restricted := IsRestricted(settings.model);
    Payload(
      if settings.model != "" then settings.model else DefaultModel,
      messages,
      Gated(restricted, settings.temperature),
      Gated(restricted, settings.topP),
      settings.maxTokens,
      Gated(restricted, settings.presencePenalty),
      Gated(restricted, settings.frequencyPenalty))
  }

  /** The payload as the source builds it: the base object, then one
      conditional assignment per optional field. */
  method BuildPayload(settings: Settings, messages: seq<Message>) returns (payload: Payload)
    ensures payload == PayloadFor(settings, messages)
  {
    var isRestricted := IsRestricted(settings.model);
    payload := Payload(if settings.model != "" then settings.model else DefaultModel, messages, None, None, None, None, None);
    if !isRestricted && settings.temperature.Some? {
      payload := payload.(temperature := settings.temperature);
    }
    if !isRestricted && settings.topP.Some? {
      payload := payload.(topP := settings.topP);
    }
    if settings.maxTokens.Some? {
      payload := payload.(maxTokens := settings.maxTokens);
    }
    if !isRestricted && settings.presencePenalty.Some? {
      payload := payload.(presencePenalty := settings.presencePenalty);
    }
    if !isRestricted && settings.frequencyPenalty.Some? {
      payload := payload.(frequencyPenalty := settings.frequencyPenalty);
    }
  }

  /** No sampling field is sent with a payload. */
  predicate NoSampling(p: Payload) {
    p.temperature.None? && p.topP.None? && p.presencePenalty.None? && p.frequencyPenalty.None?
  }

  /** For a restricted model the payload has no `temperature`, `top_p`,
      `presence_penalty` or `frequency_penalty`; for any other model each is
      present exactly when its setting is finite, with that value. */
  lemma PayloadSampling(settings: Settings, messages: seq<Message>)
    ensures IsRestricted(settings.model) ==> NoSampling(PayloadFor(settings, messages))
    ensures !IsRestricted(settings.model) ==>
      && PayloadFor(settings, messages).temperature == settings.temperature
      && PayloadFor(settings, messages).topP == settings.topP
      && PayloadFor(settings, messages).presencePenalty == settings.presencePenalty
      && PayloadFor(settings, messages).frequencyPenalty == settings.frequencyPenalty
  {
  }

  /** `max_tokens` is present exactly when its setting is finite, whatever the
      model; the model falls back to the default when unset; the messages go
      as given. */
  lemma PayloadFixedFields(settings: Settings, messages: seq<Message>)
    ensures PayloadFor(settings, messages).maxTokens.Some? <==> settings.maxTokens.Some?
    ensures PayloadFor(settings, messages).maxTokens == settings.maxTokens
    ensures PayloadFor(settings, messages).model != ""
    ensures settings.model != "" ==> PayloadFor(settings, messages).model == settings.model
    ensures PayloadFor(settings, messages).messages == messages
  {
  }

  /** With the stored defaults the request uses `gpt-4o-mini` with
      temperature 0.7, `top_p` 1 and both penalties 0, and no `max_tokens`. */
  lemma DefaultPayload(messages: seq<Message>)
    ensures PayloadFor(Defaults, messages)
         == Payload(DefaultModel, messages, Some(0.7), Some(1.0), None, Some(0.0), Some(0.0))
  {
    UnrestrictedDefault();
  }

  // ---------------------------------------------------------------------------
  // postWithFallback
  // ---------------------------------------------------------------------------

  /** What the model keeps of an HTTP response: the status, the `error.code`
      of its JSON body (`""` when there is none or the body is not JSON), and
      the trimmed-before-use `choices[0].message.content`, if any. */
  datatype Response = Response(status: int, errorCode: string, content: Option<string>)

  /** `resp.ok` */
  predicate IsOk(r: Response) {
    200 <= r.status <= 299
  }

  /** The rejection that triggers the retry. */
  predicate NeedsRetry(r: Response) {
    r.status == 400 && r.errorCode == "unsupported_value"
  }

  /** The retry body: `model`, `messages`, and `max_tokens` when the first
      payload had it. */
  function Stripped(p: Payload): (s: Payload)
    ensures NoSampling(s)
    ensures s.model == p.model && s.messages == p.messages && s.maxTokens == p.maxTokens
  {
    Payload(p.model, p.messages, None, None, p.maxTokens, None, None)
  }

  /** The service, as a function from request body to response. */
  type Service = Payload -> Response

  /** `postWithFallback`; `sent` lists the bodies posted, in order. */
  method PostWithFallback(payload: Payload, service: Service) returns (resp: Response, sent: seq<Payload>)
    ensures 1 <= |sent| <= 2 && sent[0] == payload
    ensures |sent| == 2 <==> NeedsRetry(service(payload))
    ensures |sent| == 2 ==> sent[1] == Stripped(payload)
    ensures resp == service(sent[|sent| - 1])
    ensures sent == Requests(payload, service) && resp == FinalResponse(payload, service)
  {
    resp := service(payload);
    sent := [payload];
    if IsOk(resp) {
      return;
    }
    if resp.status == 400 {
      var code := resp.errorCode;
      if code == "unsupported_value" {
        var stripped := Stripped(payload);
        resp := service(stripped);
        sent := sent + [stripped];
      }
    }
  }

  /** The exchange `postWithFallback` performs, as a value: the bodies posted
      and the response it returns. */
  function Requests(payload: Payload, service: Service): seq<Payload> {
    if NeedsRetry(service(payload)) then [payload, Stripped(payload)] else [payload]
  }

  function FinalResponse(payload: Payload, service: Service): Response {
    service(Requests(payload, service)[|Requests(payload, service)| - 1])
  }

  /** The first request is answered without a retry unless it is rejected
      with `400`/`unsupported_value`; an accepted first request is the only
      one. */
  lemma RequestsSpec(payload: Payload, service: Service)
    ensures 1 <= |Requests(payload, service)| <= 2
    ensures IsOk(service(payload)) ==> Requests(payload, service) == [payload]
    ensures IsOk(service(payload)) ==> FinalResponse(payload, service) == service(payload)
    ensures NeedsRetry(service(payload)) ==> FinalResponse(payload, service) == service(Stripped(payload))
  {
  }

  /** Stripping twice is stripping once, so a retry could not lose more. */
  lemma StrippedIdempotent(p: Payload)
    ensures Stripped(Stripped(p)) == Stripped(p)
  {
  }

  /** For a restricted model the retry posts the very body the service has
      just rejected: the payload had no sampling fields to drop. */
  lemma RestrictedRetryRepeats(settings: Settings, messages: seq<Message>)
    requires IsRestricted(settings.model)
    ensures Stripped(PayloadFor(settings, messages)) == PayloadFor(settings, messages)
  {
    PayloadSampling(settings, messages);
  }
}
