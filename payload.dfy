/** The structured result of `send_notification` and its two builders. */
module Payload {
  import opened Wrappers
  import opened Sanitizer
  import opened NotifyTypes
  import Config = ToolResultConfig
  import Json

  /** The two literal values of `status`: "sent" and "error". */
  datatype OutputStatus = StatusSent | StatusError

  function StatusText(s: OutputStatus): (t: string)
    ensures t == "sent" || t == "error"
    ensures t == "sent" <==> s == StatusSent
  {
    match s
    case StatusSent => "sent"
    case StatusError => "error"
  }

  /** The output record; an absent field is `None`. */
  datatype SendNotificationOutput = SendNotificationOutput(
    status: OutputStatus,
    title: Option<string>,
    message: Option<string>,
    response: Option<string>,
    activationType: Option<string>,
    reply: Option<string>,
    error: Option<string>,
    sanitized: Option<bool>)

  /** The shape both builders promise: a sent payload carries no error; an
      error payload carries an error and no response, activation type or
      reply; `sanitized` is either absent or true. */
  predicate IsWellShaped(p: SendNotificationOutput) {
    && (p.status == StatusSent ==> p.error.None?)
    && (p.status == StatusError ==> p.error.Some? && p.response.None? && p.activationType.None? && p.reply.None?)
    && p.sanitized != Some(false)
  }

  /** The value stored under a key of the output record (`payload[key]`). */
  function FieldValue(p: SendNotificationOutput, f: Config.Field): (v: Option<Json.Scalar>)
    ensures f == Config.Status ==> v == Some(Json.JString(StatusText(p.status)))
    ensures f == Config.Sanitized ==> (v.Some? <==> p.sanitized.Some?) && (v.Some? ==> v.value.JBool?)
    ensures f != Config.Sanitized ==> v.Some? ==> v.value.JString?
    ensures f == Config.Title ==> Carries(v, p.title)
    ensures f == Config.Message ==> Carries(v, p.message)
    ensures f == Config.Response ==> Carries(v, p.response)
    ensures f == Config.ActivationType ==> Carries(v, p.activationType)
    ensures f == Config.Reply ==> Carries(v, p.reply)
    ensures f == Config.Error ==> Carries(v, p.error)
    ensures f == Config.Sanitized ==> p.sanitized.Some? ==> v == Some(Json.JBool(p.sanitized.value))
  {
    match f
    case Status => Some(Json.JString(StatusText(p.status)))
    case Title => StringValue(p.title)
    case Message => StringValue(p.message)
    case Response => StringValue(p.response)
    case ActivationType => StringValue(p.activationType)
    case Reply => StringValue(p.reply)
    case Error => StringValue(p.error)
    case Sanitized => if p.sanitized.Some? then Some(Json.JBool(p.sanitized.value)) else None
  }

  /** `v` is the JSON string of the optional field `o`, present exactly when
      the field is. */
  predicate Carries(v: Option<Json.Scalar>, o: Option<string>) {
    && (v.Some? <==> o.Some?)
    && (o.Some? ==> v.value == Json.JString(o.value))
  }

  function StringValue(o: Option<string>): Option<Json.Scalar> {
    if o.Some? then Some(Json.JString(o.value)) else None
  }

  /** A thrown value: an `Error` instance with its message, or any other value
      together with its `String(...)` rendering. */
  datatype Thrown = ErrorInstance(message: string) | OtherValue(rendered: string)

  /** The raw text of a thrown value. */
  function RawErrorText(error: Thrown): string {
    match error
    case ErrorInstance(m) => m
    case OtherValue(r) => r
  }

  /** The sanitised text of a thrown value, within the message limit. */
  function ToErrorMessage(error: Thrown): (m: string)
    ensures |m| <= Config.MessageLimit && IsCleanText(m)
    ensures (IsCleanText(RawErrorText(error)) && |RawErrorText(error)| <= Config.MessageLimit)
              <==> m == RawErrorText(error)
    ensures m == SanitizeText(RawErrorText(error), Config.MessageLimit).value
  {
    SanitizeText(RawErrorText(error), Config.MessageLimit).value
  }

  /** Adds `sanitized: true` when the flag is set and leaves the payload
      untouched otherwise. */
  function AddSanitizedFlag(p: SendNotificationOutput, sanitized: bool): (r: SendNotificationOutput)
    ensures r == p.(sanitized := r.sanitized)
    ensures r.sanitized == if sanitized then Some(true) else p.sanitized
  {
    if !sanitized then p else p.(sanitized := Some(true))
  }

  /** The payload of a delivered notification. */
  function BuildSuccessPayload(title: string, message: string, result: NotifyResult, sanitized: bool)
    : (p: SendNotificationOutput)
    ensures IsWellShaped(p) && p.status == StatusSent
    ensures p.title == Some(title) && p.message == Some(message)
    ensures p.response == Some(result.response)
    ensures p.activationType == result.activationType && p.reply == result.reply
    ensures p.sanitized.Some? <==> sanitized
  {
    AddSanitizedFlag(
      SendNotificationOutput(StatusSent, Some(title), Some(message), Some(result.response),
                             result.activationType, result.reply, None, None),
      sanitized)
  }

  /** The title, message and sanitised flag of the attempted notification. */
  datatype ErrorPayloadContext = ErrorPayloadContext(title: string, message: string, sanitized: bool)

  /** The payload of a failed delivery; its error text is sanitised to the
      message limit. */
  function BuildErrorPayload(error: Thrown, context: ErrorPayloadContext): (p: SendNotificationOutput)
    ensures IsWellShaped(p) && p.status == StatusError
    ensures p.title == Some(context.title) && p.message == Some(context.message)
    ensures p.error.Some? && |p.error.value| <= Config.MessageLimit && IsCleanText(p.error.value)
    ensures p.error == Some(ToErrorMessage(error))
    ensures p.sanitized.Some? <==> context.sanitized
  {
    AddSanitizedFlag(
      SendNotificationOutput(StatusError, Some(context.title), Some(context.message), None, None, None,
                             Some(ToErrorMessage(error)), None),
      context.sanitized)
  }

  /** The error text reports the thrown message itself: when its cleaned
      form fits the limit, every character other than CR, LF and the unsafe
      controls keeps its count, and the text has one `\n` per line break of
      the message. */
  lemma ErrorTextKeepsThrownMessage(error: Thrown, context: ErrorPayloadContext)
    requires |StripUnsafeControls(NormalizeNewlines(RawErrorText(error)))| <= Config.MessageLimit
    ensures var raw := RawErrorText(error);
      var e := BuildErrorPayload(error, context).error.value;
      && (forall c :: c != '\r' && c != '\n' && !IsUnsafeControl(c) ==> multiset(e)[c] == multiset(raw)[c])
      && multiset(e)['\n'] + CrLfPairs(raw) == multiset(raw)['\n'] + multiset(raw)['\r']
  {
    SanitizeTextKeepsContent(RawErrorText(error), Config.MessageLimit);
  }

  /** The error test case: a multi-line message with quotes is already clean
      and short, so it is reported verbatim. */
  lemma ErrorMessageKeptVerbatim(text: string)
    requires IsCleanText(text) && |text| <= Config.MessageLimit
    ensures BuildErrorPayload(ErrorInstance(text), ErrorPayloadContext("MCPal", "attempted message", false)).error
         == Some(text)
  {
  }
}
