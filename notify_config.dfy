/** Notification policy tables: the default title, the timeout tiers with the
    rule that picks one, and the client-icon aliases. */
module NotifyConfig {
  import opened Wrappers
  import opened NotifyTypes

  /** Title used when the caller supplies none. */
  const DefaultNotificationTitle: string := "MCPal"

  /** The three interaction modes, each with its default timeout. */
  datatype TimeoutKind = Simple | Actions | Reply

  /** Default timeout of each mode, in seconds (DEFAULT_TIMEOUTS). */
  function DefaultTimeout(kind: TimeoutKind): (seconds: nat)
    ensures seconds > 0
  {
    match kind
    case Simple => 10
    case Actions => 20
    case Reply => 30
  }

  /** Normalised client names and the icon asset each one maps to. */
  const ClientIcons: map<string, string> := map[
    "claude" := "claude.png",
    "claude-desktop" := "claude.png",
    "claude-code" := "claude.png",
    "opus" := "claude.png",
    "openai" := "openai.png",
    "chatgpt" := "openai.png",
    "codex" := "openai.png",
    "cursor" := "cursor.png",
    "vscode" := "vscode.png"
  ]

  /** The only options the timeout rule looks at. */
  datatype TimeoutSelectionInput = TimeoutSelectionInput(
    timeout: Option<int>,
    reply: Option<bool>,
    actions: Option<seq<string>>)

  /** The part of a request that the timeout rule sees. */
  function TimeoutSelection(options: NotifyOptions): (input: TimeoutSelectionInput)
    ensures input.timeout == options.timeout && input.reply == options.reply
    ensures input.actions == options.actions
  {
    TimeoutSelectionInput(options.timeout, options.reply, options.actions)
  }

  /** Reply beats actions, and actions beat the simple mode; an empty action
      list counts as no actions. */
  function GetTimeoutKind(options: TimeoutSelectionInput): (kind: TimeoutKind)
    ensures kind == Reply <==> options.reply == Some(true)
    ensures kind == Actions <==> options.reply != Some(true) && options.actions.Some? && |options.actions.value| > 0
  {
    if options.reply == Some(true) then Reply
    else if options.actions.Some? && |options.actions.value| > 0 then Actions
    else Simple
  }

  /** An explicit timeout is returned as it is (not clamped, zero included);
      otherwise the default of the selected mode. */
  function ResolveNotificationTimeout(options: TimeoutSelectionInput): (seconds: int)
    ensures options.timeout.Some? ==> seconds == options.timeout.value
    ensures options.timeout.None? ==> seconds in {10, 20, 30}
    ensures options.timeout.None? ==> seconds == DefaultTimeout(GetTimeoutKind(options))
    ensures options.timeout.None? && options.reply == Some(true) ==> seconds == 30
    ensures (options.timeout.None? && options.reply != Some(true)
             && options.actions.Some? && |options.actions.value| > 0) ==> seconds == 20
    ensures (options.timeout.None? && options.reply != Some(true)
             && (options.actions.None? || options.actions.value == [])) ==> seconds == 10
  {
    if options.timeout.Some? then options.timeout.value
    else DefaultTimeout(GetTimeoutKind(options))
  }

  /** The tier table of the wiring test: empty options, one action, reply,
      reply with an action, and an explicit 99. */
  lemma ResolveNotificationTimeoutTable(actions: seq<string>, t: int)
    requires |actions| > 0
    ensures ResolveNotificationTimeout(TimeoutSelectionInput(None, None, None)) == 10
    ensures ResolveNotificationTimeout(TimeoutSelectionInput(None, None, Some(actions))) == 20
    ensures ResolveNotificationTimeout(TimeoutSelectionInput(None, Some(false), Some(actions))) == 20
    ensures ResolveNotificationTimeout(TimeoutSelectionInput(None, Some(true), None)) == 30
    ensures ResolveNotificationTimeout(TimeoutSelectionInput(None, Some(true), Some(actions))) == 30
    ensures ResolveNotificationTimeout(TimeoutSelectionInput(None, None, Some([]))) == 10
    ensures ResolveNotificationTimeout(TimeoutSelectionInput(None, Some(false), None)) == 10
    ensures ResolveNotificationTimeout(TimeoutSelectionInput(None, Some(false), Some([]))) == 10
    ensures forall r, a :: ResolveNotificationTimeout(TimeoutSelectionInput(Some(t), r, a)) == t
  {
  }

  /** Longer interactions get longer defaults: simple < actions < reply. */
  lemma DefaultTimeoutsIncreasing()
    ensures DefaultTimeout(Simple) < DefaultTimeout(Actions) < DefaultTimeout(Reply)
  {
  }

  /** The alias table: the Anthropic names, the OpenAI names, cursor and vscode. */
  lemma ClientIconAliases()
    ensures ClientIcons.Keys == {"claude", "claude-desktop", "claude-code", "opus",
                                 "openai", "chatgpt", "codex", "cursor", "vscode"}
    ensures forall k :: k in {"claude", "claude-desktop", "claude-code", "opus"} ==> ClientIcons[k] == "claude.png"
    ensures forall k :: k in {"openai", "chatgpt", "codex"} ==> ClientIcons[k] == "openai.png"
    ensures ClientIcons["cursor"] == "cursor.png" && ClientIcons["vscode"] == "vscode.png"
  {
  }
}
