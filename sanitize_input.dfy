/** Per-field sanitisation of the `send_notification` input, reporting in one
    flag whether any field was altered. */
module SanitizeInput {
  import opened Wrappers
  import opened Sanitizer
  import opened ToolResultConfig
  import NotifyConfig

  /** The tool input: a notification request whose title may be missing. */
  datatype SendNotificationInput = SendNotificationInput(
    message: string,
    title: Option<string>,
    actions: Option<seq<string>>,
    dropdownLabel: Option<string>,
    reply: Option<bool>,
    contentImage: Option<string>,
    timeout: Option<int>)

  /** The cleaned request handed to the notifier. */
  datatype SanitizedOptions = SanitizedOptions(
    message: string,
    title: string,
    actions: Option<seq<string>>,
    dropdownLabel: Option<string>,
    reply: Option<bool>,
    timeout: Option<int>)

  datatype SanitizedSendNotificationInput = SanitizedSendNotificationInput(
    options: SanitizedOptions,
    sanitized: bool)

  /** The first `MaxActions` entries of an action list. */
  function LimitActions(actions: seq<string>): (limited: seq<string>)
    ensures |limited| == if |actions| <= MaxActions then |actions| else MaxActions
    ensures limited == actions[..|limited|]
  {
    if |actions| <= MaxActions then actions else actions[..MaxActions]
  }

  /** One action entry, cleaned. */
  function CleanAction(action: string): (cleaned: string)
    ensures |cleaned| <= ActionLimit && IsCleanText(cleaned)
  {
    SanitizeText(action, ActionLimit).value
  }

  /** An action entry whose cleaning changed it or left it empty. */
  predicate ActionFlagged(action: string) {
    var r := SanitizeText(action, ActionLimit);
    r.changed || r.value == []
  }

  /** The entries that survive cleaning by `clean` (those not cleaned to ""),
      cleaned, in input order. */
  function Survivors(actions: seq<string>, clean: string -> string): (kept: seq<string>)
    ensures |kept| <= |actions|
    decreases |actions|
  {
    if actions == [] then []
    else
      var v := clean(actions[|actions| - 1]);
      Survivors(actions[..|actions| - 1], clean) + (if v == [] then [] else [v])
  }

  /** The cleaned, non-empty entries of an action list, in input order. */
  function CleanActions(actions: seq<string>): (cleaned: seq<string>)
    ensures |cleaned| <= |actions|
    ensures forall k :: 0 <= k < |cleaned| ==>
              cleaned[k] != [] && exists j :: 0 <= j < |actions| && cleaned[k] == CleanAction(actions[j])
  {
    SurvivorsAreCleanedEntries(actions, CleanAction);
    Survivors(actions, CleanAction)
  }

  /** Some entry of `actions` satisfies `flagged`. */
  function AnyFlagged(actions: seq<string>, flagged: string -> bool): bool
    decreases |actions|
  {
    actions != [] && (AnyFlagged(actions[..|actions| - 1], flagged) || flagged(actions[|actions| - 1]))
  }

  /** `AnyFlagged` holds exactly when some entry is flagged. */
  lemma {:induction false} AnyFlaggedExists(actions: seq<string>, flagged: string -> bool)
    ensures AnyFlagged(actions, flagged) <==> exists k :: 0 <= k < |actions| && flagged(actions[k])
    decreases |actions|
  {
    if actions != [] {
      var init := actions[..|actions| - 1];
      AnyFlaggedExists(init, flagged);
      if AnyFlagged(init, flagged) {
        var k :| 0 <= k < |init| && flagged(init[k]);
        assert actions[k] == init[k];
      }
      if exists k :: 0 <= k < |actions| && flagged(actions[k]) {
        var k :| 0 <= k < |actions| && flagged(actions[k]);
        if k < |init| {
          assert init[k] == actions[k];
        }
      }
    }
  }

  /** Every surviving entry is non-empty and is the cleaning of an input entry. */
  lemma {:induction false} SurvivorsAreCleanedEntries(actions: seq<string>, clean: string -> string)
    ensures forall k :: 0 <= k < |Survivors(actions, clean)| ==>
              Survivors(actions, clean)[k] != [] &&
              exists j :: 0 <= j < |actions| && Survivors(actions, clean)[k] == clean(actions[j])
    decreases |actions|
  {
    if actions != [] {
      var init := actions[..|actions| - 1];
      SurvivorsAreCleanedEntries(init, clean);
      forall k | 0 <= k < |Survivors(init, clean)|
        ensures exists j :: 0 <= j < |actions| && Survivors(init, clean)[k] == clean(actions[j])
      {
        var j :| 0 <= j < |init| && Survivors(init, clean)[k] == clean(init[j]);
        assert init[j] == actions[j];
      }
    }
  }

  /** Every action that survives cleaning is non-empty, clean and within the
      label limit. */
  lemma CleanActionsAreLabels(actions: seq<string>)
    ensures forall k :: 0 <= k < |CleanActions(actions)| ==>
              0 < |CleanActions(actions)[k]| <= ActionLimit && IsCleanText(CleanActions(actions)[k])
  {
    SurvivorsAreCleanedEntries(actions, CleanAction);
  }

  /** Survivors distribute over concatenation: those of a list are those of its
      first part followed by those of its second part, so the input order of
      the surviving entries is kept. */
  lemma {:induction false} SurvivorsAppend(a: seq<string>, b: seq<string>, clean: string -> string)
    ensures Survivors(a + b, clean) == Survivors(a, clean) + Survivors(b, clean)
    decreases |b|
  {
    if b == [] {
      assert a + b == a;
    } else {
      var init := b[..|b| - 1];
      SurvivorsAppend(a, init, clean);
      assert (a + b)[..|a + b| - 1] == a + init;
      assert (a + b)[|a + b| - 1] == b[|b| - 1];
    }
  }

  /** A single entry survives exactly when it does not clean to "". */
  lemma SurvivorsSingle(action: string, clean: string -> string)
    ensures Survivors([action], clean) == if clean(action) == [] then [] else [clean(action)]
  {
    assert [action][..0] == [];
  }

  /** One step of a left-to-right scan: the prefix of length `i + 1` adds the
      survivor and the flag of entry `i` to those of the prefix of length `i`. */
  lemma ScanStep(actions: seq<string>, i: nat, clean: string -> string, flagged: string -> bool)
    requires i < |actions|
    ensures Survivors(actions[..i + 1], clean)
         == Survivors(actions[..i], clean) + (if clean(actions[i]) == [] then [] else [clean(actions[i])])
    ensures AnyFlagged(actions[..i + 1], flagged) == (AnyFlagged(actions[..i], flagged) || flagged(actions[i]))
  {
    var p := actions[..i + 1];
    assert p[..|p| - 1] == actions[..i];
    assert p[|p| - 1] == actions[i];
  }

  /** A non-empty list whose entries all clean to "" has its first entry
      flagged: an action that cleans to "" is always flagged. */
  lemma {:induction false} EmptyCleaningIsFlagged(actions: seq<string>)
    requires |actions| > 0 && CleanActions(actions) == []
    ensures ActionFlagged(actions[0])
    decreases |actions|
  {
    if |actions| > 1 {
      var init := actions[..|actions| - 1];
      SurvivorsAppend(init, [actions[|actions| - 1]], CleanAction);
      assert init + [actions[|actions| - 1]] == actions;
      EmptyCleaningIsFlagged(init);
      assert init[0] == actions[0];
    } else {
      SurvivorsSingle(actions[0], CleanAction);
      assert actions == [actions[0]];
    }
  }

  /** Whether the action list contributes to the `sanitized` flag: it was cut to
      the cap, one of the kept entries changed or was dropped, or a non-empty
      list cleaned to nothing. */
  predicate ActionsFlagged(actions: Option<seq<string>>) {
    actions.Some? &&
    var limited := LimitActions(actions.value);
    || |actions.value| > MaxActions
    || AnyFlagged(limited, ActionFlagged)
    || (|actions.value| > 0 && CleanActions(limited) == [])
  }

  /** The action part of the input sanitiser: caps the list, cleans each kept
      entry, drops those that clean to "", and omits a list with no survivor. */
  method SanitizeActions(input: seq<string>) returns (actions: Option<seq<string>>, flagged: bool)
    ensures var cleaned := CleanActions(LimitActions(input));
            actions == if cleaned == [] then None else Some(cleaned)
    ensures actions.Some? ==> 1 <= |actions.value| <= MaxActions
    ensures flagged <==> ActionsFlagged(Some(input))
  {
    flagged := false;
    var limitedActions := LimitActions(input);
    if |limitedActions| != |input| {
      flagged := true;
    }
    ghost var capped := flagged;

    var cleanedActions: seq<string> := [];
    for i := 0 to |limitedActions|
      invariant cleanedActions == CleanActions(limitedActions[..i])
      invariant flagged <==> capped || AnyFlagged(limitedActions[..i], ActionFlagged)
    {
      var sanitizedAction := SanitizeText(limitedActions[i], ActionLimit);
      ScanStep(limitedActions, i, CleanAction, ActionFlagged);
      assert CleanAction(limitedActions[i]) == sanitizedAction.value;
      assert ActionFlagged(limitedActions[i]) <==> sanitizedAction.changed || sanitizedAction.value == [];
      if sanitizedAction.changed {
        flagged := true;
      }
      if |sanitizedAction.value| == 0 {
        flagged := true;
        continue;
      }
      cleanedActions := cleanedActions + [sanitizedAction.value];
    }
    assert limitedActions[..|limitedActions|] == limitedActions;

    actions := None;
    if |cleanedActions| > 0 {
      actions := Some(cleanedActions);
    } else if |input| > 0 {
      flagged := true;
    }
  }

  /** The cleaned title, message, action list and dropdown label; `reply` and
      `timeout` pass through. `sanitized` is true exactly when an explicitly
      supplied title, the message, the action list or the dropdown label was
      altered. */
  method SanitizeSendNotificationInput(input: SendNotificationInput) returns (out: SanitizedSendNotificationInput)
    ensures out.options.title == SanitizeText(input.title.GetOr(NotifyConfig.DefaultNotificationTitle), TitleLimit).value
    ensures out.options.message == SanitizeText(input.message, MessageLimit).value
    ensures input.actions.None? ==> out.options.actions.None?
    ensures input.actions.Some? ==>
              var cleaned := CleanActions(LimitActions(input.actions.value));
              out.options.actions == if cleaned == [] then None else Some(cleaned)
    ensures input.dropdownLabel.None? ==> out.options.dropdownLabel.None?
    ensures input.dropdownLabel.Some? ==>
              out.options.dropdownLabel == Some(SanitizeText(input.dropdownLabel.value, DropdownLabelLimit).value)
    ensures out.options.reply == input.reply && out.options.timeout == input.timeout
    ensures out.sanitized <==>
              || (input.title.Some? && SanitizeText(input.title.value, TitleLimit).changed)
              || SanitizeText(input.message, MessageLimit).changed
              || ActionsFlagged(input.actions)
              || (input.dropdownLabel.Some? && SanitizeText(input.dropdownLabel.value, DropdownLabelLimit).changed)
  {
    var titleText := input.title.GetOr(NotifyConfig.DefaultNotificationTitle);
    var sanitizedTitle := SanitizeText(titleText, TitleLimit);
    var sanitizedMessage := SanitizeText(input.message, MessageLimit);

    var sanitized := false;
    if input.title.Some? && sanitizedTitle.changed {
      sanitized := true;
    }
    if sanitizedMessage.changed {
      sanitized := true;
    }

    var actions: Option<seq<string>> := None;
    if input.actions.Some? {
      var actionsFlagged;
      actions, actionsFlagged := SanitizeActions(input.actions.value);
      if actionsFlagged {
        sanitized := true;
      }
    }

    var dropdownLabel: Option<string> := None;
    if input.dropdownLabel.Some? {
      var sanitizedDropdownLabel := SanitizeText(input.dropdownLabel.value, DropdownLabelLimit);
      if sanitizedDropdownLabel.changed {
        sanitized := true;
      }
      dropdownLabel := Some(sanitizedDropdownLabel.value);
    }

    out := SanitizedSendNotificationInput(
      SanitizedOptions(sanitizedMessage.value, sanitizedTitle.value, actions, dropdownLabel, input.reply, input.timeout),
      sanitized);
  }

  /** The default title is already clean, so a missing title is never the
      reason for the `sanitized` flag and comes out as "MCPal". */
  lemma DefaultTitleIsClean()
    ensures SanitizeText(NotifyConfig.DefaultNotificationTitle, TitleLimit)
         == SanitizeResult(NotifyConfig.DefaultNotificationTitle, false)
  {
    assert IsCleanText(NotifyConfig.DefaultNotificationTitle);
  }

  /** How the action list sets the flag: more than three entries always flag;
      a non-empty list that cleans to nothing is omitted and flagged, and its
      first entry already accounts for the flag; an empty list is omitted
      without flagging. */
  lemma ActionsFlagCases(actions: seq<string>)
    ensures |actions| > MaxActions ==> ActionsFlagged(Some(actions))
    ensures |actions| > 0 && CleanActions(LimitActions(actions)) == [] ==>
              ActionsFlagged(Some(actions)) && ActionFlagged(actions[0])
    ensures actions == [] ==> !ActionsFlagged(Some(actions)) && CleanActions(LimitActions(actions)) == []
  {
    if |actions| > 0 && CleanActions(LimitActions(actions)) == [] {
      EmptyCleaningIsFlagged(LimitActions(actions));
    }
  }
}
