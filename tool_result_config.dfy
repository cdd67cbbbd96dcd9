/** Constant tables of the `send_notification` result layer: the sanitise
    limits and the field order of the legacy text rendering. */
module ToolResultConfig {

  // Sanitise limits, counted in code points (SANITIZE_LIMITS).
  const TitleLimit: nat := 256
  const MessageLimit: nat := 4000
  const MaxActions: nat := 3
  const ActionLimit: nat := 64
  const DropdownLabelLimit: nat := 64

  /** The keys of the output record `SendNotificationOutput`. */
  datatype Field = Status | Title | Message | Response | ActivationType | Reply | Error | Sanitized

  /** The property name under which a field appears in the output object. */
  function FieldName(f: Field): (name: string)
    ensures |name| > 0
    ensures forall i :: 0 <= i < |name| ==> name[i] != ':' && name[i] != '\n'
  {
    match f
    case Status => "status"
    case Title => "title"
    case Message => "message"
    case Response => "response"
    case ActivationType => "activationType"
    case Reply => "reply"
    case Error => "error"
    case Sanitized => "sanitized"
  }

  /** The stable line order of the legacy text rendering (LEGACY_TEXT_FIELDS). */
  const LegacyTextFields: seq<Field> :=
    [Status, Title, Message, Response, ActivationType, Reply, Error, Sanitized]

  /** The line position of each field in the legacy order. */
  function LegacyPosition(f: Field): (i: nat)
    ensures i < |LegacyTextFields| && LegacyTextFields[i] == f
  {
    match f
    case Status => 0
    case Title => 1
    case Message => 2
    case Response => 3
    case ActivationType => 4
    case Reply => 5
    case Error => 6
    case Sanitized => 7
  }

  /** Two fields with the same property name are the same field. */
  lemma FieldNameInjective(f: Field, g: Field)
    ensures FieldName(f) == FieldName(g) ==> f == g
  {
  }

  /** The legacy order lists every field of the output record exactly once,
      starting with `status` and ending with `sanitized`. */
  lemma LegacyTextFieldsArePermutation()
    ensures |LegacyTextFields| == 8
    ensures forall f: Field :: f in LegacyTextFields
    ensures forall i, j :: 0 <= i < j < |LegacyTextFields| ==> LegacyTextFields[i] != LegacyTextFields[j]
    ensures LegacyTextFields[0] == Status && LegacyTextFields[7] == Sanitized
  {
    forall f: Field ensures f in LegacyTextFields {
      var i := LegacyPosition(f);
    }
  }

  /** The property names in legacy order, as the wiring test spells them out. */
  lemma LegacyTextFieldNames()
    ensures seq(|LegacyTextFields|, i requires 0 <= i < |LegacyTextFields| => FieldName(LegacyTextFields[i]))
         == ["status", "title", "message", "response", "activationType", "reply", "error", "sanitized"]
  {
  }

  /** The sanitise limits, as configured. */
  lemma SanitizeLimitsValues()
    ensures TitleLimit == 256 && MessageLimit == 4000 && MaxActions == 3
    ensures ActionLimit == 64 && DropdownLabelLimit == 64
  {
  }
}
