/** The notifier front end: the client-icon resolver, the timeout rule with
    its own tiers, the options handed to the notifier library and the
    mapping of its callback to a result. The library itself, the platform
    test and the file system are outside the model: the platform flag, the
    clients directory and a file-existence oracle are parameters. */
module Notify {
  import opened Wrappers
  import opened NotifyTypes
  import NotifyConfig

  /** The client-icon table of this module, in declaration order. */
  const ClientIconTable: seq<(string, string)> := [
    ("claude", "claude.png"),
    ("claude-desktop", "claude.png"),
    ("claude-code", "claude.png"),
    ("cursor", "cursor.png"),
    ("vscode", "vscode.png"),
    ("openai", "openai.png"),
    ("chatgpt", "openai.png")
  ]

  /** An icon file the table names. */
  predicate IsIconFile(file: string) {
    exists i :: 0 <= i < |ClientIconTable| && ClientIconTable[i].1 == file
  }

  // ---------------------------------------------------------------------
  // Client-name normalisation
  // ---------------------------------------------------------------------

  predicate IsUpperAscii(c: char) {
    'A' <= c <= 'Z'
  }

  /** Lower-cases the letters A to Z. */
  function LowerAscii(c: char): (l: char)
    ensures !IsUpperAscii(l)
    ensures IsUpperAscii(c) ==> 'a' <= l <= 'z' && l as int - 'a' as int == c as int - 'A' as int
    ensures !IsUpperAscii(c) ==> l == c
  {
    if IsUpperAscii(c) then (c as int + 32) as char else c
  }

  function ToLowerAscii(s: string): (r: string)
    ensures |r| == |s|
    ensures forall i :: 0 <= i < |s| ==> r[i] == LowerAscii(s[i])
    ensures HasNoUpperAscii(r)
    ensures HasNoUpperAscii(s) ==> r == s
  {
    seq(|s|, i requires 0 <= i < |s| => LowerAscii(s[i]))
  }

  /** Upper-cases the letters a to z; the reference against which
      lower-casing is shown to ignore case. */
  function UpperAscii(c: char): char {
    if 'a' <= c <= 'z' then (c as int - 'a' as int + 'A' as int) as char else c
  }

  function ToUpperAscii(s: string): string {
    seq(|s|, i requires 0 <= i < |s| => UpperAscii(s[i]))
  }

  /** The characters of the regular-expression class `\s`: the ECMAScript
      white space and line terminators. */
  predicate IsJsWhitespace(c: char) {
    c == '\t' || c == '\n' || c == '\U{B}' || c == '\U{C}' || c == '\r' || c == ' '
    || c == '\U{A0}' || c == '\U{1680}' || ('\U{2000}' <= c <= '\U{200A}')
    || c == '\U{2028}' || c == '\U{2029}' || c == '\U{202F}' || c == '\U{205F}'
    || c == '\U{3000}' || c == '\U{FEFF}'
  }

  predicate HasNoWhitespace(s: string) {
    forall i :: 0 <= i < |s| ==> !IsJsWhitespace(s[i])
  }

  predicate HasNoUpperAscii(s: string) {
    forall i :: 0 <= i < |s| ==> !IsUpperAscii(s[i])
  }

  /** The string after its leading run of white space. */
  function DropWhitespace(s: string): (r: string)
    ensures |r| <= |s| && r == s[|s| - |r|..]
    ensures r == [] || !IsJsWhitespace(r[0])
    ensures forall i :: 0 <= i < |s| - |r| ==> IsJsWhitespace(s[i])
    decreases |s|
  {
    if s != [] && IsJsWhitespace(s[0]) then DropWhitespace(s[1..]) else s
  }

  /** Replaces each run of white space by one `-` (`replace(/\s+/g, "-")`). */
  function CollapseWhitespace(s: string): (r: string)
    ensures HasNoWhitespace(r)
    decreases |s|
  {
    if s == [] then []
    else if IsJsWhitespace(s[0]) then "-" + CollapseWhitespace(DropWhitespace(s[1..]))
    else [s[0]] + CollapseWhitespace(s[1..])
  }

  /** Collapsing brings in no upper-case letter. */
  lemma {:induction false} CollapseKeepsLowerCase(s: string)
    requires HasNoUpperAscii(s)
    ensures HasNoUpperAscii(CollapseWhitespace(s))
    decreases |s|
  {
    if s != [] {
      if IsJsWhitespace(s[0]) {
        var rest := DropWhitespace(s[1..]);
        assert forall i :: 0 <= i < |rest| ==> rest[i] == s[1..][|s[1..]| - |rest| + i];
        CollapseKeepsLowerCase(rest);
      } else {
        CollapseKeepsLowerCase(s[1..]);
      }
    }
  }

  /** A string without white space is left as it is. */
  lemma {:induction false} CollapseWithoutWhitespace(s: string)
    requires HasNoWhitespace(s)
    ensures CollapseWhitespace(s) == s
    decreases |s|
  {
    if s != [] {
      CollapseWithoutWhitespace(s[1..]);
      assert [s[0]] + s[1..] == s;
    }
  }

  /** The normalised client name: lower case, white-space runs as `-`. */
  function NormalizeClientName(name: string): (n: string)
    ensures HasNoWhitespace(n) && HasNoUpperAscii(n)
    ensures name == [] ==> n == []
  {
    CollapseKeepsLowerCase(ToLowerAscii(name));
    CollapseWhitespace(ToLowerAscii(name))
  }

  /** Client names are matched regardless of ASCII case: upper-casing a name
      first does not change its normal form. */
  lemma NormalizeIgnoresCase(name: string)
    ensures NormalizeClientName(ToUpperAscii(name)) == NormalizeClientName(name)
  {
    var up := ToUpperAscii(name);
    forall i | 0 <= i < |name|
      ensures LowerAscii(up[i]) == LowerAscii(name[i])
    {
      assert up[i] == UpperAscii(name[i]);
    }
    assert ToLowerAscii(up) == ToLowerAscii(name);
  }

  /** A mixed-case desktop client name: "Claude Desktop" normalises to the
      table key "claude-desktop" and gets the Claude icon. */
  lemma MixedCaseNameExample()
    ensures NormalizeClientName("Claude Desktop") == "claude-desktop"
    ensures ResolveIconFile(NormalizeClientName("Claude Desktop")) == Some("claude.png")
  {
    ClaudeDesktopLowered();
    NormalizeJoinsWords("claude", " ", "desktop");
    assert "claude" + "-" + "desktop" == "claude-desktop";
    ClaudeDesktopIcon();
  }

  /** The lower-casing step of the example. */
  lemma ClaudeDesktopLowered()
    ensures ToLowerAscii("Claude Desktop") == "claude" + " " + "desktop"
  {
  }

  /** The table lookup step of the example. */
  lemma ClaudeDesktopIcon()
    ensures ResolveIconFile("claude-desktop") == Some("claude.png")
  {
    assert ExactLookup(ClientIconTable, "claude-desktop") == Some("claude.png");
  }

  /** A name with no upper-case letter and no white space is already
      normalised. */
  lemma NormalizedNamesAreFixed(name: string)
    requires HasNoUpperAscii(name) && HasNoWhitespace(name)
    ensures NormalizeClientName(name) == name
  {
    assert ToLowerAscii(name) == name;
    CollapseWithoutWhitespace(name);
  }

  predicate IsWhitespaceRun(gap: string) {
    |gap| > 0 && forall i :: 0 <= i < |gap| ==> IsJsWhitespace(gap[i])
  }

  /** A run of white space between two lower-case words becomes one `-`. */
  lemma NormalizeJoinsWords(a: string, gap: string, b: string)
    requires HasNoUpperAscii(a) && HasNoWhitespace(a) && HasNoUpperAscii(b) && HasNoWhitespace(b)
    requires IsWhitespaceRun(gap)
    ensures NormalizeClientName(a + gap + b) == a + "-" + b
  {
    var s := a + gap + b;
    assert HasNoUpperAscii(s) by {
      assert forall i :: 0 <= i < |gap| ==> !IsUpperAscii(gap[i]);
    }
    assert ToLowerAscii(s) == s;
    assert s == a + (gap + b);
    CollapseAfterWord(a, gap + b);
    CollapseRun(gap, b);
    CollapseWithoutWhitespace(b);
  }

  /** A whole run of white space, followed by the end of the text or by a
      character that is not white space, becomes one `-` and the rest is
      collapsed in turn. With `CollapseAfterWord` this covers any number of
      leading, inner and trailing runs. */
  lemma CollapseRun(gap: string, rest: string)
    requires IsWhitespaceRun(gap)
    requires rest == [] || !IsJsWhitespace(rest[0])
    ensures CollapseWhitespace(gap + rest) == "-" + CollapseWhitespace(rest)
  {
    assert (gap + rest)[0] == gap[0];
    assert (gap + rest)[1..] == gap[1..] + rest;
    DropRun(gap[1..], rest);
  }

  /** A prefix without white space is copied as it is. */
  lemma {:induction false} CollapseAfterWord(a: string, rest: string)
    requires HasNoWhitespace(a)
    ensures CollapseWhitespace(a + rest) == a + CollapseWhitespace(rest)
    decreases |a|
  {
    if a == [] {
      assert a + rest == rest;
    } else {
      assert (a + rest)[1..] == a[1..] + rest;
      CollapseAfterWord(a[1..], rest);
    }
  }

  /** Dropping white space stops at the first other character. */
  lemma {:induction false} DropRun(gap: string, b: string)
    requires forall i :: 0 <= i < |gap| ==> IsJsWhitespace(gap[i])
    requires b == [] || !IsJsWhitespace(b[0])
    ensures DropWhitespace(gap + b) == b
    decreases |gap|
  {
    if gap == [] {
      assert gap + b == b;
    } else {
      assert (gap + b)[1..] == gap[1..] + b;
      DropRun(gap[1..], b);
    }
  }

  /** Normalising a normalised name changes nothing. */
  lemma NormalizeClientNameIdempotent(name: string)
    ensures NormalizeClientName(NormalizeClientName(name)) == NormalizeClientName(name)
  {
    NormalizedNamesAreFixed(NormalizeClientName(name));
  }

  // ---------------------------------------------------------------------
  // Substring search and table lookup
  // ---------------------------------------------------------------------

  /** `hay.includes(needle)`. */
  function Contains(hay: string, needle: string): (r: bool)
    ensures needle == [] ==> r
    decreases |hay|
  {
    (|needle| <= |hay| && hay[..|needle|] == needle) || (hay != [] && Contains(hay[1..], needle))
  }

  /** The needle occurs in the haystack at offset `k`. */
  predicate OccursAt(hay: string, needle: string, k: int) {
    0 <= k && k + |needle| <= |hay| && hay[k..k + |needle|] == needle
  }

  /** `Contains` holds exactly when the needle occurs at some offset. */
  lemma {:induction false} ContainsAt(hay: string, needle: string)
    ensures Contains(hay, needle) <==> exists k :: OccursAt(hay, needle, k)
    decreases |hay|
  {
    if hay != [] {
      ContainsAt(hay[1..], needle);
      if exists k :: OccursAt(hay, needle, k) {
        var k :| OccursAt(hay, needle, k);
        if k > 0 {
          assert OccursAt(hay[1..], needle, k - 1) by {
            assert hay[1..][k - 1..k - 1 + |needle|] == hay[k..k + |needle|];
          }
        }
      }
      if Contains(hay[1..], needle) {
        var k :| OccursAt(hay[1..], needle, k);
        assert OccursAt(hay, needle, k + 1) by {
          assert hay[1..][k..k + |needle|] == hay[k + 1..k + 1 + |needle|];
        }
      }
      if |needle| <= |hay| && hay[..|needle|] == needle {
        assert OccursAt(hay, needle, 0);
      }
    } else {
      if |needle| <= |hay| {
        assert OccursAt(hay, needle, 0);
      }
    }
  }

  /** The file of the entry whose key is `key` (an own property). */
  function ExactLookup(table: seq<(string, string)>, key: string): (r: Option<string>)
    ensures r.Some? <==> exists i :: 0 <= i < |table| && table[i].0 == key
    ensures r.Some? ==> exists i :: 0 <= i < |table| && table[i] == (key, r.value)
    decreases |table|
  {
    if table == [] then None
    else if table[0].0 == key then Some(table[0].1)
    else ExactLookup(table[1..], key)
  }

  /** The file of the first entry, in table order, whose key occurs in the
      name (`Object.entries(...).find(...)`). */
  function FirstSubstringMatch(table: seq<(string, string)>, name: string): (r: Option<string>)
    ensures r.Some? <==> exists i :: 0 <= i < |table| && Contains(name, table[i].0)
    ensures r.Some? ==> exists i :: (0 <= i < |table| && Contains(name, table[i].0) && r.value == table[i].1
                                     && forall j :: 0 <= j < i ==> !Contains(name, table[j].0))
    decreases |table|
  {
    if table == [] then None
    else if Contains(name, table[0].0) then Some(table[0].1)
    else
      var r := FirstSubstringMatch(table[1..], name);
      assert r.Some? ==> exists i :: (0 <= i < |table| && Contains(name, table[i].0) && r.value == table[i].1
                                       && forall j :: 0 <= j < i ==> !Contains(name, table[j].0)) by {
        if r.Some? {
          var i :| 0 <= i < |table[1..]| && Contains(name, table[1..][i].0) && r.value == table[1..][i].1
              && forall j :: 0 <= j < i ==> !Contains(name, table[1..][j].0);
          assert forall j :: 0 <= j < i + 1 ==> !Contains(name, table[j].0) by {
            forall j | 0 <= j < i + 1 ensures !Contains(name, table[j].0) {
              if j > 0 {
                assert table[j] == table[1..][j - 1];
              }
            }
          }
        }
      }
      r
  }

  /** The icon file for a normalised name: the exact key first, then the
      first key contained in the name. */
  function ResolveIconFile(normalized: string): (file: Option<string>)
    ensures file.Some? ==> IsIconFile(file.value)
    ensures (exists i :: 0 <= i < |ClientIconTable| && ClientIconTable[i].0 == normalized) ==> file.Some?
    ensures file.Some? <==> exists i :: 0 <= i < |ClientIconTable| && Contains(normalized, ClientIconTable[i].0)
    ensures ExactLookup(ClientIconTable, normalized).Some? ==> file == ExactLookup(ClientIconTable, normalized)
    ensures ExactLookup(ClientIconTable, normalized).None? ==> file == FirstSubstringMatch(ClientIconTable, normalized)
  {
    var exact := ExactLookup(ClientIconTable, normalized);
    if exact.Some? then
      var i :| 0 <= i < |ClientIconTable| && ClientIconTable[i] == (normalized, exact.value);
      assert normalized[..|normalized|] == normalized;
      exact
    else FirstSubstringMatch(ClientIconTable, normalized)
  }

  /** The icon choice stated on the table itself: the file of the entry whose
      key is the name, or, when no key is the name, the file of the first
      entry whose key the name contains. */
  lemma IconChoiceRule(normalized: string)
    ensures var file := ResolveIconFile(normalized);
      file.Some? ==> (exists i :: (&& 0 <= i < |ClientIconTable| && file.value == ClientIconTable[i].1
        && (|| ClientIconTable[i].0 == normalized
            || (&& (forall j :: 0 <= j < |ClientIconTable| ==> ClientIconTable[j].0 != normalized)
                && Contains(normalized, ClientIconTable[i].0)
                && (forall j :: 0 <= j < i ==> !Contains(normalized, ClientIconTable[j].0))))))
  {
    var file := ResolveIconFile(normalized);
    if file.Some? {
      if ExactLookup(ClientIconTable, normalized).Some? {
        var i :| 0 <= i < |ClientIconTable| && ClientIconTable[i] == (normalized, file.value);
        assert file.value == ClientIconTable[i].1 && ClientIconTable[i].0 == normalized;
      } else {
        var i :| 0 <= i < |ClientIconTable| && Contains(normalized, ClientIconTable[i].0)
          && file.value == ClientIconTable[i].1
          && forall j :: 0 <= j < i ==> !Contains(normalized, ClientIconTable[j].0);
        assert file.value == ClientIconTable[i].1;
      }
    }
  }

  /** `path.join(dir, file)` for a plain file name. */
  function JoinPath(dir: string, file: string): (path: string)
    ensures |path| == |dir| + 1 + |file|
    ensures path[..|dir|] == dir && path[|dir|] == '/' && path[|dir| + 1..] == file
  {
    dir + "/" + file
  }

  /** The content image for a client: absent off macOS and for an absent or
      empty client name; otherwise the path of its icon in the clients
      directory, when there is one and that file exists. */
  function GetContentImageForClient(isMacOS: bool, clientName: Option<string>, clientsDir: string,
                                    fileExists: string -> bool): (image: Option<string>)
    ensures !isMacOS || clientName.None? || clientName.value == [] ==> image.None?
    ensures image.Some? ==> fileExists(image.value)
    ensures image.Some? ==> exists file :: IsIconFile(file) && image.value == JoinPath(clientsDir, file)
    ensures image.Some? ==> (&& clientName.Some?
                             && ResolveIconFile(NormalizeClientName(clientName.value)).Some?
                             && image.value == JoinPath(clientsDir, ResolveIconFile(NormalizeClientName(clientName.value)).value))
    ensures image.Some? <==> (isMacOS && clientName.Some? && clientName.value != []
                              && ResolveIconFile(NormalizeClientName(clientName.value)).Some?
                              && fileExists(JoinPath(clientsDir, ResolveIconFile(NormalizeClientName(clientName.value)).value)))
  {
    if !isMacOS || clientName.None? || clientName.value == [] then None
    else
      match ResolveIconFile(NormalizeClientName(clientName.value))
      case None => None
      case Some(file) =>
        var iconPath := JoinPath(clientsDir, file);
        if fileExists(iconPath) then Some(iconPath) else None
  }

  /** Exact keys win. */
  lemma ExactIconExamples()
    ensures ResolveIconFile("cursor") == Some("cursor.png")
    ensures ResolveIconFile("chatgpt") == Some("openai.png")
  {
  }

  /** Otherwise the first key in declaration order that the name contains
      decides, even when another key occurs earlier in the name. */
  lemma SubstringIconExample()
    ensures ResolveIconFile("vscode-claude") == Some("claude.png")
  {
    assert OccursAt("vscode-claude", "claude", 7);
    ContainsAt("vscode-claude", "claude");
  }

  // ---------------------------------------------------------------------
  // The lookup as written, and what it does on inherited property names
  // ---------------------------------------------------------------------

  /** The members every plain object inherits from `Object.prototype`. */
  const ObjectPrototypeMembers: set<string> := {
    "constructor", "__proto__", "hasOwnProperty", "isPrototypeOf", "propertyIsEnumerable",
    "toLocaleString", "toString", "valueOf", "__defineGetter__", "__defineSetter__",
    "__lookupGetter__", "__lookupSetter__"
  }

  /** What `CLIENT_ICONS[key]` yields: an own string value, an inherited
      member (a function or an object, neither nullish nor falsy), or
      `undefined`. */
  datatype PropertyValue = OwnString(file: string) | InheritedMember | Undefined

  function PropertyLookup(key: string): (v: PropertyValue)
    ensures v.OwnString? <==> ExactLookup(ClientIconTable, key).Some?
  {
    match ExactLookup(ClientIconTable, key)
    case Some(file) => OwnString(file)
    case None => if key in ObjectPrototypeMembers then InheritedMember else Undefined
  }

  /** `path.join` rejects an argument that is not a string. */
  datatype PathError = InvalidArgType

  /** The resolver as written: the bracket lookup reads inherited members,
      `??` passes them on because they are not nullish, and `path.join`
      throws on them. */
  function GetContentImageForClientAsWritten(isMacOS: bool, clientName: Option<string>, clientsDir: string,
                                             fileExists: string -> bool): (r: Result<Option<string>, PathError>)
    ensures r.Failure? ==> (isMacOS && clientName.Some?
                            && NormalizeClientName(clientName.value) in ObjectPrototypeMembers)
  {
    if !isMacOS || clientName.None? || clientName.value == [] then Success(None)
    else
      var normalized := NormalizeClientName(clientName.value);
      match PropertyLookup(normalized)
      case InheritedMember => Failure(InvalidArgType)
      case OwnString(file) =>
        var iconPath := JoinPath(clientsDir, file);
        Success(if fileExists(iconPath) then Some(iconPath) else None)
      case Undefined =>
        match FirstSubstringMatch(ClientIconTable, normalized)
        case None => Success(None)
        case Some(file) =>
          var iconPath := JoinPath(clientsDir, file);
          Success(if fileExists(iconPath) then Some(iconPath) else None)
  }

  /** Only two inherited members have all-lower-case names, so only they can
      be reached from a normalised name. */
  lemma ReachableInheritedMembers(key: string)
    requires key in ObjectPrototypeMembers && HasNoUpperAscii(key)
    ensures key == "constructor" || key == "__proto__"
  {
    assert "hasOwnProperty"[3] == 'O';
    assert "isPrototypeOf"[2] == 'P';
    assert "propertyIsEnumerable"[8] == 'I';
    assert "toLocaleString"[2] == 'L';
    assert "toString"[2] == 'S';
    assert "valueOf"[5] == 'O';
    assert "__defineGetter__"[8] == 'G';
    assert "__defineSetter__"[8] == 'S';
    assert "__lookupGetter__"[8] == 'G';
    assert "__lookupSetter__"[8] == 'S';
  }

  /** On macOS the client names "constructor" and "__proto__" (in any case)
      make the resolver as written throw instead of returning no image. */
  lemma AsWrittenThrowsOnInheritedNames(clientName: string, clientsDir: string, fileExists: string -> bool)
    requires NormalizeClientName(clientName) == "constructor" || NormalizeClientName(clientName) == "__proto__"
    ensures GetContentImageForClientAsWritten(true, Some(clientName), clientsDir, fileExists) == Failure(InvalidArgType)
  {
    InheritedLookup(NormalizeClientName(clientName));
  }

  /** The two reachable inherited names are no table key, so the lookup
      yields the inherited member. */
  lemma InheritedLookup(key: string)
    requires key == "constructor" || key == "__proto__"
    ensures PropertyLookup(key) == InheritedMember
  {
    assert key in ObjectPrototypeMembers;
    assert ExactLookup(ClientIconTable, key).None?;
  }

  /** A concrete input: the client name "constructor". */
  lemma AsWrittenCounterexample(clientsDir: string, fileExists: string -> bool)
    ensures GetContentImageForClientAsWritten(true, Some("constructor"), clientsDir, fileExists).Failure?
  {
    NormalizedNamesAreFixed("constructor");
    AsWrittenThrowsOnInheritedNames("constructor", clientsDir, fileExists);
  }

  /** Everywhere else the resolver as written and the corrected resolver
      agree. */
  lemma AsWrittenAgreesElsewhere(isMacOS: bool, clientName: Option<string>, clientsDir: string,
                                 fileExists: string -> bool)
    requires !(isMacOS && clientName.Some? && NormalizeClientName(clientName.value) in {"constructor", "__proto__"})
    ensures GetContentImageForClientAsWritten(isMacOS, clientName, clientsDir, fileExists)
         == Success(GetContentImageForClient(isMacOS, clientName, clientsDir, fileExists))
  {
    if isMacOS && clientName.Some? && clientName.value != [] {
      var n := NormalizeClientName(clientName.value);
      if n in ObjectPrototypeMembers && ExactLookup(ClientIconTable, n).None? {
        ReachableInheritedMembers(n);
      }
    }
  }

  // ---------------------------------------------------------------------
  // Timeouts, notifier options and the callback
  // ---------------------------------------------------------------------

  /** This module's own default tiers, in seconds. */
  function NotifierTimeout(kind: NotifyConfig.TimeoutKind): (seconds: nat)
    ensures seconds > 0
  {
    match kind
    case Simple => 20
    case Actions => 30
    case Reply => 60
  }

  /** An explicit timeout wins; then reply, then a non-empty action list,
      then the simple default. */
  function GetTimeout(options: NotifyOptions): (seconds: int)
    ensures options.timeout.Some? ==> seconds == options.timeout.value
    ensures options.timeout.None? ==> seconds in {20, 30, 60}
  {
    if options.timeout.Some? then options.timeout.value
    else if options.reply == Some(true) then 60
    else if options.actions.Some? && |options.actions.value| > 0 then 30
    else 20
  }

  /** The timeout rule here picks the same mode as the policy module but
      with other defaults, so the two agree only on explicit timeouts. */
  lemma GetTimeoutMatchesPolicyMode(options: NotifyOptions)
    ensures var selection := NotifyConfig.TimeoutSelection(options);
      options.timeout.None? ==> GetTimeout(options) == NotifierTimeout(NotifyConfig.GetTimeoutKind(selection))
    ensures (GetTimeout(options) == NotifyConfig.ResolveNotificationTimeout(NotifyConfig.TimeoutSelection(options)))
              <==> options.timeout.Some?
  {
  }

  /** The options handed to the notifier library. */
  datatype NotifierOptions = NotifierOptions(
    title: string,
    message: string,
    wait: bool,
    timeout: int,
    actions: Option<seq<string>>,
    dropdownLabel: Option<string>,
    reply: Option<bool>,
    contentImage: Option<string>)

  /** Always waits for the user, always carries the resolved timeout, and
      carries a content image only when a non-empty one was given. */
  function AssembleNotifierOptions(options: NotifyOptions): (n: NotifierOptions)
    ensures n.wait && n.timeout == GetTimeout(options)
    ensures n.title == options.title && n.message == options.message
    ensures n.actions == options.actions && n.dropdownLabel == options.dropdownLabel && n.reply == options.reply
    ensures n.contentImage.Some? <==> options.contentImage.Some? && options.contentImage.value != []
    ensures n.contentImage.Some? ==> n.contentImage == options.contentImage
  {
    NotifierOptions(options.title, options.message, true, GetTimeout(options), options.actions,
                    options.dropdownLabel, options.reply,
                    if options.contentImage.Some? && options.contentImage.value != [] then options.contentImage else None)
  }

  /** The metadata the notifier library passes to its callback. */
  datatype NotifierMetadata = NotifierMetadata(activationType: Option<string>, activationValue: Option<string>)

  /** `String(response)`: an absent response reads "undefined". */
  function ResponseText(response: Option<string>): (text: string)
    ensures response.Some? ==> text == response.value
    ensures response.None? ==> text == "undefined"
  {
    if response.Some? then response.value else "undefined"
  }

  /** An error rejects; otherwise the response text, the reply from the
      activation value and the activation type. */
  function NormalizeCallback<E>(err: Option<E>, response: Option<string>, metadata: Option<NotifierMetadata>)
    : (r: Result<NotifyResult, E>)
    ensures r.Failure? <==> err.Some?
    ensures r.Failure? ==> r.error == err.value
    ensures r.Success? ==> r.value.response == ResponseText(response)
    ensures r.Success? ==> r.value.reply == (if metadata.Some? then metadata.value.activationValue else None)
    ensures r.Success? ==> r.value.activationType == (if metadata.Some? then metadata.value.activationType else None)
  {
    if err.Some? then Failure(err.value)
    else
      var m := metadata.GetOr(NotifierMetadata(None, None));
      Success(NotifyResult(ResponseText(response), m.activationValue, m.activationType))
  }
}
