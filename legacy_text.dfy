/** The backward-compatible line-based rendering of the output record: one
    line `key: <JSON value>` per defined field, in the fixed legacy order,
    joined with line feeds. Because every value is JSON-encoded, no value can
    break a line, and a reader that splits on line feeds and on the first
    colon of each line recovers exactly the record's fields. */
module LegacyText {
  import opened Wrappers
  import opened ToolResultConfig
  import opened Payload
  import opened NotifyTypes
  import Json

  /** One rendered field: its key and its value. */
  datatype Entry = Entry(key: string, value: Json.Scalar)

  /** `key: value` with the value JSON-encoded. */
  function Line(e: Entry): (line: string)
    ensures |line| > |e.key| + 2
    ensures line[..|e.key| + 2] == e.key + ": " && line[|e.key| + 2..] == Json.Stringify(e.value)
  {
    e.key + ": " + Json.Stringify(e.value)
  }

  /** The defined fields of `p` among `fields`, in that order, with their
      values; fields whose value is absent are skipped. */
  function Entries(p: SendNotificationOutput, fields: seq<Field>): (es: seq<Entry>)
    ensures |es| <= |fields|
    decreases |fields|
  {
    if fields == [] then []
    else
      var v := FieldValue(p, fields[0]);
      var rest := Entries(p, fields[1..]);
      if v.Some? then [Entry(FieldName(fields[0]), v.value)] + rest else rest
  }

  function Lines(es: seq<Entry>): (lines: seq<string>)
    ensures |lines| == |es|
    ensures forall i :: 0 <= i < |es| ==> lines[i] == Line(es[i])
  {
    seq(|es|, i requires 0 <= i < |es| => Line(es[i]))
  }

  /** `Array.prototype.join("\n")`. */
  function JoinLines(lines: seq<string>): (text: string)
    ensures lines == [] ==> text == []
    ensures lines != [] ==> lines[0] <= text
    decreases |lines|
  {
    if lines == [] then ""
    else if |lines| == 1 then lines[0]
    else lines[0] + "\n" + JoinLines(lines[1..])
  }

  /** The legacy text of a payload. */
  function FormatLegacyText(p: SendNotificationOutput): (text: string)
    ensures Line(Entry("status", Json.JString(StatusText(p.status)))) <= text
  {
    StatusEntryFirst(p);
    JoinLines(Lines(Entries(p, LegacyTextFields)))
  }

  /** `String.prototype.split("\n")`: the pieces between line feeds; the
      empty string gives one empty piece. */
  function SplitLines(s: string): (pieces: seq<string>)
    ensures |pieces| > 0
    decreases |s|
  {
    if s == [] then [""]
    else
      var rest := SplitLines(s[1..]);
      if s[0] == '\n' then [""] + rest else [[s[0]] + rest[0]] + rest[1..]
  }

  /** The index of the first colon, or the length when there is none. */
  function ColonIndex(s: string): (k: nat)
    ensures k <= |s|
    ensures k < |s| ==> s[k] == ':'
    ensures forall i :: 0 <= i < k ==> s[i] != ':'
    decreases |s|
  {
    if s == [] then 0 else if s[0] == ':' then 0 else 1 + ColonIndex(s[1..])
  }

  /** Reads one line: the key up to the first colon, then a space, then a
      JSON value. */
  function ParseLine(line: string): Option<Entry> {
    var k := ColonIndex(line);
    if k + 2 <= |line| && line[k..k + 2] == ": " then
      match Json.Parse(line[k + 2..])
      case Some(v) => Some(Entry(line[..k], v))
      case None => None
    else None
  }

  function ParseLines(lines: seq<string>): Option<seq<Entry>>
    decreases |lines|
  {
    if lines == [] then Some([])
    else match (ParseLine(lines[0]), ParseLines(lines[1..]))
      case (Some(e), Some(es)) => Some([e] + es)
      case _ => None
  }

  /** A consumer's reading of the legacy text. */
  function ParseLegacyText(text: string): Option<seq<Entry>> {
    ParseLines(SplitLines(text))
  }

  predicate NoLineFeed(s: string) {
    forall i :: 0 <= i < |s| ==> s[i] != '\n'
  }

  predicate NoColon(s: string) {
    forall i :: 0 <= i < |s| ==> s[i] != ':'
  }

  /** Every entry of `Entries(p, fields)` is a defined field of `fields`,
      under its own key and with its own value, and every defined field of
      `fields` has its entry. */
  lemma {:induction false} EntriesAreDefinedFields(p: SendNotificationOutput, fields: seq<Field>)
    ensures forall e :: e in Entries(p, fields) <==>
              exists f :: f in fields && FieldValue(p, f).Some? && e == Entry(FieldName(f), FieldValue(p, f).value)
    decreases |fields|
  {
    if fields != [] {
      EntriesAreDefinedFields(p, fields[1..]);
      assert fields == [fields[0]] + fields[1..];
    }
  }

  /** A defined field of the list always has its entry. */
  lemma {:induction false} DefinedFieldHasEntry(p: SendNotificationOutput, fields: seq<Field>, f: Field)
    requires f in fields && FieldValue(p, f).Some?
    ensures Entry(FieldName(f), FieldValue(p, f).value) in Entries(p, fields)
    decreases |fields|
  {
    if fields[0] != f {
      DefinedFieldHasEntry(p, fields[1..], f);
    }
  }

  /** Entries keep the order of the fields they come from. */
  lemma {:induction false} EntriesAppend(p: SendNotificationOutput, a: seq<Field>, b: seq<Field>)
    ensures Entries(p, a + b) == Entries(p, a) + Entries(p, b)
    decreases |a|
  {
    if a == [] {
      assert a + b == b;
    } else {
      assert (a + b)[1..] == a[1..] + b;
      EntriesAppend(p, a[1..], b);
    }
  }

  /** No rendered line contains a line feed, and the key part has no colon. */
  lemma LineShape(e: Entry)
    requires NoColon(e.key) && NoLineFeed(e.key)
    ensures NoLineFeed(Line(e))
    ensures ColonIndex(Line(e)) == |e.key|
  {
    var t := Json.Stringify(e.value);
    var tail := ": " + t;
    assert NoLineFeed(tail) by {
      forall i | 0 <= i < |tail| ensures tail[i] != '\n' {
        if i >= 2 {
          assert tail[i] == t[i - 2];
        }
      }
    }
    assert Line(e) == e.key + tail;
    ColonAfterKey(e.key, tail);
  }

  lemma {:induction false} ColonAfterKey(key: string, rest: string)
    requires NoColon(key)
    ensures ColonIndex(key + rest) == |key| + ColonIndex(rest)
    decreases |key|
  {
    if key != [] {
      assert (key + rest)[1..] == key[1..] + rest;
      ColonAfterKey(key[1..], rest);
    } else {
      assert key + rest == rest;
    }
  }

  /** A rendered line reads back as its entry. */
  lemma ParseLineOfLine(e: Entry)
    requires NoColon(e.key) && NoLineFeed(e.key)
    ensures ParseLine(Line(e)) == Some(e)
  {
    var line := Line(e);
    LineShape(e);
    var k := |e.key|;
    assert line[k..k + 2] == ": ";
    assert line[k + 2..] == Json.Stringify(e.value);
    assert line[..k] == e.key;
    Json.ParseStringify(e.value);
  }

  /** Splitting text that starts with a line-feed-free piece. */
  lemma {:induction false} SplitLinesPrefix(a: string, rest: string)
    requires NoLineFeed(a)
    ensures SplitLines(a + rest) == [a + SplitLines(rest)[0]] + SplitLines(rest)[1..]
    decreases |a|
  {
    if a == [] {
      assert a + rest == rest;
      assert a + SplitLines(rest)[0] == SplitLines(rest)[0];
      assert [SplitLines(rest)[0]] + SplitLines(rest)[1..] == SplitLines(rest);
    } else {
      assert (a + rest)[1..] == a[1..] + rest;
      SplitLinesPrefix(a[1..], rest);
      assert [a[0]] + (a[1..] + SplitLines(rest)[0]) == a + SplitLines(rest)[0];
    }
  }

  /** Splitting undoes joining when no line contains a line feed. */
  lemma {:induction false} SplitJoin(lines: seq<string>)
    requires |lines| > 0
    requires forall i :: 0 <= i < |lines| ==> NoLineFeed(lines[i])
    ensures SplitLines(JoinLines(lines)) == lines
    decreases |lines|
  {
    if |lines| == 1 {
      SplitLinesPrefix(lines[0], "");
      assert lines[0] + "" == lines[0];
    } else {
      SplitJoin(lines[1..]);
      var tail := JoinLines(lines[1..]);
      assert JoinLines(lines) == lines[0] + ("\n" + tail);
      SplitLinesPrefix(lines[0], "\n" + tail);
      assert ("\n" + tail)[1..] == tail;
      assert SplitLines("\n" + tail) == [""] + lines[1..];
      assert lines[0] + "" == lines[0];
      assert [lines[0]] + lines[1..] == lines;
    }
  }

  /** Parsing the lines of a sequence of entries gives the entries back. */
  lemma {:induction false} ParseLinesOfLines(es: seq<Entry>)
    requires forall i :: 0 <= i < |es| ==> NoColon(es[i].key) && NoLineFeed(es[i].key)
    ensures ParseLines(Lines(es)) == Some(es)
    decreases |es|
  {
    if es != [] {
      ParseLinesOfLines(es[1..]);
      ParseLineOfLine(es[0]);
      assert Lines(es)[1..] == Lines(es[1..]);
      assert [es[0]] + es[1..] == es;
    }
  }

  /** Every key of `Entries` is a field name: no colon and no line feed. */
  lemma {:induction false} EntryKeysAreFieldNames(p: SendNotificationOutput, fields: seq<Field>)
    ensures forall i :: 0 <= i < |Entries(p, fields)| ==>
              NoColon(Entries(p, fields)[i].key) && NoLineFeed(Entries(p, fields)[i].key)
    decreases |fields|
  {
    if fields != [] {
      EntryKeysAreFieldNames(p, fields[1..]);
      var _ := FieldName(fields[0]);
    }
  }

  /** The legacy text reads back as exactly the payload's defined fields, in
      the legacy order, one per line. */
  lemma LegacyTextRoundTrip(p: SendNotificationOutput)
    ensures SplitLines(FormatLegacyText(p)) == Lines(Entries(p, LegacyTextFields))
    ensures ParseLegacyText(FormatLegacyText(p)) == Some(Entries(p, LegacyTextFields))
  {
    var es := Entries(p, LegacyTextFields);
    EntryKeysAreFieldNames(p, LegacyTextFields);
    StatusEntryFirst(p);
    forall i | 0 <= i < |es| ensures NoLineFeed(Lines(es)[i]) {
      LineShape(es[i]);
    }
    SplitJoin(Lines(es));
    ParseLinesOfLines(es);
  }

  /** The first line is always the status, and there is one line per
      defined field. */
  lemma LegacyTextLineCount(p: SendNotificationOutput)
    ensures var lines := SplitLines(FormatLegacyText(p));
      && lines[0] == Line(Entry("status", Json.JString(StatusText(p.status))))
      && |lines| == |Entries(p, LegacyTextFields)|
      && 1 <= |lines| <= 8
  {
    var es := Entries(p, LegacyTextFields);
    LegacyTextRoundTrip(p);
    StatusEntryFirst(p);
    LegacyTextFieldsArePermutation();
    assert Lines(es)[0] == Line(es[0]);
  }

  /** The status is always defined and comes first. */
  lemma StatusEntryFirst(p: SendNotificationOutput)
    ensures |Entries(p, LegacyTextFields)| >= 1
    ensures Entries(p, LegacyTextFields)[0] == Entry("status", Json.JString(StatusText(p.status)))
  {
    assert LegacyTextFields[0] == Status;
    assert FieldValue(p, Status) == Some(Json.JString(StatusText(p.status)));
  }

  /** The entries of a success payload without the sanitised flag when the
      notifier reported an activation type and a reply: status, title,
      message, response, activation type and reply, in that order. */
  lemma SuccessEntries(title: string, message: string, result: NotifyResult)
    requires result.activationType.Some? && result.reply.Some?
    ensures Entries(BuildSuccessPayload(title, message, result, false), LegacyTextFields)
         == SixEntries(title, message, result.response, result.activationType.value, result.reply.value)
  {
    var p := BuildSuccessPayload(title, message, result, false);
    assert p.sanitized.None? && p.error.None?;
    SixFieldEntries(p);
  }

  /** The entries of a delivered payload whose fields other than error and
      the sanitised flag are all present. */
  lemma SixFieldEntries(p: SendNotificationOutput)
    requires p.status == StatusSent && p.title.Some? && p.message.Some?
    requires p.response.Some? && p.activationType.Some? && p.reply.Some?
    requires p.error.None? && p.sanitized.None?
    ensures Entries(p, LegacyTextFields)
         == SixEntries(p.title.value, p.message.value, p.response.value, p.activationType.value, p.reply.value)
  {
    var fs := LegacyTextFields;
    TitleOnwards(p);
    ResponseOnwards(p);
    assert Entries(p, fs) == [Entry("status", Json.JString("sent"))] + Entries(p, fs[1..]);
  }

  /** The title and message entries, then those from `response` on. */
  lemma TitleOnwards(p: SendNotificationOutput)
    requires p.title.Some? && p.message.Some?
    ensures Entries(p, LegacyTextFields[1..])
         == [Entry("title", Json.JString(p.title.value)), Entry("message", Json.JString(p.message.value))]
            + Entries(p, LegacyTextFields[3..])
  {
    var fs := LegacyTextFields;
    assert fs[1..][1..] == fs[2..] && fs[2..][1..] == fs[3..];
    assert Entries(p, fs[2..]) == [Entry("message", Json.JString(p.message.value))] + Entries(p, fs[3..]);
  }

  /** The six entries of a delivered notification with an activation type
      and a reply. */
  function SixEntries(title: string, message: string, response: string, activationType: string, reply: string)
    : seq<Entry>
  {
    [Entry("status", Json.JString("sent")), Entry("title", Json.JString(title)),
     Entry("message", Json.JString(message)), Entry("response", Json.JString(response)),
     Entry("activationType", Json.JString(activationType)), Entry("reply", Json.JString(reply))]
  }

  /** The entries from `response` on of a payload with a response, an
      activation type and a reply but neither error nor sanitised flag. */
  lemma ResponseOnwards(p: SendNotificationOutput)
    requires p.response.Some? && p.activationType.Some? && p.reply.Some?
    requires p.error.None? && p.sanitized.None?
    ensures Entries(p, LegacyTextFields[3..])
         == [Entry("response", Json.JString(p.response.value)),
             Entry("activationType", Json.JString(p.activationType.value)),
             Entry("reply", Json.JString(p.reply.value))]
  {
    var fs := LegacyTextFields;
    assert fs[6..] == [Error, Sanitized];
    assert Entries(p, fs[6..]) == [];
    assert fs[5..][1..] == fs[6..] && fs[4..][1..] == fs[5..] && fs[3..][1..] == fs[4..];
    assert Entries(p, fs[5..]) == [Entry("reply", Json.JString(p.reply.value))];
    assert Entries(p, fs[4..]) == [Entry("activationType", Json.JString(p.activationType.value))] + Entries(p, fs[5..]);
  }

  /** Such a payload renders as six lines, one per entry above. */
  lemma SuccessLegacyLines(title: string, message: string, result: NotifyResult)
    requires result.activationType.Some? && result.reply.Some?
    ensures SplitLines(FormatLegacyText(BuildSuccessPayload(title, message, result, false)))
         == Lines(SixEntries(title, message, result.response, result.activationType.value, result.reply.value))
  {
    LegacyTextRoundTrip(BuildSuccessPayload(title, message, result, false));
    SuccessEntries(title, message, result);
  }

  /** A plain string value is written between quotes unchanged. */
  lemma PlainLine(key: string, v: string)
    requires Json.IsPlain(v)
    ensures Line(Entry(key, Json.JString(v))) == key + ": " + ("\"" + v + "\"")
  {
    Json.EscapeStringPlain(v);
  }

  /** A value of two plain pieces around a line feed is written with the
      line feed escaped. */
  lemma TwoPieceLine(key: string, a: string, b: string)
    requires Json.IsPlain(a) && Json.IsPlain(b)
    ensures Line(Entry(key, Json.JString(a + "\n" + b))) == key + ": " + ("\"" + (a + "\\n" + b) + "\"")
  {
    EscapedWithLineFeed(a, b);
  }

  /** Escaping `a`, a line feed and `b`, both plain. */
  lemma EscapedWithLineFeed(a: string, b: string)
    requires Json.IsPlain(a) && Json.IsPlain(b)
    ensures Json.EscapeString(a + "\n" + b) == a + "\\n" + b
  {
    Json.EscapeStringAppend(a + "\n", b);
    Json.EscapeStringAppend(a, "\n");
    Json.EscapeStringPlain(a);
    Json.EscapeStringPlain(b);
    assert Json.EscapeString("\n") == "\\n";
  }

  /** A quotation mark and a reverse solidus between plain pieces are each
      written with a reverse solidus before them, so a value such as
      `path: "C:\temp"` stays inside its quotes. */
  lemma EscapedQuoteAndBackslash(a: string, b: string)
    requires Json.IsPlain(a) && Json.IsPlain(b)
    ensures Json.EscapeString(a + "\"" + b) == a + "\\\"" + b
    ensures Json.EscapeString(a + "\\" + b) == a + "\\\\" + b
  {
    Json.EscapeStringAppend(a + "\"", b);
    Json.EscapeStringAppend(a, "\"");
    Json.EscapeStringAppend(a + "\\", b);
    Json.EscapeStringAppend(a, "\\");
    Json.EscapeStringPlain(a);
    Json.EscapeStringPlain(b);
    assert Json.EscapeString("\"") == "\\\"";
    assert Json.EscapeString("\\") == "\\\\";
  }
}
