/** The argument scanner of the native notifier helper: it walks the
    command line from the first argument after the program name, takes the
    argument after `--title` or `--message` as that option's value, and
    succeeds only when both options were given. */
module Notifier {
  import opened Wrappers

  const TitleFlag: string := "--title"
  const MessageFlag: string := "--message"

  /** The options found so far; `None` when not seen. */
  datatype Scan = Scan(title: Option<string>, message: Option<string>)

  function OrElse(later: Option<string>, earlier: Option<string>): Option<string> {
    if later.Some? then later else earlier
  }

  /** Values found later override values found earlier. */
  function Override(earlier: Scan, later: Scan): Scan {
    Scan(OrElse(later.title, earlier.title), OrElse(later.message, earlier.message))
  }

  /** `args[i]` is a flag followed by a value. */
  predicate FlagWithValue(args: seq<string>, i: nat, flag: string) {
    i + 1 < |args| && args[i] == flag
  }

  /** What scanning from index `i` to the end finds, computed from the end
      backwards so that the last occurrence of a flag wins. */
  function ScanFrom(args: seq<string>, i: nat): Scan
    decreases |args| - i
  {
    if i >= |args| then Scan(None, None)
    else if FlagWithValue(args, i, TitleFlag) then
      Override(Scan(Some(args[i + 1]), None), ScanFrom(args, i + 2))
    else if FlagWithValue(args, i, MessageFlag) then
      Override(Scan(None, Some(args[i + 1])), ScanFrom(args, i + 2))
    else ScanFrom(args, i + 1)
  }

  /** The title and message, when both were found. */
  function BothOptions(s: Scan): (r: Option<(string, string)>)
    ensures r.Some? <==> s.title.Some? && s.message.Some?
    ensures r.Some? ==> r.value == (s.title.value, s.message.value)
  {
    if s.title.Some? && s.message.Some? then Some((s.title.value, s.message.value)) else None
  }

  /** The scanner: `i` starts after the program name and grows by two past
      a flag and its value, by one past anything else. */
  method ParseArgs(args: seq<string>) returns (r: Option<(string, string)>)
    ensures r == BothOptions(ScanFrom(args, 1))
  {
    var title: Option<string> := None;
    var message: Option<string> := None;
    var i := 1;
    while i < |args|
      invariant 1 <= i <= |args| + 1
      invariant Override(Scan(title, message), ScanFrom(args, i)) == ScanFrom(args, 1)
      decreases |args| - i
    {
      if args[i] == TitleFlag && i + 1 < |args| {
        title := Some(args[i + 1]);
        i := i + 2;
      } else if args[i] == MessageFlag && i + 1 < |args| {
        message := Some(args[i + 1]);
        i := i + 2;
      } else {
        i := i + 1;
      }
    }
    if title.Some? && message.Some? {
      r := Some((title.value, message.value));
    } else {
      r := None;
    }
  }

  /** A value found is the argument right after an occurrence of its flag at
      or after the start index. */
  lemma {:induction false} ScanFromSound(args: seq<string>, i: nat)
    ensures ScanFrom(args, i).title.Some? ==>
      exists j :: i <= j && FlagWithValue(args, j, TitleFlag) && args[j + 1] == ScanFrom(args, i).title.value
    ensures ScanFrom(args, i).message.Some? ==>
      exists j :: i <= j && FlagWithValue(args, j, MessageFlag) && args[j + 1] == ScanFrom(args, i).message.value
    decreases |args| - i
  {
    if i < |args| {
      if FlagWithValue(args, i, TitleFlag) || FlagWithValue(args, i, MessageFlag) {
        ScanFromSound(args, i + 2);
      } else {
        ScanFromSound(args, i + 1);
      }
    }
  }

  /** Scanning `prefix + suffix` from inside the prefix finds what scanning
      the prefix finds, overridden by what is found from the suffix's start,
      provided the prefix does not end with a flag that would take the
      suffix's first argument as its value. */
  lemma {:induction false} ScanAcross(prefix: seq<string>, suffix: seq<string>, i: nat)
    requires i <= |prefix|
    requires |prefix| > 0 ==> prefix[|prefix| - 1] != TitleFlag && prefix[|prefix| - 1] != MessageFlag
    ensures ScanFrom(prefix + suffix, i) == Override(ScanFrom(prefix, i), ScanFrom(prefix + suffix, |prefix|))
    decreases |prefix| - i
  {
    var args := prefix + suffix;
    var tail := ScanFrom(args, |prefix|);
    if i < |prefix| {
      assert args[i] == prefix[i];
      if i + 1 < |prefix| {
        assert args[i + 1] == prefix[i + 1];
      }
      if FlagWithValue(prefix, i, TitleFlag) || FlagWithValue(prefix, i, MessageFlag) {
        ScanAcross(prefix, suffix, i + 2);
      } else {
        ScanAcross(prefix, suffix, i + 1);
      }
    }
  }

  /** When a flag repeats, the last occurrence wins. */
  lemma LastTitleWins(prefix: seq<string>, value: string)
    requires |prefix| > 0 && prefix[|prefix| - 1] != TitleFlag && prefix[|prefix| - 1] != MessageFlag
    ensures ScanFrom(prefix + [TitleFlag, value], 1).title == Some(value)
    ensures ScanFrom(prefix + [TitleFlag, value], 1).message == ScanFrom(prefix, 1).message
  {
    var args := prefix + [TitleFlag, value];
    ScanAcross(prefix, [TitleFlag, value], 1);
    assert FlagWithValue(args, |prefix|, TitleFlag);
  }

  /** A flag in the final position, with no value after it, is skipped. */
  lemma TrailingFlagIgnored(prefix: seq<string>, flag: string)
    requires |prefix| > 0 && prefix[|prefix| - 1] != TitleFlag && prefix[|prefix| - 1] != MessageFlag
    ensures ScanFrom(prefix + [flag], 1) == ScanFrom(prefix, 1)
  {
    ScanAcross(prefix, [flag], 1);
    var s := ScanFrom(prefix, 1);
    assert Override(s, Scan(None, None)) == s;
  }

  /** The scan from `i` looks only at the arguments from `i` on. */
  lemma {:induction false} ScanReadsSuffix(a: seq<string>, b: seq<string>, i: nat)
    requires |a| == |b| && i <= |a| && a[i..] == b[i..]
    ensures ScanFrom(a, i) == ScanFrom(b, i)
    decreases |a| - i
  {
    if i < |a| {
      assert a[i] == a[i..][0] && b[i] == b[i..][0];
      if i + 1 < |a| {
        assert a[i + 1] == a[i..][1] && b[i + 1] == b[i..][1];
      }
      if i + 1 <= |a| {
        assert a[i + 1..] == a[i..][1..] && b[i + 1..] == b[i..][1..];
      }
      if i + 2 <= |a| {
        assert a[i + 2..] == a[i..][2..] && b[i + 2..] == b[i..][2..];
        ScanReadsSuffix(a, b, i + 2);
      }
      ScanReadsSuffix(a, b, i + 1);
    }
  }

  /** The program name in `args[0]` is never inspected. */
  lemma ProgramNameIgnored(args: seq<string>, name: string)
    requires |args| > 0
    ensures ScanFrom(args[0 := name], 1) == ScanFrom(args, 1)
  {
    ScanReadsSuffix(args[0 := name], args, 1);
  }

  /** The argument after a flag is its value even when it looks like a flag
      itself, and it is not read as a flag. */
  lemma FlagLikeValueConsumed(program: string, value: string)
    ensures ScanFrom([program, TitleFlag, MessageFlag, value], 1) == Scan(Some(MessageFlag), None)
  {
    var args := [program, TitleFlag, MessageFlag, value];
    assert FlagWithValue(args, 1, TitleFlag);
    assert ScanFrom(args, 3) == Scan(None, None);
  }
}
