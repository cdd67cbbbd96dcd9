/** Text hygiene for agent-supplied strings: line endings are normalised,
    unsafe control characters are removed and the text is cut to a limit
    counted in code points. A Dafny `char` is a Unicode scalar value, so the
    length of a `string` here is its number of code points (`Array.from`). */
module Sanitizer {

  /** The cleaned text and whether it differs from the raw input. */
  datatype SanitizeResult = SanitizeResult(value: string, changed: bool)

  /** U+0000–U+0008, U+000B, U+000C, U+000E–U+001F and U+007F. Tab (U+0009),
      line feed (U+000A) and carriage return (U+000D) are not in the set. */
  predicate IsUnsafeControl(c: char) {
    var n := c as int;
    n <= 0x08 || n == 0x0B || n == 0x0C || (0x0E <= n <= 0x1F) || n == 0x7F
  }

  /** The unsafe class holds only C0 controls and DEL; tab, line feed and
      carriage return are not in it, and neither is any printable character. */
  lemma UnsafeControlsAreControls(c: char)
    ensures IsUnsafeControl(c) ==> c < ' ' || c == '\U{7F}'
    ensures !IsUnsafeControl('\t') && !IsUnsafeControl('\n') && !IsUnsafeControl('\r')
    ensures IsUnsafeControl('\U{0}') && IsUnsafeControl('\U{7}') && IsUnsafeControl('\U{1B}')
  {
  }

  /** Text the sanitiser can emit: no carriage return and no unsafe control. */
  predicate IsCleanText(s: string) {
    forall i :: 0 <= i < |s| ==> s[i] != '\r' && !IsUnsafeControl(s[i])
  }

  /** `sub` keeps some of the characters of `s`, in their order. */
  predicate IsSubsequence(sub: string, s: string)
    decreases |s|
  {
    if sub == [] then true
    else if s == [] then false
    else if sub[0] == s[0] then IsSubsequence(sub[1..], s[1..])
    else IsSubsequence(sub, s[1..])
  }

  /** The number of `\r\n` pairs in `s`. */
  function CrLfPairs(s: string): nat
    decreases |s|
  {
    if |s| < 2 then 0
    else (if s[0] == '\r' && s[1] == '\n' then 1 else 0) + CrLfPairs(s[1..])
  }

  /** Replaces every `\r\n` and every bare `\r` by `\n`. */
  function NormalizeNewlines(s: string): (r: string)
    ensures forall i :: 0 <= i < |r| ==> r[i] != '\r'
    ensures (forall i :: 0 <= i < |s| ==> s[i] != '\r') ==> r == s
    decreases |s|
  {
    if |s| == 0 then []
    else if s[0] == '\r' && |s| >= 2 && s[1] == '\n' then
      "\n" + NormalizeNewlines(s[2..])
    else if s[0] == '\r' then
      "\n" + NormalizeNewlines(s[1..])
    else
      [s[0]] + NormalizeNewlines(s[1..])
  }

  /** Normalising keeps every character other than `\r` and `\n`. */
  lemma {:induction false} NormalizeNewlinesKeepsOthers(s: string, c: char)
    requires c != '\r' && c != '\n'
    ensures multiset(NormalizeNewlines(s))[c] == multiset(s)[c]
    decreases |s|
  {
    if |s| > 0 {
      var k, head := NormalizeNewlinesStep(s);
      NormalizeNewlinesKeepsOthers(s[k..], c);
      CountSplit(s, k, c);
      CountSplit(NormalizeNewlines(s), |head|, c);
    }
  }

  /** The first line break or character of `s`, `k` characters long, and
      what normalising makes of it. */
  lemma NormalizeNewlinesStep(s: string) returns (k: nat, head: string)
    requires |s| > 0
    ensures k == (if s[0] == '\r' && |s| >= 2 && s[1] == '\n' then 2 else 1) && k <= |s|
    ensures head == if s[0] == '\r' then "\n" else [s[0]]
    ensures NormalizeNewlines(s) == head + NormalizeNewlines(s[k..])
    ensures NormalizeNewlines(s)[..|head|] == head
    ensures NormalizeNewlines(s)[|head|..] == NormalizeNewlines(s[k..])
    ensures forall c :: c != '\r' && c != '\n' ==> multiset(s[..k])[c] == multiset(head)[c]
  {
    k := if s[0] == '\r' && |s| >= 2 && s[1] == '\n' then 2 else 1;
    head := if s[0] == '\r' then "\n" else [s[0]];
    var r := NormalizeNewlines(s);
    if k == 2 {
      assert r == head + NormalizeNewlines(s[2..]);
      assert s[..k] == ['\r', '\n'];
      assert multiset(s[..k]) == multiset{'\r', '\n'};
    } else if s[0] == '\r' {
      assert r == head + NormalizeNewlines(s[1..]);
      assert s[..k] == ['\r'];
    } else {
      assert r == head + NormalizeNewlines(s[1..]);
      assert s[..k] == head;
    }
    assert r[..|head|] == head && r[|head|..] == NormalizeNewlines(s[k..]);
  }

  /** Normalising works piece by piece: text may be cut anywhere except
      between the two halves of a `\r\n` pair, and each piece is normalised
      where it stands. */
  lemma {:induction false} NormalizeNewlinesAppend(a: string, b: string)
    requires !(a != [] && a[|a| - 1] == '\r' && b != [] && b[0] == '\n')
    ensures NormalizeNewlines(a + b) == NormalizeNewlines(a) + NormalizeNewlines(b)
    decreases |a|
  {
    if a == [] {
      assert a + b == b;
    } else {
      var rest, head := AppendStep(a, b);
      NormalizeNewlinesAppend(rest, b);
      AppendCombine(NormalizeNewlines(a + b), NormalizeNewlines(a), head, NormalizeNewlines(rest), NormalizeNewlines(b));
    }
  }

  /** Regrouping of the pieces in the inductive step of
      `NormalizeNewlinesAppend`. */
  lemma AppendCombine(nab: string, na: string, head: string, nr: string, nb: string)
    requires na == head + nr && nab == head + (nr + nb)
    ensures nab == na + nb
  {
  }

  /** The first line break or character of `a` is the same in `a + b`, and
      normalises the same way, unless it is a `\r` that `b` completes. */
  lemma AppendStep(a: string, b: string) returns (rest: string, head: string)
    requires a != [] && !(a[|a| - 1] == '\r' && b != [] && b[0] == '\n')
    ensures |rest| < |a|
    ensures NormalizeNewlines(a) == head + NormalizeNewlines(rest)
    ensures NormalizeNewlines(a + b) == head + NormalizeNewlines(rest + b)
    ensures !(rest != [] && rest[|rest| - 1] == '\r' && b != [] && b[0] == '\n')
  {
    var ab := a + b;
    assert ab[0] == a[0];
    var k := if a[0] == '\r' && |a| >= 2 && a[1] == '\n' then 2 else 1;
    head := if a[0] == '\r' then "\n" else [a[0]];
    rest := a[k..];
    assert ab[k..] == rest + b;
    assert rest != [] ==> rest[|rest| - 1] == a[|a| - 1];
    if k == 2 {
      assert ab[1] == a[1];
    } else if |a| >= 2 {
      assert ab[1] == a[1];
    }
  }

  /** The pieces themselves: a `\r\n` pair and a lone `\r` each become one
      `\n`, and every other character stays as it is. */
  lemma NormalizeNewlinesPieces(c: char)
    ensures NormalizeNewlines("\r\n") == "\n" && NormalizeNewlines("\r") == "\n"
    ensures c != '\r' ==> NormalizeNewlines([c]) == [c]
  {
  }

  /** Counting line breaks: the output has one `\n` per line break of the
      input, in any of the spellings `\r\n`, `\r` and `\n`. */
  lemma {:induction false} NormalizeNewlinesCountsBreaks(s: string)
    ensures multiset(NormalizeNewlines(s))['\n'] + CrLfPairs(s) == multiset(s)['\n'] + multiset(s)['\r']
    decreases |s|
  {
    if |s| == 0 {
    } else {
      var k, head := NormalizeNewlinesStep(s);
      NormalizeNewlinesCountsBreaks(s[k..]);
      LineBreakHeadPairs(s, k);
      calc {
        multiset(NormalizeNewlines(s))['\n'] + CrLfPairs(s);
        multiset(head + NormalizeNewlines(s[k..]))['\n'] + CrLfPairs(s);
        { assert multiset(head + NormalizeNewlines(s[k..])) == multiset(head) + multiset(NormalizeNewlines(s[k..])); }
        multiset(head)['\n'] + multiset(NormalizeNewlines(s[k..]))['\n'] + (if k == 2 then 1 else 0) + CrLfPairs(s[k..]);
        multiset(head)['\n'] + (if k == 2 then 1 else 0) + multiset(s[k..])['\n'] + multiset(s[k..])['\r'];
        { LineBreakHeadCounts(s, k, head); }
        multiset(s[..k])['\n'] + multiset(s[..k])['\r'] + multiset(s[k..])['\n'] + multiset(s[k..])['\r'];
        { assert s == s[..k] + s[k..]; }
        multiset(s)['\n'] + multiset(s)['\r'];
      }
    }
  }

  /** The pairs count of the first line break of `s` or its first character. */
  lemma LineBreakHeadPairs(s: string, k: nat)
    requires |s| > 0 && k == if s[0] == '\r' && |s| >= 2 && s[1] == '\n' then 2 else 1
    ensures CrLfPairs(s) == (if k == 2 then 1 else 0) + CrLfPairs(s[k..])
  {
    if k == 2 {
      assert s[1..][1..] == s[2..];
    }
  }

  /** The newline and carriage-return counts of the first line break of `s`
      or its first character, against its normalised form `head`. */
  lemma LineBreakHeadCounts(s: string, k: nat, head: string)
    requires |s| > 0 && k == if s[0] == '\r' && |s| >= 2 && s[1] == '\n' then 2 else 1
    requires head == if s[0] == '\r' then "\n" else [s[0]]
    ensures multiset(head)['\n'] + (if k == 2 then 1 else 0) == multiset(s[..k])['\n'] + multiset(s[..k])['\r']
  {
    var r := NormalizeNewlines(s);
    if k == 2 {
      assert r == head + NormalizeNewlines(s[2..]);
      assert s[..k] == ['\r', '\n'];
      assert multiset(s[..k]) == multiset{'\r', '\n'};
    } else if s[0] == '\r' {
      assert r == head + NormalizeNewlines(s[1..]);
      assert s[..k] == ['\r'];
    } else {
      assert r == head + NormalizeNewlines(s[1..]);
      assert s[..k] == head;
    }
    assert r[..|head|] == head && r[|head|..] == NormalizeNewlines(s[k..]);
  }

  /** Removes every unsafe control character and keeps everything else. */
  function StripUnsafeControls(s: string): (r: string)
    ensures forall i :: 0 <= i < |r| ==> !IsUnsafeControl(r[i])
    ensures (forall i :: 0 <= i < |s| ==> !IsUnsafeControl(s[i])) ==> r == s
    decreases |s|
  {
    if |s| == 0 then []
    else (if IsUnsafeControl(s[0]) then [] else [s[0]]) + StripUnsafeControls(s[1..])
  }

  /** The occurrences of `c` in `s` are those before and after position `k`. */
  lemma CountSplit(s: string, k: nat, c: char)
    requires k <= |s|
    ensures multiset(s)[c] == multiset(s[..k])[c] + multiset(s[k..])[c]
  {
    assert s == s[..k] + s[k..];
  }

  /** Stripping keeps the count of every other character. */
  lemma {:induction false} StripUnsafeControlsKeepsOthers(s: string, c: char)
    requires !IsUnsafeControl(c)
    ensures multiset(StripUnsafeControls(s))[c] == multiset(s)[c]
    decreases |s|
  {
    if |s| > 0 {
      var head := if IsUnsafeControl(s[0]) then [] else [s[0]];
      var r := StripUnsafeControls(s);
      StripUnsafeControlsKeepsOthers(s[1..], c);
      CountSplit(s, 1, c);
      assert r == head + StripUnsafeControls(s[1..]);
      CountSplit(r, |head|, c);
      assert r[..|head|] == head && r[|head|..] == StripUnsafeControls(s[1..]);
      assert s[..1] == [s[0]];
    }
  }

  /** Stripping keeps the remaining characters in their order. */
  lemma {:induction false} StripUnsafeControlsKeepsOrder(s: string)
    ensures IsSubsequence(StripUnsafeControls(s), s)
    decreases |s|
  {
    if |s| > 0 {
      var rest := StripUnsafeControls(s[1..]);
      StripUnsafeControlsKeepsOrder(s[1..]);
      if IsUnsafeControl(s[0]) {
        assert StripUnsafeControls(s) == rest;
        assert rest != [] ==> rest[0] != s[0];
      } else {
        var r := [s[0]] + rest;
        assert r[1..] == rest;
      }
    }
  }

  /** The longest prefix of `s` with at most `maxLength` code points. */
  function Truncate(s: string, maxLength: nat): (r: string)
    ensures |r| <= |s| && r == s[..|r|] && |r| <= maxLength
    ensures |s| <= maxLength ==> r == s
    ensures |s| > maxLength ==> |r| == maxLength
  {
    if |s| <= maxLength then s else s[..maxLength]
  }

  /** Normalises line endings, strips unsafe controls, truncates, and reports
      whether the final value differs from the raw input. The value is
      unchanged exactly when the input was already clean and within the limit. */
  function SanitizeText(value: string, maxLength: nat): (r: SanitizeResult)
    ensures |r.value| <= maxLength
    ensures IsCleanText(r.value)
    ensures r.changed <==> r.value != value
    ensures !r.changed <==> IsCleanText(value) && |value| <= maxLength
  {
    var normalized := NormalizeNewlines(value);
    var withoutUnsafeControls := StripUnsafeControls(normalized);
    var truncated := Truncate(withoutUnsafeControls, maxLength);
    assert '\r' !in withoutUnsafeControls by {
      StripUnsafeControlsKeepsOthers(normalized, '\r');
      assert multiset(withoutUnsafeControls)['\r'] == multiset(normalized)['\r'];
      assert '\r' !in normalized;
    }
    SanitizeResult(truncated, truncated != value)
  }

  /** Sanitising a sanitised value again with the same limit is the identity
      and reports no change. */
  lemma SanitizeTextIdempotent(value: string, maxLength: nat)
    ensures var once := SanitizeText(value, maxLength).value;
            SanitizeText(once, maxLength) == SanitizeResult(once, false)
  {
  }

  /** A cleaned text longer than the limit is cut to exactly the limit, and the
      result is flagged as changed. */
  lemma SanitizeTextTruncatesToLimit(value: string, maxLength: nat)
    requires |StripUnsafeControls(NormalizeNewlines(value))| > maxLength
    ensures |SanitizeText(value, maxLength).value| == maxLength
    ensures SanitizeText(value, maxLength).value == StripUnsafeControls(NormalizeNewlines(value))[..maxLength]
    ensures SanitizeText(value, maxLength).changed
  {
  }

  /** Without truncation nothing but line-ending spellings and unsafe controls
      is lost: every other character (tab included) keeps its count, and the
      output has one `\n` per line break of the input. */
  lemma SanitizeTextKeepsContent(value: string, maxLength: nat)
    requires |StripUnsafeControls(NormalizeNewlines(value))| <= maxLength
    ensures var r := SanitizeText(value, maxLength).value;
            && (forall c :: c != '\r' && c != '\n' && !IsUnsafeControl(c) ==> multiset(r)[c] == multiset(value)[c])
            && multiset(r)['\n'] + CrLfPairs(value) == multiset(value)['\n'] + multiset(value)['\r']
  {
    var normalized := NormalizeNewlines(value);
    NormalizeNewlinesCountsBreaks(value);
    forall c | c != '\r' && c != '\n' && !IsUnsafeControl(c)
      ensures multiset(StripUnsafeControls(normalized))[c] == multiset(value)[c]
    {
      NormalizeNewlinesKeepsOthers(value, c);
      StripUnsafeControlsKeepsOthers(normalized, c);
    }
    StripUnsafeControlsKeepsOthers(normalized, '\n');
  }
}
