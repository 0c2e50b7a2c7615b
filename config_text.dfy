/** Character classes and the small string routines that FileManager's
    KEY=value configuration reader is built from: comment detection,
    `find`, trimming, whitespace stripping, the quoted-value scanner,
    the escape decoder, and decimal text for font sizes. */
module ConfigText {

  /** A character C's `isspace` accepts in the "C" locale. */
  predicate IsSpace(c: char) {
    c == ' ' || c == '\t' || c == '\n' || c == '\r' || c == 11 as char || c == 12 as char
  }

  /** A character `extractValue` trims: a space or a tab. */
  predicate IsBlank(c: char) {
    c == ' ' || c == '\t'
  }

  predicate IsDigit(c: char) {
    '0' <= c <= '9'
  }

  predicate AllDigits(s: string) {
    forall k :: 0 <= k < |s| ==> IsDigit(s[k])
  }

  predicate NoSpaces(s: string) {
    forall k :: 0 <= k < |s| ==> !IsSpace(s[k])
  }

  /** `isCommentLine`: a line is a comment when it starts with `#`. */
  predicate IsCommentLine(line: string) {
    |line| > 0 && line[0] == '#'
  }

  /** `std::string::find` for one character: the index of the first `c`
      in `s`, with `std::string::npos` written as `|s|`. */
  function Find(s: string, c: char): (k: nat)
    ensures k <= |s|
    ensures k < |s| ==> s[k] == c
  {
    if s == [] then 0
    else if s[0] == c then 0
    else 1 + Find(s[1..], c)
  }

  /** True when `s` begins with `prefix` (`line.find(prefix) == 0`). */
  predicate StartsWith(s: string, prefix: string) {
    |prefix| <= |s| && s[..|prefix|] == prefix
  }

  // ---------------------------------------------------------------------
  // readTextFile's comment filter

  /** The lines the desktop `readTextFile` keeps: every line that is not a
      comment, in file order. */
  function NonComments(raw: seq<string>): (lines: seq<string>)
    ensures |lines| <= |raw|
  {
    if raw == [] then []
    else
      var kept := NonComments(raw[..|raw| - 1]);
      if IsCommentLine(raw[|raw| - 1]) then kept else kept + [raw[|raw| - 1]]
  }

  /** The kept lines are exactly the non-comment lines of the file. */
  lemma {:induction false} NonCommentsMembers(raw: seq<string>)
    ensures forall l :: l in NonComments(raw) <==> l in raw && !IsCommentLine(l)
  {
    if raw != [] {
      var init := raw[..|raw| - 1];
      NonCommentsMembers(init);
      assert raw == init + [raw[|raw| - 1]];
    }
  }

  /** The `getline` loop of the desktop `readTextFile`, over the lines the
      stream delivers: comment lines are skipped, the rest pushed back. */
  method ReadTextLines(raw: seq<string>) returns (lines: seq<string>)
    ensures lines == NonComments(raw)
  {
    lines := [];
    var i := 0;
    while i < |raw|
      invariant 0 <= i <= |raw|
      invariant lines == NonComments(raw[..i])
    {
      assert raw[..i + 1][..i] == raw[..i];
      if !IsCommentLine(raw[i]) {
        lines := lines + [raw[i]];
      }
      i := i + 1;
    }
    assert raw[..i] == raw;
  }

  /** A file without comment lines is read back line for line. */
  lemma {:induction false} NonCommentsOfCommentFree(raw: seq<string>)
    requires forall k :: 0 <= k < |raw| ==> !IsCommentLine(raw[k])
    ensures NonComments(raw) == raw
  {
    if raw != [] {
      var init := raw[..|raw| - 1];
      assert forall k :: 0 <= k < |init| ==> !IsCommentLine(init[k]) by {
        forall k | 0 <= k < |init| ensures !IsCommentLine(init[k]) {
          assert init[k] == raw[k];
        }
      }
      NonCommentsOfCommentFree(init);
      assert raw == init + [raw[|raw| - 1]];
    }
  }

  // ---------------------------------------------------------------------
  // extractValue: trim spaces and tabs at both ends

  function LeadingBlanks(s: string): (n: nat)
    ensures n <= |s|
    ensures forall k :: 0 <= k < n ==> IsBlank(s[k])
    ensures n < |s| ==> !IsBlank(s[n])
  {
    if s != [] && IsBlank(s[0]) then 1 + LeadingBlanks(s[1..]) else 0
  }

  function TrailingBlanks(s: string): (n: nat)
    ensures n <= |s|
    ensures forall k :: |s| - n <= k < |s| ==> IsBlank(s[k])
    ensures n < |s| ==> !IsBlank(s[|s| - 1 - n])
  {
    if s != [] && IsBlank(s[|s| - 1]) then 1 + TrailingBlanks(s[..|s| - 1]) else 0
  }

  /** `extractValue`: the line with its leading and trailing spaces and
      tabs removed; a line of blanks only gives the empty string. */
  function ExtractValue(line: string): (value: string)
    ensures value == [] <==> forall k :: 0 <= k < |line| ==> IsBlank(line[k])
    ensures value != [] ==> !IsBlank(value[0]) && !IsBlank(value[|value| - 1])
    ensures LeadingBlanks(line) + |value| <= |line|
    ensures value == line[LeadingBlanks(line)..LeadingBlanks(line) + |value|]
    ensures forall k :: LeadingBlanks(line) + |value| <= k < |line| ==> IsBlank(line[k])
  {
    var rest := line[LeadingBlanks(line)..];
    rest[..|rest| - TrailingBlanks(rest)]
  }

  /** Blanks put around a value are exactly what `extractValue` removes. */
  lemma ExtractValueOfPadded(pre: string, v: string, post: string)
    requires forall k :: 0 <= k < |pre| ==> IsBlank(pre[k])
    requires forall k :: 0 <= k < |post| ==> IsBlank(post[k])
    requires v != [] ==> !IsBlank(v[0]) && !IsBlank(v[|v| - 1])
    ensures ExtractValue(pre + v + post) == v
  {
    var line := pre + v + post;
    var r := ExtractValue(line);
    if v == [] {
      assert forall k :: 0 <= k < |line| ==> IsBlank(line[k]) by {
        forall k | 0 <= k < |line| ensures IsBlank(line[k]) {
          if k < |pre| { assert line[k] == pre[k]; } else { assert line[k] == post[k - |pre|]; }
        }
      }
    } else {
      LeadingBlanksOfPadded(pre, v + post);
      assert line == pre + (v + post);
      ValueEndOfPadded(line, |pre|, v, post);
    }
  }

  /** Blanks before a non-blank character are the leading blanks. */
  lemma LeadingBlanksOfPadded(pre: string, rest: string)
    requires forall k :: 0 <= k < |pre| ==> IsBlank(pre[k])
    requires rest != [] && !IsBlank(rest[0])
    ensures LeadingBlanks(pre + rest) == |pre|
  {
    var line := pre + rest;
    assert forall k :: 0 <= k < |pre| ==> line[k] == pre[k];
    assert line[|pre|] == rest[0];
  }

  /** With the leading blanks at `n`, the value ends where the blanks of
      `post` begin. */
  lemma ValueEndOfPadded(line: string, n: nat, v: string, post: string)
    requires n == LeadingBlanks(line) && line == line[..n] + v + post
    requires forall k :: 0 <= k < |post| ==> IsBlank(post[k])
    requires v != [] && !IsBlank(v[0]) && !IsBlank(v[|v| - 1])
    ensures ExtractValue(line) == v
  {
    var r := ExtractValue(line);
    var e := n + |r|;
    assert |line| == n + |v| + |post|;
    assert line[n] == v[0];
    assert r != [];
    assert line[n + |v| - 1] == v[|v| - 1];
    assert e >= n + |v|;
    assert line[e - 1] == r[|r| - 1];
    assert forall k :: n + |v| <= k < |line| ==> line[k] == post[k - n - |v|];
    assert e == n + |v|;
    assert line[n..n + |v|] == v;
  }

  // ---------------------------------------------------------------------
  // Whitespace stripping used by updateOrAddLine

  /** `erase(remove_if(..., isspace))`: the string with every whitespace
      character removed, the others kept in order. */
  function StripSpaces(s: string): (r: string)
    ensures |r| <= |s|
  {
    if s == [] then []
    else if IsSpace(s[0]) then StripSpaces(s[1..])
    else [s[0]] + StripSpaces(s[1..])
  }

  /** What `StripSpaces` leaves holds no whitespace. */
  lemma {:induction false} StripSpacesNoSpaces(s: string)
    ensures NoSpaces(StripSpaces(s))
  {
    if s != [] {
      StripSpacesNoSpaces(s[1..]);
    }
  }

  /** A string without whitespace is left as it is. */
  lemma {:induction false} StripSpacesKeeps(s: string)
    requires NoSpaces(s)
    ensures StripSpaces(s) == s
  {
    if s != [] {
      StripSpacesKeeps(s[1..]);
      assert s == [s[0]] + s[1..];
    }
  }

  /** The run of whitespace that starts `s` (the `rightSpaces` loop of
      `updateOrAddLine` reads it after the `=`). */
  function SpaceRun(s: string): (r: string)
    ensures |r| <= |s| && r == s[..|r|]
    ensures forall k :: 0 <= k < |r| ==> IsSpace(r[k])
    ensures |r| < |s| ==> !IsSpace(s[|r|])
  {
    if s != [] && IsSpace(s[0]) then [s[0]] + SpaceRun(s[1..]) else []
  }

  // ---------------------------------------------------------------------
  // extractQuotedValue

  /** The number of backslashes immediately before index `i` of `line`,
      counting back no further than index `lo`. */
  function BackslashesBefore(line: string, lo: nat, i: nat): (n: nat)
    requires lo <= i <= |line|
    ensures n <= i - lo
    decreases i
  {
    if i > lo && line[i - 1] == '\\' then 1 + BackslashesBefore(line, lo, i - 1) else 0
  }

  /** A quote at index `i` ends the value opened just before `lo` when an
      even number of backslashes precede it. */
  predicate ClosesQuote(line: string, lo: nat, i: nat)
    requires lo <= i < |line|
  {
    line[i] == '"' && BackslashesBefore(line, lo, i) % 2 == 0
  }

  /** The first index at or after `i` holding a closing quote, or `|line|`. */
  function QuoteEnd(line: string, lo: nat, i: nat): (e: nat)
    requires lo <= i <= |line|
    ensures i <= e <= |line|
    ensures forall k :: i <= k < e ==> !ClosesQuote(line, lo, k)
    ensures e < |line| ==> ClosesQuote(line, lo, e)
    decreases |line| - i
  {
    if i == |line| then i
    else if ClosesQuote(line, lo, i) then i
    else QuoteEnd(line, lo, i + 1)
  }

  /** What `extractQuotedValue` returns (see `QuotedValueCharacterised`). */
  function QuotedValue(line: string): string
  {
    var start := Find(line, '"');
    if start == |line| then [] else line[start + 1..QuoteEnd(line, start + 1, start + 1)]
  }

  /** `extractQuotedValue` gives nothing when the line holds no quote. */
  lemma QuotedValueWithoutQuote(line: string)
    requires '"' !in line
    ensures QuotedValue(line) == []
  {
    FindAbsent(line, '"');
  }

  /** Otherwise it gives the text after the first quote up to the first
      unescaped quote after it (or to the end of the line), escaping
      backslashes included. */
  lemma QuotedValueCharacterised(line: string)
    requires '"' in line
    ensures var lo := Find(line, '"') + 1;
      var e := lo + |QuotedValue(line)|;
      && e <= |line|
      && QuotedValue(line) == line[lo..e]
      && (forall k :: lo <= k < e ==> !ClosesQuote(line, lo, k))
      && (e < |line| ==> ClosesQuote(line, lo, e))
  {
    FindAbsent(line, '"');
    var lo := Find(line, '"') + 1;
    var e := QuoteEnd(line, lo, lo);
    QuotedValueIsRun(line, lo, e);
    assert lo + |QuotedValue(line)| == e;
    assert forall k :: lo <= k < e ==> !ClosesQuote(line, lo, k);
    assert e < |line| ==> ClosesQuote(line, lo, e);
  }

  lemma QuotedValueIsRun(line: string, lo: nat, e: nat)
    requires 0 < lo <= |line| && lo == Find(line, '"') + 1
    requires lo <= e <= |line| && e == QuoteEnd(line, lo, lo)
    ensures QuotedValue(line) == line[lo..e]
    ensures lo + |QuotedValue(line)| == e
  {
  }

  /** `extractQuotedValue`, scanning with an index and pushing characters
      onto the result; for each quote it counts the backslashes before it. */
  method ExtractQuotedValue(line: string) returns (result: string)
    ensures result == QuotedValue(line)
  {
    var start := Find(line, '"');
    if start == |line| {
      return [];
    }
    result := [];
    var lo := start + 1;
    var i := lo;
    while i < |line|
      invariant lo <= i <= |line|
      invariant result == line[lo..i]
      invariant forall k :: lo <= k < i ==> !ClosesQuote(line, lo, k)
    {
      var c := line[i];
      if c == '"' {
        var backslashes := CountBackslashes(line, lo, i);
        if backslashes % 2 == 0 {
          break;
        }
      }
      result := result + [c];
      i := i + 1;
    }
    assert i == QuoteEnd(line, lo, lo) by {
      QuoteEndIsFirst(line, lo, lo, i);
    }
  }

  /** The inner loop of `extractQuotedValue`: walks back from a quote over
      the backslashes before it, stopping at the opening quote. */
  method CountBackslashes(line: string, lo: nat, i: nat) returns (backslashes: nat)
    requires lo <= i <= |line|
    ensures backslashes == BackslashesBefore(line, lo, i)
  {
    backslashes := 0;
    var j := i;
    while j > lo && line[j - 1] == '\\'
      invariant lo <= j <= i
      invariant backslashes == i - j
      invariant BackslashesBefore(line, lo, i) == backslashes + BackslashesBefore(line, lo, j)
    {
      backslashes := backslashes + 1;
      j := j - 1;
    }
  }

  /** `Find` returns the one index with no `c` before it and `c` at it (or
      the length, when there is no `c`). */
  lemma {:induction false} FindIs(s: string, c: char, k: nat)
    requires k <= |s|
    requires forall j :: 0 <= j < k ==> s[j] != c
    requires k < |s| ==> s[k] == c
    ensures Find(s, c) == k
  {
    if k > 0 {
      FindIs(s[1..], c, k - 1);
    }
  }

  /** `Find` reaches the end exactly when the character is absent. */
  lemma {:induction false} FindAbsent(s: string, c: char)
    ensures Find(s, c) == |s| <==> c !in s
  {
    if s != [] && s[0] != c {
      FindAbsent(s[1..], c);
      assert s == [s[0]] + s[1..];
    }
  }

  /** `QuoteEnd` is the one index with no closing quote before it and a
      closing quote (or the end of the line) at it. */
  lemma {:induction false} QuoteEndIsFirst(line: string, lo: nat, i: nat, e: nat)
    requires lo <= i <= e <= |line|
    requires forall k :: i <= k < e ==> !ClosesQuote(line, lo, k)
    requires e < |line| ==> ClosesQuote(line, lo, e)
    ensures QuoteEnd(line, lo, i) == e
    decreases e - i
  {
    if i < e {
      QuoteEndIsFirst(line, lo, i + 1, e);
    }
  }

  /** A quoted text with no quote inside it and no backslash at its end is
      read back whole; this is how `updateOrAddLine` writes a quoted value
      and `loadLocalization` reads it. */
  lemma QuotedValueOfWrapped(pre: string, v: string, post: string)
    requires '"' !in pre && '"' !in v
    requires v != [] ==> v[|v| - 1] != '\\'
    ensures QuotedValue(pre + "\"" + v + "\"" + post) == v
  {
    var line := pre + "\"" + v + "\"" + post;
    var lo := |pre| + 1;
    assert line[|pre|] == '"';
    assert forall j :: 0 <= j < |pre| ==> line[j] == pre[j];
    FindIs(line, '"', |pre|);
    assert forall k :: lo <= k < lo + |v| ==> line[k] == v[k - lo];
    assert forall k :: lo <= k < lo + |v| ==> !ClosesQuote(line, lo, k);
    var e := lo + |v|;
    assert line[e] == '"';
    assert BackslashesBefore(line, lo, e) == 0 by {
      if e > lo { assert line[e - 1] == v[|v| - 1]; }
    }
    QuoteEndIsFirst(line, lo, lo, e);
    assert line[lo..e] == v;
  }

  /** The same, for a line that is just the quoted text. */
  lemma QuotedValueOfQuoted(v: string)
    requires '"' !in v
    requires v != [] ==> v[|v| - 1] != '\\'
    ensures QuotedValue("\"" + v + "\"") == v
  {
    QuotedValueOfWrapped([], v, []);
    assert [] + "\"" + v + "\"" + [] == "\"" + v + "\"";
  }

  // ---------------------------------------------------------------------
  // unescapeString

  /** What one escape `\c` decodes to inside a quoted value. */
  function EscapeMeaning(c: char): (r: string)
    ensures |r| >= 1
  {
    match c
    case 'n' => "\n"
    case 't' => "    "
    case '\\' => "\\"
    case '"' => "\""
    case _ => ['\\', c]
  }

  /** The decoding `unescapeString` performs, read left to right: a
      backslash followed by a character is an escape, any other character
      (a trailing lone backslash included) stands for itself. */
  function Unescape(s: string): string
  {
    if s == [] then []
    else if s[0] == '\\' && |s| >= 2 then EscapeMeaning(s[1]) + Unescape(s[2..])
    else [s[0]] + Unescape(s[1..])
  }

  /** The four escapes and what they decode to; any other escaped
      character keeps its backslash. */
  lemma UnescapeEscapes(c: char, t: string)
    ensures Unescape("\\n" + t) == "\n" + Unescape(t)
    ensures Unescape("\\t" + t) == "    " + Unescape(t)
    ensures Unescape("\\\\" + t) == "\\" + Unescape(t)
    ensures Unescape("\\\"" + t) == "\"" + Unescape(t)
    ensures c != 'n' && c != 't' && c != '\\' && c != '"' ==> Unescape(['\\', c] + t) == ['\\', c] + Unescape(t)
  {
    assert ("\\n" + t)[2..] == t;
    assert ("\\t" + t)[2..] == t;
    assert ("\\\\" + t)[2..] == t;
    assert ("\\\"" + t)[2..] == t;
    assert (['\\', c] + t)[2..] == t;
  }

  /** The left-to-right decoding of `s` is left holding a backslash that
      has no character after it. */
  predicate Pending(s: string)
    decreases |s|
  {
    if s == [] then false
    else if s[0] == '\\' then |s| == 1 || Pending(s[2..])
    else Pending(s[1..])
  }

  /** A backslash appended after a text that leaves none pending has
      nothing to pair with, so it is copied as it is. */
  lemma {:induction false} UnescapeTrailingBackslash(s: string)
    requires !Pending(s)
    ensures Unescape(s + "\\") == Unescape(s) + "\\"
    decreases |s|
  {
    if s != [] {
      var t := s + "\\";
      if s[0] == '\\' {
        assert t[2..] == s[2..] + "\\";
        UnescapeTrailingBackslash(s[2..]);
      } else {
        assert t[1..] == s[1..] + "\\";
        UnescapeTrailingBackslash(s[1..]);
      }
    }
  }

  /** `unescapeString`: one pass with an index over the input, consuming
      two characters for an escape and one otherwise. */
  method UnescapeString(input: string) returns (output: string)
    ensures output == Unescape(input)
  {
    output := [];
    var i := 0;
    while i < |input|
      invariant 0 <= i <= |input|
      invariant output + Unescape(input[i..]) == Unescape(input)
    {
      if input[i] == '\\' && i + 1 < |input| {
        var decoded := DecodeEscape(input[i + 1]);
        UnescapeEscapeAt(input, i);
        assert (output + decoded) + Unescape(input[i + 2..]) == output + (decoded + Unescape(input[i + 2..]));
        output := output + decoded;
        i := i + 2;
      } else {
        UnescapeCharAt(input, i);
        assert (output + [input[i]]) + Unescape(input[i + 1..]) == output + ([input[i]] + Unescape(input[i + 1..]));
        output := output + [input[i]];
        i := i + 1;
      }
    }
    assert input[i..] == [];
  }

  /** The `switch` of `unescapeString` on the character after a
      backslash. */
  method DecodeEscape(next: char) returns (decoded: string)
    ensures decoded == EscapeMeaning(next)
  {
    if next == 'n' {
      decoded := ['\n'];
    } else if next == 't' {
      decoded := "    ";
    } else if next == '\\' {
      decoded := ['\\'];
    } else if next == '"' {
      decoded := ['"'];
    } else {
      decoded := ['\\', next];
    }
  }

  /** Decoding from an escape at `i` decodes it, then what follows it. */
  lemma UnescapeEscapeAt(s: string, i: nat)
    requires i + 1 < |s| && s[i] == '\\'
    ensures Unescape(s[i..]) == EscapeMeaning(s[i + 1]) + Unescape(s[i + 2..])
  {
    assert s[i..][0] == '\\' && s[i..][1] == s[i + 1];
    assert s[i..][2..] == s[i + 2..];
  }

  /** Decoding from any other character at `i` copies it, then decodes
      what follows it. */
  lemma UnescapeCharAt(s: string, i: nat)
    requires i < |s| && !(s[i] == '\\' && i + 1 < |s|)
    ensures Unescape(s[i..]) == [s[i]] + Unescape(s[i + 1..])
  {
    assert s[i..][0] == s[i];
    assert s[i..][1..] == s[i + 1..];
  }

  /** Text without backslashes decodes to itself. */
  lemma {:induction false} UnescapeWithoutBackslash(s: string)
    requires '\\' !in s
    ensures Unescape(s) == s
  {
    if s != [] {
      assert '\\' !in s[1..];
      UnescapeWithoutBackslash(s[1..]);
    }
  }

  /** Decoding reads its input front to back: a prefix without backslashes
      is copied as is, ahead of the decoding of the rest. */
  lemma {:induction false} UnescapeCopiesPlainPrefix(a: string, b: string)
    requires '\\' !in a
    ensures Unescape(a + b) == a + Unescape(b)
  {
    if a != [] {
      assert a[0] in a;
      assert (a + b)[0] == a[0];
      assert (a + b)[1..] == a[1..] + b;
      assert '\\' !in a[1..];
      UnescapeCopiesPlainPrefix(a[1..], b);
      calc {
        Unescape(a + b);
        [a[0]] + Unescape(a[1..] + b);
        [a[0]] + (a[1..] + Unescape(b));
        { assert a == [a[0]] + a[1..]; }
        a + Unescape(b);
      }
    } else {
      assert a + b == b;
    }
  }

  /** A reference escape for one character, which `unescapeString`
      decodes back: backslash, quote and newline become two-character
      escapes, every other character (a tab included) is written as it
      is. The program's own writer escapes neither `"` nor `\\`. */
  function EscapeChar(c: char): string {
    if c == '\\' then "\\\\" else if c == '"' then "\\\"" else if c == '\n' then "\\n" else [c]
  }

  /** The reference encoder, one character at a time. */
  function Escape(s: string): (r: string)
    ensures |r| >= |s|
  {
    if s == [] then [] else EscapeChar(s[0]) + Escape(s[1..])
  }

  /** An escaped character decodes to itself, ahead of the rest. */
  lemma UnescapeEscapeChar(c: char, t: string)
    ensures Unescape(EscapeChar(c) + t) == [c] + Unescape(t)
  {
    var e := EscapeChar(c) + t;
    if c == '\\' || c == '"' || c == '\n' {
      assert e[0] == '\\' && e[2..] == t;
    } else {
      assert e[0] == c && e[1..] == t;
    }
  }

  /** The decoder inverts the reference encoder. */
  lemma {:induction false} UnescapeInvertsEscape(s: string)
    ensures Unescape(Escape(s)) == s
  {
    if s != [] {
      UnescapeInvertsEscape(s[1..]);
      UnescapeEscapeChar(s[0], Escape(s[1..]));
      assert s == [s[0]] + s[1..];
    }
  }

  /** The reference encoder never leaves a backslash pending, so a
      backslash appended to its output is read back as itself. */
  lemma {:induction false} EscapeNotPending(s: string)
    ensures !Pending(Escape(s))
    ensures Unescape(Escape(s) + "\\") == s + "\\"
  {
    if s != [] {
      EscapeNotPending(s[1..]);
      var e := Escape(s);
      assert e == EscapeChar(s[0]) + Escape(s[1..]);
      if s[0] == '\\' || s[0] == '"' || s[0] == '\n' {
        assert e[2..] == Escape(s[1..]);
      } else {
        assert e[1..] == Escape(s[1..]);
      }
    }
    UnescapeTrailingBackslash(Escape(s));
    UnescapeInvertsEscape(s);
  }

  // ---------------------------------------------------------------------
  // Decimal text of font sizes

  function DigitValue(c: char): (d: nat)
    requires IsDigit(c)
    ensures d < 10
  {
    c as int - '0' as int
  }

  function DigitChar(d: nat): (c: char)
    requires d < 10
    ensures IsDigit(c) && DigitValue(c) == d
  {
    ('0' as int + d) as char
  }

  /** The value `std::stoi` reads from a string of decimal digits. */
  function DecimalValue(s: string): nat
    requires AllDigits(s)
  {
    if s == [] then 0 else 10 * DecimalValue(s[..|s| - 1]) + DigitValue(s[|s| - 1])
  }

  /** `std::to_string` of a non-negative integer. */
  function DecimalString(n: nat): (s: string)
    ensures s != [] && AllDigits(s)
    ensures !IsBlank(s[0]) && !IsBlank(s[|s| - 1]) && !IsSpace(s[0])
    ensures '"' !in s && '=' !in s && '\\' !in s && '\n' !in s
  {
    if n < 10 then [DigitChar(n)] else DecimalString(n / 10) + [DigitChar(n % 10)]
  }

  /** Writing a size as decimal text and parsing it back gives the size. */
  lemma {:induction false} DecimalRoundTrip(n: nat)
    ensures DecimalValue(DecimalString(n)) == n
  {
    if n >= 10 {
      DecimalRoundTrip(n / 10);
      var s := DecimalString(n);
      assert s[..|s| - 1] == DecimalString(n / 10);
    }
  }

  /** `std::to_string` of any integer. */
  function IntToString(n: int): string
  {
    if n < 0 then "-" + DecimalString(-n) else DecimalString(n)
  }
}
