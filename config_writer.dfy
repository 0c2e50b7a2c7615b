/** The writing half of the KEY=value format: `updateOrAddLine`, which
    rewrites the first line holding a key or appends a new one, and the
    sequence of such updates `updateAllConfigFiles` applies to each file. */
module ConfigWriter {
  import opened ConfigText

  /** How `updateOrAddLine` keeps a value on one line: each newline becomes
      the three characters space, backslash, `n`. */
  function OneLine(value: string): string
  {
    if value == [] then []
    else (if value[0] == '\n' then " \\n" else [value[0]]) + OneLine(value[1..])
  }

  /** The one-line form holds no newline. */
  lemma {:induction false} OneLineNoNewline(value: string)
    ensures '\n' !in OneLine(value)
  {
    if value != [] {
      OneLineNoNewline(value[1..]);
      var head := if value[0] == '\n' then " \\n" else [value[0]];
      assert OneLine(value) == head + OneLine(value[1..]);
      assert '\n' !in head;
    }
  }

  /** The one-line form adds no quote. */
  lemma {:induction false} OneLineNoQuote(value: string)
    requires '"' !in value
    ensures '"' !in OneLine(value)
  {
    if value != [] {
      assert '"' !in value[1..];
      OneLineNoQuote(value[1..]);
      var head := if value[0] == '\n' then " \\n" else [value[0]];
      assert OneLine(value) == head + OneLine(value[1..]);
      assert '"' !in head;
    }
  }

  /** A value without newlines is already on one line. */
  lemma {:induction false} OneLineKeeps(value: string)
    requires '\n' !in value
    ensures OneLine(value) == value
  {
    if value != [] {
      assert '\n' !in value[1..];
      OneLineKeeps(value[1..]);
      assert value == [value[0]] + value[1..];
    }
  }

  /** The `formatValue` lambda: the value, in quotes when `quoted`. */
  function Format(value: string, quoted: bool): string {
    if quoted then "\"" + value + "\"" else value
  }

  /** A line `updateOrAddLine` may rewrite: not empty, not a comment, and
      holding an `=`. */
  predicate Editable(line: string) {
    line != [] && !IsCommentLine(line) && Find(line, '=') < |line|
  }

  /** The text before the first `=` of a line. */
  function KeyPart(line: string): string {
    line[..Find(line, '=')]
  }

  /** A line whose key, with its whitespace removed, is `cleanKey`. */
  predicate Matches(line: string, cleanKey: string) {
    Editable(line) && StripSpaces(KeyPart(line)) == cleanKey
  }

  /** The rewritten line: the original text before `=`, the `=`, the
      whitespace that followed it, then the new formatted value. */
  function Rewritten(line: string, formatted: string): string
    requires Find(line, '=') < |line|
  {
    var eq := Find(line, '=');
    line[..eq] + "=" + SpaceRun(line[eq + 1..]) + formatted
  }

  /** The index of the first line matching `cleanKey`, or `|lines|`. */
  function FirstMatch(lines: seq<string>, cleanKey: string): (m: nat)
    ensures m <= |lines|
    ensures m < |lines| ==> Matches(lines[m], cleanKey)
  {
    if lines == [] then 0
    else if Matches(lines[0], cleanKey) then 0
    else 1 + FirstMatch(lines[1..], cleanKey)
  }

  /** The lines after `updateOrAddLine(lines, key, value, quoted)`. */
  function UpdatedLines(lines: seq<string>, key: string, value: string, quoted: bool): seq<string>
  {
    var formatted := Format(OneLine(value), quoted);
    var m := FirstMatch(lines, StripSpaces(key));
    if m < |lines| then lines[m := Rewritten(lines[m], formatted)]
    else lines + [key + "=" + formatted]
  }

  /** The block of `updateOrAddLine` that builds `oneLineValue`, one
      character at a time. */
  method OneLineValue(value: string) returns (replaced: string)
    ensures replaced == OneLine(value)
  {
    replaced := [];
    var c := 0;
    while c < |value|
      invariant 0 <= c <= |value|
      invariant replaced + OneLine(value[c..]) == OneLine(value)
    {
      assert OneLine(value[c..]) == (if value[c] == '\n' then " \\n" else [value[c]]) + OneLine(value[c + 1..]) by {
        assert value[c..][0] == value[c];
        assert value[c..][1..] == value[c + 1..];
      }
      if value[c] == '\n' {
        replaced := replaced + " \\n";
      } else {
        replaced := replaced + [value[c]];
      }
      c := c + 1;
    }
    assert value[c..] == [];
  }

  /** The `rightSpaces` loop of `updateOrAddLine`: the whitespace that
      follows index `from - 1` of the line. */
  method RightSpaces(line: string, from: nat) returns (rightSpaces: string)
    requires from <= |line|
    ensures rightSpaces == SpaceRun(line[from..])
  {
    rightSpaces := [];
    var i := from;
    while i < |line| && IsSpace(line[i])
      invariant from <= i <= |line|
      invariant rightSpaces == line[from..i]
      invariant forall j :: from <= j < i ==> IsSpace(line[j])
    {
      assert line[from..i + 1] == line[from..i] + [line[i]];
      rightSpaces := rightSpaces + [line[i]];
      i := i + 1;
    }
    SpaceRunIs(line[from..], rightSpaces);
  }

  /** `updateOrAddLine`. The vector the source edits through a reference is
      the input `lines` here, and its new contents are `updated`. */
  method UpdateOrAddLine(lines: seq<string>, key: string, newValue: string, quoted: bool)
    returns (updated: seq<string>)
    ensures updated == UpdatedLines(lines, key, newValue, quoted)
  {
    var cleanKey := StripSpaces(key);

    var oneLineValue := OneLineValue(newValue);
    var formatted := Format(oneLineValue, quoted);

    var n := 0;
    while n < |lines|
      invariant 0 <= n <= |lines|
      invariant forall j :: 0 <= j < n ==> !Matches(lines[j], cleanKey)
    {
      var line := lines[n];
      if line == [] || IsCommentLine(line) || Find(line, '=') == |line| {
        n := n + 1;
        continue;
      }
      var eqPos := Find(line, '=');
      var currentKey := StripSpaces(line[..eqPos]);
      if currentKey == cleanKey {
        FirstMatchIs(lines, cleanKey, n);
        var rewritten := RewriteLine(line, formatted);
        updated := lines[n := rewritten];
        return;
      }
      n := n + 1;
    }
    FirstMatchIs(lines, cleanKey, |lines|);
    updated := lines + [key + "=" + formatted];
  }

  /** The rewrite of a matching line: the text before `=`, the `=`, the
      whitespace after it, and the new value. */
  method RewriteLine(line: string, formatted: string) returns (rewritten: string)
    requires Find(line, '=') < |line|
    ensures rewritten == Rewritten(line, formatted)
  {
    var eqPos := Find(line, '=');
    var leftPart := line[..eqPos];
    var rightSpaces := RightSpaces(line, eqPos + 1);
    rewritten := leftPart + "=" + rightSpaces + formatted;
  }

  /** `SpaceRun` is the one whitespace prefix that cannot be extended. */
  lemma {:induction false} SpaceRunIs(s: string, r: string)
    requires |r| <= |s| && r == s[..|r|]
    requires forall k :: 0 <= k < |r| ==> IsSpace(r[k])
    requires |r| < |s| ==> !IsSpace(s[|r|])
    ensures SpaceRun(s) == r
  {
    if r != [] {
      SpaceRunIs(s[1..], r[1..]);
    }
  }

  /** `FirstMatch` is the one index with no match before it and a match
      (or the end) at it. */
  lemma {:induction false} FirstMatchIs(lines: seq<string>, cleanKey: string, m: nat)
    requires m <= |lines|
    requires m < |lines| ==> Matches(lines[m], cleanKey)
    requires forall j :: 0 <= j < m ==> !Matches(lines[j], cleanKey)
    ensures FirstMatch(lines, cleanKey) == m
  {
    if m > 0 {
      FirstMatchIs(lines[1..], cleanKey, m - 1);
    }
  }

  // ---------------------------------------------------------------------
  // What one update does to the line list

  /** Lines that are empty, comments, or without `=` are never modified;
      neither is any line but the first match. */
  lemma UpdateTouchesOnlyFirstMatch(lines: seq<string>, key: string, value: string, quoted: bool)
    ensures var r := UpdatedLines(lines, key, value, quoted);
      && |lines| <= |r| <= |lines| + 1
      && forall j :: 0 <= j < |lines| && !Matches(lines[j], StripSpaces(key)) ==> r[j] == lines[j]
  {
  }

  /** When some line matches, the first match `m` alone is rewritten, as
      its text before `=`, the `=`, the whitespace after it and the
      formatted value; the number of lines is unchanged. */
  lemma UpdateRewritesFirstMatch(lines: seq<string>, key: string, value: string, quoted: bool, m: nat)
    requires m < |lines| && Matches(lines[m], StripSpaces(key))
    requires forall j :: 0 <= j < m ==> !Matches(lines[j], StripSpaces(key))
    ensures var r := UpdatedLines(lines, key, value, quoted);
      var eq := Find(lines[m], '=');
      && |r| == |lines|
      && r[m] == lines[m][..eq] + "=" + SpaceRun(lines[m][eq + 1..]) + Format(OneLine(value), quoted)
      && forall j :: 0 <= j < |lines| && j != m ==> r[j] == lines[j]
  {
    FirstMatchIs(lines, StripSpaces(key), m);
  }

  /** With a match at `m`, that line alone is replaced by its rewritten
      form. */
  lemma UpdateRewritesTo(lines: seq<string>, key: string, value: string, quoted: bool, m: nat, line: string)
    requires FirstMatch(lines, StripSpaces(key)) == m < |lines|
    requires Rewritten(lines[m], Format(OneLine(value), quoted)) == line
    ensures UpdatedLines(lines, key, value, quoted) == lines[m := line]
  {
  }

  /** Without a match, exactly one line `key=formatted` is appended. */
  lemma UpdateAppendsWithoutMatch(lines: seq<string>, key: string, value: string, quoted: bool)
    requires forall j :: 0 <= j < |lines| ==> !Matches(lines[j], StripSpaces(key))
    ensures UpdatedLines(lines, key, value, quoted) == lines + [key + "=" + Format(OneLine(value), quoted)]
  {
    FirstMatchIs(lines, StripSpaces(key), |lines|);
  }

  /** Empty lines, comments and lines without `=` are never rewritten. */
  lemma UpdateKeepsUneditable(lines: seq<string>, key: string, value: string, quoted: bool, j: nat)
    requires j < |lines| && !Editable(lines[j])
    ensures UpdatedLines(lines, key, value, quoted)[j] == lines[j]
  {
    UpdateTouchesOnlyFirstMatch(lines, key, value, quoted);
  }

  /** A list holding `FOO=1`, updated to `2`, holds `FOO=2` in its place
      and no second `FOO` line. */
  lemma UpdateExample()
    ensures UpdatedLines(["# fonts", "FOO=1", "BAR=3"], "FOO", "2", false) == ["# fonts", "FOO=2", "BAR=3"]
  {
    var lines := ["# fonts", "FOO=1", "BAR=3"];
    assert Find(lines[1], '=') == 3;
    assert "FOO" == ['F', 'O', 'O'];
    assert KeyPart(lines[1]) == "FOO";
    StripSpacesKeeps("FOO");
    assert lines[1][4..] == "1";
    assert SpaceRun("1") == [];
    assert IsCommentLine(lines[0]);
    assert Matches(lines[1], "FOO");
    FirstMatchIs(lines, "FOO", 1);
    assert OneLine("2") == "2" by {
      assert "2"[1..] == [];
    }
    assert Rewritten(lines[1], "2") == "FOO=2";
  }

  // ---------------------------------------------------------------------
  // A sequence of updates, as updateAllConfigFiles applies them

  /** One `updateOrAddLine(lines, key, value, quoted)` call. */
  datatype Update = Update(key: string, value: string, quoted: bool)

  /** The lines after applying `updates` in order, as the loops of
      `updateAllConfigFiles` do. */
  function ApplyUpdates(lines: seq<string>, updates: seq<Update>): seq<string>
  {
    if updates == [] then lines
    else
      var last := updates[|updates| - 1];
      UpdatedLines(ApplyUpdates(lines, updates[..|updates| - 1]), last.key, last.value, last.quoted)
  }

  /** Applying the first `i` updates is applying the first `i - 1`, then
      update `i - 1`. */
  lemma ApplyUpdatesPrefix(lines: seq<string>, updates: seq<Update>, i: nat)
    requires 0 < i <= |updates|
    ensures var u := updates[i - 1];
      ApplyUpdates(lines, updates[..i]) == UpdatedLines(ApplyUpdates(lines, updates[..i - 1]), u.key, u.value, u.quoted)
  {
    assert updates[..i][..i - 1] == updates[..i - 1];
  }

  /** The line `updateOrAddLine` appends for an update. */
  function EntryLine(u: Update): string {
    u.key + "=" + Format(OneLine(u.value), u.quoted)
  }

  /** The file the writer produces from scratch: one line per update. */
  function EntryLines(updates: seq<Update>): (lines: seq<string>)
    ensures |lines| == |updates|
  {
    if updates == [] then []
    else EntryLines(updates[..|updates| - 1]) + [EntryLine(updates[|updates| - 1])]
  }

  lemma {:induction false} EntryLinesAt(updates: seq<Update>, j: nat)
    requires j < |updates|
    ensures EntryLines(updates)[j] == EntryLine(updates[j])
  {
    var init := updates[..|updates| - 1];
    if j < |init| {
      EntryLinesAt(init, j);
      assert EntryLines(updates)[j] == EntryLines(init)[j];
    }
  }

  /** Replacing one update replaces its line and no other. */
  lemma EntryLinesUpdate(updates: seq<Update>, k: nat, u: Update)
    requires k < |updates|
    ensures EntryLines(updates[k := u]) == EntryLines(updates)[k := EntryLine(u)]
  {
    var a := EntryLines(updates[k := u]);
    var b := EntryLines(updates)[k := EntryLine(u)];
    forall j | 0 <= j < |a| ensures a[j] == b[j] {
      EntryLinesAt(updates[k := u], j);
      EntryLinesAt(updates, j);
    }
  }

  /** A key the writer appends and later finds again as written: no `=`,
      no whitespace, and not starting with `#`. */
  predicate PlainKey(key: string) {
    '=' !in key && NoSpaces(key) && (key == [] || key[0] != '#')
  }

  predicate PlainDistinctKeys(updates: seq<Update>) {
    && (forall j :: 0 <= j < |updates| ==> PlainKey(updates[j].key))
    && (forall i, j :: 0 <= i < j < |updates| ==> updates[i].key != updates[j].key)
  }

  /** A value whose written form does not start with whitespace, so that no
      later rewrite takes part of it for the spacing after `=`. */
  predicate LeadsWithoutSpace(u: Update) {
    u.quoted || u.value == [] || !IsSpace(u.value[0])
  }

  /** The line written for a plain key is found again under that key, with
      the formatted value after its `=`. */
  lemma EntryLineShape(u: Update)
    requires PlainKey(u.key)
    ensures Editable(EntryLine(u))
    ensures Find(EntryLine(u), '=') == |u.key|
    ensures KeyPart(EntryLine(u)) == u.key
    ensures StripSpaces(KeyPart(EntryLine(u))) == u.key
    ensures EntryLine(u)[|u.key| + 1..] == Format(OneLine(u.value), u.quoted)
  {
    var line := EntryLine(u);
    assert line[|u.key|] == '=';
    assert forall j :: 0 <= j < |u.key| ==> line[j] == u.key[j];
    FindIs(line, '=', |u.key|);
    assert line[..|u.key|] == u.key;
    StripSpacesKeeps(u.key);
  }

  /** In a written file, the first line for the key of update `k` is line
      `k` when no earlier update has that key. */
  lemma FirstEntryOfKey(updates: seq<Update>, key: string, k: nat)
    requires k <= |updates|
    requires forall j :: 0 <= j < |updates| ==> PlainKey(updates[j].key)
    requires forall j :: 0 <= j < k ==> updates[j].key != key
    requires k < |updates| ==> updates[k].key == key
    ensures FirstMatch(EntryLines(updates), key) == k
  {
    var lines := EntryLines(updates);
    forall j | 0 <= j < |lines|
      ensures Editable(lines[j]) && StripSpaces(KeyPart(lines[j])) == updates[j].key
    {
      EntryLinesAt(updates, j);
      EntryLineShape(updates[j]);
    }
    FirstMatchIs(lines, key, k);
  }

  /** Written on an empty file, the updates give one line per setting, in
      settings order. */
  lemma {:induction false} ApplyUpdatesToEmpty(updates: seq<Update>)
    requires PlainDistinctKeys(updates)
    ensures ApplyUpdates([], updates) == EntryLines(updates)
  {
    if updates != [] {
      var init := updates[..|updates| - 1];
      var last := updates[|updates| - 1];
      var lines := EntryLines(init);
      assert ApplyUpdates([], init) == lines by { ApplyUpdatesToEmpty(init); }
      assert FirstMatch(lines, StripSpaces(last.key)) == |lines| by {
        StripSpacesKeeps(last.key);
        FirstEntryOfKey(init, last.key, |init|);
      }
    }
  }

  /** Rewriting a line the writer produced, for the same key, gives the
      line it would now produce. */
  lemma RewriteEntryLine(prev: Update, u: Update)
    requires prev.key == u.key && PlainKey(u.key)
    requires LeadsWithoutSpace(prev)
    ensures Find(EntryLine(prev), '=') == |u.key|
    ensures Rewritten(EntryLine(prev), Format(OneLine(u.value), u.quoted)) == EntryLine(u)
  {
    var line := EntryLine(prev);
    var eq := |u.key|;
    var formatted := Format(OneLine(u.value), u.quoted);
    EntryLineShape(prev);
    assert SpaceRun(line[eq + 1..]) == [] by { FormattedLeadsWithoutSpace(prev); }
    assert Rewritten(line, formatted) == u.key + "=" + [] + formatted;
    assert u.key + "=" + [] + formatted == u.key + "=" + formatted;
  }

  /** What the writer puts after `=` holds no leading whitespace for a later
      rewrite to keep. */
  lemma FormattedLeadsWithoutSpace(u: Update)
    requires LeadsWithoutSpace(u)
    ensures SpaceRun(Format(OneLine(u.value), u.quoted)) == []
  {
    if !u.quoted && u.value != [] {
      assert OneLine(u.value)[0] == u.value[0];
    }
  }

  /** Updating the key of line `k` of a written file, when that line is the
      first of its key, rewrites it into the line written for the update. */
  lemma UpdateEntryLinesInPlace(updates: seq<Update>, u: Update, k: nat)
    requires k < |updates| && updates[k].key == u.key && PlainKey(u.key)
    requires LeadsWithoutSpace(updates[k])
    requires FirstMatch(EntryLines(updates), u.key) == k
    ensures UpdatedLines(EntryLines(updates), u.key, u.value, u.quoted) == EntryLines(updates[k := u])
  {
    StripSpacesKeeps(u.key);
    EntryLinesAt(updates, k);
    RewriteEntryLine(updates[k], u);
    UpdateRewritesTo(EntryLines(updates), u.key, u.value, u.quoted, k, EntryLine(u));
    EntryLinesUpdate(updates, k, u);
  }

  /** Re-saving a file the writer produced, for the same keys in the same
      order: after `i` updates, the first `i` lines are rewritten in place
      and the others are still the old ones; no line is added. */
  lemma {:induction false} ApplyUpdatesToSaved(previous: seq<Update>, updates: seq<Update>, i: nat)
    requires |previous| == |updates| && i <= |updates|
    requires PlainDistinctKeys(updates)
    requires forall j :: 0 <= j < |updates| ==> previous[j].key == updates[j].key
    requires forall j :: 0 <= j < |previous| ==> LeadsWithoutSpace(previous[j])
    ensures ApplyUpdates(EntryLines(previous), updates[..i]) == EntryLines(updates[..i] + previous[i..])
  {
    if i == 0 {
      assert updates[..0] + previous[0..] == previous;
    } else {
      ApplyUpdatesPrefix(EntryLines(previous), updates, i);
      ApplyUpdatesToSaved(previous, updates, i - 1);
      SavedStep(previous, updates, i);
    }
  }

  /** Update `i - 1` rewrites line `i - 1`, the first line of its key. */
  lemma SavedStep(previous: seq<Update>, updates: seq<Update>, i: nat)
    requires |previous| == |updates| && 0 < i <= |updates|
    requires PlainDistinctKeys(updates)
    requires forall j :: 0 <= j < |updates| ==> previous[j].key == updates[j].key
    requires LeadsWithoutSpace(previous[i - 1])
    ensures var u := updates[i - 1];
      UpdatedLines(EntryLines(updates[..i - 1] + previous[i - 1..]), u.key, u.value, u.quoted)
        == EntryLines(updates[..i] + previous[i..])
  {
    var u := updates[i - 1];
    var mixed := updates[..i - 1] + previous[i - 1..];
    assert forall j :: 0 <= j < |mixed| ==> mixed[j].key == updates[j].key;
    assert mixed[i - 1] == previous[i - 1];
    FirstEntryOfKey(mixed, u.key, i - 1);
    UpdateEntryLinesInPlace(mixed, u, i - 1);
    Splice(updates, previous, i);
  }

  /** Taking one more element from `a` in a splice of `a` and `b`. */
  lemma Splice<T>(a: seq<T>, b: seq<T>, i: nat)
    requires |a| == |b| && 0 < i <= |a|
    ensures (a[..i - 1] + b[i - 1..])[i - 1 := a[i - 1]] == a[..i] + b[i..]
  {
    var l := (a[..i - 1] + b[i - 1..])[i - 1 := a[i - 1]];
    var r := a[..i] + b[i..];
    forall j | 0 <= j < |l| ensures l[j] == r[j] {
    }
  }

  /** Saving over a file the writer produced gives the file it would have
      produced from scratch. */
  lemma ResaveGivesFreshFile(previous: seq<Update>, updates: seq<Update>)
    requires |previous| == |updates|
    requires PlainDistinctKeys(updates)
    requires forall j :: 0 <= j < |updates| ==> previous[j].key == updates[j].key
    requires forall j :: 0 <= j < |previous| ==> LeadsWithoutSpace(previous[j])
    ensures ApplyUpdates(EntryLines(previous), updates) == ApplyUpdates([], updates)
  {
    ApplyUpdatesToSaved(previous, updates, |updates|);
    assert updates[..|updates|] == updates;
    assert updates[..|updates|] + previous[|updates|..] == updates;
    ApplyUpdatesToEmpty(updates);
  }
}
