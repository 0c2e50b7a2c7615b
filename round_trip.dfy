/** What `updateAllConfigFiles` writes for the in-memory settings, and what
    the loaders make of it when the game reads the files back. */
module RoundTrip {
  import opened ConfigText
  import opened ConfigWriter
  import opened Settings

  // ---------------------------------------------------------------------
  // The updates each file receives

  /** Localization texts are written quoted. */
  function LocalizationUpdate(e: Entry): Update {
    Update(e.key, e.text, true)
  }

  function LocalizationUpdates(list: seq<Entry>): (us: seq<Update>)
    ensures |us| == |list|
  {
    if list == [] then []
    else LocalizationUpdates(list[..|list| - 1]) + [LocalizationUpdate(list[|list| - 1])]
  }

  /** A size is written with `std::to_string`, the font path as it is;
      both unquoted. */
  function FontText(v: FontValue): string {
    match v
    case Size(n) => IntToString(n)
    case FontPath(p) => p
  }

  function FontUpdate(f: FontEntry): Update {
    Update(f.key, FontText(f.value), false)
  }

  function FontUpdates(fonts: seq<FontEntry>): (us: seq<Update>)
    ensures |us| == |fonts|
  {
    if fonts == [] then []
    else FontUpdates(fonts[..|fonts| - 1]) + [FontUpdate(fonts[|fonts| - 1])]
  }

  /** A decoration toggle is written as `true` or `false`, unquoted. */
  function DecorUpdate(d: DecorEntry): Update {
    Update(d.name, if d.enabled then "true" else "false", false)
  }

  function DecorUpdates(list: seq<DecorEntry>): (us: seq<Update>)
    ensures |us| == |list|
  {
    if list == [] then []
    else DecorUpdates(list[..|list| - 1]) + [DecorUpdate(list[|list| - 1])]
  }

  /** Lists built entry by entry have the entry's update at each index. */
  lemma {:induction false} LocalizationUpdatesAt(list: seq<Entry>, j: nat)
    requires j < |list|
    ensures LocalizationUpdates(list)[j] == LocalizationUpdate(list[j])
  {
    var n := |list| - 1;
    if j < n {
      LocalizationUpdatesAt(list[..n], j);
    }
  }

  lemma {:induction false} FontUpdatesAt(fonts: seq<FontEntry>, j: nat)
    requires j < |fonts|
    ensures FontUpdates(fonts)[j] == FontUpdate(fonts[j])
  {
    var n := |fonts| - 1;
    if j < n {
      FontUpdatesAt(fonts[..n], j);
    }
  }

  lemma {:induction false} DecorUpdatesAt(list: seq<DecorEntry>, j: nat)
    requires j < |list|
    ensures DecorUpdates(list)[j] == DecorUpdate(list[j])
  {
    var n := |list| - 1;
    if j < n {
      DecorUpdatesAt(list[..n], j);
    }
  }

  /** The file written over the previous one: its comment-free lines, then
      every update in turn. A missing file reads as no lines. */
  function SavedFile(raw: seq<string>, updates: seq<Update>): seq<string> {
    ApplyUpdates(NonComments(raw), updates)
  }

  /** No line is a comment. */
  predicate CommentFree(lines: seq<string>) {
    forall k :: 0 <= k < |lines| ==> !IsCommentLine(lines[k])
  }

  /** Keys whose line cannot be taken for a comment. */
  predicate KeysLeadWithoutHash(updates: seq<Update>) {
    forall j :: 0 <= j < |updates| ==> updates[j].key == [] || updates[j].key[0] != '#'
  }

  /** `updateOrAddLine` never turns a file without comments into one with
      a comment, when the key does not start with `#`. */
  lemma UpdatedLinesCommentFree(lines: seq<string>, key: string, value: string, quoted: bool)
    requires CommentFree(lines) && (key == [] || key[0] != '#')
    ensures CommentFree(UpdatedLines(lines, key, value, quoted))
  {
    var formatted := Format(OneLine(value), quoted);
    var m := FirstMatch(lines, StripSpaces(key));
    var r := UpdatedLines(lines, key, value, quoted);
    if m < |lines| {
      var line := lines[m];
      var eq := Find(line, '=');
      var n := Rewritten(line, formatted);
      if eq > 0 {
        assert n[0] == line[0];
      } else {
        assert n[0] == '=';
      }
      forall k | 0 <= k < |r| ensures !IsCommentLine(r[k]) {
        if k != m {
          assert r[k] == lines[k];
        }
      }
    } else {
      var added := key + "=" + formatted;
      if key != [] {
        assert added[0] == key[0];
      } else {
        assert added[0] == '=';
      }
      forall k | 0 <= k < |r| ensures !IsCommentLine(r[k]) {
        if k < |lines| {
          assert r[k] == lines[k];
        }
      }
    }
  }

  lemma {:induction false} ApplyUpdatesCommentFree(lines: seq<string>, updates: seq<Update>)
    requires CommentFree(lines) && KeysLeadWithoutHash(updates)
    ensures CommentFree(ApplyUpdates(lines, updates))
  {
    if updates != [] {
      var init := updates[..|updates| - 1];
      var last := updates[|updates| - 1];
      assert KeysLeadWithoutHash(init) by {
        forall j | 0 <= j < |init| ensures init[j] == updates[j] { }
      }
      ApplyUpdatesCommentFree(lines, init);
      UpdatedLinesCommentFree(ApplyUpdates(lines, init), last.key, last.value, last.quoted);
    }
  }

  /** The saved file holds no comment: the comments of the old file are
      dropped, and reading the saved file back keeps every line. */
  lemma SavedFileHasNoComments(raw: seq<string>, updates: seq<Update>)
    requires KeysLeadWithoutHash(updates)
    ensures CommentFree(SavedFile(raw, updates))
    ensures NonComments(SavedFile(raw, updates)) == SavedFile(raw, updates)
  {
    var lines := NonComments(raw);
    assert CommentFree(lines) by {
      NonCommentsMembers(raw);
      forall k | 0 <= k < |lines| ensures !IsCommentLine(lines[k]) {
        assert lines[k] in lines;
      }
    }
    ApplyUpdatesCommentFree(lines, updates);
    NonCommentsOfCommentFree(SavedFile(raw, updates));
  }

  /** The lines written for plain keys are no comments. */
  lemma EntryLinesNotComments(updates: seq<Update>)
    requires forall j :: 0 <= j < |updates| ==> PlainKey(updates[j].key)
    ensures CommentFree(EntryLines(updates))
  {
    var lines := EntryLines(updates);
    forall j | 0 <= j < |lines| ensures !IsCommentLine(lines[j]) {
      EntryLinesAt(updates, j);
      var key := updates[j].key;
      if key != [] {
        assert lines[j][0] == key[0];
      } else {
        assert lines[j][0] == '=';
      }
    }
  }

  /** Saving over a missing file writes one line per setting. */
  lemma FreshSave(updates: seq<Update>)
    requires PlainDistinctKeys(updates)
    ensures SavedFile([], updates) == EntryLines(updates)
  {
    ApplyUpdatesToEmpty(updates);
  }

  /** Saving over the file saved last time, for the same keys, writes the
      same file as saving over a missing one. */
  lemma Resave(previous: seq<Update>, updates: seq<Update>)
    requires |previous| == |updates| && PlainDistinctKeys(updates)
    requires forall j :: 0 <= j < |updates| ==> previous[j].key == updates[j].key
    requires forall j :: 0 <= j < |previous| ==> LeadsWithoutSpace(previous[j])
    ensures SavedFile(EntryLines(previous), updates) == EntryLines(updates)
  {
    EntryLinesNotComments(previous);
    NonCommentsOfCommentFree(EntryLines(previous));
    ResaveGivesFreshFile(previous, updates);
    ApplyUpdatesToEmpty(updates);
  }

  // ---------------------------------------------------------------------
  // One localization line

  /** What a written and re-read text becomes: every newline is preceded
      by a space. */
  function NewlinesSpaced(value: string): (r: string)
    ensures |r| >= |value|
  {
    if value == [] then []
    else (if value[0] == '\n' then " \n" else [value[0]]) + NewlinesSpaced(value[1..])
  }

  /** The one-line form of a text without backslashes decodes to the text with
      its newlines spaced. */
  lemma {:induction false} UnescapeOneLine(value: string)
    requires '\\' !in value
    ensures Unescape(OneLine(value)) == NewlinesSpaced(value)
  {
    if value != [] {
      var rest := OneLine(value[1..]);
      assert '\\' !in value[1..];
      UnescapeOneLine(value[1..]);
      if value[0] == '\n' {
        assert OneLine(value) == [' '] + (EscapeChar('\n') + rest);
        UnescapeCopiesPlainPrefix([' '], EscapeChar('\n') + rest);
        UnescapeEscapeChar('\n', rest);
      } else {
        assert OneLine(value) == [value[0]] + rest;
        UnescapeCopiesPlainPrefix([value[0]], rest);
      }
    }
  }

  /** The one-line form of a text not ending in a backslash does not end in
      one either, and is empty only for the empty text. */
  lemma {:induction false} OneLineLast(value: string)
    requires value != [] && value[|value| - 1] != '\\'
    ensures OneLine(value) != [] && OneLine(value)[|OneLine(value)| - 1] != '\\'
  {
    var head := if value[0] == '\n' then " \\n" else [value[0]];
    assert OneLine(value) == head + OneLine(value[1..]);
    if |value| > 1 {
      OneLineLast(value[1..]);
    }
  }

  /** The quoted value of a quoted one-line text is that text. */
  lemma QuotedOneLine(value: string)
    requires '"' !in value && '\\' !in value
    ensures QuotedValue("\"" + OneLine(value) + "\"") == OneLine(value)
  {
    var v := OneLine(value);
    OneLineNoQuote(value);
    if value != [] {
      OneLineLast(value);
    }
    QuotedValueOfQuoted(v);
  }

  /** Write-then-read of a text with no quote and no backslash: the key gets
      the text back with each newline preceded by a space; an empty text
      defines nothing. */
  lemma LocalizationLineRoundTrip(key: string, value: string)
    requires PlainKey(key) && '"' !in value && '\\' !in value
    ensures LocalizationDefinition(EntryLine(Update(key, value, true))) ==
      if value == [] then NoDefinition else Defines(key, NewlinesSpaced(value))
  {
    var v := OneLine(value);
    QuotedOneLine(value);
    DefinitionOfSplit(key, "\"" + v + "\"");
    if value != [] {
      OneLineLast(value);
      UnescapeOneLine(value);
    } else {
      assert v == [];
    }
  }

  /** With no newline either, the text comes back exactly. */
  lemma LocalizationLineExact(key: string, value: string)
    requires PlainKey(key) && '"' !in value && '\\' !in value && '\n' !in value
    ensures LocalizationDefinition(EntryLine(Update(key, value, true))) ==
      if value == [] then NoDefinition else Defines(key, value)
  {
    LocalizationLineRoundTrip(key, value);
    OneLineKeeps(value);
    UnescapeOneLine(value);
    UnescapeWithoutBackslash(value);
  }

  /** The writer does not escape quotes: a text holding one reads back as
      the part before it (so `hi "there"` comes back as `hi `). */
  lemma QuoteTruncates(key: string, a: string, b: string)
    requires PlainKey(key) && a != []
    requires '"' !in a && '\\' !in a && '\n' !in a
    ensures LocalizationDefinition(EntryLine(Update(key, a + "\"" + b, true))) == Defines(key, a)
  {
    var value := a + "\"" + b;
    var rest := OneLine(b) + "\"";
    var quoted := "\"" + OneLine(value) + "\"";
    assert OneLine(value) == a + "\"" + OneLine(b) by {
      QuoteKeptInOneLine(a, b);
    }
    assert quoted == [] + "\"" + a + "\"" + rest;
    assert QuotedValue(quoted) == a by {
      QuotedValueOfWrapped([], a, rest);
    }
    assert Unescape(a) == a by {
      UnescapeWithoutBackslash(a);
    }
    DefinitionOfSplit(key, quoted);
  }

  /** A quote passes through the one-line form unchanged. */
  lemma QuoteKeptInOneLine(a: string, b: string)
    requires '\n' !in a
    ensures OneLine(a + "\"" + b) == a + "\"" + OneLine(b)
  {
    assert a + "\"" + b == a + ("\"" + b);
    OneLineAppend(a, "\"" + b);
    OneLineAppend("\"", b);
    OneLineKeeps(a);
    assert OneLine("\"") == "\"" by { assert "\""[1..] == []; }
  }

  /** The one-line form works piecewise. */
  lemma {:induction false} OneLineAppend(a: string, b: string)
    ensures OneLine(a + b) == OneLine(a) + OneLine(b)
  {
    if a != [] {
      assert (a + b)[0] == a[0] && (a + b)[1..] == a[1..] + b;
      OneLineAppend(a[1..], b);
    } else {
      assert a + b == b;
    }
  }
  // ---------------------------------------------------------------------
  // localization.cfg

  /** A text `updateOrAddLine` writes so that it reads back unchanged. */
  predicate WritableText(text: string) {
    '"' !in text && '\\' !in text && '\n' !in text
  }

  /** Keys the writer finds again, each once. */
  predicate DistinctPlainKeys(list: seq<Entry>) {
    && (forall j :: 0 <= j < |list| ==> PlainKey(list[j].key))
    && (forall i, j :: 0 <= i < j < |list| ==> list[i].key != list[j].key)
  }

  /** Line `j` of the written localization file, read back. */
  lemma LocalizationFileLine(list: seq<Entry>, j: nat)
    requires j < |list| && PlainKey(list[j].key) && WritableText(list[j].text)
    ensures LocalizationDefinition(EntryLines(LocalizationUpdates(list))[j]) ==
      if list[j].text == [] then NoDefinition else Defines(list[j].key, list[j].text)
  {
    LocalizationFileLineIs(list, j);
    LocalizationLineExact(list[j].key, list[j].text);
  }

  lemma LocalizationFileLineIs(list: seq<Entry>, j: nat)
    requires j < |list|
    ensures EntryLines(LocalizationUpdates(list))[j] == EntryLine(LocalizationUpdate(list[j]))
  {
    EntryLinesAt(LocalizationUpdates(list), j);
    LocalizationUpdatesAt(list, j);
  }

  /** Saving `LocalizationList` to a fresh file and loading it again gives
      the same list, when its keys are plain and distinct and its texts hold
      no quote, backslash or newline. */
  lemma LocalizationFileRoundTrip(list: seq<Entry>)
    requires DistinctPlainKeys(list)
    requires forall j :: 0 <= j < |list| ==> WritableText(list[j].text) && |list[j].text| <= TextCapacity
    ensures LocalizedList(list, EntryLines(LocalizationUpdates(list))) == list
  {
    var lines := EntryLines(LocalizationUpdates(list));
    var m := LocalizationMap(lines);
    var r := LocalizedList(list, lines);
    LocalizedListSpec(list, lines);
    forall i | 0 <= i < |list| ensures r[i] == list[i] {
      var key := list[i].key;
      forall j | 0 <= j < |lines| && j != i ensures !DefinesKey(lines[j], key) {
        LocalizationFileLine(list, j);
      }
      LocalizationFileLine(list, i);
      assert FirstOfKey(list, i);
      if list[i].text == [] {
        assert forall j :: 0 <= j < |lines| ==> !DefinesKey(lines[j], key);
        LocalizationMapDomain(lines, key);
      } else {
        LocalizationMapLastWins(lines, i, key, list[i].text);
      }
    }
  }

  lemma LocalizationUpdatesPlain(list: seq<Entry>)
    requires DistinctPlainKeys(list)
    ensures PlainDistinctKeys(LocalizationUpdates(list))
  {
    var us := LocalizationUpdates(list);
    forall j | 0 <= j < |us| ensures us[j].key == list[j].key {
      LocalizationUpdatesAt(list, j);
    }
  }

  /** `updateAllConfigFiles` then `loadLocalization`, with no
      `localization.cfg` before: the list comes back unchanged. */
  lemma LocalizationSaveLoad(list: seq<Entry>)
    requires DistinctPlainKeys(list)
    requires forall j :: 0 <= j < |list| ==> WritableText(list[j].text) && |list[j].text| <= TextCapacity
    ensures LocalizedList(list, NonComments(SavedFile([], LocalizationUpdates(list)))) == list
  {
    var us := LocalizationUpdates(list);
    LocalizationUpdatesPlain(list);
    FreshSave(us);
    EntryLinesNotComments(us);
    NonCommentsOfCommentFree(EntryLines(us));
    LocalizationFileRoundTrip(list);
  }

  /** The same over the file saved last time, whatever texts it held for
      the same keys. */
  lemma LocalizationResaveLoad(before: seq<Entry>, list: seq<Entry>)
    requires |before| == |list| && forall j :: 0 <= j < |list| ==> before[j].key == list[j].key
    requires DistinctPlainKeys(list)
    requires forall j :: 0 <= j < |list| ==> WritableText(list[j].text) && |list[j].text| <= TextCapacity
    ensures LocalizedList(list, NonComments(SavedFile(EntryLines(LocalizationUpdates(before)), LocalizationUpdates(list)))) == list
  {
    var previous := LocalizationUpdates(before);
    var us := LocalizationUpdates(list);
    LocalizationUpdatesPlain(list);
    forall j | 0 <= j < |previous| ensures previous[j].key == us[j].key && LeadsWithoutSpace(previous[j]) {
      LocalizationUpdatesAt(before, j);
      LocalizationUpdatesAt(list, j);
    }
    Resave(previous, us);
    EntryLinesNotComments(us);
    NonCommentsOfCommentFree(EntryLines(us));
    LocalizationFileRoundTrip(list);
  }

  // ---------------------------------------------------------------------
  // font.cfg

  /** The decimal text of a positive `int`, as the size loader reads it. */
  lemma DecimalTextAccepted(n: int)
    requires 0 < n <= IntMax
    ensures var d := DecimalString(n);
      && ExtractValue(d) == d && AcceptedSize(d) && StoiDefined(d) && DecimalValue(d) == n
      && OneLine(d) == d && IntToString(n) == d
  {
    var d := DecimalString(n);
    DecimalRoundTrip(n);
    DigitTextAccepted(d, n);
  }

  lemma DigitTextAccepted(d: string, n: int)
    requires d != [] && AllDigits(d) && !IsBlank(d[0]) && !IsBlank(d[|d| - 1]) && '\n' !in d
    requires DecimalValue(d) == n && 0 < n <= IntMax
    ensures ExtractValue(d) == d && AcceptedSize(d) && StoiDefined(d) && OneLine(d) == d
  {
    assert ExtractValue(d) == d by {
      ExtractValueOfPadded([], d, []);
      assert [] + d + [] == d;
    }
    OneLineKeeps(d);
  }

  /** A positive size within `int`, written and read back, sets its entry,
      and the line it is written on is one `std::stoi` reads. */
  lemma SizeWriteRead(fonts: seq<FontEntry>, n: int)
    requires 0 < n <= IntMax
    ensures FontLine(fonts, EntryLine(Update(SizeKey, IntToString(n), false))) == SetFont(fonts, SizeKey, Size(n))
    ensures SizeLineReadable(EntryLine(Update(SizeKey, IntToString(n), false)))
  {
    var d := DecimalString(n);
    var line := EntryLine(Update(SizeKey, IntToString(n), false));
    assert line == SizePrefix + d by {
      DecimalTextAccepted(n);
    }
    assert FontLine(fonts, line) == SetFont(fonts, SizeKey, Size(n)) by {
      DecimalTextAccepted(n);
      SizeLineRecognised(fonts, d);
    }
    assert SizeLineReadable(line) by {
      DecimalTextAccepted(n);
      SizeLineReadableOf(d);
    }
  }

  lemma OtherSizeWriteRead(fonts: seq<FontEntry>, n: int)
    requires 0 < n <= IntMax
    ensures FontLine(fonts, EntryLine(Update(OtherSizeKey, IntToString(n), false))) ==
      SetFont(fonts, OtherSizeKey, Size(n))
    ensures SizeLineReadable(EntryLine(Update(OtherSizeKey, IntToString(n), false)))
  {
    var d := DecimalString(n);
    var line := EntryLine(Update(OtherSizeKey, IntToString(n), false));
    assert line == OtherSizePrefix + d by {
      DecimalTextAccepted(n);
    }
    assert FontLine(fonts, line) == SetFont(fonts, OtherSizeKey, Size(n)) by {
      DecimalTextAccepted(n);
      OtherSizeLineRecognised(fonts, d);
    }
    assert SizeLineReadable(line) by {
      DecimalTextAccepted(n);
      OtherSizeLineReadableOf(d);
    }
  }

  /** The font path is written unquoted, and a path without a quote reads
      back as no path at all: the line leaves the settings as they were. */
  lemma FontPathNotReadBack(fonts: seq<FontEntry>, path: string)
    requires '"' !in path
    ensures FontLine(fonts, EntryLine(Update(PathKey, path, false))) == fonts
    ensures SizeLineReadable(EntryLine(Update(PathKey, path, false)))
  {
    var line := EntryLine(Update(PathKey, path, false));
    assert line == FontPrefix + OneLine(path);
    assert line[..|FontPrefix|] == FontPrefix && line[|FontPrefix|..] == OneLine(path);
    OneLineNoQuote(path);
    QuotedValueWithoutQuote(OneLine(path));
  }

  /** The three lines of `font.cfg` saved from scratch. */
  lemma FontFileLines(p: string, a: int, b: int)
    ensures EntryLines(FontUpdates([FontEntry(PathKey, FontPath(p)), FontEntry(SizeKey, Size(a)),
        FontEntry(OtherSizeKey, Size(b))])) ==
      [EntryLine(Update(PathKey, p, false)), EntryLine(Update(SizeKey, IntToString(a), false)),
       EntryLine(Update(OtherSizeKey, IntToString(b), false))]
  {
    var fonts := [FontEntry(PathKey, FontPath(p)), FontEntry(SizeKey, Size(a)), FontEntry(OtherSizeKey, Size(b))];
    var lines := EntryLines(FontUpdates(fonts));
    forall j | 0 <= j < 3 ensures lines[j] == EntryLine(FontUpdate(fonts[j])) {
      EntryLinesAt(FontUpdates(fonts), j);
      FontUpdatesAt(fonts, j);
    }
  }

  /** Lines are loaded one after the other. */
  lemma LoadedSnoc(fonts: seq<FontEntry>, lines: seq<string>, line: string)
    ensures LoadedFonts(fonts, lines + [line]) == FontLine(LoadedFonts(fonts, lines), line)
  {
    assert (lines + [line])[..|lines|] == lines;
  }

  /** The three saved lines, loaded: the path line changes nothing and the
      two size lines set their sizes. */
  lemma FontLinesLoad(into: seq<FontEntry>, p: string, a: int, b: int)
    requires '"' !in p && 0 < a <= IntMax && 0 < b <= IntMax
    ensures LoadedFonts(into, [EntryLine(Update(PathKey, p, false)), EntryLine(Update(SizeKey, IntToString(a), false)),
        EntryLine(Update(OtherSizeKey, IntToString(b), false))]) ==
      SetFont(SetFont(into, SizeKey, Size(a)), OtherSizeKey, Size(b))
  {
    var l0 := EntryLine(Update(PathKey, p, false));
    var l1 := EntryLine(Update(SizeKey, IntToString(a), false));
    var l2 := EntryLine(Update(OtherSizeKey, IntToString(b), false));
    var mid := SetFont(into, SizeKey, Size(a));
    assert LoadedFonts(into, [l0]) == into by {
      LoadedSnoc(into, [], l0);
      FontPathNotReadBack(into, p);
    }
    assert LoadedFonts(into, [l0, l1]) == mid by {
      LoadedSnoc(into, [l0], l1);
      assert [l0] + [l1] == [l0, l1];
      SizeWriteRead(into, a);
    }
    LoadedSnoc(into, [l0, l1], l2);
    assert [l0, l1] + [l2] == [l0, l1, l2];
    OtherSizeWriteRead(mid, b);
  }

  /** The three saved lines are ones `std::stoi` reads. */
  lemma FontLinesReadable(p: string, a: int, b: int)
    requires '"' !in p && 0 < a <= IntMax && 0 < b <= IntMax
    ensures SizesReadable([EntryLine(Update(PathKey, p, false)), EntryLine(Update(SizeKey, IntToString(a), false)),
        EntryLine(Update(OtherSizeKey, IntToString(b), false))])
  {
    FontPathNotReadBack([], p);
    SizeWriteRead([], a);
    OtherSizeWriteRead([], b);
  }

  /** Saving `FontList` and loading it again: both sizes come back (and the
      file is one `std::stoi` reads), while the path line changes nothing,
      so the path loaded is whatever the list held before. */
  lemma FontFileRoundTrip(into: seq<FontEntry>, p: string, a: int, b: int)
    requires '"' !in p && 0 < a <= IntMax && 0 < b <= IntMax
    ensures var lines := EntryLines(FontUpdates([FontEntry(PathKey, FontPath(p)), FontEntry(SizeKey, Size(a)),
        FontEntry(OtherSizeKey, Size(b))]));
      && SizesReadable(lines)
      && LoadedFonts(into, lines) == SetFont(SetFont(into, SizeKey, Size(a)), OtherSizeKey, Size(b))
  {
    FontFileLines(p, a, b);
    FontLinesLoad(into, p, a, b);
    FontLinesReadable(p, a, b);
  }

  /** In particular the saved list loads back as itself. */
  lemma FontListRoundTrip(p: string, a: int, b: int)
    requires '"' !in p && 0 < a <= IntMax && 0 < b <= IntMax
    ensures var fonts := [FontEntry(PathKey, FontPath(p)), FontEntry(SizeKey, Size(a)), FontEntry(OtherSizeKey, Size(b))];
      LoadedFonts(fonts, EntryLines(FontUpdates(fonts))) == fonts
  {
    var fonts := [FontEntry(PathKey, FontPath(p)), FontEntry(SizeKey, Size(a)), FontEntry(OtherSizeKey, Size(b))];
    FontFileRoundTrip(fonts, p, a, b);
    assert IndexOf(fonts, KeyOfFont, SizeKey) == 1 by {
      assert |fonts[0].key| != |SizeKey|;
    }
    var mid := SetFont(fonts, SizeKey, Size(a));
    assert mid == fonts;
    assert IndexOf(fonts, KeyOfFont, OtherSizeKey) == 2 by {
      assert |fonts[0].key| != |OtherSizeKey|;
      assert |fonts[1].key| != |OtherSizeKey|;
    }
  }

  /** `updateAllConfigFiles` then `loadCustomFontSize`, with no `font.cfg`
      before: the file is read without an exception, and the sizes come
      back. */
  lemma FontSaveLoad(into: seq<FontEntry>, p: string, a: int, b: int)
    requires '"' !in p && 0 < a <= IntMax && 0 < b <= IntMax
    ensures var lines := NonComments(SavedFile([], FontUpdates([FontEntry(PathKey, FontPath(p)),
        FontEntry(SizeKey, Size(a)), FontEntry(OtherSizeKey, Size(b))])));
      && SizesReadable(lines)
      && LoadedFonts(into, lines) == SetFont(SetFont(into, SizeKey, Size(a)), OtherSizeKey, Size(b))
  {
    var us := FontUpdates([FontEntry(PathKey, FontPath(p)), FontEntry(SizeKey, Size(a)), FontEntry(OtherSizeKey, Size(b))]);
    assert PlainDistinctKeys(us) by {
      FontFileKeys(p, a, b);
    }
    FreshSave(us);
    EntryLinesNotComments(us);
    NonCommentsOfCommentFree(EntryLines(us));
    FontFileRoundTrip(into, p, a, b);
  }

  /** The updates of the three font keys, which are plain and distinct. */
  lemma FontFileKeys(p: string, a: int, b: int)
    ensures var us := FontUpdates([FontEntry(PathKey, FontPath(p)), FontEntry(SizeKey, Size(a)),
        FontEntry(OtherSizeKey, Size(b))]);
      && |us| == 3 && us[0].key == PathKey && us[1].key == SizeKey && us[2].key == OtherSizeKey
      && PlainDistinctKeys(us)
  {
    var fonts := [FontEntry(PathKey, FontPath(p)), FontEntry(SizeKey, Size(a)), FontEntry(OtherSizeKey, Size(b))];
    FontUpdatesAt(fonts, 0);
    FontUpdatesAt(fonts, 1);
    FontUpdatesAt(fonts, 2);
    assert PlainKey(PathKey) && PlainKey(SizeKey) && PlainKey(OtherSizeKey) by {
      FontKeysPlain();
    }
  }

  lemma FontKeysPlain()
    ensures PlainKey(PathKey) && PlainKey(SizeKey) && PlainKey(OtherSizeKey)
  {
    UpperKeyPlain(PathKey);
    UpperKeyPlain(SizeKey);
    UpperKeyPlain(OtherSizeKey);
  }

  /** A key of capital letters and underscores is plain. */
  lemma UpperKeyPlain(key: string)
    requires forall k :: 0 <= k < |key| ==> 'A' <= key[k] <= 'Z' || key[k] == '_'
    ensures PlainKey(key)
  {
  }

  // ---------------------------------------------------------------------
  // decor.cfg

  /** Names the writer finds again, each once. */
  predicate DistinctPlainNames(list: seq<DecorEntry>) {
    && (forall j :: 0 <= j < |list| ==> PlainKey(list[j].name))
    && (forall i, j :: 0 <= i < j < |list| ==> list[i].name != list[j].name)
  }

  /** The line saved for a decoration sets its name, and no other, to its
      toggle. */
  lemma DecorEntryLine(d: DecorEntry, name: string)
    requires PlainKey(d.name)
    ensures SetsDecor(EntryLine(DecorUpdate(d)), name) <==> name == d.name
    ensures Find(EntryLine(DecorUpdate(d)), '=') < |EntryLine(DecorUpdate(d))|
    ensures DecorValue(EntryLine(DecorUpdate(d))) == d.enabled
  {
    var u := DecorUpdate(d);
    EntryLineShape(u);
    OneLineKeeps(u.value);
    assert EntryLine(u)[|d.name| + 1..] == u.value;
    assert "false" != "true" by { assert "false"[0] != "true"[0]; }
  }

  lemma DecorFileLine(list: seq<DecorEntry>, j: nat, name: string)
    requires j < |list| && PlainKey(list[j].name)
    ensures var line := EntryLines(DecorUpdates(list))[j];
      && (SetsDecor(line, name) <==> name == list[j].name)
      && Find(line, '=') < |line| && DecorValue(line) == list[j].enabled
  {
    DecorFileLineIs(list, j);
    DecorEntryLine(list[j], name);
  }

  lemma DecorFileLineIs(list: seq<DecorEntry>, j: nat)
    requires j < |list|
    ensures EntryLines(DecorUpdates(list))[j] == EntryLine(DecorUpdate(list[j]))
  {
    EntryLinesAt(DecorUpdates(list), j);
    DecorUpdatesAt(list, j);
  }

  /** Saving `StandartDecorList` to a fresh file and loading it into a list
      with the same names gives the saved toggles, when the names are plain
      and distinct. */
  lemma DecorFileRoundTrip(into: seq<DecorEntry>, list: seq<DecorEntry>)
    requires |into| == |list| && forall i :: 0 <= i < |list| ==> into[i].name == list[i].name
    requires DistinctPlainNames(list)
    ensures AppliedDecor(into, DecorConfig(EntryLines(DecorUpdates(list)))) == list
  {
    DecorFileEntries(into, list);
  }

  lemma DecorFileEntries(into: seq<DecorEntry>, list: seq<DecorEntry>)
    requires |into| == |list| && forall i :: 0 <= i < |list| ==> into[i].name == list[i].name
    requires DistinctPlainNames(list)
    ensures forall i :: 0 <= i < |list| ==> AppliedDecor(into, DecorConfig(EntryLines(DecorUpdates(list))))[i] == list[i]
  {
    forall i | 0 <= i < |list|
      ensures AppliedDecor(into, DecorConfig(EntryLines(DecorUpdates(list))))[i] == list[i]
    {
      DecorFileEntry(into, list, i);
    }
  }

  lemma DecorFileEntry(into: seq<DecorEntry>, list: seq<DecorEntry>, i: nat)
    requires i < |list| && |into| == |list| && into[i].name == list[i].name
    requires DistinctPlainNames(list)
    ensures AppliedDecor(into, DecorConfig(EntryLines(DecorUpdates(list))))[i] == list[i]
  {
    var lines := EntryLines(DecorUpdates(list));
    var name := list[i].name;
    forall j | i < j < |lines| ensures !SetsDecor(lines[j], name) {
      DecorFileLine(list, j, name);
    }
    DecorFileLine(list, i, name);
    DecorConfigLastWins(lines, i, name);
  }

  /** A name the file holds twice: saving rewrites the first line only, and
      loading takes the last, so the saved toggle is lost. */
  lemma DuplicateNameShadowsSave(name: string, first: bool, second: bool, enabled: bool)
    requires PlainKey(name)
    ensures var saved := SavedFile(EntryLines(DecorUpdates([DecorEntry(name, first), DecorEntry(name, second)])),
        DecorUpdates([DecorEntry(name, enabled)]));
      && saved == EntryLines(DecorUpdates([DecorEntry(name, enabled), DecorEntry(name, second)]))
      && DecorConfig(saved) == map[name := second]
  {
    DuplicateNameRewrite(name, first, second, enabled);
    DuplicateNameConfig(name, enabled, second);
  }

  lemma DuplicateNameRewrite(name: string, first: bool, second: bool, enabled: bool)
    requires PlainKey(name)
    ensures SavedFile(EntryLines(DecorUpdates([DecorEntry(name, first), DecorEntry(name, second)])),
        DecorUpdates([DecorEntry(name, enabled)])) ==
      EntryLines(DecorUpdates([DecorEntry(name, enabled), DecorEntry(name, second)]))
  {
    var u := DecorUpdate(DecorEntry(name, enabled));
    var us := [DecorUpdate(DecorEntry(name, first)), DecorUpdate(DecorEntry(name, second))];
    assert DecorUpdates([DecorEntry(name, enabled)]) == [u] by {
      DecorUpdatesAt([DecorEntry(name, enabled)], 0);
    }
    DecorUpdatesPair(DecorEntry(name, first), DecorEntry(name, second));
    DecorUpdatesPair(DecorEntry(name, enabled), DecorEntry(name, second));
    assert us[0 := u] == [u, us[1]];
    RewriteFirstLine(us, u);
  }

  lemma DecorUpdatesPair(a: DecorEntry, b: DecorEntry)
    ensures DecorUpdates([a, b]) == [DecorUpdate(a), DecorUpdate(b)]
  {
    assert [a, b][..1] == [a];
    assert [a][..0] == [];
  }

  /** Two lines for one name: the second one counts. */
  lemma DuplicateNameConfig(name: string, first: bool, second: bool)
    requires PlainKey(name)
    ensures DecorConfig(EntryLines(DecorUpdates([DecorEntry(name, first), DecorEntry(name, second)]))) ==
      map[name := second]
  {
    var a := DecorUpdate(DecorEntry(name, first));
    var b := DecorUpdate(DecorEntry(name, second));
    DecorUpdatesPair(DecorEntry(name, first), DecorEntry(name, second));
    EntryLinesPair(a, b);
    var l0 := EntryLine(a);
    var l1 := EntryLine(b);
    assert DecorConfig([l0]) == map[name := first] by {
      DecorToggleLine(name, first);
    }
    assert DecorConfig([l1]) == map[name := second] by {
      DecorToggleLine(name, second);
    }
    DecorConfigPair(l0, l1, name, first, second);
  }

  /** The saved line of a toggle reads back as that toggle. */
  lemma DecorToggleLine(name: string, enabled: bool)
    requires PlainKey(name)
    ensures DecorConfig([EntryLine(DecorUpdate(DecorEntry(name, enabled)))]) == map[name := enabled]
  {
    var v := if enabled then "true" else "false";
    OneLineKeeps(v);
    DecorLineValue(name, v);
    assert "false"[0] != "true"[0];
  }

  /** A second line for the same single name overrides the first. */
  lemma DecorConfigPair(l0: string, l1: string, name: string, v0: bool, v1: bool)
    requires DecorConfig([l0]) == map[name := v0] && DecorConfig([l1]) == map[name := v1]
    ensures DecorConfig([l0, l1]) == map[name := v1]
  {
    assert [l0, l1][..1] == [l0];
    assert [l1][..0] == [];
    var eq := Find(l1, '=');
    assert name in DecorConfig([l1]);
    assert eq < |l1|;
    var key := l1[..eq];
    assert DecorConfig([l1]) == map[][key := l1[eq + 1..] == "true"];
    assert key in DecorConfig([l1]);
    assert key == name;
  }

  lemma EntryLinesPair(a: Update, b: Update)
    ensures EntryLines([a, b]) == [EntryLine(a), EntryLine(b)]
  {
    assert [a, b][..1] == [a];
    assert [a][..0] == [];
  }

  /** Saving one setting over a saved file whose first line has its key
      rewrites that line and keeps the others. */
  lemma RewriteFirstLine(us: seq<Update>, u: Update)
    requires us != [] && us[0].key == u.key && LeadsWithoutSpace(us[0])
    requires forall j :: 0 <= j < |us| ==> PlainKey(us[j].key)
    ensures SavedFile(EntryLines(us), [u]) == EntryLines(us[0 := u])
  {
    var lines := EntryLines(us);
    assert NonComments(lines) == lines by {
      EntryLinesNotComments(us);
      NonCommentsOfCommentFree(lines);
    }
    assert ApplyUpdates(lines, [u]) == UpdatedLines(lines, u.key, u.value, u.quoted) by {
      assert [u][..0] == [];
    }
    FirstEntryOfKey(us, u.key, 0);
    UpdateEntryLinesInPlace(us, u, 0);
  }

  /** Blanks after the `=` of a decoration line are kept on rewrite, and the
      loader then never reads `true`: once such a line exists, saving cannot
      enable the decoration. */
  lemma DecorSpaceKept(name: string, previous: string, enabled: bool)
    requires PlainKey(name) && previous != [] && !IsSpace(previous[0])
    ensures var saved := SavedFile([name + "=" + " " + previous], DecorUpdates([DecorEntry(name, enabled)]));
      && saved == [name + "=" + " " + (if enabled then "true" else "false")]
      && DecorConfig(saved) == map[name := false]
  {
    var v := if enabled then "true" else "false";
    assert DecorUpdates([DecorEntry(name, enabled)]) == [Update(name, v, false)] by {
      DecorUpdatesAt([DecorEntry(name, enabled)], 0);
    }
    assert OneLine(v) == v by {
      OneLineKeeps(v);
    }
    SpacedRewrite(name, previous, v);
    SpacedValueIsFalse(name, v);
  }

  /** A value read after a blank is never exactly `true`. */
  lemma SpacedValueIsFalse(name: string, v: string)
    requires PlainKey(name)
    ensures DecorConfig([name + "=" + " " + v]) == map[name := false]
  {
    DecorLineValue(name, " " + v);
    assert name + "=" + " " + v == name + "=" + (" " + v);
    assert (" " + v)[0] != "true"[0];
  }

  /** The line `key=rest`, for a plain key, is no comment and splits at the
      `=` after the key. */
  lemma KeyedLineShape(key: string, rest: string)
    requires PlainKey(key)
    ensures var line := key + "=" + rest;
      && !IsCommentLine(line) && Find(line, '=') == |key|
      && line[..|key|] == key && line[|key| + 1..] == rest
  {
    var line := key + "=" + rest;
    assert forall j :: 0 <= j < |key| ==> line[j] == key[j];
    FindIs(line, '=', |key|);
    assert line[..|key|] == key;
    if key != [] {
      assert line[0] == key[0];
    }
  }

  /** Saving a value over `key= previous` keeps the blank after `=`. */
  lemma SpacedRewrite(key: string, previous: string, value: string)
    requires PlainKey(key) && previous != [] && !IsSpace(previous[0])
    ensures SavedFile([key + "=" + " " + previous], [Update(key, value, false)]) == [key + "=" + " " + OneLine(value)]
  {
    var rest := " " + previous;
    var line := key + "=" + rest;
    var u := Update(key, value, false);
    assert line == key + "=" + " " + previous;
    assert SavedFile([line], [u]) == UpdatedLines([line], key, value, false) by {
      KeyedLineShape(key, rest);
      NonCommentsOfCommentFree([line]);
      assert [u][..0] == [];
      assert ApplyUpdates([line], []) == [line];
      assert ApplyUpdates([line], [u]) == UpdatedLines([line], key, value, false);
    }
    assert Find(line, '=') < |line| && UpdatedLines([line], key, value, false) == [Rewritten(line, OneLine(value))] by {
      KeyedLineShape(key, rest);
      StripSpacesKeeps(key);
      assert FirstMatch([line], key) == 0;
    }
    SpacedRewritten(key, rest, OneLine(value));
  }

  lemma SpacedRewritten(key: string, rest: string, f: string)
    requires PlainKey(key) && |rest| > 1 && rest[0] == ' ' && !IsSpace(rest[1])
    ensures Find(key + "=" + rest, '=') < |key + "=" + rest|
    ensures Rewritten(key + "=" + rest, f) == key + "=" + " " + f
  {
    KeyedLineShape(key, rest);
    assert SpaceRun(rest) == " " by {
      SpaceRunOfNonSpace(rest[1..]);
    }
  }

  lemma SpaceRunOfNonSpace(s: string)
    requires s != [] && !IsSpace(s[0])
    ensures SpaceRun(s) == []
  {
  }

  /** `updateAllConfigFiles` then `loadDecorAssets`, with no `decor.cfg`
      before: every standard decoration keeps its toggle. */
  lemma DecorSaveLoad(into: seq<DecorEntry>, list: seq<DecorEntry>)
    requires |into| == |list| && forall i :: 0 <= i < |list| ==> into[i].name == list[i].name
    requires DistinctPlainNames(list)
    ensures AppliedDecor(into, DecorConfig(NonComments(SavedFile([], DecorUpdates(list))))) == list
  {
    var us := DecorUpdates(list);
    assert PlainDistinctKeys(us) by {
      forall j | 0 <= j < |us| ensures us[j].key == list[j].name {
        DecorUpdatesAt(list, j);
      }
    }
    FreshSave(us);
    EntryLinesNotComments(us);
    NonCommentsOfCommentFree(EntryLines(us));
    DecorFileRoundTrip(into, list);
  }
}
