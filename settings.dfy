/** The in-memory settings of the customizer and what the three loaders of
    FileManager make of a configuration file: `loadLocalization`,
    `loadCustomFontSize` and `loadDecorAssets`, each read as a function of
    the (comment-free) lines of its file and the settings before it. */
module Settings {
  import opened ConfigText

  // ---------------------------------------------------------------------
  // Data

  /** Texts live in `std::array<char, 1024>` buffers: at most 1023
      characters and a terminator. */
  const TextCapacity: nat := 1023

  /** The largest value `std::stoi` returns without throwing. */
  const IntMax: int := 0x7fff_ffff

  /** A localization entry: a key and its text buffer. */
  datatype Entry = Entry(key: string, text: string)

  /** A `FontList` value: the `std::variant<int, std::array<char, 1024>>`. */
  datatype FontValue = Size(size: int) | FontPath(path: string)

  datatype FontEntry = FontEntry(key: string, value: FontValue)

  function KeyOfEntry(e: Entry): string { e.key }

  function KeyOfFont(e: FontEntry): string { e.key }

  /** The index of the first element whose key is `key`, or `|list|`: the
      lookup of a key in `LocalizationList` and in `FontList`. */
  function IndexOf<T>(list: seq<T>, keyOf: T -> string, key: string): (k: nat)
    ensures k <= |list|
    ensures k < |list| ==> keyOf(list[k]) == key
    ensures forall j :: 0 <= j < k ==> keyOf(list[j]) != key
  {
    if list == [] then 0
    else if keyOf(list[0]) == key then 0
    else 1 + IndexOf(list[1..], keyOf, key)
  }

  /** A `StandartDecorList` entry. */
  datatype DecorEntry = DecorEntry(name: string, enabled: bool)

  /** `DecorAsset`: a decoration to load. */
  datatype DecorAsset = DecorAsset(name: string, enabled: bool, isCustom: bool)

  /** What copying into a text buffer keeps (`snprintf` / `strncpy` with
      the buffer size): the first 1023 characters. */
  function Stored(s: string): (r: string)
    ensures |r| <= TextCapacity
    ensures |r| <= |s| && r == s[..|r|]
    ensures |s| <= TextCapacity ==> r == s
    ensures |s| > TextCapacity ==> |r| == TextCapacity
  {
    if |s| <= TextCapacity then s else s[..TextCapacity]
  }

  // ---------------------------------------------------------------------
  // Initial settings

  /** `FontList`: no custom font, text size 24, other text size 48. */
  const DefaultFonts: seq<FontEntry> := [
    FontEntry("FONT", FontPath("")),
    FontEntry("FONT_SIZE", Size(24)),
    FontEntry("OTHER_TEXT_FONT_SIZE", Size(48))
  ]

  /** `StandartDecorList`: the eight standard decorations, all enabled. */
  const DefaultDecor: seq<DecorEntry> := [
    DecorEntry("grass", true),
    DecorEntry("flower1", true),
    DecorEntry("flower2", true),
    DecorEntry("flower3", true),
    DecorEntry("flower4", true),
    DecorEntry("smallrock1", true),
    DecorEntry("smallrock2", true),
    DecorEntry("smallrock3", true)
  ]

  // ---------------------------------------------------------------------
  // loadLocalization

  /** The key and decoded text a localization line defines, if any: split at
      the first `=`, the quoted value after it, decoded; an empty quoted
      value defines nothing. */
  datatype Definition = NoDefinition | Defines(key: string, text: string)

  function LocalizationDefinition(line: string): Definition
  {
    var pos := Find(line, '=');
    if pos == |line| then NoDefinition
    else
      var value := QuotedValue(line[pos + 1..]);
      if value == [] then NoDefinition else Defines(line[..pos], Unescape(value))
  }

  /** A line whose first `=` follows `key` defines `key` as the decoded
      quoted value after it, if that is nonempty. */
  lemma DefinitionOfSplit(key: string, rest: string)
    requires '=' !in key
    ensures LocalizationDefinition(key + "=" + rest) ==
      if QuotedValue(rest) == [] then NoDefinition else Defines(key, Unescape(QuotedValue(rest)))
  {
    var line := key + "=" + rest;
    assert forall j :: 0 <= j < |key| ==> line[j] == key[j];
    FindIs(line, '=', |key|);
    assert line[..|key|] == key && line[|key| + 1..] == rest;
  }

  /** The map `loadLocalization` returns: each line's definition in turn,
      later ones overriding earlier ones. */
  function LocalizationMap(lines: seq<string>): map<string, string>
  {
    if lines == [] then map[]
    else Define(LocalizationMap(lines[..|lines| - 1]), LocalizationDefinition(lines[|lines| - 1]))
  }

  /** `result[key] = value` for a definition. */
  function Define(m: map<string, string>, d: Definition): (r: map<string, string>)
    ensures d.Defines? ==> d.key in r && r[d.key] == d.text
    ensures forall key :: d.NoDefinition? || key != d.key ==> (key in r <==> key in m)
    ensures forall key :: key in m && (d.NoDefinition? || key != d.key) ==> r[key] == m[key]
  {
    match d
    case NoDefinition => m
    case Defines(key, text) => m[key := text]
  }

  /** One definition applied to `LocalizationList`: the first entry of that
      key, if there is one, takes the stored text. */
  function Localized(list: seq<Entry>, d: Definition): seq<Entry>
  {
    match d
    case NoDefinition => list
    case Defines(key, text) =>
      var k := IndexOf(list, KeyOfEntry, key);
      if k < |list| then list[k := Entry(key, Stored(text))] else list
  }

  /** `LocalizationList` after `loadLocalization` read `lines`. */
  function LocalizedList(list: seq<Entry>, lines: seq<string>): (r: seq<Entry>)
    ensures |r| == |list|
  {
    if lines == [] then list
    else Localized(LocalizedList(list, lines[..|lines| - 1]), LocalizationDefinition(lines[|lines| - 1]))
  }

  /** Entry `i` is the first of its key. */
  predicate FirstOfKey(list: seq<Entry>, i: nat)
    requires i < |list|
  {
    forall j :: 0 <= j < i ==> list[j].key != list[i].key
  }

  /** After loading, every entry keeps its key. The first entry of a key
      the file defines holds the stored text of the last definition; every
      other entry keeps its text. */
  lemma {:induction false} LocalizedListSpec(list: seq<Entry>, lines: seq<string>)
    ensures var r := LocalizedList(list, lines);
      var m := LocalizationMap(lines);
      forall i :: 0 <= i < |list| ==>
        && r[i].key == list[i].key
        && r[i].text == (if FirstOfKey(list, i) && list[i].key in m then Stored(m[list[i].key]) else list[i].text)
  {
    if lines != [] {
      var init := lines[..|lines| - 1];
      LocalizedListSpec(list, init);
      var before := LocalizedList(list, init);
      var d := LocalizationDefinition(lines[|lines| - 1]);
      if d.Defines? {
        var k := IndexOf(before, KeyOfEntry, d.key);
        forall i | 0 <= i < |list| && k < |before| && i != k
          ensures list[i].key != d.key || !FirstOfKey(list, i)
        {
          if i < k {
            assert before[i].key != d.key;
          } else {
            assert list[k].key == d.key && k < i;
          }
        }
        forall i | 0 <= i < |list| && k == |before|
          ensures list[i].key != d.key
        {
          assert before[i].key != d.key;
        }
        forall i | 0 <= i < |list| && k < |before| && i == k
          ensures FirstOfKey(list, i)
        {
          forall j | 0 <= j < i ensures list[j].key != list[i].key {
            assert before[j].key != d.key;
          }
        }
      }
    }
  }

  /** Line `line` gives a text for `key`. */
  predicate DefinesKey(line: string, key: string) {
    LocalizationDefinition(line).Defines? && LocalizationDefinition(line).key == key
  }

  /** A key defined by some line is in the map, and only such keys are. */
  lemma LocalizationMapDomain(lines: seq<string>, key: string)
    ensures key in LocalizationMap(lines) <==> exists i :: 0 <= i < |lines| && DefinesKey(lines[i], key)
  {
    if i :| 0 <= i < |lines| && DefinesKey(lines[i], key) {
      LocalizationMapHasDefined(lines, i, key);
    }
    if key in LocalizationMap(lines) {
      LocalizationMapOnlyDefined(lines, key);
    }
  }

  /** A defined key is in the map. */
  lemma {:induction false} LocalizationMapHasDefined(lines: seq<string>, i: nat, key: string)
    requires i < |lines| && DefinesKey(lines[i], key)
    ensures key in LocalizationMap(lines)
  {
    var init := lines[..|lines| - 1];
    if i < |init| {
      assert init[i] == lines[i];
      LocalizationMapHasDefined(init, i, key);
    }
  }

  /** A key in the map is defined by some line. */
  lemma {:induction false} LocalizationMapOnlyDefined(lines: seq<string>, key: string)
    requires key in LocalizationMap(lines)
    ensures exists i :: 0 <= i < |lines| && DefinesKey(lines[i], key)
  {
    var init := lines[..|lines| - 1];
    if !DefinesKey(lines[|lines| - 1], key) {
      LocalizationMapOnlyDefined(init, key);
      var i :| 0 <= i < |init| && DefinesKey(init[i], key);
      assert lines[i] == init[i];
    }
  }

  /** The text of a key is the one its last definition gives. */
  lemma {:induction false} LocalizationMapLastWins(lines: seq<string>, i: nat, key: string, text: string)
    requires i < |lines| && LocalizationDefinition(lines[i]) == Defines(key, text)
    requires forall j :: i < j < |lines| ==> !DefinesKey(lines[j], key)
    ensures key in LocalizationMap(lines) && LocalizationMap(lines)[key] == text
  {
    var init := lines[..|lines| - 1];
    if i < |init| {
      forall j | i < j < |init| ensures !DefinesKey(init[j], key) {
        assert init[j] == lines[j];
      }
      LocalizationMapLastWins(init, i, key, text);
    }
  }

  // ---------------------------------------------------------------------
  // loadCustomFontSize

  /** The `find_if` on a key and the assignment to the entry it finds. */
  function SetFont(fonts: seq<FontEntry>, key: string, v: FontValue): seq<FontEntry>
  {
    var k := IndexOf(fonts, KeyOfFont, key);
    if k < |fonts| then fonts[k := FontEntry(key, v)] else fonts
  }

  /** The size text after a `FONT_SIZE=`-style prefix is accepted when,
      trimmed, it is nonempty, all digits, and its value is positive. */
  predicate AcceptedSize(rest: string) {
    var text := ExtractValue(rest);
    text != [] && AllDigits(text) && DecimalValue(text) > 0
  }

  /** `std::stoi` does not throw on the size text: a digit string it reads
      has a value no larger than `IntMax`. */
  predicate StoiDefined(rest: string) {
    var text := ExtractValue(rest);
    text != [] && AllDigits(text) ==> DecimalValue(text) <= IntMax
  }

  /** The three `FontList` keys, and the line prefixes they are read
      under. */
  const PathKey := "FONT"
  const SizeKey := "FONT_SIZE"
  const OtherSizeKey := "OTHER_TEXT_FONT_SIZE"
  const FontPrefix := PathKey + "="
  const SizePrefix := SizeKey + "="
  const OtherSizePrefix := OtherSizeKey + "="

  /** The lines on which the font loader calls `std::stoi`, with text it
      reads without throwing. */
  predicate SizeLineReadable(line: string) {
    && (StartsWith(line, SizePrefix) && !StartsWith(line, FontPrefix) ==> StoiDefined(line[|SizePrefix|..]))
    && (StartsWith(line, OtherSizePrefix) && !StartsWith(line, FontPrefix) && !StartsWith(line, SizePrefix) ==>
          StoiDefined(line[|OtherSizePrefix|..]))
  }

  predicate SizesReadable(lines: seq<string>) {
    forall i :: 0 <= i < |lines| ==> SizeLineReadable(lines[i])
  }

  /** A size line sets the entry of `key` to the value it holds, when it is
      accepted. */
  function SizeLine(fonts: seq<FontEntry>, key: string, rest: string): seq<FontEntry>
  {
    if AcceptedSize(rest) then SetFont(fonts, key, Size(DecimalValue(ExtractValue(rest)))) else fonts
  }

  /** One line of `font.cfg`, tested against the three prefixes in order. */
  function FontLine(fonts: seq<FontEntry>, line: string): seq<FontEntry>
  {
    if StartsWith(line, FontPrefix) then
      var path := QuotedValue(line[|FontPrefix|..]);
      if path == [] then fonts else SetFont(fonts, PathKey, FontPath(Stored(path)))
    else if StartsWith(line, SizePrefix) then SizeLine(fonts, SizeKey, line[|SizePrefix|..])
    else if StartsWith(line, OtherSizePrefix) then SizeLine(fonts, OtherSizeKey, line[|OtherSizePrefix|..])
    else fonts
  }

  /** `FontList` after the loop of `loadCustomFontSize` over `lines`. */
  function LoadedFonts(fonts: seq<FontEntry>, lines: seq<string>): (r: seq<FontEntry>)
    ensures |r| == |fonts|
  {
    if lines == [] then fonts
    else FontLine(LoadedFonts(fonts, lines[..|lines| - 1]), lines[|lines| - 1])
  }

  /** The invariant the size entries keep: positive and within `int`. */
  predicate FontsValid(fonts: seq<FontEntry>) {
    forall i :: 0 <= i < |fonts| && fonts[i].value.Size? ==> 0 < fonts[i].value.size <= IntMax
  }

  /** The three font keys; no other entry is ever assigned. */
  predicate FontKey(key: string) {
    key == PathKey || key == SizeKey || key == OtherSizeKey
  }

  /** Entry-wise, the loader changes at most the value of a font key. */
  predicate SameShape(before: seq<FontEntry>, after: seq<FontEntry>) {
    && |after| == |before|
    && (forall i :: 0 <= i < |before| ==> after[i].key == before[i].key)
    && (forall i :: 0 <= i < |before| && !FontKey(before[i].key) ==> after[i] == before[i])
  }

  /** One line keeps the shape of the list and the size entries valid. */
  lemma FontLineKeepsShape(fonts: seq<FontEntry>, line: string)
    requires FontsValid(fonts) && SizeLineReadable(line)
    ensures SameShape(fonts, FontLine(fonts, line)) && FontsValid(FontLine(fonts, line))
  {
    if StartsWith(line, FontPrefix) {
      SetFontKeepsShape(fonts, PathKey, FontPath(Stored(QuotedValue(line[|FontPrefix|..]))));
    } else if StartsWith(line, SizePrefix) {
      var rest := line[|SizePrefix|..];
      if AcceptedSize(rest) {
        SetFontKeepsShape(fonts, SizeKey, Size(DecimalValue(ExtractValue(rest))));
      }
    } else if StartsWith(line, OtherSizePrefix) {
      var rest := line[|OtherSizePrefix|..];
      if AcceptedSize(rest) {
        SetFontKeepsShape(fonts, OtherSizeKey, Size(DecimalValue(ExtractValue(rest))));
      }
    }
  }

  /** Assigning a font key a valid value keeps the shape and validity. */
  lemma SetFontKeepsShape(fonts: seq<FontEntry>, key: string, v: FontValue)
    requires FontsValid(fonts) && FontKey(key)
    requires v.Size? ==> 0 < v.size <= IntMax
    ensures SameShape(fonts, SetFont(fonts, key, v)) && FontsValid(SetFont(fonts, key, v))
  {
  }

  /** Loading keeps every key in place and the size entries valid, and
      touches no entry outside the three font keys. */
  lemma {:induction false} LoadedFontsKeepsShape(fonts: seq<FontEntry>, lines: seq<string>)
    requires FontsValid(fonts) && SizesReadable(lines)
    ensures SameShape(fonts, LoadedFonts(fonts, lines)) && FontsValid(LoadedFonts(fonts, lines))
  {
    if lines != [] {
      var init := lines[..|lines| - 1];
      assert SizesReadable(init) by {
        forall i | 0 <= i < |init| ensures SizeLineReadable(init[i]) {
          assert init[i] == lines[i];
        }
      }
      LoadedFontsKeepsShape(fonts, init);
      FontLineKeepsShape(LoadedFonts(fonts, init), lines[|lines| - 1]);
    }
  }

  /** An accepted size line sets its entry to the size it holds. */
  lemma SizeLineSets(fonts: seq<FontEntry>, key: string, pre: string, digits: string, post: string)
    requires forall k :: 0 <= k < |pre| ==> IsBlank(pre[k])
    requires forall k :: 0 <= k < |post| ==> IsBlank(post[k])
    requires digits != [] && AllDigits(digits) && 0 < DecimalValue(digits) <= IntMax
    ensures SizeLine(fonts, key, pre + digits + post) == SetFont(fonts, key, Size(DecimalValue(digits)))
  {
    ExtractValueOfPadded(pre, digits, post);
  }

  /** A size text that is empty, holds anything but digits, or is zero
      leaves the settings as they were. */
  lemma SizeLineRejects(fonts: seq<FontEntry>, key: string, rest: string)
    requires var text := ExtractValue(rest);
      text == [] || !AllDigits(text) || DecimalValue(text) == 0
    ensures SizeLine(fonts, key, rest) == fonts
  {
  }

  /** A line that differs from a prefix at some position does not start
      with it. */
  lemma DiffersFrom(line: string, prefix: string, k: nat)
    requires k < |prefix| && k < |line| && line[k] != prefix[k]
    ensures !StartsWith(line, prefix)
  {
    if |prefix| <= |line| {
      assert line[..|prefix|][k] == line[k];
    }
  }

  /** A line starting `FONT_SIZE=` is read as a text size. */
  lemma SizeLineRecognised(fonts: seq<FontEntry>, rest: string)
    ensures FontLine(fonts, SizePrefix + rest) == SizeLine(fonts, SizeKey, rest)
  {
    var line := SizePrefix + rest;
    assert StartsWith(line, SizePrefix) by {
      assert line[..|SizePrefix|] == SizePrefix;
    }
    DiffersFrom(line, FontPrefix, 4);
    assert line[|SizePrefix|..] == rest;
  }

  /** A line starting `OTHER_TEXT_FONT_SIZE=` is read as the other size. */
  lemma OtherSizeLineRecognised(fonts: seq<FontEntry>, rest: string)
    ensures FontLine(fonts, OtherSizePrefix + rest) == SizeLine(fonts, OtherSizeKey, rest)
  {
    var line := OtherSizePrefix + rest;
    assert StartsWith(line, OtherSizePrefix) by {
      assert line[..|OtherSizePrefix|] == OtherSizePrefix;
    }
    DiffersFrom(line, FontPrefix, 0);
    DiffersFrom(line, SizePrefix, 0);
    assert line[|OtherSizePrefix|..] == rest;
  }

  /** A `FONT_SIZE=` line whose text `std::stoi` reads without throwing. */
  lemma SizeLineReadableOf(rest: string)
    requires StoiDefined(rest)
    ensures SizeLineReadable(SizePrefix + rest)
  {
    var line := SizePrefix + rest;
    assert line[..|SizePrefix|] == SizePrefix && line[|SizePrefix|..] == rest;
    DiffersFrom(line, OtherSizePrefix, 0);
  }

  /** An `OTHER_TEXT_FONT_SIZE=` line whose text `std::stoi` reads without
      throwing. */
  lemma OtherSizeLineReadableOf(rest: string)
    requires StoiDefined(rest)
    ensures SizeLineReadable(OtherSizePrefix + rest)
  {
    var line := OtherSizePrefix + rest;
    assert line[..|OtherSizePrefix|] == OtherSizePrefix && line[|OtherSizePrefix|..] == rest;
    DiffersFrom(line, FontPrefix, 0);
    DiffersFrom(line, SizePrefix, 0);
  }

  /** So `FONT_SIZE=0`, `FONT_SIZE=+5`, `FONT_SIZE=-5` and `FONT_SIZE=`
      change nothing. */
  lemma RejectedSizeExamples(fonts: seq<FontEntry>)
    ensures FontLine(fonts, SizePrefix + "0") == fonts
    ensures FontLine(fonts, SizePrefix + "+5") == fonts
    ensures FontLine(fonts, SizePrefix + "-5") == fonts
    ensures FontLine(fonts, SizePrefix) == fonts
  {
    assert DecimalValue("0") == 0 by { assert "0"[..0] == []; }
    SizeTextRejected(fonts, "0");
    assert !IsDigit("+5"[0]);
    SizeTextRejected(fonts, "+5");
    assert !IsDigit("-5"[0]);
    SizeTextRejected(fonts, "-5");
    SizeTextRejected(fonts, "");
    assert SizePrefix + "" == SizePrefix;
  }

  /** A size text without surrounding blanks that is empty, not all digits,
      or zero is rejected after `FONT_SIZE=`. */
  lemma SizeTextRejected(fonts: seq<FontEntry>, text: string)
    requires text != [] ==> !IsBlank(text[0]) && !IsBlank(text[|text| - 1])
    requires text == [] || !AllDigits(text) || DecimalValue(text) == 0
    ensures FontLine(fonts, SizePrefix + text) == fonts
  {
    SizeLineRecognised(fonts, text);
    assert ExtractValue(text) == text by {
      ExtractValueOfPadded([], text, []);
      assert [] + text + [] == text;
    }
    SizeLineRejects(fonts, SizeKey, text);
  }

  // ---------------------------------------------------------------------
  // loadDecorAssets

  /** The `config` map of `loadDecorAssets`: for every line holding `=`,
      the text before the first `=` maps to whether the text after it is
      exactly `true`; later lines override earlier ones. */
  function DecorConfig(lines: seq<string>): map<string, bool>
  {
    if lines == [] then map[]
    else
      var m := DecorConfig(lines[..|lines| - 1]);
      var line := lines[|lines| - 1];
      var eq := Find(line, '=');
      if eq == |line| then m else m[line[..eq] := line[eq + 1..] == "true"]
  }

  /** Line `line` sets `name`. */
  predicate SetsDecor(line: string, name: string) {
    Find(line, '=') < |line| && line[..Find(line, '=')] == name
  }

  /** What a line setting a name sets it to. */
  function DecorValue(line: string): bool
    requires Find(line, '=') < |line|
  {
    line[Find(line, '=') + 1..] == "true"
  }

  /** A name is configured exactly when some line sets it. */
  lemma {:induction false} DecorConfigDomain(lines: seq<string>, name: string)
    ensures name in DecorConfig(lines) <==> exists i :: 0 <= i < |lines| && SetsDecor(lines[i], name)
  {
    if lines != [] {
      var init := lines[..|lines| - 1];
      DecorConfigDomain(init, name);
      forall i | 0 <= i < |init| ensures init[i] == lines[i] { }
    }
  }

  /** A configured name has the value its last line gives. */
  lemma {:induction false} DecorConfigLastWins(lines: seq<string>, i: nat, name: string)
    requires i < |lines| && SetsDecor(lines[i], name)
    requires forall j :: i < j < |lines| ==> !SetsDecor(lines[j], name)
    ensures name in DecorConfig(lines) && DecorConfig(lines)[name] == DecorValue(lines[i])
  {
    var init := lines[..|lines| - 1];
    if i < |init| {
      forall j | i < j < |init| ensures !SetsDecor(init[j], name) {
        assert init[j] == lines[j];
      }
      DecorConfigLastWins(init, i, name);
    }
  }

  /** A line `name=value` for a name without `=` sets the name to whether
      the value is exactly `true`. */
  lemma DecorLineValue(name: string, value: string)
    requires '=' !in name
    ensures DecorConfig([name + "=" + value]) == map[name := value == "true"]
  {
    var line := name + "=" + value;
    assert forall j :: 0 <= j < |name| ==> line[j] == name[j];
    FindIs(line, '=', |name|);
    assert line[..|name|] == name && line[|name| + 1..] == value;
    assert [line][..0] == [];
  }

  /** The standard list after the config is applied: a configured name
      takes its configured value; the others keep theirs. */
  function AppliedDecor(list: seq<DecorEntry>, config: map<string, bool>): (r: seq<DecorEntry>)
    ensures |r| == |list|
    ensures forall i :: 0 <= i < |list| ==> r[i].name == list[i].name
    ensures forall i :: 0 <= i < |list| ==>
      r[i].enabled == (if list[i].name in config then config[list[i].name] else list[i].enabled)
  {
    if list == [] then []
    else
      var e := list[0];
      [if e.name in config then DecorEntry(e.name, config[e.name]) else e] + AppliedDecor(list[1..], config)
  }

  /** The assets `loadDecorAssets` returns: one standard asset per entry. */
  function DecorAssets(list: seq<DecorEntry>): (assets: seq<DecorAsset>)
    ensures |assets| == |list|
    ensures forall i :: 0 <= i < |list| ==> assets[i] == DecorAsset(list[i].name, list[i].enabled, false)
  {
    if list == [] then [] else [DecorAsset(list[0].name, list[0].enabled, false)] + DecorAssets(list[1..])
  }

  /** Only the exact text `true` enables: other spellings of `true`,
      and `true` with a blank before or after it, disable. */
  lemma DecorValueExamples(name: string, value: string)
    requires '=' !in name && value in ["True", "TRUE", " true", "true ", "\ttrue", "1"]
    ensures DecorConfig([name + "=" + value]) == map[name := false]
  {
    DecorLineValue(name, value);
  }
}
