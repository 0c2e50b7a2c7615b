/** The desktop FileManager as it runs: the process-wide settings
    (`LocalizationList`, `FontList`, `StandartDecorList`,
    `CustomDecorList`) are the fields of a `Session`, and the loaders, the
    writer and the decoration reconciler are its methods. Each method is
    proved against the function that gives its meaning in `Settings`,
    `RoundTrip` or `Decorations`.

    A configuration file is passed in as the lines the stream delivers (a
    missing file delivers none), and the lines to write are returned. */
module Customizer {
  import opened ConfigText
  import opened ConfigWriter
  import opened Settings
  import opened RoundTrip
  import opened Decorations

  class Session {
    var localization: seq<Entry>
    var fonts: seq<FontEntry>
    var decor: seq<DecorEntry>
    var customDecor: seq<Decoration>

    /** The size entries stay positive and within `int`. */
    predicate Valid()
      reads this
    {
      FontsValid(fonts)
    }

    /** The settings at start-up: the given localization texts, the
        default fonts and standard decorations, and no custom decoration. */
    constructor(texts: seq<Entry>)
      ensures localization == texts && fonts == DefaultFonts && decor == DefaultDecor && customDecor == []
      ensures Valid()
    {
      localization := texts;
      fonts := DefaultFonts;
      decor := DefaultDecor;
      customDecor := [];
    }

    // -------------------------------------------------------------------
    // Lookups

    /** The `for ... break` over `LocalizationList` for a key. */
    method FindEntry(key: string) returns (k: nat)
      ensures k == IndexOf(localization, KeyOfEntry, key)
    {
      k := 0;
      while k < |localization| && localization[k].key != key
        invariant k <= |localization|
        invariant forall j :: 0 <= j < k ==> localization[j].key != key
      {
        k := k + 1;
      }
      IndexOfIs(localization, KeyOfEntry, key, k);
    }

    /** The `find_if` over `FontList` for a key. */
    method FindFont(key: string) returns (k: nat)
      ensures k == IndexOf(fonts, KeyOfFont, key)
    {
      k := 0;
      while k < |fonts| && fonts[k].key != key
        invariant k <= |fonts|
        invariant forall j :: 0 <= j < k ==> fonts[j].key != key
      {
        k := k + 1;
      }
      IndexOfIs(fonts, KeyOfFont, key, k);
    }

    // -------------------------------------------------------------------
    // Loaders

    /** `loadLocalization`: every line defining a key with a nonempty
        quoted value puts the decoded value into the returned map and into
        the first entry of that key. */
    method LoadLocalization(raw: seq<string>) returns (result: map<string, string>)
      modifies this
      ensures result == LocalizationMap(NonComments(raw))
      ensures localization == LocalizedList(old(localization), NonComments(raw))
      ensures fonts == old(fonts) && decor == old(decor) && customDecor == old(customDecor)
    {
      var lines := ReadTextLines(raw);
      result := map[];
      var i := 0;
      while i < |lines|
        invariant 0 <= i <= |lines|
        invariant result == LocalizationMap(lines[..i])
        invariant localization == LocalizedList(old(localization), lines[..i])
        invariant fonts == old(fonts) && decor == old(decor) && customDecor == old(customDecor)
      {
        assert lines[..i + 1][..i] == lines[..i];
        result := LocalizeLine(result, lines[i]);
        i := i + 1;
      }
      assert lines[..i] == lines;
    }

    /** One line of `loadLocalization`: split at the first `=`, take the
        quoted value, and when it is nonempty decode it into the map and
        into the first entry of the key. */
    method LocalizeLine(before: map<string, string>, line: string) returns (result: map<string, string>)
      modifies this
      ensures result == Define(before, LocalizationDefinition(line))
      ensures localization == Localized(old(localization), LocalizationDefinition(line))
      ensures fonts == old(fonts) && decor == old(decor) && customDecor == old(customDecor)
    {
      result := before;
      var d := ReadDefinition(line);
      if d.Defines? {
        result := result[d.key := d.text];
        var k := FindEntry(d.key);
        if k < |localization| {
          localization := localization[k := Entry(d.key, Stored(d.text))];
        }
      }
    }

    /** The split at the first `=`, and the decoded quoted value after it
        when that is nonempty. */
    static method ReadDefinition(line: string) returns (d: Definition)
      ensures d == LocalizationDefinition(line)
    {
      var pos := Find(line, '=');
      if pos == |line| {
        return NoDefinition;
      }
      var value := ExtractQuotedValue(line[pos + 1..]);
      if value == [] {
        return NoDefinition;
      }
      var unescaped := UnescapeString(value);
      d := Defines(line[..pos], unescaped);
    }

    /** `loadCustomFontSize`: false for a file with no non-comment lines; otherwise
        each `FONT=`, `FONT_SIZE=` and `OTHER_TEXT_FONT_SIZE=` line sets its
        entry. The caller must not hand it a size that `std::stoi` throws
        on. */
    method LoadCustomFontSize(raw: seq<string>) returns (loaded: bool)
      requires Valid() && SizesReadable(NonComments(raw))
      modifies this
      ensures loaded <==> NonComments(raw) != []
      ensures fonts == LoadedFonts(old(fonts), NonComments(raw))
      ensures Valid() && SameShape(old(fonts), fonts)
      ensures localization == old(localization) && decor == old(decor) && customDecor == old(customDecor)
    {
      var lines := ReadTextLines(raw);
      LoadedFontsKeepsShape(fonts, lines);
      if lines == [] {
        return false;
      }
      var i := 0;
      while i < |lines|
        invariant 0 <= i <= |lines|
        invariant fonts == LoadedFonts(old(fonts), lines[..i])
        invariant localization == old(localization) && decor == old(decor) && customDecor == old(customDecor)
      {
        assert lines[..i + 1][..i] == lines[..i];
        ReadFontLine(lines[i]);
        i := i + 1;
      }
      assert lines[..i] == lines;
      return true;
    }

    /** One line of `loadCustomFontSize`, tested against the three
        prefixes in order. A size text that `std::stoi` throws on is the
        caller's to exclude. */
    method ReadFontLine(line: string)
      requires SizeLineReadable(line)
      modifies this
      ensures fonts == FontLine(old(fonts), line)
      ensures localization == old(localization) && decor == old(decor) && customDecor == old(customDecor)
    {
      if StartsWith(line, FontPrefix) {
        var fontPath := ExtractQuotedValue(line[|FontPrefix|..]);
        if fontPath != [] {
          var k := FindFont(PathKey);
          if k < |fonts| {
            fonts := fonts[k := FontEntry(PathKey, FontPath(Stored(fontPath)))];
          }
        }
      } else if StartsWith(line, SizePrefix) {
        SetSize(SizeKey, line[|SizePrefix|..]);
      } else if StartsWith(line, OtherSizePrefix) {
        SetSize(OtherSizeKey, line[|OtherSizePrefix|..]);
      }
    }

    /** The body of a size branch: trim, check for digits only, convert,
        and set the entry when the size is positive. `std::stoi` throws
        on a value above `IntMax`, so such a text is excluded. */
    method SetSize(key: string, rest: string)
      requires StoiDefined(rest)
      modifies this
      ensures fonts == SizeLine(old(fonts), key, rest)
      ensures localization == old(localization) && decor == old(decor) && customDecor == old(customDecor)
    {
      var sizeStr := ExtractValue(rest);
      if sizeStr != [] && AllDigits(sizeStr) {
        var size := DecimalValue(sizeStr);
        if size > 0 {
          var k := FindFont(key);
          if k < |fonts| {
            fonts := fonts[k := FontEntry(key, Size(size))];
          }
        }
      }
    }

    /** `loadDecorAssets`: the config map of the file's lines, applied to
        the standard list, which the returned assets then list. */
    method LoadDecorAssets(raw: seq<string>) returns (assets: seq<DecorAsset>)
      modifies this
      ensures decor == AppliedDecor(old(decor), DecorConfig(NonComments(raw)))
      ensures assets == DecorAssets(decor)
      ensures localization == old(localization) && fonts == old(fonts) && customDecor == old(customDecor)
    {
      var lines := ReadTextLines(raw);
      var config := ReadDecorConfig(lines);
      assets := ApplyDecorConfig(config);
    }

    /** The loop of `loadDecorAssets` over `StandartDecorList`: a
        configured name takes its value, and every entry is listed. */
    method ApplyDecorConfig(config: map<string, bool>) returns (assets: seq<DecorAsset>)
      modifies this
      ensures decor == AppliedDecor(old(decor), config)
      ensures assets == DecorAssets(decor)
      ensures localization == old(localization) && fonts == old(fonts) && customDecor == old(customDecor)
    {
      ghost var applied := AppliedDecor(decor, config);
      assets := [];
      var j := 0;
      while j < |decor|
        invariant 0 <= j <= |decor| && |decor| == |old(decor)| == |applied|
        invariant forall k :: 0 <= k < j ==> decor[k] == applied[k]
        invariant forall k :: j <= k < |decor| ==> decor[k] == old(decor)[k]
        invariant |assets| == j
        invariant forall k :: 0 <= k < j ==> assets[k] == DecorAsset(decor[k].name, decor[k].enabled, false)
        invariant localization == old(localization) && fonts == old(fonts) && customDecor == old(customDecor)
      {
        var name := decor[j].name;
        if name in config {
          decor := decor[j := DecorEntry(name, config[name])];
        }
        assets := assets + [DecorAsset(decor[j].name, decor[j].enabled, false)];
        j := j + 1;
      }
      assert decor == applied;
    }

    /** The configuration loop of `loadDecorAssets`. */
    static method ReadDecorConfig(lines: seq<string>) returns (config: map<string, bool>)
      ensures config == DecorConfig(lines)
    {
      config := map[];
      var i := 0;
      while i < |lines|
        invariant 0 <= i <= |lines|
        invariant config == DecorConfig(lines[..i])
      {
        var line := lines[i];
        assert lines[..i + 1][..i] == lines[..i];
        var eq := Find(line, '=');
        if eq < |line| {
          config := config[line[..eq] := line[eq + 1..] == "true"];
        }
        i := i + 1;
      }
      assert lines[..i] == lines;
    }

    // -------------------------------------------------------------------
    // Writer

    /** `updateAllConfigFiles`: each file's comment-free lines with every
        setting updated in list order. */
    method UpdateAllConfigFiles(localizationRaw: seq<string>, fontRaw: seq<string>, decorRaw: seq<string>)
      returns (localizationLines: seq<string>, fontLines: seq<string>, decorLines: seq<string>)
      ensures localizationLines == SavedFile(localizationRaw, LocalizationUpdates(localization))
      ensures fontLines == SavedFile(fontRaw, FontUpdates(fonts))
      ensures decorLines == SavedFile(decorRaw, DecorUpdates(decor))
    {
      localizationLines := SaveLocalization(localizationRaw, localization);
      fontLines := SaveFonts(fontRaw, fonts);
      decorLines := SaveDecor(decorRaw, decor);
    }

    /** The `localization.cfg` block: every text written quoted. */
    static method SaveLocalization(raw: seq<string>, list: seq<Entry>) returns (lines: seq<string>)
      ensures lines == SavedFile(raw, LocalizationUpdates(list))
    {
      lines := ReadTextLines(raw);
      ghost var start := lines;
      var i := 0;
      while i < |list|
        invariant 0 <= i <= |list|
        invariant lines == ApplyUpdates(start, LocalizationUpdates(list[..i]))
      {
        assert list[..i + 1][..i] == list[..i];
        lines := UpdateOrAddLine(lines, list[i].key, list[i].text, true);
        i := i + 1;
      }
      assert list[..i] == list;
    }

    /** The `font.cfg` block: sizes in decimal, the path as it is, both
        unquoted. */
    static method SaveFonts(raw: seq<string>, list: seq<FontEntry>) returns (lines: seq<string>)
      ensures lines == SavedFile(raw, FontUpdates(list))
    {
      lines := ReadTextLines(raw);
      ghost var start := lines;
      var i := 0;
      while i < |list|
        invariant 0 <= i <= |list|
        invariant lines == ApplyUpdates(start, FontUpdates(list[..i]))
      {
        assert list[..i + 1][..i] == list[..i];
        var text := match list[i].value
          case Size(n) => IntToString(n)
          case FontPath(p) => p;
        lines := UpdateOrAddLine(lines, list[i].key, text, false);
        i := i + 1;
      }
      assert list[..i] == list;
    }

    /** The `decor.cfg` block: `true` or `false`, unquoted. */
    static method SaveDecor(raw: seq<string>, list: seq<DecorEntry>) returns (lines: seq<string>)
      ensures lines == SavedFile(raw, DecorUpdates(list))
    {
      lines := ReadTextLines(raw);
      ghost var start := lines;
      var i := 0;
      while i < |list|
        invariant 0 <= i <= |list|
        invariant lines == ApplyUpdates(start, DecorUpdates(list[..i]))
      {
        assert list[..i + 1][..i] == list[..i];
        lines := UpdateOrAddLine(lines, list[i].name, if list[i].enabled then "true" else "false", false);
        i := i + 1;
      }
      assert list[..i] == list;
    }

    // -------------------------------------------------------------------
    // Reconciler

    /** `processCustomDecorations(gamePath)` on the desktop: create the
        decor directory if needed, reconcile every record in place, then
        erase the records marked Remove. `dirFail` makes the creation of
        the directory throw, which ends the call with `ok` false and nothing
        changed; `fails[i]` makes the filesystem call of record `i` throw. */
    method ProcessCustomDecorations(store: FileStore, gamePath: string, dirFail: bool, fails: seq<bool>)
      returns (ok: bool)
      requires |fails| == |customDecor|
      modifies this, store
      ensures ok <==> Prepared(old(store.State()), DecorDir(gamePath), dirFail).Done?
      ensures (customDecor, store.State()) == Processed(old(customDecor), old(store.State()), gamePath, dirFail, fails)
      ensures localization == old(localization) && fonts == old(fonts) && decor == old(decor)
    {
      var decorDir := DecorDir(gamePath);
      var present := store.DirExists(decorDir);
      if !present {
        ok := store.CreateDirectories(decorDir, dirFail);
        if !ok {
          return;
        }
      }
      ok := true;
      assert Prepared(old(store.State()), decorDir, dirFail) == Done(store.State());
      ReconcileAll(store, decorDir, fails);
      customDecor := WithoutRemoved(customDecor);
    }

    /** The loop of `processCustomDecorations` over `CustomDecorList`,
        updating each record in place. */
    method ReconcileAll(store: FileStore, decorDir: string, fails: seq<bool>)
      requires |fails| == |customDecor|
      modifies this, store
      ensures (customDecor, store.State()) == Pass(old(customDecor), old(store.State()), decorDir, fails)
      ensures localization == old(localization) && fonts == old(fonts) && decor == old(decor)
    {
      ghost var records := customDecor;
      ghost var prepared := store.State();

      var i := 0;
      while i < |customDecor|
        invariant 0 <= i <= |customDecor| == |records|
        invariant var pass := Pass(records[..i], prepared, decorDir, fails[..i]);
          customDecor[..i] == pass.0 && store.State() == pass.1
        invariant customDecor[i..] == records[i..]
        invariant localization == old(localization) && fonts == old(fonts) && decor == old(decor)
      {
        assert records[..i + 1][..i] == records[..i] && fails[..i + 1][..i] == fails[..i];
        assert customDecor[i] == records[i] by {
          assert customDecor[i..][0] == records[i..][0];
        }
        ghost var before := store.State();
        var deco := ReconcileOne(store, customDecor[i], decorDir, fails[i]);
        assert (deco, store.State()) == Step(records[i], before, decorDir, fails[i]);
        customDecor := customDecor[i := deco];
        assert customDecor[i + 1..] == records[i + 1..] by {
          assert forall k :: i + 1 <= k < |records| ==> customDecor[k] == records[k];
        }
        i := i + 1;
      }
      assert records[..i] == records && fails[..i] == fails;
      assert customDecor == customDecor[..i];
    }

    /** The branch of the loop body for one record: Add, else Remove, else
        Rename, with the filesystem call that may throw. */
    static method ReconcileOne(store: FileStore, deco: Decoration, decorDir: string, fail: bool)
      returns (after: Decoration)
      modifies store
      ensures (after, store.State()) == Step(deco, old(store.State()), decorDir, fail)
    {
      after := deco;
      if HasOperation(deco, Add) {
        var dest := Target(decorDir, deco.name);
        var ok := store.CopyFile(deco.path, dest, fail);
        if ok {
          after := deco.(path := dest, operations := [None]);
        }
      } else if HasOperation(deco, Remove) {
        var found := store.FileExists(deco.path);
        if found {
          var ok := store.RemoveFile(deco.path, fail);
          if ok {
            after := deco.(operations := [Remove]);
          }
        } else {
          after := deco.(operations := [Remove]);
        }
      } else if HasOperation(deco, Rename) {
        var newPath := Target(decorDir, deco.name);
        var found := store.FileExists(deco.path);
        if found {
          var ok := store.RenameFile(deco.path, newPath, fail);
          if ok {
            after := deco.(path := newPath, operations := [None]);
          }
        } else {
          after := deco.(operations := [None]);
        }
      }
    }

    /** The `remove_if` and `erase`: survivors are moved to the front in
        their order, and the rest is cut off. */
    static method WithoutRemoved(records: seq<Decoration>) returns (kept: seq<Decoration>)
      ensures kept == Survivors(records)
    {
      var buffer := records;
      var w := 0;
      var j := 0;
      while j < |buffer|
        invariant 0 <= w <= j <= |buffer| == |records|
        invariant buffer[..w] == Survivors(records[..j])
        invariant forall k :: j <= k < |buffer| ==> buffer[k] == records[k]
      {
        assert records[..j + 1][..j] == records[..j];
        if !HasOperation(buffer[j], Remove) {
          ghost var front := buffer[..w];
          buffer := buffer[w := buffer[j]];
          assert buffer[..w + 1] == front + [records[j]];
          w := w + 1;
        }
        j := j + 1;
      }
      assert records[..j] == records;
      kept := buffer[..w];
    }
  }

  /** The first index a linear scan stops at is `IndexOf`. */
  lemma {:induction false} IndexOfIs<T>(list: seq<T>, keyOf: T -> string, key: string, k: nat)
    requires k <= |list| && (k < |list| ==> keyOf(list[k]) == key)
    requires forall j :: 0 <= j < k ==> keyOf(list[j]) != key
    ensures IndexOf(list, keyOf, key) == k
  {
    if list != [] && keyOf(list[0]) != key {
      IndexOfIs(list[1..], keyOf, key, k - 1);
    }
  }
}
