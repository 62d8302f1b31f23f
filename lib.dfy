/**
  The marker line of src/lib.rs and the guard `generate_typescript_defs`
  applies before it overwrites an existing output file.
*/
module OutputGuard {
  import opened Text
  import opened BuildStates

  /** The first line of every generated file. */
  const Marker: string := "/* This " + "file is " + "generated and " + "managed by tsync */"

  /** The marker's text. */
  lemma MarkerText()
    ensures Marker == "/* This file is generated and managed by tsync */"
  {
    assert "/* This " + "file is " == "/* This file is ";
    assert "/* This file is " + "generated and " == "/* This file is generated and ";
    assert "/* This file is generated and " + "managed by tsync */" == "/* This file is generated and managed by tsync */";
  }

  /** What `read_line` reads first: up to and including the first line break, or everything. */
  function FirstLine(s: string): (r: string)
    ensures StartsWith(s, r)
    ensures forall i :: 0 <= i < |r| - 1 ==> r[i] != '\n'
    ensures |r| < |s| ==> |r| > 0 && r[|r| - 1] == '\n'
  {
    if |s| == 0 then ""
    else if s[0] == '\n' then "\n"
    else [s[0]] + FirstLine(s[1..])
  }

  /** An existing output file may be overwritten only when its trimmed first line is the marker. */
  predicate MayOverwrite(existing: Option<string>)
  {
    existing.None? || Trim(FirstLine(existing.value)) == Marker
  }

  lemma {:induction false} FirstLineOfLine(line: string, rest: string)
    requires SingleLine(line)
    ensures FirstLine(line + "\n" + rest) == line + "\n"
    decreases |line|
  {
    if |line| > 0 {
      FirstLineOfLine(line[1..], rest);
      assert (line + "\n" + rest)[1..] == line[1..] + "\n" + rest;
    }
  }

  /** The marker is one line, with no whitespace at either end. */
  lemma MarkerIsOneLine()
    ensures SingleLine(Marker) && Marker[0] == '/' && Marker[|Marker| - 1] == '/'
  {
    var a, b, c, d := "/* This ", "file is ", "generated and ", "managed by tsync */";
    assert SingleLine(a) && SingleLine(b);
    assert SingleLine(c) && SingleLine(d);
    SingleLineAppend(a, b);
    SingleLineAppend(a + b, c);
    SingleLineAppend(a + b + c, d);
  }

  /** A file tsync generated may be regenerated in place. */
  lemma GeneratedOutputMayBeOverwritten(body: string)
    ensures MayOverwrite(Some(Marker + "\n" + body))
  {
    MarkerIsOneLine();
    FirstLineOfLine(Marker, body);
    TrimLineBreak(Marker);
  }

  /** A file whose first line is any other unpadded line, for example a hand-written comment, is refused. */
  lemma ForeignFileRefused(line: string, body: string)
    requires SingleLine(line)
    requires |line| > 0 && !IsWhitespace(line[0]) && !IsWhitespace(line[|line| - 1])
    requires line != Marker
    ensures !MayOverwrite(Some(line + "\n" + body))
  {
    FirstLineOfLine(line, body);
    TrimLineBreak(line);
  }
}

/**
  The driver of src/lib.rs: `#[tsync]` item dispatch, the handling of input
  files and directories, the choice between declaration-file and module
  output, the marker line the output starts with and the guard that refuses
  to overwrite a file tsync did not generate.
*/
module Lib {
  import opened Text
  import opened Syntax
  import opened Utils
  import opened BuildStates
  import opened Structs
  import opened Enums
  import opened Consts
  import opened TypeItems
  import opened OutputGuard

  // ---------------------------------------------------------------------------
  // `process_rust_item`.
  // ---------------------------------------------------------------------------

  /** `has_tsync_attribute`: some attribute has a path segment `tsync`. */
  predicate HasTsyncAttribute(attrs: seq<Attribute>)
  {
    HasAttribute("tsync", attrs)
  }

  /** The attributes of an item; an item kind tsync does not translate has none that matter. */
  function ItemAttrs(item: Item): seq<Attribute>
  {
    match item
    case ConstItem(attrs, _, _) => attrs
    case StructItem(attrs, _, _, _) => attrs
    case EnumItem(attrs, _, _, _) => attrs
    case TypeItem(attrs, _, _) => attrs
    case OtherItem => []
  }

  /** A translated item: one of the four kinds, marked `#[tsync]`. */
  predicate Translated(item: Item)
  {
    !item.OtherItem? && HasTsyncAttribute(ItemAttrs(item))
  }

  /** The emitter the item reaches can run without a panic. */
  predicate ItemReady(item: Item, usesTypeInterface: bool)
  {
    Translated(item) ==>
      match item
      case ConstItem(_, _, _) => ConstReady(item, usesTypeInterface)
      case StructItem(_, _, _, _) => StructReady(item)
      case EnumItem(_, _, _, _) => EnumReady(item)
      case TypeItem(_, _, _) => TypeAliasReady(item)
      case OtherItem => true
  }

  /** What `process_rust_item` writes: the emitter's text for a `#[tsync]` item, nothing otherwise. */
  function ItemText(item: Item, toCase: (Case, string) -> string, usesTypeInterface: bool): string
    requires ItemReady(item, usesTypeInterface)
  {
    if !Translated(item) then ""
    else
      match item
      case ConstItem(_, _, _) => ConstText(item, usesTypeInterface)
      case StructItem(_, _, _, _) => StructText(item)
      case EnumItem(_, _, _, _) => EnumText(item, toCase, usesTypeInterface)
      case TypeItem(_, _, _) => TypeAliasText(item, usesTypeInterface)
  }

  /** An item without `#[tsync]`, or of another kind, leaves the output as it was. */
  lemma UnmarkedItemIgnored(item: Item, toCase: (Case, string) -> string, usesTypeInterface: bool)
    requires !HasTsyncAttribute(ItemAttrs(item)) || item.OtherItem?
    ensures ItemReady(item, usesTypeInterface) && ItemText(item, toCase, usesTypeInterface) == ""
  {
  }

  /**
    `#[tsync]` is recognised, and so is the qualified `#[tsync::tsync]`, since
    any path segment may be `tsync`; `#[derive(Serialize)]` is not.
  */
  lemma TsyncAttributeExamples()
    ensures HasTsyncAttribute([Attribute(["tsync"], MetaPath)])
    ensures HasTsyncAttribute([Attribute(["tsync", "tsync"], MetaPath)])
    ensures !HasTsyncAttribute([Attribute(["derive"], MetaList(Parenthesis, Exprs([PathExpr(["Serialize"])])))])
  {
    assert "tsync" in [Attribute(["tsync"], MetaPath)][0].path;
    assert "tsync" in [Attribute(["tsync", "tsync"], MetaPath)][0].path;
  }

  /** `process_rust_item`. */
  method ProcessRustItem(state: BuildState, item: Item, toCase: (Case, string) -> string, usesTypeInterface: bool)
    requires ItemReady(item, usesTypeInterface)
    modifies state
    ensures state.types == old(state.types) + ItemText(item, toCase, usesTypeInterface)
    ensures state.unprocessedFiles == old(state.unprocessedFiles)
  {
    var attrs := ItemAttrs(item);
    var hasTsync := exists i :: 0 <= i < |attrs| && "tsync" in attrs[i].path;
    if item.OtherItem? || !hasTsync {
      assert old(state.types) + "" == old(state.types);
      return;
    }
    match item {
      case ConstItem(_, _, _) => ConvertConst(state, item, usesTypeInterface);
      case StructItem(_, _, _, _) => ConvertStruct(state, item, usesTypeInterface);
      case EnumItem(_, _, _, _) => ConvertEnum(state, item, toCase, usesTypeInterface);
      case TypeItem(_, _, _) => ConvertTypeAlias(state, item, usesTypeInterface);
    }
  }

  // ---------------------------------------------------------------------------
  // `process_rust_file`.
  // ---------------------------------------------------------------------------

  predicate ItemsReady(items: seq<Item>, usesTypeInterface: bool)
  {
    forall i :: 0 <= i < |items| ==> ItemReady(items[i], usesTypeInterface)
  }

  /** The items' texts, in file order. */
  function ItemsText(items: seq<Item>, toCase: (Case, string) -> string, usesTypeInterface: bool): string
    requires ItemsReady(items, usesTypeInterface)
  {
    if |items| == 0 then ""
    else ItemsText(items[..|items| - 1], toCase, usesTypeInterface) + ItemText(items[|items| - 1], toCase, usesTypeInterface)
  }

  lemma ItemsReadyPrefix(items: seq<Item>, n: nat, usesTypeInterface: bool)
    requires ItemsReady(items, usesTypeInterface) && n <= |items|
    ensures ItemsReady(items[..n], usesTypeInterface)
  {
    forall i | 0 <= i < n
      ensures ItemReady(items[..n][i], usesTypeInterface)
    {
      assert items[..n][i] == items[i];
    }
  }

  /** One more item adds exactly its text. */
  lemma ItemsStep(items: seq<Item>, i: nat, toCase: (Case, string) -> string, usesTypeInterface: bool)
    requires ItemsReady(items, usesTypeInterface) && i < |items|
    ensures ItemsReady(items[..i], usesTypeInterface) && ItemsReady(items[..i + 1], usesTypeInterface)
    ensures ItemsText(items[..i + 1], toCase, usesTypeInterface)
         == ItemsText(items[..i], toCase, usesTypeInterface) + ItemText(items[i], toCase, usesTypeInterface)
  {
    ItemsReadyPrefix(items, i, usesTypeInterface);
    ItemsReadyPrefix(items, i + 1, usesTypeInterface);
    assert items[..i + 1][..i] == items[..i];
    assert items[..i + 1][i] == items[i];
  }

  /** Only `#[tsync]` items contribute: dropping the others from a file changes nothing. */
  lemma {:induction false} OnlyTranslatedItemsCount(items: seq<Item>, toCase: (Case, string) -> string,
                                                    usesTypeInterface: bool)
    requires forall i :: 0 <= i < |items| ==> !Translated(items[i])
    ensures ItemsReady(items, usesTypeInterface) && ItemsText(items, toCase, usesTypeInterface) == ""
    decreases |items|
  {
    if |items| > 0 {
      OnlyTranslatedItemsCount(items[..|items| - 1], toCase, usesTypeInterface);
    }
  }

  /** The `for_each` over the parsed file's items. */
  method ProcessItems(state: BuildState, items: seq<Item>, toCase: (Case, string) -> string, usesTypeInterface: bool)
    requires ItemsReady(items, usesTypeInterface)
    modifies state
    ensures state.types == old(state.types) + ItemsText(items, toCase, usesTypeInterface)
    ensures state.unprocessedFiles == old(state.unprocessedFiles)
  {
    for i := 0 to |items|
      invariant ItemsReady(items[..i], usesTypeInterface)
      invariant state.types == old(state.types) + ItemsText(items[..i], toCase, usesTypeInterface)
      invariant state.unprocessedFiles == old(state.unprocessedFiles)
    {
      ItemsStep(items, i, toCase, usesTypeInterface);
      ProcessRustItem(state, items[i], toCase, usesTypeInterface);
      SeqAssoc(old(state.types), ItemsText(items[..i], toCase, usesTypeInterface),
               ItemText(items[i], toCase, usesTypeInterface));
    }
    assert items[..|items|] == items;
  }

  /**
    A source file as the driver sees it: `None` when it cannot be read or
    does not parse, otherwise its items.
  */
  type Source = Option<seq<Item>>

  predicate SourceReady(source: Source, usesTypeInterface: bool)
  {
    source.Some? ==> ItemsReady(source.value, usesTypeInterface)
  }

  /** What processing a file writes. */
  function SourceText(source: Source, toCase: (Case, string) -> string, usesTypeInterface: bool): string
    requires SourceReady(source, usesTypeInterface)
  {
    if source.None? then "" else ItemsText(source.value, toCase, usesTypeInterface)
  }

  /** What processing a file records as unprocessed: the file itself when it cannot be read or parsed. */
  function SourceFailures(path: string, source: Source): (r: seq<string>)
    ensures r == [] <==> source.Some?
  {
    if source.None? then [path] else []
  }

  /** `process_rust_file`: a file that cannot be read or parsed is recorded, otherwise its items are processed. */
  method ProcessRustFile(state: BuildState, path: string, source: Source, toCase: (Case, string) -> string,
                         usesTypeInterface: bool)
    requires SourceReady(source, usesTypeInterface)
    modifies state
    ensures state.types == old(state.types) + SourceText(source, toCase, usesTypeInterface)
    ensures state.unprocessedFiles == old(state.unprocessedFiles) + SourceFailures(path, source)
  {
    if source.None? {
      state.unprocessedFiles := state.unprocessedFiles + [path];
      assert old(state.types) + "" == old(state.types);
      return;
    }
    ProcessItems(state, source.value, toCase, usesTypeInterface);
    assert old(state.unprocessedFiles) + [] == old(state.unprocessedFiles);
  }

  // ---------------------------------------------------------------------------
  // `process_dir_entry` and `check_extension`.
  // ---------------------------------------------------------------------------

  /**
    An entry of the directory walk, in walk order: its path, whether it is a
    file, its extension (`None` when it has none or it is not UTF-8) and what
    reading and parsing it gives.
  */
  datatype DirEntry = DirEntry(path: string, isFile: bool, extension: Option<string>, source: Source)

  function AsciiLower(c: char): char
  {
    if 'A' <= c <= 'Z' then (c as int + 32) as char else c
  }

  /** `eq_ignore_ascii_case`. */
  predicate EqIgnoreAsciiCase(a: string, b: string)
  {
    |a| == |b| && forall i :: 0 <= i < |a| ==> AsciiLower(a[i]) == AsciiLower(b[i])
  }

  /** `check_extension`: `rs` in any ASCII case. */
  predicate CheckExtension(ext: string)
  {
    EqIgnoreAsciiCase(ext, "rs")
  }

  /** The extensions `check_extension` accepts are exactly the four spellings of `rs`. */
  lemma CheckExtensionCases(ext: string)
    ensures CheckExtension(ext) <==> ext in {"rs", "Rs", "rS", "RS"}
  {
    if CheckExtension(ext) {
      assert |ext| == 2;
      assert AsciiLower(ext[0]) == 'r' && AsciiLower(ext[1]) == 's';
      assert ext[0] == 'r' || ext[0] == 'R';
      assert ext[1] == 's' || ext[1] == 'S';
      assert ext == [ext[0], ext[1]];
    }
  }

  /** A walk entry the driver processes: a file with an `rs` extension. */
  predicate IsRustEntry(e: DirEntry)
  {
    e.isFile && e.extension.Some? && CheckExtension(e.extension.value)
  }

  predicate EntriesReady(entries: seq<DirEntry>, usesTypeInterface: bool)
  {
    forall i :: 0 <= i < |entries| ==> IsRustEntry(entries[i]) ==> SourceReady(entries[i].source, usesTypeInterface)
  }

  function EntryText(e: DirEntry, toCase: (Case, string) -> string, usesTypeInterface: bool): string
    requires IsRustEntry(e) ==> SourceReady(e.source, usesTypeInterface)
  {
    if IsRustEntry(e) then SourceText(e.source, toCase, usesTypeInterface) else ""
  }

  function EntryFailures(e: DirEntry): seq<string>
  {
    if IsRustEntry(e) then SourceFailures(e.path, e.source) else []
  }

  /** What processing the Rust files of a walk writes: each file's text, in walk order. */
  function EntriesText(entries: seq<DirEntry>, toCase: (Case, string) -> string, usesTypeInterface: bool): string
    requires EntriesReady(entries, usesTypeInterface)
  {
    if |entries| == 0 then ""
    else EntriesText(entries[..|entries| - 1], toCase, usesTypeInterface)
         + EntryText(entries[|entries| - 1], toCase, usesTypeInterface)
  }

  /** The Rust files of a walk that cannot be read or parsed, in walk order. */
  function EntriesFailures(entries: seq<DirEntry>): seq<string>
  {
    if |entries| == 0 then [] else EntriesFailures(entries[..|entries| - 1]) + EntryFailures(entries[|entries| - 1])
  }

  lemma EntriesStep(entries: seq<DirEntry>, i: nat, toCase: (Case, string) -> string, usesTypeInterface: bool)
    requires EntriesReady(entries, usesTypeInterface) && i < |entries|
    ensures EntriesReady(entries[..i], usesTypeInterface) && EntriesReady(entries[..i + 1], usesTypeInterface)
    ensures EntriesText(entries[..i + 1], toCase, usesTypeInterface)
         == EntriesText(entries[..i], toCase, usesTypeInterface) + EntryText(entries[i], toCase, usesTypeInterface)
    ensures EntriesFailures(entries[..i + 1]) == EntriesFailures(entries[..i]) + EntryFailures(entries[i])
  {
    assert entries[..i + 1][..i] == entries[..i];
    forall k | 0 <= k < i + 1
      ensures entries[..i + 1][k] == entries[k]
    {
    }
  }

  /**
    `process_dir_entry` as intended: every Rust file of the walk is processed
    as if it had been named on the command line.
  */
  method ProcessDirEntry(state: BuildState, entries: seq<DirEntry>, toCase: (Case, string) -> string,
                         usesTypeInterface: bool)
    requires EntriesReady(entries, usesTypeInterface)
    modifies state
    ensures state.types == old(state.types) + EntriesText(entries, toCase, usesTypeInterface)
    ensures state.unprocessedFiles == old(state.unprocessedFiles) + EntriesFailures(entries)
  {
    for i := 0 to |entries|
      invariant EntriesReady(entries[..i], usesTypeInterface)
      invariant state.types == old(state.types) + EntriesText(entries[..i], toCase, usesTypeInterface)
      invariant state.unprocessedFiles == old(state.unprocessedFiles) + EntriesFailures(entries[..i])
    {
      EntriesStep(entries, i, toCase, usesTypeInterface);
      var entry := entries[i];
      if entry.isFile && entry.extension.Some? && CheckExtension(entry.extension.value) {
        ProcessRustFile(state, entry.path, entry.source, toCase, usesTypeInterface);
      } else {
        assert state.types + "" == state.types;
        assert state.unprocessedFiles + [] == state.unprocessedFiles;
      }
      SeqAssoc(old(state.types), EntriesText(entries[..i], toCase, usesTypeInterface),
               EntryText(entry, toCase, usesTypeInterface));
      SeqAssoc(old(state.unprocessedFiles), EntriesFailures(entries[..i]), EntryFailures(entry));
    }
    assert entries[..|entries|] == entries;
  }

  /** How many entries of the walk are Rust files. */
  function RustEntryCount(entries: seq<DirEntry>): nat
  {
    if |entries| == 0 then 0
    else RustEntryCount(entries[..|entries| - 1]) + (if IsRustEntry(entries[|entries| - 1]) then 1 else 0)
  }

  /** `n` copies of `path`. */
  function Repeat(path: string, n: nat): (r: seq<string>)
    ensures |r| == n && forall i :: 0 <= i < n ==> r[i] == path
  {
    if n == 0 then [] else Repeat(path, n - 1) + [path]
  }

  /**
    `process_dir_entry` as written: for every Rust file of the walk it hands
    the directory's own path to `process_rust_file`, whose read of a directory
    fails, so the directory is recorded once per Rust file and nothing is
    translated.
  */
  method ProcessDirEntryAsWritten(state: BuildState, dirPath: string, entries: seq<DirEntry>)
    modifies state
    ensures state.types == old(state.types)
    ensures state.unprocessedFiles == old(state.unprocessedFiles) + Repeat(dirPath, RustEntryCount(entries))
  {
    for i := 0 to |entries|
      invariant state.types == old(state.types)
      invariant state.unprocessedFiles == old(state.unprocessedFiles) + Repeat(dirPath, RustEntryCount(entries[..i]))
    {
      assert entries[..i + 1][..i] == entries[..i];
      var entry := entries[i];
      if entry.isFile && entry.extension.Some? && CheckExtension(entry.extension.value) {
        ProcessRustFile(state, dirPath, None, (c: Case, s: string) => s, false);
      }
    }
    assert entries[..|entries|] == entries;
  }

  /** The `#[tsync]` const `pub const A: u8 = 1;`. */
  function SampleConst(): Item
  {
    ConstItem([Attribute(["tsync"], MetaPath)], "A", Lit("1"))
  }

  /**
    A directory `src` holding one well-formed Rust file with a `#[tsync]`
    const: as written nothing is translated and `src` is reported as not
    processed; as intended the const is written and nothing is reported.
  */
  lemma DirectoryWalkCounterexample(toCase: (Case, string) -> string)
    ensures var entries := [DirEntry("src/lib.rs", true, Some("rs"), Some([SampleConst()]))];
      && RustEntryCount(entries) == 1
      && Repeat("src", RustEntryCount(entries)) == ["src"]
      && EntriesReady(entries, false)
      && EntriesText(entries, toCase, false) == "\nexport const A = 1;\n"
      && EntriesFailures(entries) == []
  {
    var e := DirEntry("src/lib.rs", true, Some("rs"), Some([SampleConst()]));
    var entries := [e];
    assert IsRustEntry(e);
    assert entries[..0] == [];
    SampleFileText(toCase);
    assert EntriesText(entries, toCase, false) == "" + EntryText(e, toCase, false);
  }

  /** In module mode the file holding only the sample const is `export const A = 1;` on a fresh line. */
  lemma SampleFileText(toCase: (Case, string) -> string)
    ensures ItemsReady([SampleConst()], false)
    ensures ItemsText([SampleConst()], toCase, false) == "\nexport const A = 1;\n"
  {
    assert HasTsyncAttribute(ItemAttrs(SampleConst())) by {
      assert "tsync" in SampleConst().attrs[0].path;
    }
    LiteralConstText("A", "1");
    assert ItemText(SampleConst(), toCase, false) == ConstText(ConstItem([], "A", Lit("1")), false);
    assert [SampleConst()][..0] == [];
    assert ItemsText([SampleConst()], toCase, false) == "" + ItemText(SampleConst(), toCase, false);
  }

  // ---------------------------------------------------------------------------
  // `generate_typescript_defs`.
  // ---------------------------------------------------------------------------

  /**
    Declaration-file mode: the output path ends with `.d.ts`, or it is not
    valid UTF-8 (`None`).
  */
  function UsesTypeInterface(output: Option<string>): (r: bool)
    ensures r <==> output.None? || EndsWith(output.value, ".d.ts")
  {
    match output
    case None => true
    case Some(p) => |p| >= 5 && p[|p| - 5..] == ".d.ts"
  }

  /** `types.d.ts` selects declaration-file mode and `types.ts` module mode. */
  lemma OutputModeExamples()
    ensures UsesTypeInterface(Some("types.d.ts"))
    ensures !UsesTypeInterface(Some("types.ts"))
  {
    assert "types.ts"[3..] == "es.ts";
  }

  /** An input path given on the command line. */
  datatype Input =
    | MissingPath(path: string)
    | RustFile(path: string, source: Source)
    | Directory(path: string, entries: seq<DirEntry>)

  predicate InputReady(input: Input, usesTypeInterface: bool)
  {
    match input
    case MissingPath(_) => true
    case RustFile(_, source) => SourceReady(source, usesTypeInterface)
    case Directory(_, entries) => EntriesReady(entries, usesTypeInterface)
  }

  predicate InputsReady(inputs: seq<Input>, usesTypeInterface: bool)
  {
    forall i :: 0 <= i < |inputs| ==> InputReady(inputs[i], usesTypeInterface)
  }

  function InputText(input: Input, toCase: (Case, string) -> string, usesTypeInterface: bool): string
    requires InputReady(input, usesTypeInterface)
  {
    match input
    case MissingPath(_) => ""
    case RustFile(_, source) => SourceText(source, toCase, usesTypeInterface)
    case Directory(_, entries) => EntriesText(entries, toCase, usesTypeInterface)
  }

  /** What an input adds to the unprocessed list: a missing path itself, or its unreadable Rust files. */
  function InputFailures(input: Input): seq<string>
  {
    match input
    case MissingPath(path) => [path]
    case RustFile(path, source) => SourceFailures(path, source)
    case Directory(_, entries) => EntriesFailures(entries)
  }

  function InputsText(inputs: seq<Input>, toCase: (Case, string) -> string, usesTypeInterface: bool): string
    requires InputsReady(inputs, usesTypeInterface)
  {
    if |inputs| == 0 then ""
    else InputsText(inputs[..|inputs| - 1], toCase, usesTypeInterface) + InputText(inputs[|inputs| - 1], toCase, usesTypeInterface)
  }

  function InputsFailures(inputs: seq<Input>): seq<string>
  {
    if |inputs| == 0 then [] else InputsFailures(inputs[..|inputs| - 1]) + InputFailures(inputs[|inputs| - 1])
  }

  lemma InputsStep(inputs: seq<Input>, i: nat, toCase: (Case, string) -> string, usesTypeInterface: bool)
    requires InputsReady(inputs, usesTypeInterface) && i < |inputs|
    ensures InputsReady(inputs[..i], usesTypeInterface) && InputsReady(inputs[..i + 1], usesTypeInterface)
    ensures InputsText(inputs[..i + 1], toCase, usesTypeInterface)
         == InputsText(inputs[..i], toCase, usesTypeInterface) + InputText(inputs[i], toCase, usesTypeInterface)
    ensures InputsFailures(inputs[..i + 1]) == InputsFailures(inputs[..i]) + InputFailures(inputs[i])
  {
    assert inputs[..i + 1][..i] == inputs[..i];
    forall k | 0 <= k < i + 1
      ensures inputs[..i + 1][k] == inputs[k]
    {
    }
  }

  /** The loop over the inputs: `debug_check_path`, then a directory walk or a single file. */
  method ProcessInputs(state: BuildState, inputs: seq<Input>, toCase: (Case, string) -> string, usesTypeInterface: bool)
    requires InputsReady(inputs, usesTypeInterface)
    modifies state
    ensures state.types == old(state.types) + InputsText(inputs, toCase, usesTypeInterface)
    ensures state.unprocessedFiles == old(state.unprocessedFiles) + InputsFailures(inputs)
  {
    for i := 0 to |inputs|
      invariant InputsReady(inputs[..i], usesTypeInterface)
      invariant state.types == old(state.types) + InputsText(inputs[..i], toCase, usesTypeInterface)
      invariant state.unprocessedFiles == old(state.unprocessedFiles) + InputsFailures(inputs[..i])
    {
      InputsStep(inputs, i, toCase, usesTypeInterface);
      var input := inputs[i];
      match input {
        case MissingPath(path) =>
          state.unprocessedFiles := state.unprocessedFiles + [path];
          assert state.types + "" == state.types;
        case Directory(_, entries) =>
          ProcessDirEntry(state, entries, toCase, usesTypeInterface);
        case RustFile(path, source) =>
          ProcessRustFile(state, path, source, toCase, usesTypeInterface);
      }
      SeqAssoc(old(state.types), InputsText(inputs[..i], toCase, usesTypeInterface),
               InputText(input, toCase, usesTypeInterface));
      SeqAssoc(old(state.unprocessedFiles), InputsFailures(inputs[..i]), InputFailures(input));
    }
    assert inputs[..|inputs|] == inputs;
  }

  /**
    `generate_typescript_defs` up to the write: the mode follows the output
    path, the buffer starts with the marker line and the inputs follow in
    command-line order.
  */
  method GenerateTypescriptDefs(inputs: seq<Input>, output: Option<string>, toCase: (Case, string) -> string)
    returns (state: BuildState)
    requires InputsReady(inputs, UsesTypeInterface(output))
    ensures state.types == Marker + "\n" + InputsText(inputs, toCase, UsesTypeInterface(output))
    ensures state.unprocessedFiles == InputsFailures(inputs)
  {
    var usesTypeInterface := UsesTypeInterface(output);
    state := new BuildState();
    state.types := state.types + (Marker + "\n");
    assert state.types == Marker + "\n";
    ProcessInputs(state, inputs, toCase, usesTypeInterface);
  }
}
