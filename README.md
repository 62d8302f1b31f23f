# tsync translation engine, modelled in Dafny

tsync turns Rust items marked `#[tsync]` into TypeScript declarations. The
model covers its translation engine:

- **The type mapper** (`src/typescript.rs`). It maps a Rust type tree to a
  `TsType`, which is the TypeScript text plus an "optional" flag.
  - References are transparent.
  - A fixed table of 21 primitives applies.
  - `Option` marks the result optional.
  - `Vec`, `HashMap` and `Cow` have their own rules.
  - Tuples become `[..]`.
  - Any other path passes through by name.
  - Everything else becomes `unknown`.
- **The attribute helpers** (`src/utils.rs`):
  - the last matching attribute;
  - arguments read as `name = "value"` pairs or as bare lists;
  - the `rename_all` table;
  - doc comments;
  - indentation;
  - rendered generic-parameter lists.
- **The emitters** (`src/to_typescript/*.rs`). Each one appends text to the
  `BuildState` buffer:
  - structs become `interface`s;
  - type aliases become `type X = ..`;
  - consts become `export const`, in module mode only;
  - enums get one of four representations: numeric enum, string union,
    internally tagged aliases or externally tagged objects.
- **The driver** (`src/lib.rs`):
  - `BuildState` and `write_comments`, which renders JSDoc;
  - the `#[tsync]` filter in `process_rust_item`;
  - the per-file, per-directory and per-input loops;
  - the choice between `.d.ts` mode and module mode;
  - the marker header;
  - the overwrite guard on an existing output file.

## How the model is built

**Files and modules.** Each Rust file becomes one Dafny file:
- `typescript.dfy` (`TypeScript`) models `src/typescript.rs`;
- `utils.dfy` (`Utils`) models `src/utils.rs`;
- `structs.dfy`, `enums.dfy`, `consts.dfy` and `type_item.dfy` model the four emitters;
- `state.dfy` (`BuildStates`) models `BuildState` and `write_comments`;
- `lib.dfy` (`OutputGuard`, `Lib`) models the rest of `src/lib.rs`.

Two more files have no Rust counterpart:
- `text.dfy` (`Text`) holds the string helpers: `trim`, decimal rendering and `str::parse::<i32>`.
- `syntax.dfy` (`Syntax`) holds the already-parsed `syn` shapes the engine consumes.

**Pure code becomes functions and lemmas.** The type mapper and the helpers
are pure.

**Imperative code becomes methods.** The emitters and the driver append to
the buffer step by step. Each becomes a method on the `BuildState` class, and
its `for` loops keep their invariants. Every method is proved against a
function that gives the whole text it appends:

```
ensures state.types == old(state.types) + XText(..)
ensures state.unprocessedFiles == old(state.unprocessedFiles)
```

The lemmas then state what that text is: its shape, its order, what it
ignores and how it reacts to each attribute.

**Panics become preconditions.** Where the Rust code would panic, the model
requires the input that avoids it:
- an `unwrap` on an empty `Option<>` or `Vec<>` argument list: `TypeScript.Convertible`;
- an unnamed struct field: `Structs.FieldReady`;
- a quoted value or doc literal that `[1..len - 1]` cannot slice: Rust slices bytes, so the text needs at least two characters and a one-byte (ASCII) first and last character (`Utils.InnerSliceable`, used by `Utils.ArgReady` and `Utils.DocsReady`);
- the counter's `i32` overflow in debug builds: `Enums.CounterFits`.

A precondition covers only what the emitter actually reads: a const's doc
comments must be well formed only in module mode and when the const has a
body (`Consts.ConstReady`), and the readiness predicates of `Lib` carry the
output mode down to it.

**Foreign code becomes a parameter.** `convert_case`'s `to_case` is the
parameter `toCase`.

**File-system results become input values.** The model never touches the file system:
- a source file is `Lib.Source`: either its parsed items, or `None` when reading or parsing fails;
- a directory is its list of walked `Lib.DirEntry` values;
- an input path is a `Lib.Input`.

## Model

| member | source | states |
|---|---|---|
| TypeScript.TryMatchIdentStr | src/typescript.rs:24-49 | yields a string exactly for the 21 identifiers of the primitive table, and that string is the table's entry (`number`, `boolean`, `string` or `Date`) |
| TypeScript.ConvertType | src/typescript.rs:162-201 | the result is optional exactly when the type, seen through references, is a path whose last segment is `Option` |
| TypeScript.TryMatchWithArgs | src/typescript.rs:52-129 | matches exactly `Cow`, `Option`, `Vec` and `HashMap` (`Cow` compared exactly), and only `Option` yields an optional type |
| TypeScript.ExtractCustomType | src/typescript.rs:131-160 | succeeds for every argument form except parenthesized arguments, and never yields an optional type |
| TypeScript.FlattenedArgs | src/typescript.rs:138-152 | one entry per generic argument, each the argument's mapping, joined with `undefined` as a union member when it is optional |
| TypeScript.FlattenedTypes | src/typescript.rs:180-192 | one entry per tuple element, each the element's mapping, joined with `undefined` as a union member when it is optional |
| TypeScript.PrimitiveRule | src/typescript.rs:166-170 | a path whose last identifier is in the primitive table maps to the table's text and is not optional, whatever its qualifier and arguments (the table takes priority) |
| TypeScript.OptionRule | src/typescript.rs:68-79 | `Option<T, ..>` is optional, and its text is T's text: T's own optional flag is dropped |
| TypeScript.NestedOptionCollapses | src/typescript.rs:68-79 | `Option<Option<T>>` maps exactly as `Option<T>` does |
| TypeScript.VecRule | src/typescript.rs:80-99 | `Vec<T>` is `Array<t>` when T is not optional and an array of the union of t and `undefined` when it is; never optional |
| TypeScript.HashMapRule | src/typescript.rs:100-126 | `HashMap<..>` is `Record<` + the flattened arguments joined by `, ` + `>`, and is not optional |
| TypeScript.CowRule | src/typescript.rs:54-67 | `Cow<..>` maps as its first type argument, lifetimes skipped, and is not optional |
| TypeScript.TupleRule | src/typescript.rs:179-198 | a tuple is `[` + the flattened elements joined by `, ` + `]`, and is not optional |
| TypeScript.CustomRule | src/typescript.rs:131-160 | any other path passes its identifier through when it has no arguments, renders `ident<flattened args>` when it has angle arguments, and is `unknown` when it has parenthesized arguments |
| TypeScript.UnknownFallback | src/typescript.rs:52-199 | a non-path, non-reference, non-tuple type is `unknown`, and so are `Option`, `Vec` and `HashMap` without angle arguments and `Cow` without a type argument |
| TypeScript.NormalizePreservesMapping | src/typescript.rs:164-178 | removing every reference and every path qualifier, at any depth, leaves the mapping unchanged: `&T` maps as T and only the last path segment decides |
| TypeScript.NormalizeArgumentsPreserve | src/typescript.rs:52-160 | removing references and qualifiers inside path arguments leaves the result of the wrapper rules and of the custom pass-through unchanged |
| TypeScript.NormalizeAngleArgs | src/typescript.rs:54-126 | the same, for angle-bracketed arguments of the wrapper types |
| TypeScript.NormalizeArgsPreserve | src/typescript.rs:138-152 | the same, for a flattened list of generic arguments |
| TypeScript.NormalizeGenericPreserves | src/typescript.rs:16-21 | the same, for one generic argument |
| Utils.FindRule | src/utils.rs:229-232 | finds a case exactly when some rule has that name, and the pair found is in the table |
| Utils.ParseSerdeCase | src/utils.rs:227-234 | a case exactly for the seven names of the rename table, compared exactly; `None` for any other string and for an absent value; the case's serde name is the given string |
| Utils.ParseSerdeCaseRoundTrip | src/utils.rs:6-15 | every case's serde name parses back to that case |
| Utils.GetAttribute | src/utils.rs:204-225 | finds an attribute exactly when some attribute's path contains the needle; the one found is the last such attribute |
| Utils.LastMatchingAttributeWins | src/utils.rs:204-225 | whatever comes before, the last attribute containing the needle is the one returned |
| Utils.FindPair | src/utils.rs:73 | the index of the first pair whose path is exactly `arg`, or none when no pair has that path |
| Utils.LeadingPaths | src/utils.rs:44-91 | counts the path expressions before the first entry that is not a non-empty path |
| Utils.AnyLeadingPathIs | src/utils.rs:91-93 | true exactly when `arg` is the first segment of one of those leading path expressions |
| Utils.InnerSliceableExamples | src/utils.rs:77 | a quoted value can be sliced; `éa`, whose first character takes two bytes, and a single character cannot |
| Utils.CheckToken | src/utils.rs:51-99 | a value only from a parenthesized group; a bare list yields `arg` itself |
| Utils.CheckTokenNameValue | src/utils.rs:67-78 | in a list of `name = value` pairs, the first pair named `arg` decides, and its value is returned without its first and last character |
| Utils.CheckTokenBareList | src/utils.rs:83-95 | in a bare list, `Some(arg)` exactly when `arg` heads a path before the first non-path entry |
| Utils.GetAttributeArg | src/utils.rs:106-116 | finds something only when an attribute with the needle exists |
| Utils.HasAttributeArg | src/utils.rs:119-121 | true only when an attribute with the needle exists |
| Utils.LastAttributeDecidesArg | src/utils.rs:106-116 | the argument is read from the last attribute containing the needle and from no other |
| Utils.EarlierAttributeIgnored | src/utils.rs:106-116 | an argument given only in an earlier attribute with the same name is not found |
| Utils.AttributeArgExamples | src/utils.rs:101-105 | `#[serde(tag = "type")]` gives `type` for `tag`, and `#[derive(Serialize_repr)]` gives `Serialize_repr` |
| Utils.CheckDocTokens | src/utils.rs:124-134 | a comment exactly for a literal token: the literal's text without its first and last character, trimmed, so it has no whitespace at either end and is at most two characters shorter than the literal |
| Utils.DocTokens | src/utils.rs:147-151 | at most one comment per token, every one trimmed |
| Utils.DocTokensAppend | src/utils.rs:147-151 | comments keep the order of their tokens: the comments of `a + b` are those of `a` followed by those of `b` |
| Utils.DocTokensAreLiteralComments | src/utils.rs:130-151 | the comments of a token stream are, in order, exactly the stripped and trimmed texts of its literal tokens, and other tokens add nothing |
| Utils.CheckDocAttribute | src/utils.rs:140-152 | a `name = value` attribute gives the stripped and trimmed texts of its literal tokens, in order; the path and list forms give no comment |
| Utils.GetComments | src/utils.rs:157-166 | every comment returned is trimmed |
| Utils.GetCommentsAppend | src/utils.rs:157-166 | comments keep the order of their attributes: the comments of `a + b` are those of `a` followed by those of `b` |
| Utils.OtherAttributesIgnored | src/utils.rs:160 | an attribute without a `doc` segment contributes no comment |
| Utils.DocCommentText | src/utils.rs:130-166 | `#[doc = "text"]` gives the single comment `text`, trimmed |
| Utils.BuildIndentation | src/utils.rs:178-182 | length `max(n, 0)`, all spaces |
| Utils.TypeParamNames | src/utils.rs:184-196 | at most one name per parameter; none exactly when there is no type parameter |
| Utils.TypeParamNamesAppend | src/utils.rs:184-196 | names are collected in declaration order |
| Utils.ExtractStructGenerics | src/utils.rs:184-201 | `""` exactly when there is no type parameter, otherwise `<` + the type-parameter names joined by `, ` + `>` |
| Utils.NonTypeParamsDropped | src/utils.rs:188-194 | lifetime and const parameters do not change the rendered list |
| Text.Trim | src/utils.rs:133 | no whitespace at either end of the result; a string without whitespace at its ends is unchanged |
| Text.TrimLineBreak | src/lib.rs:240 | trimming a line that has no whitespace at either end, plus its line break, gives back the line |
| Text.ParseI32 | src/to_typescript/enums.rs:128 | a parsed value always lies in the `i32` range and comes from text that starts with a digit or a sign |
| Text.ParseI32OfIntToString | src/to_typescript/enums.rs:128-134 | every `i32` rendered in decimal parses back to itself |
| Text.NatToStringValue | src/to_typescript/enums.rs:134 | the decimal rendering of a natural number has that value |
| BuildStates.CommentsTextLineCount | src/lib.rs:55-71 | the JSDoc text has 0 lines for no comment, 1 line for one comment, and n + 2 lines for n ≥ 2 comments (opening line, one line per comment, closing line) |
| BuildStates.CommentsTextDelimited | src/lib.rs:59-68 | a non-empty JSDoc text opens with the indented `/**` and ends with `*/` and a line break |
| BuildStates.CommentLinesCount | src/lib.rs:64-67 | one ` * c` line per comment |
| BuildStates.BuildState.WriteComments | src/lib.rs:55-71 | appends nothing for no comment, `ind/** c */` for one, and a `/**` block with one ` * c` line per comment for several; the list of unprocessed files is untouched |
| BuildStates.BuildState.constructor | src/lib.rs:184-200 | an empty buffer and no unprocessed files |
| Structs.OptionalMarker | src/to_typescript/structs.rs:29-35 | a property line is `space + name + "?: " + ts + "\n"` exactly when the field's type is an `Option`, and `space + name + ": " + ts + "\n"` otherwise |
| Structs.OptionFieldLine | src/to_typescript/structs.rs:28-35 | a field `name: Option<T>` becomes the line `name?: t` |
| Structs.FieldsTextAppend | src/to_typescript/structs.rs:25-36 | fields are written in declaration order: the text of `a + b` is that of `a` followed by that of `b` |
| Structs.SingleFieldText | src/to_typescript/structs.rs:25-36 | one field writes exactly its comments and its property line |
| Structs.ProcessFields | src/to_typescript/structs.rs:23-37 | appends, for each field in order, its comments at indentation 2 and its property line at the requested indentation |
| Structs.StructTextDelimited | src/to_typescript/structs.rs:4-20 | the struct text starts on a fresh line and ends with `}` and a line break |
| Structs.ConvertStruct | src/to_typescript/structs.rs:4-20 | appends a line break, the comments, `interface Name<generics> {`, the fields at indentation 2 and `}` with a line break; no `export` in either mode |
| Enums.UnnamedCount | src/to_typescript/enums.rs:16-28 | zero exactly when every field of the variant is named |
| Enums.UnnamedCountPrefix | src/to_typescript/enums.rs:17-28 | the count over a prefix never exceeds the count over the whole list |
| Enums.CheckVariants | src/to_typescript/enums.rs:14-30 | accepts exactly when no variant has two or more unnamed fields |
| Enums.RejectedEnumEmitsNothing | src/to_typescript/enums.rs:14-30 | a rejected enum appends nothing |
| Enums.SelectRepresentation | src/to_typescript/enums.rs:38-51 | numeric enum exactly when every variant is field-less and `derive` lists `Serialize_repr`; string union exactly when every variant is field-less and it does not; internally tagged exactly when some variant has fields and a serde `tag` is given, and the tag is that value; externally tagged otherwise |
| Enums.UnionMembersAppend | src/to_typescript/enums.rs:70-77 | one member per variant in declaration order |
| Enums.UnionIgnoresDiscriminants | src/to_typescript/enums.rs:55-80 | two variant lists with the same names give the same union, whatever their discriminants and fields |
| Enums.AddEnum | src/to_typescript/enums.rs:57-80 | appends `export`-prefixed or bare `type Name =`, then a line break and one space, then one string-literal union member per variant (case-converted when a casing is set), then `;` and a line break |
| Enums.CounterRule | src/to_typescript/enums.rs:118-136 | each variant's value is its discriminant when that parses as an `i32`, otherwise 0 for the first variant and the previous value plus 1 after that; a discriminant that does not parse leaves the counter running |
| Enums.DefaultNumbering | src/to_typescript/enums.rs:89-103 | with no discriminants, variant i gets the value i |
| Enums.NumberingExample | src/to_typescript/enums.rs:82-99 | `[Bar, Baz = 123, Quux]` gives 0, 123, 124 |
| Enums.NumericStep | src/to_typescript/enums.rs:120-136 | one more variant adds one member line, and the counter afterwards is that variant's value plus 1 |
| Enums.AddNumericEnum | src/to_typescript/enums.rs:106-139 | appends `declare enum` or `export enum Name {`, then one `name = value,` line per variant with the value given by the counter rule, then `}` and a line break |
| Enums.InternalMembersAppend | src/to_typescript/enums.rs:189-204 | union members come in declaration order |
| Enums.NewtypeVariantOmitted | src/to_typescript/enums.rs:189-235 | a newtype variant adds nothing to the union and gets no alias |
| Enums.InternalAliasesAppend | src/to_typescript/enums.rs:208-235 | aliases come in declaration order: the aliases of `a + b` are those of `a` followed by those of `b` |
| Enums.InternalMemberOfRecordVariant | src/to_typescript/enums.rs:196-203 | a variant without unnamed fields adds the union member `Enum__Variant` |
| Enums.InternalStep | src/to_typescript/enums.rs:189-235 | one more variant adds exactly its member and its alias |
| Enums.AddInternallyTaggedEnum | src/to_typescript/enums.rs:175-237 | appends the `type Name<generics> =` union of `Enum__Variant` members, then `;`, then per record variant an alias whose first line is `tag: "<cased name>";` followed by its fields, then a line break |
| Enums.AddInternalMembers | src/to_typescript/enums.rs:189-204 | appends the union members |
| Enums.AddInternalAliases | src/to_typescript/enums.rs:208-235 | appends the aliases of the record variants, in order |
| Enums.AddInternalAlias | src/to_typescript/enums.rs:210-234 | appends a line break, the variant's comments at indentation 0, `type Enum__Variant = {`, the tag line, the fields at indentation 2, and `};` |
| Enums.NewtypeVariantText | src/to_typescript/enums.rs:265-271 | an undocumented newtype variant renders as the union member `{ "name": T }` |
| Enums.UnitVariantText | src/to_typescript/enums.rs:272-290 | an undocumented field-less variant renders as an object whose value is the empty object `{}` |
| Enums.AddExternallyTaggedEnum | src/to_typescript/enums.rs:240-293 | appends `type Name<generics> =`, then one tagged member per variant, then `;` and a line break |
| Enums.AddExternalVariant | src/to_typescript/enums.rs:254-290 | appends a line break, the variant's comments at indentation 2, then its newtype form or its record form |
| Enums.AddNewtypeMember | src/to_typescript/enums.rs:265-271 | appends the opening of a union member `{ "name":`, then one ` T` per field, then ` }` |
| Enums.AddRecordMember | src/to_typescript/enums.rs:272-290 | appends the opening of a union member `{`, then the `"name": {` line, then the fields at indentation 8 (if any), then the two closing braces |
| Enums.ConvertEnum | src/to_typescript/enums.rs:11-52 | appends nothing for a rejected enum; otherwise a line break, the comments, and the text of the selected representation |
| Consts.ConstBody | src/to_typescript/consts.rs:20-39 | a body exactly for a literal or a macro with a `json` path segment: the literal's token text verbatim, or the macro's raw argument tokens |
| Consts.DeclarationModeSkipsConsts | src/to_typescript/consts.rs:8-10 | in declaration-file mode every const item is accepted, whatever its doc attributes, and writes nothing |
| Consts.UnsupportedInitializerSkipped | src/to_typescript/consts.rs:38-54 | a const whose initializer is neither a literal nor a `json!` macro is accepted, whatever its doc attributes, and writes nothing |
| Consts.LiteralConstText | src/to_typescript/consts.rs:40-49 | an undocumented literal const is exactly `\nexport const NAME = v;\n` |
| Consts.JsonMacroBody | src/to_typescript/consts.rs:25-36 | `serde_json::json!(..)` yields its tokens; a macro without a `json` segment yields nothing |
| Consts.ConvertConst | src/to_typescript/consts.rs:5-56 | appends nothing in declaration-file mode or without a body; otherwise a line break, the comments, `export const NAME = BODY;` and a line break |
| BuildStates.ExportPrefix | src/to_typescript/type_item.rs:5 | `""` exactly in declaration-file mode, `export ` otherwise |
| TypeItems.OptionalFlagDiscarded | src/to_typescript/type_item.rs:8-13 | aliasing `Option<T>` writes the same text as aliasing T: only the text is written, not the optional flag |
| TypeItems.CommentsPrecedeDeclaration | src/to_typescript/type_item.rs:9-15 | the comments come right before the declaration line, which ends the text |
| TypeItems.ConvertTypeAlias | src/to_typescript/type_item.rs:3-17 | appends a line break, the comments at indentation 0, `{export}type Name = ts` and a line break |
| Lib.UnmarkedItemIgnored | src/lib.rs:74-98 | an item without a `tsync` attribute, or of another kind, writes nothing |
| Lib.TsyncAttributeExamples | src/lib.rs:50-52 | `#[tsync]` and `#[tsync::tsync]` are recognized; `#[derive(Serialize)]` is not |
| Lib.ProcessRustItem | src/lib.rs:74-98 | appends the emitter's text for a marked const, struct, enum or type alias, and nothing otherwise |
| Lib.OnlyTranslatedItemsCount | src/lib.rs:119-121 | a file with no marked translatable item writes nothing |
| Lib.ItemsStep | src/lib.rs:119-121 | one more item adds exactly its text |
| Lib.ProcessItems | src/lib.rs:119-121 | appends the texts of the file's items, in order |
| Lib.SourceFailures | src/lib.rs:109-117 | the path is recorded as unprocessed exactly when reading or parsing fails |
| Lib.ProcessRustFile | src/lib.rs:100-122 | appends the items' text when the file is read and parsed; otherwise appends nothing and records the path |
| Lib.CheckExtensionCases | src/lib.rs:134-143 | an extension is accepted exactly when it is `rs` in any letter case |
| Lib.EntriesStep | src/lib.rs:145-174 | one more entry adds exactly its text and its failures |
| Lib.ProcessDirEntry | src/lib.rs:145-174 | appends, for each walked file with a Rust extension in order, the text of that file, and records that file's path when it cannot be processed |
| Lib.Repeat | src/lib.rs:170 | n copies of the path |
| Lib.ProcessDirEntryAsWritten | src/lib.rs:145-174 | as written, every Rust entry processes the directory path itself, which appends nothing and records the directory once per Rust entry |
| Lib.SampleFileText | src/to_typescript/consts.rs:40-49 | in module mode a file holding only `#[tsync] const A = 1` is `export const A = 1;` on a fresh line |
| Lib.DirectoryWalkCounterexample | src/lib.rs:170 | for a directory `src` holding `src/lib.rs` with one marked const, the code as written records `src` and writes nothing, while processing the entry's own path writes `export const A = 1;` |
| Lib.UsesTypeInterface | src/lib.rs:179-182 | declaration-file mode exactly when the output path ends with `.d.ts` or is not valid UTF-8 |
| Lib.OutputModeExamples | src/lib.rs:179-182 | `types.d.ts` selects declaration-file mode and `types.ts` module mode |
| Lib.InputsStep | src/lib.rs:206-215 | one more input adds exactly its text and its failures |
| Lib.ProcessInputs | src/lib.rs:206-215 | appends each input's text in order; a missing path is recorded, a directory is walked, and any other path is processed as a Rust file; a directory is walked the corrected way of the src/lib.rs:170 finding, each Rust entry processing its own file |
| Lib.GenerateTypescriptDefs | src/lib.rs:176-215 | the buffer is the marker line followed by the texts of the inputs in order; the unprocessed list is exactly the inputs' failures; directories follow the corrected walk of the src/lib.rs:170 finding |
| OutputGuard.FirstLine | src/lib.rs:234-238 | the first line is a prefix of the file, has no line break before its end, and ends with a line break unless it is the whole file |
| OutputGuard.FirstLineOfLine | src/lib.rs:234-238 | the first line of `line + "\n" + rest` is `line + "\n"` |
| OutputGuard.MarkerText | src/lib.rs:202-204 | the marker is `/* This file is generated and managed by tsync */` |
| OutputGuard.MarkerIsOneLine | src/lib.rs:202-204 | the marker is a single line that begins and ends with `/` |
| OutputGuard.GeneratedOutputMayBeOverwritten | src/lib.rs:227-243 | a file that tsync generated (marker line first) may be overwritten |
| OutputGuard.ForeignFileRefused | src/lib.rs:227-243 | a file whose first line, with no surrounding whitespace, differs from the marker is refused |

## Left out

- File I/O is not modelled:
  - reading files, walking directories, checking that a path exists, `is_dir`, and the final write;
  - the panics when the output path is a directory or cannot be opened.
  - Instead, reading and parsing results are inputs to the model (`Lib.Source`, `Lib.DirEntry`, `Lib.Input`).
- The order and recursion of `WalkDir` are not modelled. A directory is given as the flat, already sorted list of its entries. Walk errors and sub-directory entries are dropped before that list.
- The global `DEBUG` cell and every `println!` diagnostic are left out: they are output on the side and have no effect on the buffer. The debug mode that prints the buffer instead of writing it is therefore not modelled. The overwrite guard is the predicate `OutputGuard.MayOverwrite` on the existing file's contents.
- `syn` parsing and token stringification are left out. Items, types, attributes and token trees come already parsed (`Syntax`). Literal and macro token text is a given string.
- `convert_case`'s `to_case` is left out as a foreign library. It is the function parameter `toCase`.
- `src/main.rs`, `src/enums.rs`, `src/structs.rs` and `src/consts.rs` are not part of this model: they are not in the crate's module tree.
  - The CLI in `bin/main.rs` is not part of this model either.
  - Nor is the golden-file harness.
- Behaviour shown only by golden output files is not modelled, because the modelled code does not implement it:
  - untagged and adjacently tagged enums;
  - `flatten`;
  - tuple structs;
  - raw identifiers;
  - field lines ending in `;`.
- Lib.ProcessInputs, Lib.GenerateTypescriptDefs: a directory input follows the corrected walk (`Lib.ProcessDirEntry`) of the src/lib.rs:170 finding. As written, the code translates nothing from a directory and records the directory once per Rust entry; that behaviour is modelled only by `Lib.ProcessDirEntryAsWritten`, not by the driver.
- Enums.AddNumericEnum: requires `Enums.CounterFits`, so the counter never passes `i32::MAX`. This models the panic in debug builds, not the wrap-around of release builds.
- Enums.AddInternalAlias, Enums.AddRecordMember: the enum emitter calls `process_fields` with a fourth argument, the casing, that the struct emitter's `process_fields` does not take. The model calls the three-argument version, so variant field names are not case-converted.
- TypeScript.TryMatchWithArgs: the parenthesized-argument text that `format!("{:?}")` prints is a given string, not derived from the arguments.

## Findings

| source | as written | input that shows it | evidently intended | confidence | as-written member | corrected member |
|---|---|---|---|---|---|---|
| src/lib.rs:170 | each Rust file found while walking a directory is processed through `process_rust_file(path.as_ref(), ..)`, the directory's own path | input directory `src` holding `src/lib.rs` with `#[tsync] const A: i32 = 1;`: nothing is translated and `src` is recorded as unprocessed | process the walked entry, `process_rust_file(entry.path(), ..)`, so the directory's Rust files are translated | high; not executed | Lib.ProcessDirEntryAsWritten, Lib.DirectoryWalkCounterexample | Lib.ProcessDirEntry |
