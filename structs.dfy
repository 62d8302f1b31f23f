/**
  The struct emitter of src/to_typescript/structs.rs: a struct becomes a
  TypeScript `interface`, one property line per field.
*/
module Structs {
  import opened Text
  import opened Syntax
  import opened TypeScript
  import opened Utils
  import opened BuildStates

  /**
    A field `process_fields` can render: it is named (an unnamed field
    panics at `ident.unwrap()`), its type is convertible and its doc
    comments are readable.
  */
  predicate FieldReady(f: Field)
  {
    f.ident.Some? && Convertible(f.ty) && DocsReady(f.attrs)
  }

  predicate FieldsReady(fields: seq<Field>)
  {
    forall i :: 0 <= i < |fields| ==> FieldReady(fields[i])
  }

  /** The property line of a field: `?` marks an optional type. */
  function FieldDeclaration(f: Field, space: string): string
    requires FieldReady(f)
  {
    var t := ConvertType(f.ty);
    space + f.ident.value + (if t.isOptional then "?" else "") + ": " + t.tsType + "\n"
  }

  /** What `process_fields` writes for one field: its doc comments, always at indentation 2, then its line. */
  function FieldText(f: Field, indentationAmount: int): string
    requires FieldReady(f)
  {
    CommentsText(GetComments(f.attrs), 2) + FieldDeclaration(f, BuildIndentation(indentationAmount))
  }

  /** What `process_fields` writes for a list of fields. */
  function FieldsText(fields: seq<Field>, indentationAmount: int): string
    requires FieldsReady(fields)
  {
    if |fields| == 0 then ""
    else FieldsText(fields[..|fields| - 1], indentationAmount) + FieldText(fields[|fields| - 1], indentationAmount)
  }

  lemma FieldsReadyAppend(a: seq<Field>, b: seq<Field>)
    requires FieldsReady(a) && FieldsReady(b)
    ensures FieldsReady(a + b)
  {
    var ab := a + b;
    forall i | 0 <= i < |ab|
      ensures FieldReady(ab[i])
    {
      if i < |a| {
        assert ab[i] == a[i];
      } else {
        assert ab[i] == b[i - |a|];
      }
    }
  }

  lemma FieldsReadyPrefix(fields: seq<Field>, n: nat)
    requires FieldsReady(fields) && n <= |fields|
    ensures FieldsReady(fields[..n])
  {
    forall i | 0 <= i < n
      ensures FieldReady(fields[..n][i])
    {
      assert fields[..n][i] == fields[i];
    }
  }

  /** Fields are written in declaration order, each independently of the others. */
  lemma {:induction false} FieldsTextAppend(a: seq<Field>, b: seq<Field>, indentationAmount: int)
    requires FieldsReady(a) && FieldsReady(b)
    ensures FieldsReady(a + b)
    ensures FieldsText(a + b, indentationAmount) == FieldsText(a, indentationAmount) + FieldsText(b, indentationAmount)
    decreases |b|
  {
    FieldsReadyAppend(a, b);
    if |b| == 0 {
      assert a + b == a;
    } else {
      var b' := b[..|b| - 1];
      FieldsReadyPrefix(b, |b| - 1);
      FieldsTextAppend(a, b', indentationAmount);
      assert (a + b)[..|a + b| - 1] == a + b';
      assert (a + b)[|a + b| - 1] == b[|b| - 1];
      SeqAssoc(FieldsText(a, indentationAmount), FieldsText(b', indentationAmount), FieldText(b[|b| - 1], indentationAmount));
    }
  }

  /** A single field gives exactly its comments and its one property line. */
  lemma SingleFieldText(f: Field, indentationAmount: int)
    requires FieldReady(f)
    ensures FieldsText([f], indentationAmount) == FieldText(f, indentationAmount)
  {
    assert [f][..0] == [];
  }

  /**
    The property is marked optional (`name?: T`) exactly when the field's
    type is an `Option`, seen through references, whatever its qualifier.
  */
  lemma OptionalMarker(f: Field, space: string)
    requires FieldReady(f)
    ensures IsOptionType(f.ty) ==>
      FieldDeclaration(f, space) == space + f.ident.value + "?: " + ConvertType(f.ty).tsType + "\n"
    ensures !IsOptionType(f.ty) ==>
      FieldDeclaration(f, space) == space + f.ident.value + ": " + ConvertType(f.ty).tsType + "\n"
  {
    if IsOptionType(f.ty) {
      assert space + f.ident.value + "?" + ": " == space + f.ident.value + "?: ";
    } else {
      assert space + f.ident.value + "" == space + f.ident.value;
    }
  }

  /** A field `name: Option<T>` becomes the optional property `name?: T`. */
  lemma OptionFieldLine(attrs: seq<Attribute>, name: string, inner: Type, space: string)
    requires Convertible(inner) && DocsReady(attrs)
    ensures var f := Field(attrs, Some(name), Path([], PathSegment("Option", AngleBracketed([TypeArgument(inner)]))));
      FieldReady(f) && FieldDeclaration(f, space) == space + name + "?: " + ConvertType(inner).tsType + "\n"
  {
    OptionRule([], inner, []);
    assert [TypeArgument(inner)] + [] == [TypeArgument(inner)];
    var f := Field(attrs, Some(name), Path([], PathSegment("Option", AngleBracketed([TypeArgument(inner)]))));
    OptionalMarker(f, space);
  }

  /** One more field extends the text by that field's text. */
  lemma FieldsTextStep(fields: seq<Field>, i: nat, indentationAmount: int)
    requires FieldsReady(fields) && i < |fields|
    ensures FieldsText(fields[..i + 1], indentationAmount) == FieldsText(fields[..i], indentationAmount) + FieldText(fields[i], indentationAmount)
  {
    assert fields[..i + 1][..i] == fields[..i];
  }

  /** `process_fields`: appends every field's comments and property line. */
  method ProcessFields(state: BuildState, fields: seq<Field>, indentationAmount: int)
    requires FieldsReady(fields)
    modifies state
    ensures state.types == old(state.types) + FieldsText(fields, indentationAmount)
    ensures state.unprocessedFiles == old(state.unprocessedFiles)
  {
    var space := BuildIndentation(indentationAmount);
    for i := 0 to |fields|
      invariant state.types == old(state.types) + FieldsText(fields[..i], indentationAmount)
      invariant state.unprocessedFiles == old(state.unprocessedFiles)
    {
      var field := fields[i];
      ghost var before := state.types;
      var comments := GetComments(field.attrs);
      state.WriteComments(comments, 2);
      var fieldName := field.ident.value;
      var fieldType := ConvertType(field.ty);
      var line := space + fieldName + (if fieldType.isOptional then "?" else "") + ": " + fieldType.tsType + "\n";
      state.types := state.types + line;
      FieldsTextStep(fields, i, indentationAmount);
      SeqAssoc(before, CommentsText(comments, 2), line);
      SeqAssoc(old(state.types), FieldsText(fields[..i], indentationAmount), FieldText(field, indentationAmount));
    }
    assert fields[..|fields|] == fields;
  }

  /** A struct item the emitter can translate. */
  predicate StructReady(item: Item)
  {
    item.StructItem? && DocsReady(item.attrs) && FieldsReady(item.fields)
  }

  /** What the struct emitter writes: the `interface` declaration, never exported. */
  function StructText(item: Item): string
    requires StructReady(item)
  {
    var header := "interface " + item.ident + ExtractStructGenerics(item.generics) + " {\n";
    "\n" + CommentsText(GetComments(item.attrs), 0) + header + FieldsText(item.fields, 2) + "}" + "\n"
  }

  /** The declaration starts on a fresh line and the block is closed by `}` on its own line. */
  lemma StructTextDelimited(item: Item)
    requires StructReady(item)
    ensures StructText(item)[0] == '\n' && EndsWith(StructText(item), "}\n")
  {
    var header := "interface " + item.ident + ExtractStructGenerics(item.generics) + " {\n";
    var p := "\n" + CommentsText(GetComments(item.attrs), 0) + header + FieldsText(item.fields, 2);
    SeqAssoc(p, "}", "\n");
    EndsWithAppend(p, "}\n");
  }

  /** The struct emitter (`convert_to_ts` for `ItemStruct`); the output mode plays no part. */
  method ConvertStruct(state: BuildState, item: Item, usesTypeInterface: bool)
    requires StructReady(item)
    modifies state
    ensures state.types == old(state.types) + StructText(item)
    ensures state.unprocessedFiles == old(state.unprocessedFiles)
  {
    ghost var start := state.types;
    state.types := state.types + "\n";
    var comments := GetComments(item.attrs);
    state.WriteComments(comments, 0);
    ghost var c := CommentsText(comments, 0);
    SeqAssoc(start, "\n", c);
    var header := "interface " + item.ident + ExtractStructGenerics(item.generics) + " {\n";
    state.types := state.types + header;
    SeqAssoc(start, "\n" + c, header);
    ProcessFields(state, item.fields, 2);
    ghost var f := FieldsText(item.fields, 2);
    SeqAssoc(start, "\n" + c + header, f);
    state.types := state.types + "}";
    SeqAssoc(start, "\n" + c + header + f, "}");
    state.types := state.types + "\n";
    SeqAssoc(start, "\n" + c + header + f + "}", "\n");
  }
}
