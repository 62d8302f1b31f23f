/**
  The type-alias emitter of src/to_typescript/type_item.rs: `type X = T`
  becomes `type X = <T in TypeScript>`, exported in module mode.
*/
module TypeItems {
  import opened Text
  import opened Syntax
  import opened TypeScript
  import opened Utils
  import opened BuildStates

  /** A type alias the emitter can translate. */
  predicate TypeAliasReady(item: Item)
  {
    item.TypeItem? && Convertible(item.ty) && DocsReady(item.attrs)
  }

  /** The declaration line, without its line break; the optional flag of the aliased type is not used. */
  function AliasDeclaration(name: string, ty: Type, usesTypeInterface: bool): string
    requires Convertible(ty)
  {
    ExportPrefix(usesTypeInterface) + "type " + name + " = " + ConvertType(ty).tsType
  }

  /** What the alias emitter writes: a fresh line, the comments at indentation 0, the declaration line. */
  function TypeAliasText(item: Item, usesTypeInterface: bool): string
    requires TypeAliasReady(item)
  {
    "\n" + CommentsText(GetComments(item.attrs), 0) + AliasDeclaration(item.ident, item.ty, usesTypeInterface) + "\n"
  }

  /**
    Aliasing `Option<T>` writes the same text as aliasing `T`: the optional
    flag the mapper sets is discarded.
  */
  lemma OptionalFlagDiscarded(item: Item, inner: Type, usesTypeInterface: bool)
    requires item.TypeItem? && DocsReady(item.attrs) && Convertible(inner)
    requires item.ty == Path([], PathSegment("Option", AngleBracketed([TypeArgument(inner)])))
    ensures TypeAliasReady(item) && TypeAliasReady(item.(ty := inner))
    ensures ConvertType(item.ty).isOptional
    ensures TypeAliasText(item, usesTypeInterface) == TypeAliasText(item.(ty := inner), usesTypeInterface)
  {
    OptionRule([], inner, []);
    assert [TypeArgument(inner)] + [] == [TypeArgument(inner)];
  }

  /** The comments come right before the declaration line, which ends the text. */
  lemma CommentsPrecedeDeclaration(item: Item, usesTypeInterface: bool)
    requires TypeAliasReady(item)
    ensures var decl := AliasDeclaration(item.ident, item.ty, usesTypeInterface);
      EndsWith(TypeAliasText(item, usesTypeInterface), CommentsText(GetComments(item.attrs), 0) + decl + "\n")
  {
    var c := CommentsText(GetComments(item.attrs), 0);
    var decl := AliasDeclaration(item.ident, item.ty, usesTypeInterface);
    SeqAssoc("\n", c, decl);
    SeqAssoc("\n", c + decl, "\n");
    EndsWithAppend("\n", c + decl + "\n");
  }

  /** The alias emitter (`convert_to_ts` for `ItemType`). */
  method ConvertTypeAlias(state: BuildState, item: Item, usesTypeInterface: bool)
    requires TypeAliasReady(item)
    modifies state
    ensures state.types == old(state.types) + TypeAliasText(item, usesTypeInterface)
    ensures state.unprocessedFiles == old(state.unprocessedFiles)
  {
    var exportPrefix := ExportPrefix(usesTypeInterface);
    state.types := state.types + "\n";
    var name := item.ident;
    var ty := ConvertType(item.ty);
    var comments := GetComments(item.attrs);
    state.WriteComments(comments, 0);
    ghost var c := CommentsText(comments, 0);
    SeqAssoc(old(state.types), "\n", c);
    var line := exportPrefix + "type " + name + " = " + ty.tsType;
    state.types := state.types + line;
    SeqAssoc(old(state.types), "\n" + c, line);
    state.types := state.types + "\n";
    SeqAssoc(old(state.types), "\n" + c + line, "\n");
  }
}
