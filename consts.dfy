/**
  The const emitter of src/to_typescript/consts.rs: a `#[tsync]` const whose
  initializer is a literal or a `json!` macro becomes `export const`, in
  module mode only.
*/
module Consts {
  import opened Text
  import opened Syntax
  import opened Utils
  import opened BuildStates

  /** The initializer is a macro call with a path segment `json`. */
  predicate IsJsonMacro(e: Expr)
  {
    e.Macro? && exists i :: 0 <= i < |e.path| && e.path[i] == "json"
  }

  /**
    The TypeScript value of a const: a literal's token text as written, a
    `json!` macro's argument tokens, and nothing for any other initializer.
  */
  function ConstBody(e: Expr): (r: Option<string>)
    ensures r.Some? <==> e.Lit? || IsJsonMacro(e)
    ensures e.Lit? ==> r == Some(e.text)
    ensures IsJsonMacro(e) ==> r == Some(e.tokens)
  {
    match e
    case Lit(text) => Some(text)
    case Macro(path, tokens) => if "json" in path then Some(tokens) else None
    case OtherInitializer => None
  }

  /**
    A const item the emitter gets through without a panic: its doc comments
    are read only in module mode and only when it has a body.
  */
  predicate ConstReady(item: Item, usesTypeInterface: bool)
  {
    item.ConstItem? && (!usesTypeInterface && ConstBody(item.expr).Some? ==> DocsReady(item.attrs))
  }

  /** What the const emitter writes: nothing in declaration-file mode or without a body. */
  function ConstText(item: Item, usesTypeInterface: bool): string
    requires ConstReady(item, usesTypeInterface)
  {
    var body := ConstBody(item.expr);
    if usesTypeInterface || body.None? then ""
    else "\n" + CommentsText(GetComments(item.attrs), 0) + ("export const " + item.ident + " = " + body.value + ";") + "\n"
  }

  /** In declaration-file mode no const is written, whatever its initializer. */
  lemma DeclarationModeSkipsConsts(item: Item)
    requires item.ConstItem?
    ensures ConstReady(item, true) && ConstText(item, true) == ""
  {
  }

  /** A const whose initializer is neither a literal nor a `json!` macro writes nothing. */
  lemma UnsupportedInitializerSkipped(item: Item, usesTypeInterface: bool)
    requires item.ConstItem? && !item.expr.Lit? && !IsJsonMacro(item.expr)
    ensures ConstReady(item, usesTypeInterface) && ConstText(item, usesTypeInterface) == ""
  {
  }

  /**
    In module mode an undocumented literal const `NAME = v` is the single
    line `export const NAME = v;` on a fresh line.
  */
  lemma LiteralConstText(name: string, text: string)
    ensures ConstReady(ConstItem([], name, Lit(text)), false)
    ensures ConstText(ConstItem([], name, Lit(text)), false) == "\nexport const " + name + " = " + text + ";\n"
  {
    var line := "export const " + name + " = " + text + ";";
    assert CommentsText(GetComments([]), 0) == "";
    assert ConstText(ConstItem([], name, Lit(text)), false) == "\n" + line + "\n";
  }

  /** A `serde_json::json!` initializer is written as its raw argument tokens. */
  lemma JsonMacroBody(tokens: string)
    ensures ConstBody(Macro(["serde_json", "json"], tokens)) == Some(tokens)
    ensures ConstBody(Macro(["vec"], tokens)) == None
  {
    assert (["serde_json", "json"])[1] == "json";
  }

  /** The const emitter (`convert_to_ts` for `ItemConst`). */
  method ConvertConst(state: BuildState, item: Item, usesTypeInterface: bool)
    requires ConstReady(item, usesTypeInterface)
    modifies state
    ensures state.types == old(state.types) + ConstText(item, usesTypeInterface)
    ensures state.unprocessedFiles == old(state.unprocessedFiles)
  {
    if usesTypeInterface {
      assert old(state.types) + "" == old(state.types);
      return;
    }
    var name := item.ident;
    var body: Option<string>;
    match item.expr {
      case Lit(text) =>
        body := Some(text);
      case Macro(path, tokens) =>
        if exists i :: 0 <= i < |path| && path[i] == "json" {
          body := Some(tokens);
        } else {
          body := None;
        }
      case OtherInitializer =>
        body := None;
    }
    if body.Some? {
      state.types := state.types + "\n";
      var comments := GetComments(item.attrs);
      state.WriteComments(comments, 0);
      ghost var c := CommentsText(comments, 0);
      SeqAssoc(old(state.types), "\n", c);
      var line := "export const " + name + " = " + body.value + ";";
      state.types := state.types + line;
      SeqAssoc(old(state.types), "\n" + c, line);
      state.types := state.types + "\n";
      SeqAssoc(old(state.types), "\n" + c + line, "\n");
    } else {
      assert old(state.types) + "" == old(state.types);
    }
  }
}
