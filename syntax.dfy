/**
  The parts of a parsed Rust file (`syn`'s syntax tree) that the translation
  engine reads, as values.  Parsing and token-stream stringification belong
  to `syn` and `proc_macro2`; where the engine looks at the text of a token
  (a literal, a discriminant, the Debug rendering of parenthesized
  arguments) the model carries that text as an opaque string.
*/
module Syntax {
  import opened Text

  /** `syn::Type`, reduced to the shapes the type mapper tells apart. */
  datatype Type =
    | Reference(elem: Type)
      /** A path type; `syn` never produces a path without segments, so the last one is a field. */
    | Path(qualifier: seq<PathSegment>, last: PathSegment)
    | Tuple(elems: seq<Type>)
      /** Slices, arrays, pointers, function types, trait objects, `impl Trait`, ... */
    | OtherType

  datatype PathSegment = PathSegment(ident: string, arguments: PathArguments)

  datatype PathArguments =
    | NoArguments
    | AngleBracketed(args: seq<GenericArgument>)
      /** `Fn(A) -> B` style arguments, kept as their `{:?}` rendering. */
    | Parenthesized(debugText: string)

  /** `syn::GenericArgument`: a type, or a lifetime, const, binding or constraint. */
  datatype GenericArgument = TypeArgument(ty: Type) | OtherArgument

  /** `syn::GenericParam` of a struct or enum declaration. */
  datatype GenericParam = TypeParam(ident: string) | LifetimeParam | ConstParam

  /** `proc_macro2::Delimiter` of a token group. */
  datatype Delimiter = Parenthesis | Bracket | Brace | NoDelimiter

  /**
    A top-level token of an attribute's meta.  A group keeps its delimiter and
    how its contents parse: as `name = value` pairs, else as a comma list of
    expressions, else not at all.
  */
  datatype Token =
    | Literal(text: string)
    | Group(delimiter: Delimiter, contents: ArgList)
    | OtherToken

  datatype ArgList =
    | NameValues(pairs: seq<NameValue>)
    | Exprs(items: seq<ArgExpr>)
    | Unparsable

  /** `syn::MetaNameValue`: the path and the token text of the value (quotes included). */
  datatype NameValue = NameValue(path: seq<string>, value: string)

  /** An element of a comma-separated expression list: a path expression or anything else. */
  datatype ArgExpr = PathExpr(segments: seq<string>) | OtherExpr

  /** `syn::Meta`: `#[path]`, `#[path(...)]` or `#[path = value]`. */
  datatype Meta =
    | MetaPath
    | MetaList(delimiter: Delimiter, contents: ArgList)
    | MetaNameValue(value: seq<Token>)

  /** `syn::Attribute`: the identifiers of its path, and its meta. */
  datatype Attribute = Attribute(path: seq<string>, meta: Meta)

  /** The top-level tokens of `attr.meta.to_token_stream()` other than the path's own. */
  function MetaTokens(m: Meta): seq<Token>
  {
    match m
    case MetaPath => []
    case MetaList(d, contents) => [Group(d, contents)]
    case MetaNameValue(value) => value
  }

  /** A struct or variant field; `ident` is `None` for a tuple (unnamed) field. */
  datatype Field = Field(attrs: seq<Attribute>, ident: Option<string>, ty: Type)

  /** An enum variant; `discriminant` is the token text of `= expr`, when present. */
  datatype Variant = Variant(attrs: seq<Attribute>, ident: string, fields: seq<Field>, discriminant: Option<string>)

  /** The initializer of a `const` item. */
  datatype Expr =
    | Lit(text: string)
      /** A macro call: its path's segments and its raw argument tokens as text. */
    | Macro(path: seq<string>, tokens: string)
    | OtherInitializer

  /** `syn::Item`, with the four kinds the engine translates. */
  datatype Item =
    | ConstItem(attrs: seq<Attribute>, ident: string, expr: Expr)
    | StructItem(attrs: seq<Attribute>, ident: string, generics: seq<GenericParam>, fields: seq<Field>)
    | EnumItem(attrs: seq<Attribute>, ident: string, generics: seq<GenericParam>, variants: seq<Variant>)
    | TypeItem(attrs: seq<Attribute>, ident: string, ty: Type)
    | OtherItem
}
