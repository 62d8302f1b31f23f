/**
  The type mapper of src/typescript.rs: a total recursive translation of a
  Rust type into TypeScript type text plus an "is optional" flag.
*/
module TypeScript {
  import opened Text
  import opened Syntax

  /** A mapped type: its TypeScript text and whether the Rust type was an `Option`. */
  datatype TsType = TsType(tsType: string, isOptional: bool)

  /** How a mapped type is written inside a container: an optional one becomes `T | undefined`. */
  function Flattened(t: TsType): string
  {
    if t.isOptional then t.tsType + " | undefined" else t.tsType
  }

  /** The documented primitive table: each identifier and the TypeScript type it becomes. */
  const PrimitiveTable: map<string, string> := map[
    "i8" := "number", "u8" := "number", "i16" := "number", "u16" := "number",
    "i32" := "number", "u32" := "number", "i64" := "number", "u64" := "number",
    "i128" := "number", "u128" := "number", "isize" := "number", "usize" := "number",
    "f32" := "number", "f64" := "number",
    "bool" := "boolean",
    "char" := "string", "str" := "string", "String" := "string",
    "NaiveDateTime" := "Date", "DateTime" := "Date",
    "Uuid" := "string"
  ]

  /** The identifiers `try_match_with_args` recognises. */
  const WrapperIdents: set<string> := {"Cow", "Option", "Vec", "HashMap"}

  /** `try_match_ident_str`: the fixed primitive lookup, exact and case-sensitive. */
  function TryMatchIdentStr(ident: string): (r: Option<string>)
    ensures r.Some? <==> ident in PrimitiveTable
    ensures r.Some? ==> r.value == PrimitiveTable[ident]
  {
    match ident
    case "i8" => Some("number")
    case "u8" => Some("number")
    case "i16" => Some("number")
    case "u16" => Some("number")
    case "i32" => Some("number")
    case "u32" => Some("number")
    case "i64" => Some("number")
    case "u64" => Some("number")
    case "i128" => Some("number")
    case "u128" => Some("number")
    case "isize" => Some("number")
    case "usize" => Some("number")
    case "f32" => Some("number")
    case "f64" => Some("number")
    case "bool" => Some("boolean")
    case "char" => Some("string")
    case "str" => Some("string")
    case "String" => Some("string")
    case "NaiveDateTime" => Some("Date")
    case "DateTime" => Some("Date")
    case "Uuid" => Some("string")
    case _ => None
  }

  /** Whether `t` is an `Option` at its outermost level, looking through references. */
  predicate IsOptionType(t: Type)
  {
    match t
    case Reference(e) => IsOptionType(e)
    case Path(_, seg) => seg.ident == "Option"
    case _ => false
  }

  /** Index of the first argument that is a type (the `find` in the `Cow` case); `|args|` when none is. */
  function FirstTypeArgument(args: seq<GenericArgument>): (i: nat)
    ensures i <= |args|
    ensures i < |args| ==> args[i].TypeArgument?
    ensures forall j :: 0 <= j < i ==> !args[j].TypeArgument?
  {
    if |args| == 0 || args[0].TypeArgument? then 0 else 1 + FirstTypeArgument(args[1..])
  }

  // ---------------------------------------------------------------------------
  // When the mapper does not panic.  `Option<>` and `Vec<>` with empty angle
  // brackets reach `args.first().unwrap()`; every other input is mapped.  The
  // predicates follow exactly the calls the mapper makes.
  // ---------------------------------------------------------------------------

  predicate Convertible(t: Type)
    decreases t
  {
    match t
    case Reference(e) => Convertible(e)
    case Path(_, seg) => SegmentConvertible(seg)
    case Tuple(elems) => TypesConvertible(elems)
    case OtherType => true
  }

  predicate TypesConvertible(elems: seq<Type>)
    decreases elems
  {
    forall i :: 0 <= i < |elems| ==> Convertible(elems[i])
  }

  predicate SegmentConvertible(seg: PathSegment)
    decreases seg
  {
    seg.ident in PrimitiveTable || ArgumentsConvertible(seg.ident, seg.arguments)
  }

  predicate ArgumentsConvertible(ident: string, arguments: PathArguments)
    decreases arguments
  {
    match arguments
    case AngleBracketed(args) => AngleConvertible(ident, args)
    case _ => true
  }

  predicate AngleConvertible(ident: string, args: seq<GenericArgument>)
    decreases args, 1
  {
    if ident == "Cow" then
      var i := FirstTypeArgument(args);
      i < |args| ==> GenericConvertible(args[i])
    else if ident == "Option" || ident == "Vec" then
      |args| > 0 && GenericConvertible(args[0])
    else
      GenericsConvertible(args)
  }

  predicate GenericsConvertible(args: seq<GenericArgument>)
    decreases args, 0
  {
    forall i :: 0 <= i < |args| ==> GenericConvertible(args[i])
  }

  predicate GenericConvertible(g: GenericArgument)
    decreases g
  {
    match g
    case TypeArgument(ty) => Convertible(ty)
    case OtherArgument => true
  }

  // ---------------------------------------------------------------------------
  // The mapper.
  // ---------------------------------------------------------------------------

  /** `convert_generic`: a type argument is mapped, any other argument is `unknown`. */
  function ConvertGeneric(g: GenericArgument): (r: TsType)
    requires GenericConvertible(g)
    decreases g
  {
    match g
    case TypeArgument(ty) => ConvertType(ty)
    case OtherArgument => TsType("unknown", false)
  }

  /** Every argument mapped and optional-flattened, in order. */
  function FlattenedArgs(args: seq<GenericArgument>): (r: seq<string>)
    requires GenericsConvertible(args)
    ensures |r| == |args|
    ensures forall i :: 0 <= i < |args| ==> r[i] == Flattened(ConvertGeneric(args[i]))
    decreases args
  {
    if |args| == 0 then [] else [Flattened(ConvertGeneric(args[0]))] + FlattenedArgs(args[1..])
  }

  /** Every tuple element mapped and optional-flattened, in order. */
  function FlattenedTypes(elems: seq<Type>): (r: seq<string>)
    requires TypesConvertible(elems)
    ensures |r| == |elems|
    ensures forall i :: 0 <= i < |elems| ==> r[i] == Flattened(ConvertType(elems[i]))
    decreases elems
  {
    if |elems| == 0 then [] else [Flattened(ConvertType(elems[0]))] + FlattenedTypes(elems[1..])
  }

  /** `try_match_with_args`: the four wrapper types; `None` for any other identifier. */
  function TryMatchWithArgs(ident: string, arguments: PathArguments): (r: Option<TsType>)
    requires ArgumentsConvertible(ident, arguments)
    ensures r.Some? <==> ident in WrapperIdents
    ensures r.Some? ==> (r.value.isOptional <==> ident == "Option")
    decreases arguments
  {
    if ident !in WrapperIdents then None
    else
      match arguments
      case AngleBracketed(args) =>
        assert AngleConvertible(ident, args);
        if ident == "Cow" then
          var i := FirstTypeArgument(args);
          if i < |args| then Some(TsType(ConvertGeneric(args[i]).tsType, false))
          else Some(TsType("unknown", false))
        else if ident == "Option" then Some(TsType(ConvertGeneric(args[0]).tsType, true))
        else if ident == "Vec" then Some(TsType("Array<" + Flattened(ConvertGeneric(args[0])) + ">", false))
        else Some(TsType("Record<" + Join(", ", FlattenedArgs(args)) + ">", false))
      case Parenthesized(debugText) =>
        if ident == "Cow" then Some(TsType("unknown", false))
        else Some(TsType(debugText, ident == "Option"))
      case NoArguments =>
        Some(TsType("unknown", ident == "Option"))
  }

  /** `extract_custom_type`: any other path passes through by name, with its arguments mapped. */
  function ExtractCustomType(seg: PathSegment): (r: Option<TsType>)
    requires seg.arguments.AngleBracketed? ==> GenericsConvertible(seg.arguments.args)
    ensures r.Some? <==> !seg.arguments.Parenthesized?
    ensures r.Some? ==> !r.value.isOptional
    decreases seg
  {
    match seg.arguments
    case NoArguments => Some(TsType(seg.ident, false))
    case AngleBracketed(args) => Some(TsType(seg.ident + "<" + Join(", ", FlattenedArgs(args)) + ">", false))
    case Parenthesized(_) => None
  }

  /**
    `convert_type`.  It never fails, and a result is optional exactly when the
    type is an `Option` at its outermost level: optionality inside a
    container or a tuple is flattened into the text, never propagated.
  */
  function ConvertType(t: Type): (r: TsType)
    requires Convertible(t)
    ensures r.isOptional <==> IsOptionType(t)
    decreases t
  {
    match t
    case Reference(e) => ConvertType(e)
    case Path(_, seg) =>
      assert SegmentConvertible(seg);
      var prim := TryMatchIdentStr(seg.ident);
      if prim.Some? then TsType(prim.value, false)
      else
        assert ArgumentsConvertible(seg.ident, seg.arguments);
        var wrapper := TryMatchWithArgs(seg.ident, seg.arguments);
        if wrapper.Some? then wrapper.value
        else
          assert seg.arguments.AngleBracketed? ==> AngleConvertible(seg.ident, seg.arguments.args);
          var custom := ExtractCustomType(seg);
          if custom.Some? then custom.value else TsType("unknown", false)
    case Tuple(elems) => TsType("[" + Join(", ", FlattenedTypes(elems)) + "]", false)
    case OtherType => TsType("unknown", false)
  }

  // ---------------------------------------------------------------------------
  // The mapping rules, in priority order.
  // ---------------------------------------------------------------------------

  /** A path with angle arguments is convertible when those arguments are, for its identifier. */
  lemma AngleArgumentsConvertible(qualifier: seq<PathSegment>, ident: string, args: seq<GenericArgument>)
    requires AngleConvertible(ident, args)
    ensures Convertible(Path(qualifier, PathSegment(ident, AngleBracketed(args))))
  {
    assert ArgumentsConvertible(ident, AngleBracketed(args));
    assert SegmentConvertible(PathSegment(ident, AngleBracketed(args)));
  }

  /** A primitive identifier maps through the table whatever its arguments, ahead of every other rule. */
  lemma PrimitiveRule(qualifier: seq<PathSegment>, seg: PathSegment)
    requires seg.ident in PrimitiveTable
    ensures Convertible(Path(qualifier, seg))
    ensures ConvertType(Path(qualifier, seg)) == TsType(PrimitiveTable[seg.ident], false)
  {
  }

  /** `Option<T>` is optional and has the text of `T`; `T`'s own optionality is dropped. */
  lemma OptionRule(qualifier: seq<PathSegment>, inner: Type, rest: seq<GenericArgument>)
    requires Convertible(inner)
    ensures var t := Path(qualifier, PathSegment("Option", AngleBracketed([TypeArgument(inner)] + rest)));
      Convertible(t) && ConvertType(t) == TsType(ConvertType(inner).tsType, true)
  {
    var args := [TypeArgument(inner)] + rest;
    assert GenericConvertible(args[0]) && ConvertGeneric(args[0]) == ConvertType(inner);
    AngleArgumentsConvertible(qualifier, "Option", args);
  }

  /** `Option<Option<T>>` maps exactly as `Option<T>`. */
  lemma NestedOptionCollapses(inner: Type)
    requires Convertible(inner)
    ensures var once := Path([], PathSegment("Option", AngleBracketed([TypeArgument(inner)])));
      var twice := Path([], PathSegment("Option", AngleBracketed([TypeArgument(once)])));
      Convertible(once) && Convertible(twice) && ConvertType(twice) == ConvertType(once)
  {
    var once := Path([], PathSegment("Option", AngleBracketed([TypeArgument(inner)])));
    OptionRule([], inner, []);
    assert [TypeArgument(inner)] + [] == [TypeArgument(inner)];
    OptionRule([], once, []);
    assert [TypeArgument(once)] + [] == [TypeArgument(once)];
  }

  /** `Vec<T>` is `Array<T>`, or `Array<T | undefined>` when `T` is optional, and is never optional itself. */
  lemma VecRule(qualifier: seq<PathSegment>, inner: Type, rest: seq<GenericArgument>)
    requires Convertible(inner)
    ensures var t := Path(qualifier, PathSegment("Vec", AngleBracketed([TypeArgument(inner)] + rest)));
      && Convertible(t)
      && !ConvertType(t).isOptional
      && (ConvertType(inner).isOptional ==> ConvertType(t).tsType == "Array<" + ConvertType(inner).tsType + " | undefined>")
      && (!ConvertType(inner).isOptional ==> ConvertType(t).tsType == "Array<" + ConvertType(inner).tsType + ">")
  {
    var args := [TypeArgument(inner)] + rest;
    assert GenericConvertible(args[0]) && ConvertGeneric(args[0]) == ConvertType(inner);
    AngleArgumentsConvertible(qualifier, "Vec", args);
  }

  /** `HashMap<K, V>` is `Record<K, V>` over the optional-flattened arguments, and is never optional. */
  lemma HashMapRule(qualifier: seq<PathSegment>, args: seq<GenericArgument>)
    requires GenericsConvertible(args)
    ensures var t := Path(qualifier, PathSegment("HashMap", AngleBracketed(args)));
      Convertible(t) && ConvertType(t) == TsType("Record<" + Join(", ", FlattenedArgs(args)) + ">", false)
  {
    AngleArgumentsConvertible(qualifier, "HashMap", args);
  }

  /** `Cow<'a, T>` has the text of its first type argument, and is never optional. */
  lemma CowRule(qualifier: seq<PathSegment>, args: seq<GenericArgument>, i: nat)
    requires i < |args| && args[i].TypeArgument? && Convertible(args[i].ty)
    requires forall j :: 0 <= j < i ==> !args[j].TypeArgument?
    ensures var t := Path(qualifier, PathSegment("Cow", AngleBracketed(args)));
      Convertible(t) && ConvertType(t) == TsType(ConvertType(args[i].ty).tsType, false)
  {
    assert FirstTypeArgument(args) == i;
    assert GenericConvertible(args[i]) && ConvertGeneric(args[i]) == ConvertType(args[i].ty);
    AngleArgumentsConvertible(qualifier, "Cow", args);
  }

  /** A tuple is `[..]` over its optional-flattened elements, and is never optional. */
  lemma TupleRule(elems: seq<Type>)
    requires TypesConvertible(elems)
    ensures ConvertType(Tuple(elems)) == TsType("[" + Join(", ", FlattenedTypes(elems)) + "]", false)
  {
  }

  /** Any other path passes through by name, with its angle arguments mapped and flattened. */
  lemma CustomRule(qualifier: seq<PathSegment>, seg: PathSegment)
    requires seg.ident !in PrimitiveTable && seg.ident !in WrapperIdents
    requires seg.arguments.AngleBracketed? ==> GenericsConvertible(seg.arguments.args)
    ensures Convertible(Path(qualifier, seg))
    ensures seg.arguments.NoArguments? ==> ConvertType(Path(qualifier, seg)) == TsType(seg.ident, false)
    ensures seg.arguments.AngleBracketed? ==>
      ConvertType(Path(qualifier, seg)) == TsType(seg.ident + "<" + Join(", ", FlattenedArgs(seg.arguments.args)) + ">", false)
    ensures seg.arguments.Parenthesized? ==> ConvertType(Path(qualifier, seg)) == TsType("unknown", false)
  {
    assert seg.arguments.AngleBracketed? ==> AngleConvertible(seg.ident, seg.arguments.args);
  }

  /** What the mapper cannot express degrades to `unknown` instead of failing. */
  lemma UnknownFallback(qualifier: seq<PathSegment>, ident: string, debugText: string)
    ensures ConvertType(OtherType) == TsType("unknown", false)
    ensures ident in {"Option", "Vec", "HashMap"} ==>
      ConvertType(Path(qualifier, PathSegment(ident, NoArguments))).tsType == "unknown"
    ensures ConvertType(Path(qualifier, PathSegment("Cow", Parenthesized(debugText)))) == TsType("unknown", false)
    ensures ConvertType(Path(qualifier, PathSegment("Cow", AngleBracketed([OtherArgument])))) == TsType("unknown", false)
  {
  }

  // ---------------------------------------------------------------------------
  // References and path qualifiers do not matter, at any depth.
  // ---------------------------------------------------------------------------

  /** `t` with every reference removed and every path cut down to its last segment. */
  function Normalize(t: Type): Type
    decreases t
  {
    match t
    case Reference(e) => Normalize(e)
    case Path(_, seg) => Path([], NormalizeSegment(seg))
    case Tuple(elems) => Tuple(seq(|elems|, i requires 0 <= i < |elems| => Normalize(elems[i])))
    case OtherType => OtherType
  }

  function NormalizeSegment(seg: PathSegment): PathSegment
    decreases seg
  {
    PathSegment(seg.ident, NormalizeArguments(seg.arguments))
  }

  function NormalizeArguments(arguments: PathArguments): PathArguments
    decreases arguments
  {
    match arguments
    case AngleBracketed(args) => AngleBracketed(NormalizeArgs(args))
    case _ => arguments
  }

  function NormalizeArgs(args: seq<GenericArgument>): (r: seq<GenericArgument>)
    ensures |r| == |args|
    ensures forall i :: 0 <= i < |args| ==> r[i] == NormalizeGeneric(args[i])
    decreases args
  {
    seq(|args|, i requires 0 <= i < |args| => NormalizeGeneric(args[i]))
  }

  function NormalizeGeneric(g: GenericArgument): GenericArgument
    decreases g
  {
    match g
    case TypeArgument(ty) => TypeArgument(Normalize(ty))
    case OtherArgument => OtherArgument
  }

  /**
    A reference maps exactly as its referent, and a path exactly as its last
    segment, wherever they occur in the type.
  */
  lemma {:induction false} NormalizePreservesMapping(t: Type)
    requires Convertible(t)
    ensures Convertible(Normalize(t)) && ConvertType(Normalize(t)) == ConvertType(t)
    decreases t
  {
    match t
    case Reference(e) =>
      NormalizePreservesMapping(e);
    case Path(q, seg) =>
      assert SegmentConvertible(seg);
      NormalizeArgumentsPreserve(seg.ident, seg.arguments);
    case Tuple(elems) =>
      forall i | 0 <= i < |elems|
        ensures Convertible(Normalize(elems[i])) && ConvertType(Normalize(elems[i])) == ConvertType(elems[i])
      {
        NormalizePreservesMapping(elems[i]);
      }
      var n := seq(|elems|, i requires 0 <= i < |elems| => Normalize(elems[i]));
      assert FlattenedTypes(n) == FlattenedTypes(elems);
    case OtherType =>
  }

  lemma {:induction false} NormalizeArgumentsPreserve(ident: string, arguments: PathArguments)
    requires ident in PrimitiveTable || ArgumentsConvertible(ident, arguments)
    ensures ident in PrimitiveTable || ArgumentsConvertible(ident, NormalizeArguments(arguments))
    ensures ident !in PrimitiveTable ==>
      TryMatchWithArgs(ident, NormalizeArguments(arguments)) == TryMatchWithArgs(ident, arguments)
    ensures ident !in PrimitiveTable && ident !in WrapperIdents && arguments.AngleBracketed? ==>
      && GenericsConvertible(arguments.args)
      && GenericsConvertible(NormalizeArgs(arguments.args))
      && FlattenedArgs(NormalizeArgs(arguments.args)) == FlattenedArgs(arguments.args)
    decreases arguments
  {
    if ident !in PrimitiveTable {
      match arguments
      case AngleBracketed(args) =>
        NormalizeAngleArgs(ident, args);
      case _ =>
    }
  }

  lemma {:induction false} NormalizeAngleArgs(ident: string, args: seq<GenericArgument>)
    requires AngleConvertible(ident, args)
    ensures AngleConvertible(ident, NormalizeArgs(args))
    ensures ident in WrapperIdents ==>
      TryMatchWithArgs(ident, AngleBracketed(NormalizeArgs(args))) == TryMatchWithArgs(ident, AngleBracketed(args))
    ensures ident !in WrapperIdents ==>
      && GenericsConvertible(args)
      && GenericsConvertible(NormalizeArgs(args))
      && FlattenedArgs(NormalizeArgs(args)) == FlattenedArgs(args)
    decreases args, 1
  {
    var n := NormalizeArgs(args);
    if ident == "Cow" {
      var i := FirstTypeArgument(args);
      forall j | 0 <= j < |args| ensures n[j].TypeArgument? == args[j].TypeArgument? {
      }
      assert FirstTypeArgument(n) == i;
      if i < |args| {
        NormalizeGenericPreserves(args[i]);
      }
    } else if ident == "Option" || ident == "Vec" {
      NormalizeGenericPreserves(args[0]);
    } else {
      NormalizeArgsPreserve(args);
    }
  }

  lemma {:induction false} NormalizeArgsPreserve(args: seq<GenericArgument>)
    requires GenericsConvertible(args)
    ensures GenericsConvertible(NormalizeArgs(args))
    ensures FlattenedArgs(NormalizeArgs(args)) == FlattenedArgs(args)
    decreases args, 0
  {
    var n := NormalizeArgs(args);
    forall i | 0 <= i < |args|
      ensures GenericConvertible(n[i]) && ConvertGeneric(n[i]) == ConvertGeneric(args[i])
    {
      NormalizeGenericPreserves(args[i]);
    }
    assert FlattenedArgs(n) == FlattenedArgs(args);
  }

  lemma {:induction false} NormalizeGenericPreserves(g: GenericArgument)
    requires GenericConvertible(g)
    ensures GenericConvertible(NormalizeGeneric(g)) && ConvertGeneric(NormalizeGeneric(g)) == ConvertGeneric(g)
    decreases g
  {
    match g
    case TypeArgument(ty) => NormalizePreservesMapping(ty);
    case OtherArgument =>
  }
}
