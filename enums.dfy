/**
  The enum emitter of src/to_typescript/enums.rs.  An enum with a variant of
  two or more unnamed fields is skipped.  Otherwise one of four
  representations is chosen: a numeric `enum` (unit variants and
  `Serialize_repr`), a union of string literals (unit variants), an
  internally tagged union of per-variant aliases (`#[serde(tag = ...)]`), or
  an externally tagged union of one-key objects.
*/
module Enums {
  import opened Text
  import opened Syntax
  import opened TypeScript
  import opened Utils
  import opened BuildStates
  import opened Structs

  // ---------------------------------------------------------------------------
  // Rejection of tuple variants with several fields.
  // ---------------------------------------------------------------------------

  /** How many of `fields` are unnamed (tuple) fields. */
  function UnnamedCount(fields: seq<Field>): (n: nat)
    ensures n <= |fields|
    ensures n == 0 <==> forall i :: 0 <= i < |fields| ==> fields[i].ident.Some?
  {
    if |fields| == 0 then 0
    else UnnamedCount(fields[..|fields| - 1]) + (if fields[|fields| - 1].ident.None? then 1 else 0)
  }

  /** A prefix has no more unnamed fields than the whole list. */
  lemma {:induction false} UnnamedCountPrefix(fields: seq<Field>, k: nat)
    requires k <= |fields|
    ensures UnnamedCount(fields[..k]) <= UnnamedCount(fields)
    decreases |fields| - k
  {
    if k < |fields| {
      UnnamedCountPrefix(fields, k + 1);
      assert fields[..k + 1][..k] == fields[..k];
    } else {
      assert fields[..k] == fields;
    }
  }

  /** A newtype variant: one with an unnamed field (`fields.iter().any(|v| v.ident.is_none())`). */
  predicate IsNewtype(v: Variant)
  {
    exists i :: 0 <= i < |v.fields| && v.fields[i].ident.None?
  }

  /** The enum is skipped: some variant has two or more unnamed fields. */
  predicate Rejected(variants: seq<Variant>)
  {
    exists i :: 0 <= i < |variants| && UnnamedCount(variants[i].fields) >= 2
  }

  /**
    The first loop of `convert_to_ts`: `false` exactly when some variant has
    a second unnamed field.
  */
  method CheckVariants(variants: seq<Variant>) returns (accepted: bool)
    ensures accepted <==> !Rejected(variants)
  {
    for vi := 0 to |variants|
      invariant forall k :: 0 <= k < vi ==> UnnamedCount(variants[k].fields) < 2
    {
      var fields := variants[vi].fields;
      var isNewtype := false;
      for fi := 0 to |fields|
        invariant isNewtype <==> UnnamedCount(fields[..fi]) == 1
        invariant UnnamedCount(fields[..fi]) <= 1
      {
        assert fields[..fi + 1][..fi] == fields[..fi];
        if fields[fi].ident.None? {
          if isNewtype {
            UnnamedCountPrefix(fields, fi + 1);
            return false;
          } else {
            isNewtype := true;
          }
        }
      }
      assert fields[..|fields|] == fields;
    }
    return true;
  }

  // ---------------------------------------------------------------------------
  // Names and the choice of representation.
  // ---------------------------------------------------------------------------

  /** The variant name as written out: converted by `to_case` when `rename_all` names a case. */
  function CasedName(toCase: (Case, string) -> string, casing: Option<Case>, ident: string): string
  {
    if casing.Some? then toCase(casing.value, ident) else ident
  }

  /** `is_single`: no variant has fields. */
  predicate IsSingle(variants: seq<Variant>)
  {
    forall i :: 0 <= i < |variants| ==> |variants[i].fields| == 0
  }

  datatype Representation = NumericEnum | StringUnion | InternallyTagged(tag: string) | ExternallyTagged

  /** The attribute arguments the choice reads can be read without a panic. */
  predicate SelectionReady(attrs: seq<Attribute>, variants: seq<Variant>)
  {
    && ArgReady("serde", "rename_all", attrs)
    && (IsSingle(variants) ==> ArgReady("derive", "Serialize_repr", attrs))
    && (!IsSingle(variants) ==> ArgReady("serde", "tag", attrs))
  }

  /**
    The representation, in the source's order of precedence: unit-only enums
    are numeric with `Serialize_repr` and string unions without it, whatever
    `tag` says; other enums are internally tagged when `serde` names a
    `tag`, and externally tagged otherwise.
  */
  function SelectRepresentation(attrs: seq<Attribute>, variants: seq<Variant>): (r: Representation)
    requires SelectionReady(attrs, variants)
    ensures r == NumericEnum <==> IsSingle(variants) && HasAttributeArg("derive", "Serialize_repr", attrs)
    ensures r == StringUnion <==> IsSingle(variants) && !HasAttributeArg("derive", "Serialize_repr", attrs)
    ensures r.InternallyTagged? <==> !IsSingle(variants) && GetAttributeArg("serde", "tag", attrs).Some?
    ensures r.InternallyTagged? ==> Some(r.tag) == GetAttributeArg("serde", "tag", attrs) && HasAttribute("serde", attrs)
    ensures r == ExternallyTagged <==> !IsSingle(variants) && GetAttributeArg("serde", "tag", attrs).None?
  {
    if IsSingle(variants) then
      if HasAttributeArg("derive", "Serialize_repr", attrs) then NumericEnum else StringUnion
    else
      match GetAttributeArg("serde", "tag", attrs)
      case Some(tag) => InternallyTagged(tag)
      case None => ExternallyTagged
  }

  // ---------------------------------------------------------------------------
  // `add_enum`: a union of string literals.
  // ---------------------------------------------------------------------------

  function UnionMember(v: Variant, casing: Option<Case>, toCase: (Case, string) -> string): string
  {
    " | \"" + CasedName(toCase, casing, v.ident) + "\""
  }

  function UnionMembers(variants: seq<Variant>, casing: Option<Case>, toCase: (Case, string) -> string): string
  {
    if |variants| == 0 then ""
    else UnionMembers(variants[..|variants| - 1], casing, toCase) + UnionMember(variants[|variants| - 1], casing, toCase)
  }

  function UnionText(name: string, variants: seq<Variant>, casing: Option<Case>, toCase: (Case, string) -> string,
                     usesTypeInterface: bool): string
  {
    var header := ExportPrefix(usesTypeInterface) + "type " + name + " =\n" + BuildIndentation(1);
    header + UnionMembers(variants, casing, toCase) + ";\n"
  }

  /** One member per variant, in declaration order. */
  lemma {:induction false} UnionMembersAppend(a: seq<Variant>, b: seq<Variant>, casing: Option<Case>,
                                               toCase: (Case, string) -> string)
    ensures UnionMembers(a + b, casing, toCase) == UnionMembers(a, casing, toCase) + UnionMembers(b, casing, toCase)
    decreases |b|
  {
    if |b| == 0 {
      assert a + b == a;
    } else {
      var b' := b[..|b| - 1];
      UnionMembersAppend(a, b', casing, toCase);
      assert (a + b)[..|a + b| - 1] == a + b';
      assert (a + b)[|a + b| - 1] == b[|b| - 1];
      SeqAssoc(UnionMembers(a, casing, toCase), UnionMembers(b', casing, toCase), UnionMember(b[|b| - 1], casing, toCase));
    }
  }

  /** The union depends on the variant names only: discriminants (and fields) are ignored. */
  lemma {:induction false} UnionIgnoresDiscriminants(vs: seq<Variant>, ws: seq<Variant>, casing: Option<Case>,
                                                      toCase: (Case, string) -> string)
    requires |vs| == |ws|
    requires forall i :: 0 <= i < |vs| ==> vs[i].ident == ws[i].ident
    ensures UnionMembers(vs, casing, toCase) == UnionMembers(ws, casing, toCase)
    decreases |vs|
  {
    if |vs| > 0 {
      UnionIgnoresDiscriminants(vs[..|vs| - 1], ws[..|ws| - 1], casing, toCase);
    }
  }

  /** `add_enum`. */
  method AddEnum(state: BuildState, name: string, variants: seq<Variant>, casing: Option<Case>,
                 toCase: (Case, string) -> string, usesTypeInterface: bool)
    modifies state
    ensures state.types == old(state.types) + UnionText(name, variants, casing, toCase, usesTypeInterface)
    ensures state.unprocessedFiles == old(state.unprocessedFiles)
  {
    var exportPrefix := ExportPrefix(usesTypeInterface);
    var header := exportPrefix + "type " + name + " =\n" + BuildIndentation(1);
    state.types := state.types + header;
    for i := 0 to |variants|
      invariant state.types == old(state.types) + header + UnionMembers(variants[..i], casing, toCase)
      invariant state.unprocessedFiles == old(state.unprocessedFiles)
    {
      assert variants[..i + 1][..i] == variants[..i];
      var fieldName := CasedName(toCase, casing, variants[i].ident);
      state.types := state.types + (" | \"" + fieldName + "\"");
    }
    assert variants[..|variants|] == variants;
    state.types := state.types + ";\n";
    SeqAssoc(old(state.types), header, UnionMembers(variants, casing, toCase));
    SeqAssoc(old(state.types), header + UnionMembers(variants, casing, toCase), ";\n");
  }

  // ---------------------------------------------------------------------------
  // `add_numeric_enum`: the running discriminant counter.
  // ---------------------------------------------------------------------------

  /** The value written for `v` when the counter stands at `counter`: its discriminant if that parses as an i32. */
  function EmittedValue(counter: int, v: Variant): int
  {
    if v.discriminant.Some? && ParseI32(v.discriminant.value).Some? then ParseI32(v.discriminant.value).value
    else counter
  }

  /** The counter after the variants `vs`: one more than the last value written, 0 at the start. */
  function Counter(vs: seq<Variant>): int
  {
    if |vs| == 0 then 0 else EmittedValue(Counter(vs[..|vs| - 1]), vs[|vs| - 1]) + 1
  }

  /** The value written for the `i`-th variant. */
  function ValueAt(vs: seq<Variant>, i: nat): int
    requires i < |vs|
  {
    EmittedValue(Counter(vs[..i]), vs[i])
  }

  /** `num += 1` never leaves the i32 range (it would panic): no value written is `i32::MAX`. */
  predicate CounterFits(vs: seq<Variant>)
  {
    forall i :: 0 <= i < |vs| ==> ValueAt(vs, i) < I32Max
  }

  function NumericMember(counter: int, v: Variant, casing: Option<Case>, toCase: (Case, string) -> string): string
  {
    "\n" + ("  " + CasedName(toCase, casing, v.ident) + " = " + IntToString(EmittedValue(counter, v)) + ",")
  }

  function NumericMembers(vs: seq<Variant>, casing: Option<Case>, toCase: (Case, string) -> string): string
  {
    if |vs| == 0 then ""
    else NumericMembers(vs[..|vs| - 1], casing, toCase) + NumericMember(Counter(vs[..|vs| - 1]), vs[|vs| - 1], casing, toCase)
  }

  function NumericText(name: string, vs: seq<Variant>, casing: Option<Case>, toCase: (Case, string) -> string,
                       usesTypeInterface: bool): string
  {
    var declare := if usesTypeInterface then "declare " else "export ";
    var header := declare + "enum " + name + " {";
    header + NumericMembers(vs, casing, toCase) + "\n}\n"
  }

  /**
    The counter rule: a variant gets its discriminant when that parses as an
    i32, otherwise one more than the previous variant's value (0 for the first).
  */
  lemma CounterRule(vs: seq<Variant>, i: nat)
    requires i < |vs|
    ensures var d := vs[i].discriminant;
      ValueAt(vs, i) ==
        if d.Some? && ParseI32(d.value).Some? then ParseI32(d.value).value
        else if i == 0 then 0
        else ValueAt(vs, i - 1) + 1
  {
    if i > 0 {
      assert vs[..i][..i - 1] == vs[..i - 1];
      assert vs[..i][i - 1] == vs[i - 1];
    }
  }

  /** Without discriminants the variants are numbered 0, 1, 2, ... */
  lemma {:induction false} DefaultNumbering(vs: seq<Variant>, i: nat)
    requires i < |vs|
    requires forall k :: 0 <= k < |vs| ==> vs[k].discriminant.None?
    ensures ValueAt(vs, i) == i
  {
    CounterRule(vs, i);
    if i > 0 {
      DefaultNumbering(vs, i - 1);
    }
  }

  /** `enum Foo { Bar, Baz = 123, Quux }` is numbered 0, 123, 124. */
  lemma NumberingExample()
    ensures var vs := [Variant([], "Bar", [], None), Variant([], "Baz", [], Some("123")), Variant([], "Quux", [], None)];
      ValueAt(vs, 0) == 0 && ValueAt(vs, 1) == 123 && ValueAt(vs, 2) == 124
  {
    var vs := [Variant([], "Bar", [], None), Variant([], "Baz", [], Some("123")), Variant([], "Quux", [], None)];
    ParseI32OfIntToString(123);
    assert IntToString(123) == "123";
    CounterRule(vs, 0);
    CounterRule(vs, 1);
    CounterRule(vs, 2);
  }

  /** One more variant: the counter moves past its value and its member line is appended. */
  lemma NumericStep(vs: seq<Variant>, i: nat, casing: Option<Case>, toCase: (Case, string) -> string)
    requires i < |vs|
    ensures Counter(vs[..i + 1]) == ValueAt(vs, i) + 1
    ensures NumericMembers(vs[..i + 1], casing, toCase)
         == NumericMembers(vs[..i], casing, toCase) + NumericMember(Counter(vs[..i]), vs[i], casing, toCase)
  {
    assert vs[..i + 1][..i] == vs[..i];
  }

  /** `add_numeric_enum`. */
  method AddNumericEnum(state: BuildState, name: string, variants: seq<Variant>, casing: Option<Case>,
                        toCase: (Case, string) -> string, usesTypeInterface: bool)
    requires CounterFits(variants)
    modifies state
    ensures state.types == old(state.types) + NumericText(name, variants, casing, toCase, usesTypeInterface)
    ensures state.unprocessedFiles == old(state.unprocessedFiles)
  {
    var declare := if usesTypeInterface then "declare " else "export ";
    var header := declare + "enum " + name + " {";
    state.types := state.types + header;
    ghost var start := state.types;
    var num: Int32 := 0;
    for i := 0 to |variants|
      invariant num as int == Counter(variants[..i])
      invariant state.types == start + NumericMembers(variants[..i], casing, toCase)
      invariant state.unprocessedFiles == old(state.unprocessedFiles)
    {
      var variant := variants[i];
      ghost var before := state.types;
      ghost var counter := num as int;
      state.types := state.types + "\n";
      var fieldName := CasedName(toCase, casing, variant.ident);
      if variant.discriminant.Some? {
        var parsed := ParseI32(variant.discriminant.value);
        if parsed.Some? {
          num := parsed.value as Int32;
        }
      }
      assert num as int == EmittedValue(counter, variant);
      var line := "  " + fieldName + " = " + IntToString(num as int) + ",";
      state.types := state.types + line;
      NumericStep(variants, i, casing, toCase);
      num := num + 1;
      SeqAssoc(before, "\n", line);
      SeqAssoc(start, NumericMembers(variants[..i], casing, toCase), NumericMember(counter, variant, casing, toCase));
    }
    assert variants[..|variants|] == variants;
    state.types := state.types + "\n}\n";
    SeqAssoc(old(state.types), header, NumericMembers(variants, casing, toCase));
    SeqAssoc(old(state.types), header + NumericMembers(variants, casing, toCase), "\n}\n");
  }

  // ---------------------------------------------------------------------------
  // `add_internally_tagged_enum`.
  // ---------------------------------------------------------------------------

  /** What the internally tagged emitter reads of a variant can be read; newtype variants are skipped. */
  predicate InternalVariantReady(v: Variant)
  {
    !IsNewtype(v) ==> DocsReady(v.attrs) && FieldsReady(v.fields)
  }

  predicate InternalReady(vs: seq<Variant>)
  {
    forall i :: 0 <= i < |vs| ==> InternalVariantReady(vs[i])
  }

  /** The union member naming a variant's alias; nothing for a newtype variant. */
  function InternalMember(name: string, v: Variant): string
  {
    if IsNewtype(v) then "" else "\n" + ("  | " + name + "__" + v.ident)
  }

  function InternalMembers(name: string, vs: seq<Variant>): string
  {
    if |vs| == 0 then "" else InternalMembers(name, vs[..|vs| - 1]) + InternalMember(name, vs[|vs| - 1])
  }

  /** The alias of a variant, whose first property is the tag; nothing for a newtype variant. */
  function InternalAlias(name: string, tag: string, v: Variant, casing: Option<Case>,
                         toCase: (Case, string) -> string): string
    requires InternalVariantReady(v)
  {
    if IsNewtype(v) then ""
    else
      var discriminant := "{\n" + BuildIndentation(2) + tag + ": \"" + CasedName(toCase, casing, v.ident) + "\";\n";
      "\n" + CommentsText(GetComments(v.attrs), 0) + ("type " + name + "__" + v.ident + " = ")
      + discriminant + FieldsText(v.fields, 2) + "};"
  }

  function InternalAliases(name: string, tag: string, vs: seq<Variant>, casing: Option<Case>,
                           toCase: (Case, string) -> string): string
    requires InternalReady(vs)
  {
    if |vs| == 0 then ""
    else InternalAliases(name, tag, vs[..|vs| - 1], casing, toCase) + InternalAlias(name, tag, vs[|vs| - 1], casing, toCase)
  }

  function InternalText(name: string, generics: seq<GenericParam>, tag: string, vs: seq<Variant>,
                        casing: Option<Case>, toCase: (Case, string) -> string, usesTypeInterface: bool): string
    requires InternalReady(vs)
  {
    var header := ExportPrefix(usesTypeInterface) + "type " + name + ExtractStructGenerics(generics) + " =";
    header + InternalMembers(name, vs) + ";\n" + InternalAliases(name, tag, vs, casing, toCase) + "\n"
  }

  lemma {:induction false} InternalMembersAppend(name: string, a: seq<Variant>, b: seq<Variant>)
    ensures InternalMembers(name, a + b) == InternalMembers(name, a) + InternalMembers(name, b)
    decreases |b|
  {
    if |b| == 0 {
      assert a + b == a;
    } else {
      var b' := b[..|b| - 1];
      InternalMembersAppend(name, a, b');
      assert (a + b)[..|a + b| - 1] == a + b';
      assert (a + b)[|a + b| - 1] == b[|b| - 1];
      SeqAssoc(InternalMembers(name, a), InternalMembers(name, b'), InternalMember(name, b[|b| - 1]));
    }
  }

  lemma InternalReadyAppend(a: seq<Variant>, b: seq<Variant>)
    requires InternalReady(a) && InternalReady(b)
    ensures InternalReady(a + b)
  {
    var ab := a + b;
    forall i | 0 <= i < |ab|
      ensures InternalVariantReady(ab[i])
    {
      if i < |a| {
        assert ab[i] == a[i];
      } else {
        assert ab[i] == b[i - |a|];
      }
    }
  }

  lemma {:induction false} InternalAliasesAppend(name: string, tag: string, a: seq<Variant>, b: seq<Variant>,
                                                 casing: Option<Case>, toCase: (Case, string) -> string)
    requires InternalReady(a) && InternalReady(b)
    ensures InternalReady(a + b)
    ensures InternalAliases(name, tag, a + b, casing, toCase)
         == InternalAliases(name, tag, a, casing, toCase) + InternalAliases(name, tag, b, casing, toCase)
    decreases |b|
  {
    InternalReadyAppend(a, b);
    if |b| == 0 {
      assert a + b == a;
    } else {
      var b' := b[..|b| - 1];
      InternalReadyPrefix(b, |b| - 1);
      InternalAliasesAppend(name, tag, a, b', casing, toCase);
      InternalAliasesSnoc(name, tag, a, b, casing, toCase);
      SeqAssoc(InternalAliases(name, tag, a, casing, toCase), InternalAliases(name, tag, b', casing, toCase),
               InternalAlias(name, tag, b[|b| - 1], casing, toCase));
    }
  }

  /** The aliases of `a + b` end with the alias of `b`'s last variant. */
  lemma InternalAliasesSnoc(name: string, tag: string, a: seq<Variant>, b: seq<Variant>,
                            casing: Option<Case>, toCase: (Case, string) -> string)
    requires InternalReady(a) && InternalReady(b) && |b| > 0
    ensures InternalReady(a + b) && InternalReady(a + b[..|b| - 1])
    ensures InternalAliases(name, tag, a + b, casing, toCase)
         == InternalAliases(name, tag, a + b[..|b| - 1], casing, toCase) + InternalAlias(name, tag, b[|b| - 1], casing, toCase)
  {
    InternalReadyAppend(a, b);
    InternalReadyPrefix(b, |b| - 1);
    InternalReadyAppend(a, b[..|b| - 1]);
    assert (a + b)[..|a + b| - 1] == a + b[..|b| - 1];
    assert (a + b)[|a + b| - 1] == b[|b| - 1];
  }

  /** A newtype variant appears neither in the union nor as an alias. */
  lemma NewtypeVariantOmitted(name: string, tag: string, a: seq<Variant>, v: Variant, b: seq<Variant>,
                              casing: Option<Case>, toCase: (Case, string) -> string)
    requires IsNewtype(v)
    ensures InternalMembers(name, a + [v] + b) == InternalMembers(name, a + b)
    ensures InternalReady(a) && InternalReady(b) ==>
      && InternalReady(a + [v] + b) && InternalReady(a + b)
      && InternalAliases(name, tag, a + [v] + b, casing, toCase) == InternalAliases(name, tag, a + b, casing, toCase)
  {
    InternalMembersAppend(name, a + [v], b);
    InternalMembersAppend(name, a, [v]);
    InternalMembersAppend(name, a, b);
    assert [v][..0] == [];
    assert InternalMembers(name, [v]) == "";
    assert InternalMembers(name, a) + "" == InternalMembers(name, a);
    if InternalReady(a) && InternalReady(b) {
      assert InternalReady([v]);
      InternalAliasesAppend(name, tag, a, [v], casing, toCase);
      InternalAliasesAppend(name, tag, a + [v], b, casing, toCase);
      InternalAliasesAppend(name, tag, a, b, casing, toCase);
      assert InternalAliases(name, tag, [v], casing, toCase) == "";
      assert InternalAliases(name, tag, a, casing, toCase) + "" == InternalAliases(name, tag, a, casing, toCase);
    }
  }

  /** A variant with named fields gets the member `  | Name__Variant` on a line of its own. */
  lemma InternalMemberOfRecordVariant(name: string, v: Variant)
    requires !IsNewtype(v)
    ensures InternalMembers(name, [v]) == "\n  | " + name + "__" + v.ident
  {
    assert [v][..0] == [];
  }

  lemma InternalReadyPrefix(vs: seq<Variant>, n: nat)
    requires InternalReady(vs) && n <= |vs|
    ensures InternalReady(vs[..n])
  {
    forall i | 0 <= i < n
      ensures InternalVariantReady(vs[..n][i])
    {
      assert vs[..n][i] == vs[i];
    }
  }

  /** One more variant appends its member (union pass) and its alias (alias pass). */
  lemma InternalStep(name: string, tag: string, vs: seq<Variant>, i: nat, casing: Option<Case>,
                     toCase: (Case, string) -> string)
    requires InternalReady(vs) && i < |vs|
    ensures InternalReady(vs[..i]) && InternalReady(vs[..i + 1])
    ensures InternalMembers(name, vs[..i + 1]) == InternalMembers(name, vs[..i]) + InternalMember(name, vs[i])
    ensures InternalAliases(name, tag, vs[..i + 1], casing, toCase)
         == InternalAliases(name, tag, vs[..i], casing, toCase) + InternalAlias(name, tag, vs[i], casing, toCase)
  {
    InternalReadyPrefix(vs, i);
    InternalReadyPrefix(vs, i + 1);
    assert vs[..i + 1][..i] == vs[..i];
  }

  /** `add_internally_tagged_enum`. */
  method AddInternallyTaggedEnum(state: BuildState, tag: string, name: string, generics: seq<GenericParam>,
                                 variants: seq<Variant>, casing: Option<Case>,
                                 toCase: (Case, string) -> string, usesTypeInterface: bool)
    requires InternalReady(variants)
    modifies state
    ensures state.types == old(state.types) + InternalText(name, generics, tag, variants, casing, toCase, usesTypeInterface)
    ensures state.unprocessedFiles == old(state.unprocessedFiles)
  {
    var exportPrefix := ExportPrefix(usesTypeInterface);
    var header := exportPrefix + "type " + name + ExtractStructGenerics(generics) + " =";
    state.types := state.types + header;
    AddInternalMembers(state, name, variants);
    ghost var m := InternalMembers(name, variants);
    SeqAssoc(old(state.types), header, m);
    state.types := state.types + ";\n";
    SeqAssoc(old(state.types), header + m, ";\n");
    AddInternalAliases(state, tag, name, variants, casing, toCase);
    ghost var al := InternalAliases(name, tag, variants, casing, toCase);
    SeqAssoc(old(state.types), header + m + ";\n", al);
    state.types := state.types + "\n";
    SeqAssoc(old(state.types), header + m + ";\n" + al, "\n");
  }

  /** The union loop of `add_internally_tagged_enum`. */
  method AddInternalMembers(state: BuildState, name: string, variants: seq<Variant>)
    modifies state
    ensures state.types == old(state.types) + InternalMembers(name, variants)
    ensures state.unprocessedFiles == old(state.unprocessedFiles)
  {
    for i := 0 to |variants|
      invariant state.types == old(state.types) + InternalMembers(name, variants[..i])
      invariant state.unprocessedFiles == old(state.unprocessedFiles)
    {
      assert variants[..i + 1][..i] == variants[..i];
      var variant := variants[i];
      if !exists k :: 0 <= k < |variant.fields| && variant.fields[k].ident.None? {
        state.types := state.types + "\n";
        state.types := state.types + ("  | " + name + "__" + variant.ident);
        SeqAssoc(old(state.types) + InternalMembers(name, variants[..i]), "\n", "  | " + name + "__" + variant.ident);
      }
      SeqAssoc(old(state.types), InternalMembers(name, variants[..i]), InternalMember(name, variant));
    }
    assert variants[..|variants|] == variants;
  }

  /** The alias loop of `add_internally_tagged_enum`. */
  method AddInternalAliases(state: BuildState, tag: string, name: string, variants: seq<Variant>,
                            casing: Option<Case>, toCase: (Case, string) -> string)
    requires InternalReady(variants)
    modifies state
    ensures state.types == old(state.types) + InternalAliases(name, tag, variants, casing, toCase)
    ensures state.unprocessedFiles == old(state.unprocessedFiles)
  {
    for i := 0 to |variants|
      invariant InternalReady(variants[..i])
      invariant state.types == old(state.types) + InternalAliases(name, tag, variants[..i], casing, toCase)
      invariant state.unprocessedFiles == old(state.unprocessedFiles)
    {
      InternalStep(name, tag, variants, i, casing, toCase);
      var variant := variants[i];
      if !exists k :: 0 <= k < |variant.fields| && variant.fields[k].ident.None? {
        AddInternalAlias(state, tag, name, variant, casing, toCase);
      }
      SeqAssoc(old(state.types), InternalAliases(name, tag, variants[..i], casing, toCase),
               InternalAlias(name, tag, variant, casing, toCase));
    }
    assert variants[..|variants|] == variants;
  }

  /** The body of the alias loop of `add_internally_tagged_enum`, for a variant that is not a newtype. */
  method AddInternalAlias(state: BuildState, tag: string, name: string, variant: Variant, casing: Option<Case>,
                          toCase: (Case, string) -> string)
    requires !IsNewtype(variant) && InternalVariantReady(variant)
    modifies state
    ensures state.types == old(state.types) + InternalAlias(name, tag, variant, casing, toCase)
    ensures state.unprocessedFiles == old(state.unprocessedFiles)
  {
    ghost var before := state.types;
    state.types := state.types + "\n";
    var comments := GetComments(variant.attrs);
    state.WriteComments(comments, 0);
    ghost var c := CommentsText(comments, 0);
    SeqAssoc(before, "\n", c);
    var alias := "type " + name + "__" + variant.ident + " = ";
    state.types := state.types + alias;
    SeqAssoc(before, "\n" + c, alias);
    var fieldName := CasedName(toCase, casing, variant.ident);
    var discriminant := "{\n" + BuildIndentation(2) + tag + ": \"" + fieldName + "\";\n";
    state.types := state.types + discriminant;
    SeqAssoc(before, "\n" + c + alias, discriminant);
    ProcessFields(state, variant.fields, 2);
    ghost var f := FieldsText(variant.fields, 2);
    SeqAssoc(before, "\n" + c + alias + discriminant, f);
    state.types := state.types + "};";
    SeqAssoc(before, "\n" + c + alias + discriminant + f, "};");
  }

  // ---------------------------------------------------------------------------
  // `add_externally_tagged_enum`.
  // ---------------------------------------------------------------------------

  /** Every field type converts. */
  predicate FieldTypesConvertible(fields: seq<Field>)
  {
    forall i :: 0 <= i < |fields| ==> Convertible(fields[i].ty)
  }

  /** What the externally tagged emitter reads of a variant can be read. */
  predicate ExternalVariantReady(v: Variant)
  {
    && DocsReady(v.attrs)
    && (IsNewtype(v) ==> FieldTypesConvertible(v.fields))
    && (!IsNewtype(v) ==> FieldsReady(v.fields))
  }

  predicate ExternalReady(vs: seq<Variant>)
  {
    forall i :: 0 <= i < |vs| ==> ExternalVariantReady(vs[i])
  }

  /** The ` T` of each field of a newtype variant. */
  function NewtypeTypes(fields: seq<Field>): string
    requires FieldTypesConvertible(fields)
  {
    if |fields| == 0 then ""
    else NewtypeTypes(fields[..|fields| - 1]) + (" " + ConvertType(fields[|fields| - 1].ty).tsType)
  }

  /** The closing braces of a record or unit variant's object. */
  function RecordClosing(prepend: string): string
  {
    prepend + "}\n" + BuildIndentation(4) + "}"
  }

  /** The body of a record or unit variant's one-key object; `{}` when the variant has no fields. */
  function RecordBody(fields: seq<Field>): string
    requires FieldsReady(fields)
  {
    if |fields| == 0 then RecordClosing("")
    else "\n" + FieldsText(fields, 8) + RecordClosing(BuildIndentation(6))
  }

  /** `| { "Name": T1 T2 }` for a newtype variant. */
  function NewtypeMember(fieldName: string, fields: seq<Field>): string
    requires FieldTypesConvertible(fields)
  {
    ("  | { \"" + fieldName + "\":") + NewtypeTypes(fields) + " }"
  }

  /** `| { "Name": { fields } }` for a record or unit variant. */
  function RecordMember(fieldName: string, fields: seq<Field>): string
    requires FieldsReady(fields)
  {
    ("  | {\n" + BuildIndentation(6) + "\"" + fieldName + "\": {") + RecordBody(fields)
  }

  /** A variant as a member of the externally tagged union, after its doc comments. */
  function ExternalVariant(v: Variant, casing: Option<Case>, toCase: (Case, string) -> string): string
    requires ExternalVariantReady(v)
  {
    var fieldName := CasedName(toCase, casing, v.ident);
    "\n" + CommentsText(GetComments(v.attrs), 2)
    + (if IsNewtype(v) then NewtypeMember(fieldName, v.fields) else RecordMember(fieldName, v.fields))
  }

  function ExternalVariants(vs: seq<Variant>, casing: Option<Case>, toCase: (Case, string) -> string): string
    requires ExternalReady(vs)
  {
    if |vs| == 0 then ""
    else ExternalVariants(vs[..|vs| - 1], casing, toCase) + ExternalVariant(vs[|vs| - 1], casing, toCase)
  }

  function ExternalText(name: string, generics: seq<GenericParam>, vs: seq<Variant>, casing: Option<Case>,
                        toCase: (Case, string) -> string, usesTypeInterface: bool): string
    requires ExternalReady(vs)
  {
    var header := ExportPrefix(usesTypeInterface) + "type " + name + ExtractStructGenerics(generics) + " =";
    header + ExternalVariants(vs, casing, toCase) + ";\n"
  }

  /** A variant without doc attributes has no comment lines. */
  lemma NoDocs(attrs: seq<Attribute>, indentationAmount: int)
    requires attrs == []
    ensures DocsReady(attrs) && CommentsText(GetComments(attrs), indentationAmount) == ""
  {
  }

  /** A single-field newtype member reads `| { "V": T }`. */
  lemma SingleNewtypeMember(n: string, f: Field)
    requires Convertible(f.ty)
    ensures FieldTypesConvertible([f])
    ensures NewtypeMember(n, [f]) == "  | { \"" + n + "\": " + ConvertType(f.ty).tsType + " }"
    ensures "\n" + NewtypeMember(n, [f]) == "\n  | { \"" + n + "\": " + ConvertType(f.ty).tsType + " }"
  {
    assert [f][..0] == [];
    assert NewtypeTypes([f]) == "" + (" " + ConvertType(f.ty).tsType);
  }

  /** A unit variant's member is `| { "V": {} }`, laid out over three lines. */
  lemma UnitMember(n: string)
    ensures RecordMember(n, []) == "  | {\n      \"" + n + "\": {}\n    }"
    ensures "\n" + RecordMember(n, []) == "\n  | {\n      \"" + n + "\": {}\n    }"
  {
    var a := "  | {\n" + BuildIndentation(6) + "\"";
    assert a == "  | {\n      \"";
    assert RecordClosing("") == "}\n    }";
    assert "\": {" + "}\n    }" == "\": {}\n    }";
    SeqAssoc(a + n, "\": {", "}\n    }");
    assert "\n" + a == "\n  | {\n      \"";
    SeqAssoc("\n", a + n, "\": {}\n    }");
    SeqAssoc("\n", a, n);
  }

  /** A newtype variant `V(T)` without doc comments is the member `| { "V": T }`. */
  lemma NewtypeVariantText(ident: string, ty: Type, disc: Option<string>, casing: Option<Case>,
                           toCase: (Case, string) -> string)
    requires Convertible(ty)
    ensures var v := Variant([], ident, [Field([], None, ty)], disc);
      ExternalVariantReady(v)
      && ExternalVariant(v, casing, toCase)
         == "\n  | { \"" + CasedName(toCase, casing, ident) + "\": " + ConvertType(ty).tsType + " }"
  {
    var v := Variant([], ident, [Field([], None, ty)], disc);
    assert v.fields[0].ident.None?;
    NoDocs([], 2);
    SingleNewtypeMember(CasedName(toCase, casing, ident), v.fields[0]);
    assert ExternalVariant(v, casing, toCase) == "\n" + NewtypeMember(CasedName(toCase, casing, ident), v.fields);
  }

  /** A unit variant `V` without doc comments is the member `| { "V": {} }`, laid out over three lines. */
  lemma UnitVariantText(ident: string, disc: Option<string>, casing: Option<Case>, toCase: (Case, string) -> string)
    ensures var v := Variant([], ident, [], disc);
      ExternalVariantReady(v)
      && ExternalVariant(v, casing, toCase)
         == "\n  | {\n      \"" + CasedName(toCase, casing, ident) + "\": {}\n    }"
  {
    UnitVariantUnfold(Variant([], ident, [], disc), casing, toCase);
    UnitMember(CasedName(toCase, casing, ident));
  }

  lemma UnitVariantUnfold(v: Variant, casing: Option<Case>, toCase: (Case, string) -> string)
    requires v.attrs == [] && v.fields == []
    ensures ExternalVariantReady(v)
    ensures ExternalVariant(v, casing, toCase) == "\n" + RecordMember(CasedName(toCase, casing, v.ident), [])
  {
    NoDocs([], 2);
  }

  /** `add_externally_tagged_enum`. */
  method AddExternallyTaggedEnum(state: BuildState, name: string, generics: seq<GenericParam>,
                                 variants: seq<Variant>, casing: Option<Case>,
                                 toCase: (Case, string) -> string, usesTypeInterface: bool)
    requires ExternalReady(variants)
    modifies state
    ensures state.types == old(state.types) + ExternalText(name, generics, variants, casing, toCase, usesTypeInterface)
    ensures state.unprocessedFiles == old(state.unprocessedFiles)
  {
    var exportPrefix := ExportPrefix(usesTypeInterface);
    var header := exportPrefix + "type " + name + ExtractStructGenerics(generics) + " =";
    state.types := state.types + header;
    for i := 0 to |variants|
      invariant state.types == old(state.types) + header + ExternalVariants(variants[..i], casing, toCase)
      invariant state.unprocessedFiles == old(state.unprocessedFiles)
    {
      assert variants[..i + 1][..i] == variants[..i];
      ghost var before := state.types;
      AddExternalVariant(state, variants[i], casing, toCase);
      SeqAssoc(old(state.types) + header, ExternalVariants(variants[..i], casing, toCase),
               ExternalVariant(variants[i], casing, toCase));
    }
    assert variants[..|variants|] == variants;
    state.types := state.types + ";\n";
    SeqAssoc(old(state.types), header, ExternalVariants(variants, casing, toCase));
    SeqAssoc(old(state.types), header + ExternalVariants(variants, casing, toCase), ";\n");
  }

  /** The body of the variant loop of `add_externally_tagged_enum`. */
  method AddExternalVariant(state: BuildState, variant: Variant, casing: Option<Case>, toCase: (Case, string) -> string)
    requires ExternalVariantReady(variant)
    modifies state
    ensures state.types == old(state.types) + ExternalVariant(variant, casing, toCase)
    ensures state.unprocessedFiles == old(state.unprocessedFiles)
  {
    state.types := state.types + "\n";
    var comments := GetComments(variant.attrs);
    state.WriteComments(comments, 2);
    ghost var c := CommentsText(comments, 2);
    SeqAssoc(old(state.types), "\n", c);
    var fieldName := CasedName(toCase, casing, variant.ident);
    if exists k :: 0 <= k < |variant.fields| && variant.fields[k].ident.None? {
      AddNewtypeMember(state, fieldName, variant.fields);
      SeqAssoc(old(state.types), "\n" + c, NewtypeMember(fieldName, variant.fields));
    } else {
      AddRecordMember(state, fieldName, variant.fields);
      SeqAssoc(old(state.types), "\n" + c, RecordMember(fieldName, variant.fields));
    }
  }

  /** The newtype branch: the variant's field types after its quoted name. */
  method AddNewtypeMember(state: BuildState, fieldName: string, fields: seq<Field>)
    requires FieldTypesConvertible(fields)
    modifies state
    ensures state.types == old(state.types) + NewtypeMember(fieldName, fields)
    ensures state.unprocessedFiles == old(state.unprocessedFiles)
  {
    var opening := "  | { \"" + fieldName + "\":";
    state.types := state.types + opening;
    for i := 0 to |fields|
      invariant state.types == old(state.types) + opening + NewtypeTypes(fields[..i])
      invariant state.unprocessedFiles == old(state.unprocessedFiles)
    {
      assert fields[..i + 1][..i] == fields[..i];
      state.types := state.types + (" " + ConvertType(fields[i].ty).tsType);
    }
    assert fields[..|fields|] == fields;
    state.types := state.types + " }";
    SeqAssoc(old(state.types), opening, NewtypeTypes(fields));
    SeqAssoc(old(state.types), opening + NewtypeTypes(fields), " }");
  }

  /** The record branch: an object holding the fields at indentation 8, or `{}` for a unit variant. */
  method AddRecordMember(state: BuildState, fieldName: string, fields: seq<Field>)
    requires FieldsReady(fields)
    modifies state
    ensures state.types == old(state.types) + RecordMember(fieldName, fields)
    ensures state.unprocessedFiles == old(state.unprocessedFiles)
  {
    var opening := "  | {\n" + BuildIndentation(6) + "\"" + fieldName + "\": {";
    state.types := state.types + opening;
    ghost var start := state.types;
    var prepend;
    if |fields| == 0 {
      prepend := "";
    } else {
      prepend := BuildIndentation(6);
      state.types := state.types + "\n";
      ProcessFields(state, fields, 8);
      SeqAssoc(start, "\n", FieldsText(fields, 8));
    }
    state.types := state.types + (prepend + "}\n" + BuildIndentation(4) + "}");
    if |fields| > 0 {
      SeqAssoc(start, "\n" + FieldsText(fields, 8), RecordClosing(prepend));
    }
    SeqAssoc(old(state.types), opening, RecordBody(fields));
  }

  // ---------------------------------------------------------------------------
  // `convert_to_ts` for `ItemEnum`.
  // ---------------------------------------------------------------------------

  /** The chosen representation's text generator can read what it needs. */
  predicate RepresentationReady(rep: Representation, vs: seq<Variant>)
  {
    match rep
    case NumericEnum => CounterFits(vs)
    case StringUnion => true
    case InternallyTagged(_) => InternalReady(vs)
    case ExternallyTagged => ExternalReady(vs)
  }

  /** An enum item the emitter handles without a panic; a skipped enum needs nothing. */
  predicate EnumReady(item: Item)
  {
    && item.EnumItem?
    && (!Rejected(item.variants) ==>
          && DocsReady(item.attrs)
          && SelectionReady(item.attrs, item.variants)
          && RepresentationReady(SelectRepresentation(item.attrs, item.variants), item.variants))
  }

  function RepresentationText(rep: Representation, item: Item, casing: Option<Case>,
                              toCase: (Case, string) -> string, usesTypeInterface: bool): string
    requires item.EnumItem? && RepresentationReady(rep, item.variants)
  {
    match rep
    case NumericEnum => NumericText(item.ident, item.variants, casing, toCase, usesTypeInterface)
    case StringUnion => UnionText(item.ident, item.variants, casing, toCase, usesTypeInterface)
    case InternallyTagged(tag) =>
      InternalText(item.ident, item.generics, tag, item.variants, casing, toCase, usesTypeInterface)
    case ExternallyTagged => ExternalText(item.ident, item.generics, item.variants, casing, toCase, usesTypeInterface)
  }

  /** What the enum emitter writes: nothing for a skipped enum, else comments and the chosen representation. */
  function EnumText(item: Item, toCase: (Case, string) -> string, usesTypeInterface: bool): string
    requires EnumReady(item)
  {
    if Rejected(item.variants) then ""
    else
      var casing := ParseSerdeCase(GetAttributeArg("serde", "rename_all", item.attrs));
      var rep := SelectRepresentation(item.attrs, item.variants);
      "\n" + CommentsText(GetComments(item.attrs), 0) + RepresentationText(rep, item, casing, toCase, usesTypeInterface)
  }

  /** An enum with a variant of two or more unnamed fields leaves the buffer as it was. */
  lemma RejectedEnumEmitsNothing(item: Item, toCase: (Case, string) -> string, usesTypeInterface: bool)
    requires item.EnumItem? && Rejected(item.variants)
    ensures EnumReady(item) && EnumText(item, toCase, usesTypeInterface) == ""
  {
  }

  /** The enum emitter (`convert_to_ts` for `ItemEnum`). */
  method ConvertEnum(state: BuildState, item: Item, toCase: (Case, string) -> string, usesTypeInterface: bool)
    requires EnumReady(item)
    modifies state
    ensures state.types == old(state.types) + EnumText(item, toCase, usesTypeInterface)
    ensures state.unprocessedFiles == old(state.unprocessedFiles)
  {
    var accepted := CheckVariants(item.variants);
    if !accepted {
      assert old(state.types) + "" == old(state.types);
      return;
    }
    state.types := state.types + "\n";
    var comments := GetComments(item.attrs);
    var casing := ParseSerdeCase(GetAttributeArg("serde", "rename_all", item.attrs));
    var isSingle := forall i :: 0 <= i < |item.variants| ==> |item.variants[i].fields| == 0;
    state.WriteComments(comments, 0);
    ghost var c := CommentsText(comments, 0);
    SeqAssoc(old(state.types), "\n", c);
    ghost var rep := SelectRepresentation(item.attrs, item.variants);
    if isSingle {
      if HasAttributeArg("derive", "Serialize_repr", item.attrs) {
        AddNumericEnum(state, item.ident, item.variants, casing, toCase, usesTypeInterface);
      } else {
        AddEnum(state, item.ident, item.variants, casing, toCase, usesTypeInterface);
      }
    } else {
      var tagName := GetAttributeArg("serde", "tag", item.attrs);
      if tagName.Some? {
        AddInternallyTaggedEnum(state, tagName.value, item.ident, item.generics, item.variants, casing, toCase,
                                usesTypeInterface);
      } else {
        AddExternallyTaggedEnum(state, item.ident, item.generics, item.variants, casing, toCase, usesTypeInterface);
      }
    }
    SeqAssoc(old(state.types), "\n" + c, RepresentationText(rep, item, casing, toCase, usesTypeInterface));
  }
}
