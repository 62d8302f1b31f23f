/**
  The attribute and formatting helpers of src/utils.rs: reading `#[serde(...)]`
  and `#[derive(...)]` arguments, the `rename_all` table, doc comments,
  indentation and generic-parameter lists.
*/
module Utils {
  import opened Text
  import opened Syntax

  /** The case conventions `rename_all` can select (the ones RENAME_RULES names). */
  datatype Case = Lower | Upper | Pascal | Camel | Snake | ScreamingSnake | Kebab

  /** RENAME_RULES, in order.  `SCREAMING-KEBAB-CASE` is deliberately absent. */
  const RenameRules: seq<(string, Case)> := [
    ("lowercase", Lower),
    ("UPPERCASE", Upper),
    ("PascalCase", Pascal),
    ("camelCase", Camel),
    ("snake_case", Snake),
    ("SCREAMING_SNAKE_CASE", ScreamingSnake),
    ("kebab-case", Kebab)
  ]

  /** The serde spelling of each case, as an independent inverse of the table. */
  function RuleName(c: Case): string
  {
    match c
    case Lower => "lowercase"
    case Upper => "UPPERCASE"
    case Pascal => "PascalCase"
    case Camel => "camelCase"
    case Snake => "snake_case"
    case ScreamingSnake => "SCREAMING_SNAKE_CASE"
    case Kebab => "kebab-case"
  }

  const RuleNames: set<string> := {
    "lowercase", "UPPERCASE", "PascalCase", "camelCase", "snake_case", "SCREAMING_SNAKE_CASE", "kebab-case"
  }

  /** `rules.iter().find(|(name, _)| name == x)`: the case of the first rule named `name`. */
  function FindRule(rules: seq<(string, Case)>, name: string): (r: Option<Case>)
    ensures r.Some? <==> exists i :: 0 <= i < |rules| && rules[i].0 == name
    ensures r.Some? ==> (name, r.value) in rules
  {
    if |rules| == 0 then None
    else if rules[0].0 == name then Some(rules[0].1)
    else
      var r := FindRule(rules[1..], name);
      assert forall i :: 1 <= i < |rules| ==> rules[i] == rules[1..][i - 1];
      r
  }

  /**
    `parse_serde_case`: a case for exactly the seven names of RENAME_RULES,
    compared exactly; `None` for any other string and for an absent value.
  */
  function ParseSerdeCase(val: Option<string>): (r: Option<Case>)
    ensures r.Some? <==> val.Some? && val.value in RuleNames
    ensures r.Some? ==> RuleName(r.value) == val.value
  {
    match val
    case None => None
    case Some(x) =>
      assert forall i :: 0 <= i < |RenameRules| ==> RenameRules[i].0 == RuleName(RenameRules[i].1);
      assert x in RuleNames ==> exists i :: 0 <= i < |RenameRules| && RenameRules[i].0 == x by {
        if x in RuleNames {
          assert RenameRules[0].0 == "lowercase" && RenameRules[1].0 == "UPPERCASE";
          assert RenameRules[2].0 == "PascalCase" && RenameRules[3].0 == "camelCase";
          assert RenameRules[4].0 == "snake_case" && RenameRules[5].0 == "SCREAMING_SNAKE_CASE";
          assert RenameRules[6].0 == "kebab-case";
        }
      }
      FindRule(RenameRules, x)
  }

  /** Every case's serde name parses back to that case. */
  lemma ParseSerdeCaseRoundTrip(c: Case)
    ensures ParseSerdeCase(Some(RuleName(c))) == Some(c)
  {
    var r := ParseSerdeCase(Some(RuleName(c)));
    assert RuleName(c) in RuleNames;
    assert RuleName(r.value) == RuleName(c);
  }

  // ---------------------------------------------------------------------------
  // Attributes.
  // ---------------------------------------------------------------------------

  /** `has_attribute`: some attribute's path has a segment equal to `needle`. */
  predicate HasAttribute(needle: string, attrs: seq<Attribute>)
  {
    exists i :: 0 <= i < |attrs| && needle in attrs[i].path
  }

  /** `get_attribute`: the last attribute whose path has a segment equal to `needle`. */
  function GetAttribute(needle: string, attrs: seq<Attribute>): (r: Option<Attribute>)
    ensures r.Some? <==> HasAttribute(needle, attrs)
    ensures r.Some? ==> exists i :: 0 <= i < |attrs| && attrs[i] == r.value && needle in attrs[i].path
                                && (forall j :: i < j < |attrs| ==> needle !in attrs[j].path)
  {
    if |attrs| == 0 then None
    else if needle in attrs[|attrs| - 1].path then Some(attrs[|attrs| - 1])
    else
      var r := GetAttribute(needle, attrs[..|attrs| - 1]);
      assert forall i :: 0 <= i < |attrs| - 1 ==> attrs[i] == attrs[..|attrs| - 1][i];
      r
  }

  /** The last matching attribute wins, whatever the earlier ones are. */
  lemma {:induction false} LastMatchingAttributeWins(needle: string, before: seq<Attribute>, a: Attribute, after: seq<Attribute>)
    requires needle in a.path
    requires forall j :: 0 <= j < |after| ==> needle !in after[j].path
    ensures GetAttribute(needle, before + [a] + after) == Some(a)
    decreases |after|
  {
    var attrs := before + [a] + after;
    if |after| == 0 {
      assert attrs[|attrs| - 1] == a;
    } else {
      var after' := after[..|after| - 1];
      assert attrs[|attrs| - 1] == after[|after| - 1];
      assert attrs[..|attrs| - 1] == before + [a] + after';
      LastMatchingAttributeWins(needle, before, a, after');
    }
  }

  /**
    `s[1..s.len() - 1]` on UTF-8 text slices bytes and panics unless bytes 1
    and `len - 1` are character boundaries with 1 <= len - 1: the text has at
    least two characters and its first and last are one-byte (ASCII).
  */
  predicate InnerSliceable(s: string)
  {
    |s| >= 2 && (s[0] as int) < 0x80 && (s[|s| - 1] as int) < 0x80
  }

  /**
    A quoted value slices; `éa` does not, since byte 1 falls inside `é`; nor
    does a single character.
  */
  lemma InnerSliceableExamples()
    ensures InnerSliceable("\"type\"")
    ensures !InnerSliceable("\U{E9}a")
    ensures !InnerSliceable("a")
  {
  }

  /** `value[1..value.len() - 1]`: a token's text without its first and last character. */
  function Unquote(value: string): string
    requires InnerSliceable(value)
  {
    value[1..|value| - 1]
  }

  /** `find(|nvp| nvp.path.is_ident(arg))`: the index of the first pair whose path is exactly `arg`. */
  function FindPair(pairs: seq<NameValue>, arg: string): (r: Option<nat>)
    ensures r.Some? ==> r.value < |pairs| && pairs[r.value].path == [arg]
    ensures r.Some? ==> forall j :: 0 <= j < r.value ==> pairs[j].path != [arg]
    ensures r.None? ==> forall j :: 0 <= j < |pairs| ==> pairs[j].path != [arg]
  {
    if |pairs| == 0 then None
    else if pairs[0].path == [arg] then Some(0)
    else
      var r := FindPair(pairs[1..], arg);
      if r.Some? then Some(r.value + 1) else None
  }

  predicate IsPathExpr(e: ArgExpr)
  {
    e.PathExpr? && |e.segments| > 0
  }

  /** How many leading entries `map_while(check_expression_is_path)` yields. */
  function LeadingPaths(items: seq<ArgExpr>): (n: nat)
    ensures n <= |items|
    ensures forall j :: 0 <= j < n ==> IsPathExpr(items[j])
    ensures n < |items| ==> !IsPathExpr(items[n])
  {
    if |items| == 0 || !IsPathExpr(items[0]) then 0 else 1 + LeadingPaths(items[1..])
  }

  /**
    The `map_while(..).any(..)` scan of a bare list: is `arg` the first
    segment of one of the path expressions before the first non-path entry?
  */
  function AnyLeadingPathIs(items: seq<ArgExpr>, arg: string): (b: bool)
    ensures b <==> exists j :: 0 <= j < LeadingPaths(items) && items[j].segments[0] == arg
  {
    if |items| == 0 || !IsPathExpr(items[0]) then false
    else if items[0].segments[0] == arg then true
    else
      var b := AnyLeadingPathIs(items[1..], arg);
      assert forall j :: 1 <= j < |items| ==> items[j] == items[1..][j - 1];
      b
  }

  /** `check_token` does not panic: the value of the pair it picks can be sliced. */
  predicate TokenReady(token: Token, arg: string)
  {
    token.Group? && token.delimiter == Parenthesis && token.contents.NameValues? ==>
      var k := FindPair(token.contents.pairs, arg);
      k.Some? ==> InnerSliceable(token.contents.pairs[k.value].value)
  }

  /**
    `check_token`: in a parenthesized group of `name = value` pairs, the value
    of the first pair named `arg`, without its quotes; in a bare list, `arg`
    itself when it heads one of the leading paths; otherwise nothing.
  */
  function CheckToken(token: Token, arg: string): (r: Option<string>)
    requires TokenReady(token, arg)
    ensures r.Some? ==> token.Group? && token.delimiter == Parenthesis && !token.contents.Unparsable?
    ensures r.Some? && token.contents.Exprs? ==> r.value == arg
  {
    match token
    case Group(Parenthesis, NameValues(pairs)) =>
      var k := FindPair(pairs, arg);
      if k.Some? then Some(Unquote(pairs[k.value].value)) else None
    case Group(Parenthesis, Exprs(items)) =>
      if AnyLeadingPathIs(items, arg) then Some(arg) else None
    case _ => None
  }

  /** Name/value reading: the first pair named `arg` decides, later pairs of that name are ignored. */
  lemma CheckTokenNameValue(pairs: seq<NameValue>, arg: string, i: nat)
    requires i < |pairs| && pairs[i].path == [arg] && InnerSliceable(pairs[i].value)
    requires forall j :: 0 <= j < i ==> pairs[j].path != [arg]
    ensures TokenReady(Group(Parenthesis, NameValues(pairs)), arg)
    ensures CheckToken(Group(Parenthesis, NameValues(pairs)), arg) == Some(pairs[i].value[1..|pairs[i].value| - 1])
  {
  }

  /** Bare-list reading: `Some(arg)` exactly when `arg` heads a path before the first non-path entry. */
  lemma CheckTokenBareList(items: seq<ArgExpr>, arg: string)
    ensures TokenReady(Group(Parenthesis, Exprs(items)), arg)
    ensures CheckToken(Group(Parenthesis, Exprs(items)), arg) ==
      if exists j :: 0 <= j < LeadingPaths(items) && items[j].segments[0] == arg then Some(arg) else None
  {
  }

  /** `filter_map(check_token)` followed by `next()` does not panic. */
  predicate ScanReady(tokens: seq<Token>, arg: string)
  {
    |tokens| == 0
    || (TokenReady(tokens[0], arg) && (CheckToken(tokens[0], arg).None? ==> ScanReady(tokens[1..], arg)))
  }

  /** `filter_map(|token| check_token(token, arg)).next()`: the first token that yields a value. */
  function FirstTokenArg(tokens: seq<Token>, arg: string): (r: Option<string>)
    requires ScanReady(tokens, arg)
  {
    if |tokens| == 0 then None
    else
      var c := CheckToken(tokens[0], arg);
      if c.Some? then c else FirstTokenArg(tokens[1..], arg)
  }

  /** `get_attribute_arg` does not panic. */
  predicate ArgReady(needle: string, arg: string, attrs: seq<Attribute>)
  {
    var a := GetAttribute(needle, attrs);
    a.Some? ==> ScanReady(MetaTokens(a.value.meta), arg)
  }

  /** `get_attribute_arg`: `arg` read from the last attribute matching `needle` only. */
  function GetAttributeArg(needle: string, arg: string, attrs: seq<Attribute>): (r: Option<string>)
    requires ArgReady(needle, arg, attrs)
    ensures r.Some? ==> HasAttribute(needle, attrs)
  {
    var a := GetAttribute(needle, attrs);
    if a.None? then None else FirstTokenArg(MetaTokens(a.value.meta), arg)
  }

  /** `has_attribute_arg`: whether `get_attribute_arg` finds something. */
  function HasAttributeArg(needle: string, arg: string, attrs: seq<Attribute>): (b: bool)
    requires ArgReady(needle, arg, attrs)
    ensures b ==> HasAttribute(needle, attrs)
  {
    GetAttributeArg(needle, arg, attrs).Some?
  }

  /** Only the last attribute matching `needle` is read, whatever comes before it. */
  lemma LastAttributeDecidesArg(needle: string, arg: string, before: seq<Attribute>, a: Attribute, after: seq<Attribute>)
    requires needle in a.path
    requires forall j :: 0 <= j < |after| ==> needle !in after[j].path
    requires ScanReady(MetaTokens(a.meta), arg)
    ensures ArgReady(needle, arg, before + [a] + after)
    ensures GetAttributeArg(needle, arg, before + [a] + after) == FirstTokenArg(MetaTokens(a.meta), arg)
  {
    LastMatchingAttributeWins(needle, before, a, after);
  }

  /** So an argument given only in an earlier attribute of the same name is not found. */
  lemma EarlierAttributeIgnored(needle: string, arg: string, earlier: Attribute, later: Attribute)
    requires needle in earlier.path && needle in later.path
    requires ScanReady(MetaTokens(later.meta), arg) && FirstTokenArg(MetaTokens(later.meta), arg).None?
    ensures ArgReady(needle, arg, [earlier, later])
    ensures GetAttributeArg(needle, arg, [earlier, later]) == None
  {
    LastAttributeDecidesArg(needle, arg, [earlier], later, []);
    assert [earlier] + [later] + [] == [earlier, later];
  }

  /** The two readings the source documents: `#[serde(tag = "type")]` and `#[derive(Serialize_repr)]`. */
  lemma AttributeArgExamples()
    ensures var serde := Attribute(["serde"], MetaList(Parenthesis, NameValues([NameValue(["tag"], "\"type\"")])));
      ArgReady("serde", "tag", [serde]) && GetAttributeArg("serde", "tag", [serde]) == Some("type")
    ensures var derive := Attribute(["derive"], MetaList(Parenthesis, Exprs([PathExpr(["Serialize_repr"])])));
      ArgReady("derive", "Serialize_repr", [derive])
      && GetAttributeArg("derive", "Serialize_repr", [derive]) == Some("Serialize_repr")
  {
    var serde := Attribute(["serde"], MetaList(Parenthesis, NameValues([NameValue(["tag"], "\"type\"")])));
    CheckTokenNameValue([NameValue(["tag"], "\"type\"")], "tag", 0);
    assert Unquote("\"type\"") == "type";
    LastAttributeDecidesArg("serde", "tag", [], serde, []);
    assert [] + [serde] + [] == [serde];
    var derive := Attribute(["derive"], MetaList(Parenthesis, Exprs([PathExpr(["Serialize_repr"])])));
    LastAttributeDecidesArg("derive", "Serialize_repr", [], derive, []);
    assert [] + [derive] + [] == [derive];
  }

  // ---------------------------------------------------------------------------
  // Doc comments.
  // ---------------------------------------------------------------------------

  predicate IsDocAttribute(attr: Attribute)
  {
    "doc" in attr.path
  }

  /** `check_doc_tokens` does not panic: every literal's text can be sliced. */
  predicate DocTokensReady(tokens: seq<Token>)
  {
    forall i :: 0 <= i < |tokens| && tokens[i].Literal? ==> InnerSliceable(tokens[i].text)
  }

  /** `get_comments` does not panic on `attrs`. */
  predicate DocsReady(attrs: seq<Attribute>)
  {
    forall i :: 0 <= i < |attrs| && IsDocAttribute(attrs[i]) && attrs[i].meta.MetaNameValue? ==>
      DocTokensReady(attrs[i].meta.value)
  }

  /** Whether a comment has been trimmed: no whitespace at either end. */
  predicate Trimmed(c: string)
  {
    c == [] || (!IsWhitespace(c[0]) && !IsWhitespace(c[|c| - 1]))
  }

  /**
    `check_doc_tokens`: a literal token's text without its first and last
    character (the quotes), trimmed; nothing for any other token.
  */
  function CheckDocTokens(tt: Token): (r: Option<string>)
    requires tt.Literal? ==> InnerSliceable(tt.text)
    ensures r.Some? <==> tt.Literal?
    ensures r.Some? ==> Trimmed(r.value) && |r.value| <= |tt.text| - 2
    ensures tt.Literal? ==> r == Some(Trim(tt.text[1..|tt.text| - 1]))
  {
    match tt
    case Literal(c) => Some(Trim(c[1..|c| - 1]))
    case _ => None
  }

  /** `filter_map(check_doc_tokens)` over a token stream. */
  function DocTokens(tokens: seq<Token>): (r: seq<string>)
    requires DocTokensReady(tokens)
    ensures |r| <= |tokens|
    ensures forall i :: 0 <= i < |r| ==> Trimmed(r[i])
  {
    if |tokens| == 0 then []
    else
      var init := DocTokens(tokens[..|tokens| - 1]);
      var c := CheckDocTokens(tokens[|tokens| - 1]);
      if c.Some? then init + [c.value] else init
  }

  /**
    An independent, front-to-back reading of the same stream: for each
    literal token, in order, its text without the first and last character,
    trimmed; other tokens contribute nothing.
  */
  function LiteralComments(tokens: seq<Token>): seq<string>
    requires DocTokensReady(tokens)
  {
    if |tokens| == 0 then []
    else
      DocTokensReadyDrop(tokens);
      var t := tokens[0];
      (if t.Literal? then [Trim(t.text[1..|t.text| - 1])] else []) + LiteralComments(tokens[1..])
  }

  lemma DocTokensReadyDrop(tokens: seq<Token>)
    requires DocTokensReady(tokens) && |tokens| > 0
    ensures DocTokensReady(tokens[1..])
  {
    forall i | 0 <= i < |tokens| - 1 && tokens[1..][i].Literal?
      ensures InnerSliceable(tokens[1..][i].text)
    {
      assert tokens[1..][i] == tokens[i + 1];
    }
  }

  lemma DocTokensReadyAppend(a: seq<Token>, b: seq<Token>)
    requires DocTokensReady(a) && DocTokensReady(b)
    ensures DocTokensReady(a + b)
  {
    var ab := a + b;
    forall i | 0 <= i < |ab| && ab[i].Literal?
      ensures InnerSliceable(ab[i].text)
    {
      if i < |a| {
        assert ab[i] == a[i];
      } else {
        assert ab[i] == b[i - |a|];
      }
    }
  }

  /** The comments of two token streams are the comments of the first followed by those of the second. */
  lemma {:induction false} DocTokensAppend(a: seq<Token>, b: seq<Token>)
    requires DocTokensReady(a) && DocTokensReady(b)
    ensures DocTokensReady(a + b)
    ensures DocTokens(a + b) == DocTokens(a) + DocTokens(b)
    decreases |b|
  {
    DocTokensReadyAppend(a, b);
    if |b| == 0 {
      assert a + b == a;
    } else {
      var b' := b[..|b| - 1];
      var last := b[|b| - 1];
      assert DocTokensReady(b') by {
        forall i | 0 <= i < |b'| && b'[i].Literal?
          ensures InnerSliceable(b'[i].text)
        {
          assert b'[i] == b[i];
        }
      }
      DocTokensAppend(a, b');
      assert (a + b)[..|a + b| - 1] == a + b';
      assert (a + b)[|a + b| - 1] == last;
      var c := CheckDocTokens(last);
      if c.Some? {
        SeqAssoc(DocTokens(a), DocTokens(b'), [c.value]);
      }
    }
  }

  /**
    `filter_map(check_doc_tokens)` keeps, in order, exactly the stripped and
    trimmed text of each literal token.
  */
  lemma {:induction false} DocTokensAreLiteralComments(tokens: seq<Token>)
    requires DocTokensReady(tokens)
    ensures DocTokens(tokens) == LiteralComments(tokens)
    decreases |tokens|
  {
    if |tokens| > 0 {
      var t := tokens[0];
      var rest := tokens[1..];
      assert DocTokensReady([t]);
      DocTokensReadyDrop(tokens);
      assert [t] + rest == tokens;
      DocTokensAppend([t], rest);
      assert [t][..0] == [];
      DocTokensAreLiteralComments(rest);
    }
  }

  /** `check_doc_attribute`: the comments of a `name = value` attribute, nothing for the other forms. */
  function CheckDocAttribute(attr: Attribute): (r: seq<string>)
    requires attr.meta.MetaNameValue? ==> DocTokensReady(attr.meta.value)
    ensures forall i :: 0 <= i < |r| ==> Trimmed(r[i])
    ensures !attr.meta.MetaNameValue? ==> r == []
    ensures attr.meta.MetaNameValue? ==> r == LiteralComments(attr.meta.value)
  {
    match attr.meta
    case MetaNameValue(value) =>
      DocTokensAreLiteralComments(value);
      DocTokens(value)
    case _ => []
  }

  /** `get_comments`: the trimmed text of the `doc` attributes, in order. */
  function GetComments(attrs: seq<Attribute>): (r: seq<string>)
    requires DocsReady(attrs)
    ensures forall i :: 0 <= i < |r| ==> Trimmed(r[i])
  {
    if |attrs| == 0 then []
    else
      var last := attrs[|attrs| - 1];
      GetComments(attrs[..|attrs| - 1]) + (if IsDocAttribute(last) then CheckDocAttribute(last) else [])
  }

  lemma DocsReadyAppend(a: seq<Attribute>, b: seq<Attribute>)
    requires DocsReady(a) && DocsReady(b)
    ensures DocsReady(a + b)
  {
    var ab := a + b;
    forall i | 0 <= i < |ab| && IsDocAttribute(ab[i]) && ab[i].meta.MetaNameValue?
      ensures DocTokensReady(ab[i].meta.value)
    {
      if i < |a| {
        assert ab[i] == a[i];
      } else {
        assert ab[i] == b[i - |a|];
      }
    }
  }

  lemma DocsReadyPrefix(attrs: seq<Attribute>, n: nat)
    requires DocsReady(attrs) && n <= |attrs|
    ensures DocsReady(attrs[..n])
  {
    forall i | 0 <= i < n && IsDocAttribute(attrs[..n][i]) && attrs[..n][i].meta.MetaNameValue?
      ensures DocTokensReady(attrs[..n][i].meta.value)
    {
      assert attrs[..n][i] == attrs[i];
    }
  }

  /** Comments keep the order of the attributes they come from. */
  lemma {:induction false} GetCommentsAppend(a: seq<Attribute>, b: seq<Attribute>)
    requires DocsReady(a) && DocsReady(b)
    ensures DocsReady(a + b)
    ensures GetComments(a + b) == GetComments(a) + GetComments(b)
    decreases |b|
  {
    DocsReadyAppend(a, b);
    if |b| == 0 {
      assert a + b == a;
    } else {
      var b' := b[..|b| - 1];
      var last := b[|b| - 1];
      DocsReadyPrefix(b, |b| - 1);
      GetCommentsAppend(a, b');
      assert (a + b)[..|a + b| - 1] == a + b';
      assert (a + b)[|a + b| - 1] == last;
      var tail := if IsDocAttribute(last) then CheckDocAttribute(last) else [];
      SeqAssoc(GetComments(a), GetComments(b'), tail);
    }
  }

  /** An attribute that is not a `doc` attribute contributes no comment. */
  lemma OtherAttributesIgnored(a: seq<Attribute>, attr: Attribute, b: seq<Attribute>)
    requires DocsReady(a) && DocsReady(b) && !IsDocAttribute(attr)
    ensures DocsReady(a + [attr] + b)
    ensures GetComments(a + [attr] + b) == GetComments(a + b)
  {
    assert DocsReady([attr]);
    GetCommentsAppend(a, [attr]);
    assert GetComments([attr]) == [] by {
      assert [attr][..0] == [];
    }
    GetCommentsAppend(a + [attr], b);
    GetCommentsAppend(a, b);
  }

  /** `/// text` (the attribute `#[doc = "text"]`) gives the single comment `text`, trimmed. */
  lemma DocCommentText(text: string)
    ensures var attr := Attribute(["doc"], MetaNameValue([Literal("\"" + text + "\"")]));
      DocsReady([attr]) && GetComments([attr]) == [Trim(text)]
  {
    var lit := "\"" + text + "\"";
    assert lit[1..|lit| - 1] == text;
    var attr := Attribute(["doc"], MetaNameValue([Literal(lit)]));
    assert [attr][..0] == [];
    assert DocTokens([Literal(lit)]) == [Trim(text)] by {
      assert [Literal(lit)][..0] == [];
    }
  }

  // ---------------------------------------------------------------------------
  // Indentation and generics.
  // ---------------------------------------------------------------------------

  /** `build_indentation`: `n` spaces, none when `n` is not positive (an empty range). */
  function BuildIndentation(n: int): (r: string)
    ensures |r| == if n > 0 then n else 0
    ensures forall i :: 0 <= i < |r| ==> r[i] == ' '
  {
    if n <= 0 then "" else BuildIndentation(n - 1) + " "
  }

  /** The identifiers of the type parameters, in order; lifetimes and consts are skipped. */
  function TypeParamNames(params: seq<GenericParam>): (names: seq<string>)
    ensures |names| <= |params|
    ensures names == [] <==> forall i :: 0 <= i < |params| ==> !params[i].TypeParam?
  {
    if |params| == 0 then []
    else
      var last := params[|params| - 1];
      var names := TypeParamNames(params[..|params| - 1]);
      assert forall i :: 0 <= i < |params| - 1 ==> params[i] == params[..|params| - 1][i];
      if last.TypeParam? then names + [last.ident] else names
  }

  lemma {:induction false} TypeParamNamesAppend(a: seq<GenericParam>, b: seq<GenericParam>)
    ensures TypeParamNames(a + b) == TypeParamNames(a) + TypeParamNames(b)
    decreases |b|
  {
    if |b| == 0 {
      assert a + b == a;
    } else {
      TypeParamNamesAppend(a, b[..|b| - 1]);
      assert (a + b)[..|a + b| - 1] == a + b[..|b| - 1];
    }
  }

  /**
    `extract_struct_generics`: empty when there is no type parameter,
    otherwise `<` + the type parameter names joined by `, ` + `>`.
  */
  function ExtractStructGenerics(params: seq<GenericParam>): (r: string)
    ensures r == "" <==> forall i :: 0 <= i < |params| ==> !params[i].TypeParam?
    ensures r != "" ==> r == "<" + Join(", ", TypeParamNames(params)) + ">"
  {
    var names := TypeParamNames(params);
    if names == [] then "" else "<" + Join(", ", names) + ">"
  }

  /** Lifetime and const parameters do not show in the rendered list. */
  lemma NonTypeParamsDropped(a: seq<GenericParam>, p: GenericParam, b: seq<GenericParam>)
    requires !p.TypeParam?
    ensures ExtractStructGenerics(a + [p] + b) == ExtractStructGenerics(a + b)
  {
    TypeParamNamesAppend(a, [p]);
    TypeParamNamesAppend(a + [p], b);
    TypeParamNamesAppend(a, b);
    assert TypeParamNames([p]) == [] by {
      assert [p][..0] == [];
    }
  }
}
