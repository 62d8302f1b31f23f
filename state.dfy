/**
  `BuildState` of src/lib.rs: the output buffer the emitters append to and
  the list of input files that could not be read or parsed, together with
  `BuildState::write_comments`, which renders doc comments as JSDoc.
*/
module BuildStates {
  import opened Text
  import opened Utils

  /** The ` * comment` lines of a multi-line JSDoc block, one per comment, in order. */
  function CommentLines(indentation: string, comments: seq<string>): string
  {
    if |comments| == 0 then ""
    else CommentLines(indentation, comments[..|comments| - 1]) + indentation + " * " + comments[|comments| - 1] + "\n"
  }

  /**
    What `write_comments` appends: nothing for no comment, a one-line
    `/** c */` for one, and a `/**` ... ` */` block for several, every line
    indented by `indentationAmount` spaces.
  */
  function CommentsText(comments: seq<string>, indentationAmount: int): string
  {
    var indentation := BuildIndentation(indentationAmount);
    if |comments| == 0 then ""
    else if |comments| == 1 then indentation + "/** " + comments[0] + " */\n"
    else indentation + "/**\n" + CommentLines(indentation, comments) + (indentation + " */\n")
  }

  /** The number of line breaks in `s`. */
  function Newlines(s: string): nat
  {
    if |s| == 0 then 0 else Newlines(s[..|s| - 1]) + (if s[|s| - 1] == '\n' then 1 else 0)
  }

  lemma {:induction false} NewlinesAppend(a: string, b: string)
    ensures Newlines(a + b) == Newlines(a) + Newlines(b)
    decreases |b|
  {
    if |b| == 0 {
      assert a + b == a;
    } else {
      NewlinesAppend(a, b[..|b| - 1]);
      assert (a + b)[..|a + b| - 1] == a + b[..|b| - 1];
    }
  }

  lemma {:induction false} NoNewlines(s: string)
    requires forall i :: 0 <= i < |s| ==> s[i] != '\n'
    ensures Newlines(s) == 0
    decreases |s|
  {
    if |s| > 0 {
      NoNewlines(s[..|s| - 1]);
    }
  }

  predicate SingleLine(s: string)
  {
    forall i :: 0 <= i < |s| ==> s[i] != '\n'
  }

  lemma SingleLineAppend(a: string, b: string)
    requires SingleLine(a) && SingleLine(b)
    ensures SingleLine(a + b)
  {
    forall i | 0 <= i < |a + b|
      ensures (a + b)[i] != '\n'
    {
      if i < |a| {
        assert (a + b)[i] == a[i];
      } else {
        assert (a + b)[i] == b[i - |a|];
      }
    }
  }

  /** A single line followed by a line break counts as one line. */
  lemma OneLine(s: string)
    requires SingleLine(s)
    ensures Newlines(s + "\n") == 1
  {
    NoNewlines(s);
    assert (s + "\n")[..|s|] == s;
  }

  lemma {:induction false} CommentLinesCount(indentation: string, comments: seq<string>)
    requires SingleLine(indentation)
    requires forall i :: 0 <= i < |comments| ==> SingleLine(comments[i])
    ensures Newlines(CommentLines(indentation, comments)) == |comments|
    decreases |comments|
  {
    if |comments| > 0 {
      var init := comments[..|comments| - 1];
      var c := comments[|comments| - 1];
      CommentLinesCount(indentation, init);
      NoNewlines(indentation);
      NoNewlines(" * ");
      NoNewlines(c);
      NewlinesAppend(CommentLines(indentation, init), indentation);
      NewlinesAppend(CommentLines(indentation, init) + indentation, " * ");
      NewlinesAppend(CommentLines(indentation, init) + indentation + " * ", c);
      NewlinesAppend(CommentLines(indentation, init) + indentation + " * " + c, "\n");
    }
  }

  /**
    The JSDoc block has no line for no comment, one line for one comment and
    one line per comment plus the opening and closing lines for several.
  */
  lemma CommentsTextLineCount(comments: seq<string>, indentationAmount: int)
    requires forall i :: 0 <= i < |comments| ==> SingleLine(comments[i])
    ensures Newlines(CommentsText(comments, indentationAmount)) ==
      if |comments| == 0 then 0 else if |comments| == 1 then 1 else |comments| + 2
  {
    var ind := BuildIndentation(indentationAmount);
    NoNewlines(ind);
    if |comments| == 1 {
      NoNewlines("/** ");
      NoNewlines(comments[0]);
      NewlinesAppend(ind, "/** ");
      NewlinesAppend(ind + "/** ", comments[0]);
      NewlinesAppend(ind + "/** " + comments[0], " */\n");
      OneLine(" */");
      assert " */\n" == " */" + "\n";
    } else if |comments| > 1 {
      CommentLinesCount(ind, comments);
      OneLine(" */");
      assert " */\n" == " */" + "\n";
      OneLine("/**");
      assert "/**\n" == "/**" + "\n";
      NewlinesAppend(ind, "/**\n");
      NewlinesAppend(ind + "/**\n", CommentLines(ind, comments));
      NewlinesAppend(ind, " */\n");
      NewlinesAppend(ind + "/**\n" + CommentLines(ind, comments), ind + " */\n");
    }
  }

  /** A non-empty JSDoc block opens with the indented `/**` and closes with `*/` and a line break. */
  lemma CommentsTextDelimited(comments: seq<string>, indentationAmount: int)
    requires |comments| > 0
    ensures var ind := BuildIndentation(indentationAmount);
      StartsWith(CommentsText(comments, indentationAmount), ind + "/**")
      && EndsWith(CommentsText(comments, indentationAmount), " */\n")
  {
    var ind := BuildIndentation(indentationAmount);
    var t := CommentsText(comments, indentationAmount);
    if |comments| == 1 {
      assert t == (ind + "/**") + (" " + comments[0] + " */\n");
      assert t == (ind + "/** " + comments[0]) + " */\n";
    } else {
      assert t == (ind + "/**") + ("\n" + CommentLines(ind, comments) + (ind + " */\n"));
      assert t == (ind + "/**\n" + CommentLines(ind, comments) + ind) + " */\n";
    }
  }

  /** The `export ` the type emitters put before a declaration in module mode; nothing in declaration-file mode. */
  function ExportPrefix(usesTypeInterface: bool): (r: string)
    ensures r == "" <==> usesTypeInterface
    ensures !usesTypeInterface ==> r == "export "
  {
    if usesTypeInterface then "" else "export "
  }

  /** `BuildState`: the TypeScript text built so far and the paths that could not be processed. */
  class BuildState {
    var types: string
    var unprocessedFiles: seq<string>

    constructor ()
      ensures types == "" && unprocessedFiles == []
    {
      types := "";
      unprocessedFiles := [];
    }

    /** `write_comments`: appends the JSDoc rendering of `comments`. */
    method WriteComments(comments: seq<string>, indentationAmount: int)
      modifies this
      ensures types == old(types) + CommentsText(comments, indentationAmount)
      ensures unprocessedFiles == old(unprocessedFiles)
    {
      var indentation := BuildIndentation(indentationAmount);
      if |comments| == 0 {
      } else if |comments| == 1 {
        types := types + (indentation + "/** " + comments[0] + " */\n");
      } else {
        var head := indentation + "/**\n";
        types := types + head;
        var i := 0;
        while i < |comments|
          invariant 0 <= i <= |comments|
          invariant types == old(types) + head + CommentLines(indentation, comments[..i])
          invariant unprocessedFiles == old(unprocessedFiles)
        {
          assert comments[..i + 1][..i] == comments[..i];
          var line := indentation + " * " + comments[i] + "\n";
          types := types + line;
          i := i + 1;
        }
        assert comments[..i] == comments;
        SeqAssoc(old(types), head, CommentLines(indentation, comments));
        types := types + (indentation + " */\n");
        SeqAssoc(old(types), head + CommentLines(indentation, comments), indentation + " */\n");
      }
    }
  }
}
