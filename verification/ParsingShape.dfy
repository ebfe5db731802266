/** Every tree the parser builds has the shape `ProgramOk`, and one of its error branches is dead. */
module ParsingShape {
  import opened Lexing
  import opened Parsing

  /** The streams the lexer can hand out, while the lookahead is not the abort marker. */
  predicate Good(toks: seq<Token>) {
    && StreamOk(toks)
    && !toks[0].Abort?
    && forall i :: 0 <= i < |toks| ==> TokenOk(toks[i])
  }

  lemma GoodNext(toks: seq<Token>)
    requires Good(toks) && Next(toks).Ok?
    ensures Good(Next(toks).rest)
  {
    var rest := toks[1..];
    assert forall i :: 0 <= i < |rest| ==> rest[i] == toks[i + 1];
  }

  lemma {:induction false} ArgumentsShape(toks: seq<Token>)
    requires Good(toks)
    ensures var r := ParseArguments(toks);
            && (r.Ok? ==> Good(r.rest) && !r.rest[0].Word? && forall i :: 0 <= i < |r.value| ==> PartsOk(r.value[i]))
            && r != Fail(UnexpectedInRedirection)
    decreases |toks|
  {
    if toks[0].Word? && Next(toks).Ok? {
      GoodNext(toks);
      assert TokenOk(toks[0]);
      ArgumentsShape(toks[1..]);
    }
  }

  lemma RedirectionShape(toks: seq<Token>)
    requires Good(toks) && (toks[0].Fd? || IsRedirection(toks[0]))
    ensures var r := ParseRedirection(toks);
            && (r.Ok? ==> Good(r.rest) && RedirOk(r.value))
            && r != Fail(UnexpectedInRedirection)
  {
    var ops := toks;
    if toks[0].Fd? {
      assert TokenOk(toks[0]);
      assert IsRedirection(toks[1]);
      if Next(toks).Ok? {
        GoodNext(toks);
        ops := toks[1..];
      }
    }
    if IsRedirection(ops[0]) && Next(ops).Ok? {
      GoodNext(ops);
      var words := ops[1..];
      assert TokenOk(words[0]);
      if words[0].Word? && Next(words).Ok? {
        GoodNext(words);
      }
    }
  }

  lemma {:induction false} RedirectionsShape(toks: seq<Token>)
    requires Good(toks)
    ensures var r := ParseRedirections(toks);
            && (r.Ok? ==> Good(r.rest) && forall i :: 0 <= i < |r.value| ==> RedirOk(r.value[i]))
            && r != Fail(UnexpectedInRedirection)
    decreases |toks|
  {
    if toks[0].Fd? || IsRedirection(toks[0]) {
      RedirectionShape(toks);
      var r := ParseRedirection(toks);
      if r.Ok? {
        RedirectionsShape(r.rest);
      }
    }
  }

  lemma CommandShape(toks: seq<Token>)
    requires Good(toks)
    ensures var r := ParseCommand(toks);
            && (r.Ok? ==> Good(r.rest) && (r.value.Null? || CommandOk(r.value, r.rest[0].Bg?)))
            && r != Fail(UnexpectedInRedirection)
  {
    ArgumentsShape(toks);
    var r := ParseArguments(toks);
    if toks[0].Word? && r.Ok? {
      assert r.value != [];
      RedirectionsShape(r.rest);
    }
  }

  lemma {:induction false} PipesShape(toks: seq<Token>)
    requires Good(toks)
    ensures var r := ParsePipes(toks);
            && (r.Ok? ==> Good(r.rest) && CommandsOk(r.value, r.rest[0].Bg?))
            && (r.Ok? && r.value == [] ==> r.rest == toks && !toks[0].Pipe?)
            && r != Fail(UnexpectedInRedirection)
    decreases |toks|
  {
    if toks[0].Pipe? && Next(toks).Ok? {
      GoodNext(toks);
      CommandShape(toks[1..]);
      var c := ParseCommand(toks[1..]);
      if c.Ok? && !c.value.Null? {
        PipesShape(c.rest);
      }
    }
  }

  lemma PipelineShape(toks: seq<Token>)
    requires Good(toks)
    ensures var r := ParsePipeline(toks);
            && (r.Ok? ==> Good(r.rest) && PipelineOk(r.value, r.rest[0].Bg?))
            && r != Fail(UnexpectedInRedirection)
  {
    CommandShape(toks);
    var c := ParseCommand(toks);
    if c.Ok? {
      PipesShape(c.rest);
      var others := ParsePipes(c.rest);
      if others.Ok? && others.value != [] {
        assert c.rest[0].Pipe?;
        assert ([c.value] + others.value)[1..] == others.value;
      }
    }
  }

  predicate OperandsOk(others: seq<(CondOp, Ast)>, last: bool) {
    forall i :: 0 <= i < |others| ==> PipelineOk(others[i].1, last && i == |others| - 1)
  }

  /** One operator, the pipeline behind it, and the operators behind that. */
  lemma OperatorsUnfold(toks: seq<Token>) returns (right: Parsed<Ast>, others: Parsed<seq<(CondOp, Ast)>>)
    requires toks != [] && (toks[0].And? || toks[0].Or?) && ParseOperators(toks).Ok?
    ensures Next(toks).Ok? && right == ParsePipeline(toks[1..]) && right.Ok?
    ensures others == ParseOperators(right.rest) && others.Ok?
    ensures ParseOperators(toks) == Ok([(OperatorOf(toks[0]), right.value)] + others.value, others.rest)
  {
    right := ParsePipeline(toks[1..]);
    others := ParseOperators(right.rest);
  }

  lemma OperandsCons(x: (CondOp, Ast), others: seq<(CondOp, Ast)>, last: bool)
    requires OperandsOk(others, last) && PipelineOk(x.1, last && others == [])
    ensures OperandsOk([x] + others, last)
  {}

  lemma {:induction false} OperatorsShape(toks: seq<Token>)
    requires Good(toks)
    ensures var r := ParseOperators(toks);
            && (r.Ok? ==> Good(r.rest) && OperandsOk(r.value, r.rest[0].Bg?))
            && (r.Ok? && r.value == [] ==> r.rest == toks)
            && (r.Ok? && r.value != [] ==> toks[0].And? || toks[0].Or?)
            && r != Fail(UnexpectedInRedirection)
    decreases |toks|
  {
    if (toks[0].And? || toks[0].Or?) && Next(toks).Ok? {
      GoodNext(toks);
      PipelineShape(toks[1..]);
      var right := ParsePipeline(toks[1..]);
      if right.Ok? {
        OperatorsShape(right.rest);
        var others := ParseOperators(right.rest);
        if others.Ok? {
          OperandsCons((OperatorOf(toks[0]), right.value), others.value, others.rest[0].Bg?);
        }
      }
    }
  }

  lemma {:induction false} LeftNestShape(left: Ast, others: seq<(CondOp, Ast)>, last: bool)
    requires ConditionalOk(left, last && others == []) && OperandsOk(others, last)
    ensures ConditionalOk(LeftNest(left, others), last)
    ensures others != [] ==> LeftNest(left, others).Conditional?
    decreases |others|
  {
    if others != [] {
      var tail := others[1..];
      assert OperandsOk(tail, last) by {
        assert forall i :: 0 <= i < |tail| ==> tail[i] == others[i + 1];
      }
      assert PipelineOk(others[0].1, last && tail == []);
      LeftNestShape(Conditional(left, others[0].1, others[0].0), tail, last);
    }
  }

  lemma ConditionalShape(toks: seq<Token>)
    requires Good(toks)
    ensures var r := ParseConditional(toks);
            && (r.Ok? ==> Good(r.rest) && ConditionalOk(r.value, true))
            && r != Fail(UnexpectedInRedirection)
  {
    PipelineShape(toks);
    var first := ParsePipeline(toks);
    if first.Ok? {
      OperatorsShape(first.rest);
      var others := ParseOperators(first.rest);
      if others.Ok? {
        assert !first.value.Conditional?;
        assert OperandsOk(others.value, true);
        assert others.value != [] ==> !first.rest[0].Bg?;
        LeftNestShape(first.value, others.value, true);
      }
    }
  }

  lemma {:induction false} SeparatorsShape(toks: seq<Token>)
    requires Good(toks)
    ensures var r := SkipSeparators(toks);
            (r.Ok? ==> Good(r.rest)) && r != Fail(UnexpectedInRedirection)
    decreases |toks|
  {
    if (toks[0].Semi? || toks[0].Bg?) && Next(toks).Ok? {
      GoodNext(toks);
      SeparatorsShape(toks[1..]);
    }
  }

  lemma {:induction false} ItemsShape(toks: seq<Token>)
    requires Good(toks)
    ensures var r := ParseItems(toks);
            && (r.Ok? ==> forall i :: 0 <= i < |r.value| ==> ItemOk(r.value[i]))
            && r != Fail(UnexpectedInRedirection)
    decreases |toks|
  {
    ConditionalShape(toks);
    var item := ParseConditional(toks);
    if item.Ok? && !item.value.Null? {
      SeparatorsShape(item.rest);
      var rest := SkipSeparators(item.rest);
      if rest.Ok? && !rest.rest[0].Eof? {
        ItemsShape(rest.rest);
      }
    }
  }

  /** On every input the parser ends with a tree of the fixed shape or with one of three errors;
      the fourth, an unexpected token inside a redirection, never happens. */
  lemma ParseShape(w: CString)
    ensures match ParseText(w)
            case Tree(ast) => ProgramOk(ast)
            case Exit(error) => error != UnexpectedInRedirection
  {
    var toks := Tokens(w, 0);
    TokensStreamOk(w, 0);
    TokensOk(w, 0);
    if !toks[0].Abort? && !toks[0].Eof? {
      ItemsShape(toks);
    }
  }
}
