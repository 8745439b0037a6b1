/** The parser (src/parser.c, lines 157-221). It walks the tokens left to right,
    cuts them at "|" into commands, refuses empty commands, and strips a final
    "&" from the last command when that command has more than one argument. */
module Parser {
  import opened Wrappers
  import opened Expressions
  import opened Tokeniser

  const Pipe := "|"
  const Ampersand := "&"

  /** Why parsing failed: no tokens at all, or a syntax error at a token index. */
  datatype ParseError = EmptyInput | SyntaxError(at: nat)

  /** A parsed expression as a value: the argument vectors and the background flag. */
  datatype Parsed = Parsed(commands: seq<seq<string>>, background: bool)

  datatype ParseResult = Ok(value: Parsed) | Fail(error: ParseError)

  /** Where the main loop of the parser stops: at the end of the tokens, with the
      finished commands and the current one, or at the "|" that breaks it. */
  datatype ScanResult = Finished(done: seq<seq<string>>, current: seq<string>) | Broke(at: nat)

  /** The loop of parse_tokens from token `i` on, `done` holding the commands
      already pushed and `cur` the arguments of the current command. */
  function Scan(t: seq<string>, i: nat, done: seq<seq<string>>, cur: seq<string>): (r: ScanResult)
    requires i <= |t|
    ensures r.Broke? ==> i <= r.at < |t| && t[r.at] == Pipe
    ensures r.Finished? && r.current == [] && i < |t| ==> t[|t| - 1] == Pipe
    decreases |t| - i
  {
    if i == |t| then Finished(done, cur)
    else if t[i] == Pipe then
      if |cur| < 1 then Broke(i) else Scan(t, i + 1, done + [cur], [])
    else Scan(t, i + 1, done, cur + [t[i]])
  }

  /** parse_tokens as a function of the token list. */
  function Parse(t: seq<string>): (r: ParseResult)
    ensures r.Fail? && r.error.SyntaxError? ==> r.error.at < |t| && t[r.error.at] == Pipe
    ensures r.Ok? ==> |r.value.commands| >= 1
  {
    if |t| == 0 then Fail(EmptyInput)
    else match Scan(t, 0, [], [])
      case Broke(at) => Fail(SyntaxError(at))
      case Finished(done, cur) =>
        var background := |cur| > 1 && cur[|cur| - 1] == Ampersand;
        var last := if background then cur[..|cur| - 1] else cur;
        if |last| < 1 then Fail(SyntaxError(|t| - 1))
        else Ok(Parsed(done + [last], background))
  }

  // ---------------------------------------------------------------------------
  // Reference notions the parser is measured against

  /** A "|" that arrives while the current command is empty: at the very start
      or right after another "|". */
  predicate EmptySegmentAt(t: seq<string>, i: int) {
    0 <= i < |t| && t[i] == Pipe && (i == 0 || t[i - 1] == Pipe)
  }

  predicate NoEmptySegmentBefore(t: seq<string>, n: int) {
    forall j :: 0 <= j < n ==> !EmptySegmentAt(t, j)
  }

  predicate PipeFree(c: seq<string>) {
    forall k :: 0 <= k < |c| ==> c[k] != Pipe
  }

  /** Every command has an argument and none of its arguments is "|". */
  predicate ProperCommands(cs: seq<seq<string>>) {
    forall k :: 0 <= k < |cs| ==> |cs[k]| >= 1 && PipeFree(cs[k])
  }

  /** cs[0] + ["|"] + cs[1] + … + ["|"] + cs[n-1]. */
  function JoinPipes(cs: seq<seq<string>>): seq<string>
    requires |cs| >= 1
  {
    if |cs| == 1 then cs[0] else JoinPipes(cs[..|cs| - 1]) + [Pipe] + cs[|cs| - 1]
  }

  lemma JoinPipesExtend(done: seq<seq<string>>, cur: seq<string>, x: string)
    ensures JoinPipes(done + [cur + [x]]) == JoinPipes(done + [cur]) + [x]
  {
    if done != [] {
      assert (done + [cur + [x]])[..|done|] == done;
      assert (done + [cur])[..|done|] == done;
    }
  }

  lemma JoinPipesClose(cs: seq<seq<string>>)
    requires |cs| >= 1
    ensures JoinPipes(cs + [[]]) == JoinPipes(cs) + [Pipe]
  {
    assert (cs + [[]])[..|cs|] == cs;
  }

  lemma JoinPipesLast(done: seq<seq<string>>, cur: seq<string>)
    ensures JoinPipes(done + [cur]) == if done == [] then cur else JoinPipes(done) + [Pipe] + cur
  {
    if done != [] {
      assert (done + [cur])[..|done|] == done;
    }
  }

  /** What holds of the parser's state after it has consumed `i` tokens. */
  ghost predicate ScanState(t: seq<string>, i: nat, done: seq<seq<string>>, cur: seq<string>) {
    && i <= |t|
    && JoinPipes(done + [cur]) == t[..i]
    && ProperCommands(done)
    && PipeFree(cur)
    && (cur == [] <==> (i == 0 || t[i - 1] == Pipe))
    && NoEmptySegmentBefore(t, i)
  }

  /** A "|" after a non-empty command closes it and keeps the state. */
  lemma ScanStepPipe(t: seq<string>, i: nat, done: seq<seq<string>>, cur: seq<string>)
    requires ScanState(t, i, done, cur) && i < |t| && t[i] == Pipe && |cur| >= 1
    ensures ScanState(t, i + 1, done + [cur], [])
  {
    JoinPipesClose(done + [cur]);
    assert t[..i + 1] == t[..i] + [Pipe];
    assert ProperCommands(done + [cur]) by {
      forall k | 0 <= k < |done| + 1
        ensures |(done + [cur])[k]| >= 1 && PipeFree((done + [cur])[k])
      {
        if k < |done| { assert (done + [cur])[k] == done[k]; }
      }
    }
    assert !EmptySegmentAt(t, i);
  }

  /** An argument joins the current command and keeps the state. */
  lemma ScanStepArg(t: seq<string>, i: nat, done: seq<seq<string>>, cur: seq<string>)
    requires ScanState(t, i, done, cur) && i < |t| && t[i] != Pipe
    ensures ScanState(t, i + 1, done, cur + [t[i]])
  {
    JoinPipesExtend(done, cur, t[i]);
    assert t[..i + 1] == t[..i] + [t[i]];
  }

  /** A "|" that meets an empty command is the first empty segment. */
  lemma ScanStepBreak(t: seq<string>, i: nat, done: seq<seq<string>>, cur: seq<string>)
    requires ScanState(t, i, done, cur) && i < |t| && t[i] == Pipe && |cur| < 1
    ensures EmptySegmentAt(t, i) && NoEmptySegmentBefore(t, i)
  {
  }

  /** The loop stops at the first "|" that meets an empty command; if there is
      none it consumes every token, and the commands it collected, joined by
      "|", give the tokens back. */
  lemma {:induction false} ScanSound(t: seq<string>, i: nat, done: seq<seq<string>>, cur: seq<string>)
    requires ScanState(t, i, done, cur)
    ensures match Scan(t, i, done, cur)
      case Broke(b) => i <= b < |t| && EmptySegmentAt(t, b) && NoEmptySegmentBefore(t, b)
      case Finished(d, c) => ScanState(t, |t|, d, c)
    decreases |t| - i
  {
    if i == |t| {
    } else if t[i] == Pipe {
      if |cur| >= 1 {
        ScanStepPipe(t, i, done, cur);
        ScanSound(t, i + 1, done + [cur], []);
      } else {
        ScanStepBreak(t, i, done, cur);
      }
    } else {
      ScanStepArg(t, i, done, cur);
      ScanSound(t, i + 1, done, cur + [t[i]]);
    }
  }

  lemma ScanStart(t: seq<string>)
    ensures ScanState(t, 0, [], [])
  {
    assert JoinPipes([[]]) == [];
  }

  /** A parse fails exactly when there are no tokens, some "|" meets an empty
      command, or the tokens end with "|". The error names the first offending
      "|", or the last token for a trailing "|". */
  lemma ParseFailure(t: seq<string>)
    ensures Parse(t) == Fail(EmptyInput) <==> |t| == 0
    ensures Parse(t).Fail? <==> |t| == 0 || !NoEmptySegmentBefore(t, |t|) || t[|t| - 1] == Pipe
    ensures Parse(t).Fail? && Parse(t).error.SyntaxError? ==>
              var b := Parse(t).error.at;
              || (EmptySegmentAt(t, b) && NoEmptySegmentBefore(t, b))
              || (b == |t| - 1 && t[b] == Pipe && NoEmptySegmentBefore(t, |t|))
  {
    if |t| > 0 {
      ScanStart(t);
      ScanSound(t, 0, [], []);
      var scan := Scan(t, 0, [], []);
      if scan.Broke? {
        assert Parse(t) == Fail(SyntaxError(scan.at));
      } else {
        var d, c := scan.done, scan.current;
        ParseFinished(t, d, c);
        if c != [] {
          assert c[|c| - 1] != Pipe;
          JoinPipesLast(d, c);
          assert t[|t| - 1] == c[|c| - 1];
        }
      }
    }
  }

  /** The last command ends the joined tokens, right after a "|" unless it is the only one. */
  lemma JoinPipesTail(done: seq<seq<string>>, cur: seq<string>)
    ensures var j := JoinPipes(done + [cur]);
            && |j| >= |cur| && j[|j| - |cur|..] == cur
            && (done == [] ==> j == cur)
            && (done != [] ==> |j| > |cur| && j[|j| - |cur| - 1] == Pipe)
  {
    JoinPipesLast(done, cur);
  }

  lemma ProperAppend(cs: seq<seq<string>>, c: seq<string>)
    requires ProperCommands(cs) && |c| >= 1 && PipeFree(c)
    ensures ProperCommands(cs + [c])
  {
    forall k | 0 <= k < |cs| + 1
      ensures |(cs + [c])[k]| >= 1 && PipeFree((cs + [c])[k])
    {
      if k < |cs| { assert (cs + [c])[k] == cs[k]; }
    }
  }

  /** The end of a successful parse, from the state a finished scan leaves. */
  lemma FinishedSuccess(t: seq<string>, d: seq<seq<string>>, c: seq<string>, last: seq<string>, background: bool)
    requires ScanState(t, |t|, d, c) && |t| > 0
    requires background == (|c| > 1 && c[|c| - 1] == Ampersand)
    requires last == if background then c[..|c| - 1] else c
    requires |last| >= 1
    ensures ProperCommands(d + [last])
    ensures JoinPipes(d + [last]) + (if background then [Ampersand] else []) == t
    ensures background <==> |t| >= 2 && t[|t| - 1] == Ampersand && t[|t| - 2] != Pipe
  {
    JoinPipesTail(d, c);
    assert t[|t| - |c|..] == c;
    assert t[|t| - 1] == c[|c| - 1];
    if background {
      assert c == last + [c[|c| - 1]];
      JoinPipesExtend(d, last, c[|c| - 1]);
      assert t[|t| - 2] == c[|c| - 2];
      assert PipeFree(last) by {
        forall k | 0 <= k < |last| ensures last[k] != Pipe {
          assert last[k] == c[k];
        }
      }
    } else if |c| > 1 {
      assert t[|t| - 2] == c[|c| - 2];
    }
    ProperAppend(d, last);
  }

  /** A successful parse yields at least one command, every command has an
      argument and no argument is "|"; joining the commands with "|" and putting
      back a stripped "&" gives the tokens. The expression runs in the background
      exactly when the tokens end with "&" preceded by an argument, not by "|". */
  lemma ParseSuccess(t: seq<string>, p: Parsed)
    requires Parse(t) == Ok(p)
    ensures |p.commands| >= 1 && ProperCommands(p.commands)
    ensures JoinPipes(p.commands) + (if p.background then [Ampersand] else []) == t
    ensures p.background <==> |t| >= 2 && t[|t| - 1] == Ampersand && t[|t| - 2] != Pipe
  {
    ScanStart(t);
    ScanSound(t, 0, [], []);
    var scan := Scan(t, 0, [], []);
    if scan.Broke? {
      assert false;
    }
    var d, c := scan.done, scan.current;
    ParseFinished(t, d, c);
    var background := |c| > 1 && c[|c| - 1] == Ampersand;
    var last := if background then c[..|c| - 1] else c;
    FinishedSuccess(t, d, c, last, background);
  }

  lemma {:induction false} JoinPipesBounds(cs: seq<seq<string>>)
    requires |cs| >= 1 && ProperCommands(cs)
    ensures |cs| <= |JoinPipes(cs)|
    ensures forall k :: 0 <= k < |cs| ==> |cs[k]| <= |JoinPipes(cs)|
    decreases |cs|
  {
    if |cs| > 1 {
      var init := cs[..|cs| - 1];
      assert ProperCommands(init);
      JoinPipesBounds(init);
      assert forall k :: 0 <= k < |init| ==> cs[k] == init[k];
    }
  }

  /** With at most TOKARRAY_MAX_TOKENS tokens a parsed expression fits the
      fixed arrays of command_t and expression_t, so the parser's unchecked
      pushes never drop an argument or a command. */
  lemma ParseBounds(t: seq<string>, p: Parsed)
    requires Parse(t) == Ok(p) && |t| <= TokarrayMaxTokens
    ensures |p.commands| <= ExpressionMaxCmds
    ensures forall k :: 0 <= k < |p.commands| ==> |p.commands[k]| <= CommandMaxArgv
  {
    ParseSuccess(t, p);
    JoinPipesBounds(p.commands);
  }

  // ---------------------------------------------------------------------------
  // Worked examples

  lemma ExamplePipeline()
    ensures Parse(["ls", "-la", "|", "wc", "-l"]) == Ok(Parsed([["ls", "-la"], ["wc", "-l"]], false))
  {
    var t := ["ls", "-la", "|", "wc", "-l"];
    assert t[0] != Pipe && t[1] != Pipe && t[2] == Pipe && t[3] != Pipe && t[4] != Pipe;
    assert [] + [t[0]] == ["ls"] && ["ls"] + [t[1]] == ["ls", "-la"];
    assert [] + [["ls", "-la"]] == [["ls", "-la"]];
    assert [] + [t[3]] == ["wc"] && ["wc"] + [t[4]] == ["wc", "-l"];
    assert Scan(t, 0, [], []) == Finished([["ls", "-la"]], ["wc", "-l"]);
  }

  lemma ExampleBackground()
    ensures Parse(["sleep", "5", "&"]) == Ok(Parsed([["sleep", "5"]], true))
  {
    var t := ["sleep", "5", "&"];
    assert t[0] != Pipe && t[1] != Pipe && t[2] != Pipe;
    assert [] + [t[0]] == ["sleep"] && ["sleep"] + [t[1]] == ["sleep", "5"];
    assert ["sleep", "5"] + [t[2]] == t;
    assert Scan(t, 0, [], []) == Finished([], t);
    assert t[..2] == ["sleep", "5"];
  }

  /** A lone "&" is not stripped: it stays a one-argument command in the foreground. */
  lemma ExampleLoneAmpersand()
    ensures Parse(["&"]) == Ok(Parsed([["&"]], false))
    ensures Parse(["ls", "|", "&"]) == Ok(Parsed([["ls"], ["&"]], false))
  {
    assert ["&"][0] != Pipe && [] + ["&"] == ["&"];
    assert Scan(["&"], 0, [], []) == Finished([], ["&"]);
    var t := ["ls", "|", "&"];
    assert t[0] != Pipe && t[1] == Pipe && t[2] != Pipe;
    assert [] + [t[0]] == ["ls"] && [] + [["ls"]] == [["ls"]] && [] + [t[2]] == ["&"];
    assert Scan(t, 0, [], []) == Finished([["ls"]], ["&"]);
  }

  lemma ExampleDoublePipe()
    ensures Parse(["ls", "|", "|", "wc"]) == Fail(SyntaxError(2))
    ensures Parse(["ls", "|"]) == Fail(SyntaxError(1))
  {
  }

  // ---------------------------------------------------------------------------
  // The parser as the source runs it

  /** How a parse ends once the loop has consumed every token. */
  lemma ParseFinished(t: seq<string>, done: seq<seq<string>>, cur: seq<string>)
    requires |t| > 0 && Scan(t, 0, [], []) == Finished(done, cur)
    ensures var background := |cur| > 1 && cur[|cur| - 1] == Ampersand;
            var last := if background then cur[..|cur| - 1] else cur;
            Parse(t) == if |last| < 1 then Fail(SyntaxError(|t| - 1)) else Ok(Parsed(done + [last], background))
  {
  }

  /** How a parse ends when the loop breaks at a "|". */
  lemma ParseBroke(t: seq<string>, b: nat)
    requires |t| > 0 && Scan(t, 0, [], []) == Broke(b)
    ensures Parse(t) == Fail(SyntaxError(b))
  {
  }

  lemma ScanPipe(t: seq<string>, i: nat, done: seq<seq<string>>, cur: seq<string>)
    requires i < |t| && t[i] == Pipe
    ensures Scan(t, i, done, cur) == if |cur| < 1 then Broke(i) else Scan(t, i + 1, done + [cur], [])
  {
  }

  lemma ScanArgument(t: seq<string>, i: nat, done: seq<seq<string>>, cur: seq<string>)
    requires i < |t| && t[i] != Pipe
    ensures Scan(t, i, done, cur) == Scan(t, i + 1, done, cur + [t[i]])
  {
  }

  /** One pass of the loop of parse_tokens over token `index`: a "|" closes the
      current command, pushing it onto `expr` and starting a fresh one, unless
      the current command is empty, which breaks the loop; any other token is
      appended to the current command. `next` is the command being built
      afterwards. */
  method ParseToken(ghost t: seq<string>, tokens: Tokarray, index: int, expr: Expression, cur: Command)
    returns (next: Command, broke: bool)
    requires tokens.Valid() && tokens.Contents == t && 0 <= index < |t|
    requires expr.Valid() && cur.Valid() && cur !in expr.Repr && cur.argv !in expr.Repr
    requires tokens.tokens != cur.argv && expr.numCmds + cur.numArgs <= index
    modifies expr, expr.cmds, cur, cur.argv
    ensures expr.Valid() && next.Valid() && next !in expr.Repr && next.argv !in expr.Repr
    ensures expr.background == old(expr.background)
    ensures fresh(expr.Repr - old(expr.Repr) - {cur, cur.argv})
    ensures next == cur || (fresh(next) && fresh(next.argv))
    ensures broke ==> && Scan(t, index, old(expr.Commands), old(cur.Args)) == Broke(index)
                      && next == cur && expr.Commands == old(expr.Commands) && cur.Args == old(cur.Args)
    ensures !broke ==> && expr.numCmds + next.numArgs <= index + 1
                       && Scan(t, index, old(expr.Commands), old(cur.Args)) == Scan(t, index + 1, expr.Commands, next.Args)
    ensures broke <==> t[index] == Pipe && |old(cur.Args)| < 1
    ensures !broke && t[index] == Pipe ==> expr.Commands == old(expr.Commands) + [old(cur.Args)] && next.Args == []
    ensures t[index] != Pipe ==> next == cur && expr.Commands == old(expr.Commands) && next.Args == old(cur.Args) + [t[index]]
  {
    next := cur;
    broke := false;
    if tokens.tokens[index] == Some(Pipe) {
      ScanPipe(t, index, expr.Commands, cur.Args);
      if cur.numArgs < 1 {
        broke := true;
      } else {
        var _ := expr.CmdPush(cur);
        next := new Command();
      }
    } else {
      ScanArgument(t, index, expr.Commands, cur.Args);
      var _ := cur.ArgvPush(tokens.tokens[index].value);
    }
  }

  /** The loop of parse_tokens: walks the tokens, pushing each finished command
      onto `expr` and starting a fresh one at every "|", and stops early at a
      "|" that meets an empty command. `last` is the command being built when
      the loop ends. */
  method ParseCommands(ghost t: seq<string>, tokens: Tokarray, expr: Expression, cmd: Command)
    returns (last: Command, index: int, syntaxError: bool)
    requires tokens.Valid() && tokens.Contents == t
    requires expr.Valid() && cmd.Valid() && cmd !in expr.Repr && cmd.argv !in expr.Repr
    requires expr.Commands == [] && cmd.Args == [] && !expr.background
    requires tokens.tokens != cmd.argv
    modifies expr, expr.cmds, cmd, cmd.argv
    ensures expr.Valid() && last.Valid() && last !in expr.Repr && last.argv !in expr.Repr
    ensures !expr.background && expr.numCmds + last.numArgs <= index
    ensures fresh(expr.Repr - old(expr.Repr) - {cmd, cmd.argv})
    ensures last == cmd || (fresh(last) && fresh(last.argv))
    ensures syntaxError ==> 0 <= index < |t| && Scan(t, 0, [], []) == Broke(index)
    ensures !syntaxError ==> index == |t| && Scan(t, 0, [], []) == Finished(expr.Commands, last.Args)
  {
    last := cmd;
    index := 0;
    syntaxError := false;
    while index < tokens.numTokens
      invariant 0 <= index <= tokens.numTokens
      invariant !syntaxError && !expr.background
      invariant expr.Valid() && last.Valid() && last !in expr.Repr && last.argv !in expr.Repr
      invariant fresh(expr.Repr - old(expr.Repr) - {cmd, cmd.argv})
      invariant last == cmd || (fresh(last) && fresh(last.argv))
      invariant expr.numCmds + last.numArgs <= index
      invariant Scan(t, 0, [], []) == Scan(t, index, expr.Commands, last.Args)
    {
      ghost var done, cur := expr.Commands, last.Args;
      var broke;
      last, broke := ParseToken(t, tokens, index, expr, last);
      if broke {
        assert Scan(t, index, done, cur) == Broke(index);
        syntaxError := true;
        break;
      }
      index := index + 1;
    }
  }

  /** The end of parse_tokens once every token is consumed: a final "&" after an
      argument is stripped and makes the expression a background one; an empty
      last command is a syntax error at the last token; otherwise the last
      command is pushed. */
  method FinishExpression(ghost t: seq<string>, index: int, expr: Expression, cmd: Command)
    returns (result: Expression?, failure: Option<ParseError>)
    requires index == |t| > 0 && Scan(t, 0, [], []) == Finished(expr.Commands, cmd.Args)
    requires expr.Valid() && cmd.Valid() && cmd !in expr.Repr && cmd.argv !in expr.Repr
    requires !expr.background && expr.numCmds + cmd.numArgs <= |t| <= TokarrayMaxTokens
    modifies expr, expr.cmds, cmd, cmd.argv
    ensures result == null <==> Parse(t).Fail?
    ensures result == null ==> failure == Some(Parse(t).error)
    ensures result != null ==> && result == expr && failure == None && expr.Valid()
                               && expr.Repr == old(expr.Repr) + {cmd, cmd.argv}
                               && Parse(t) == Ok(Parsed(expr.Commands, expr.background))
  {
    ParseFinished(t, expr.Commands, cmd.Args);
    if cmd.numArgs > 1 && cmd.argv[cmd.numArgs - 1] == Some(Ampersand) {
      expr.background := true;
      var _ := cmd.ArgvPop();
    }
    if cmd.numArgs < 1 {
      cmd.Destroy();
      return null, Some(SyntaxError(index - 1));
    }
    var _ := expr.CmdPush(cmd);
    return expr, None;
  }

  /** parse_tokens: builds the expression in place, command by command, and
      returns null on failure (the diagnostic it prints is the `failure` value). */
  method ParseTokens(tokens: Tokarray) returns (expr: Expression?, failure: Option<ParseError>)
    requires tokens.Valid()
    ensures expr == null <==> Parse(tokens.Contents).Fail?
    ensures expr == null ==> failure == Some(Parse(tokens.Contents).error)
    ensures expr != null ==> && failure == None && fresh(expr.Repr) && expr.Valid()
                             && Parse(tokens.Contents) == Ok(Parsed(expr.Commands, expr.background))
  {
    ghost var t := tokens.Contents;
    var e := new Expression();
    var cmd := new Command();

    if tokens.numTokens == 0 {
      e.Destroy();
      cmd.Destroy();
      assert tokens.Contents == t && Parse(t) == Fail(EmptyInput);
      return null, Some(EmptyInput);
    }

    var last, index, syntaxError := ParseCommands(t, tokens, e, cmd);
    if syntaxError {
      ParseBroke(t, index);
      e.Destroy();
      last.Destroy();
      assert tokens.Contents == t;
      return null, Some(SyntaxError(index));
    }
    expr, failure := FinishExpression(t, index, e, last);
  }
}
