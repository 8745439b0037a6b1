/** The shell's line reader and its per-line loop (src/tmnsh.c). A line ends at
    ';', at a newline or at the end of the stream; '#' starts a comment that runs
    to the end of the line; a line longer than the buffer is cut and its tail
    thrown away. Each non-empty line is tokenised, parsed and handed to the
    interpreter. */
module Shell {
  import opened Wrappers
  import opened Expressions
  import opened Tokeniser
  import opened Parser

  const BufferMaxSize := 4097

  // ---------------------------------------------------------------------------
  // The input stream

  /** What fgetc returns: a character or the end-of-stream marker. */
  datatype Input = Char(c: char) | EndOfFile

  /** An input stream; `rest` is what fgetc has not returned yet. */
  class Stream {
    var rest: seq<char>

    constructor (data: seq<char>)
      ensures rest == data
    {
      rest := data;
    }

    /** fgetc: the next character, or EOF (again and again) once the stream is empty. */
    method Getc() returns (x: Input)
      modifies this
      ensures old(rest) == [] ==> x == EndOfFile && rest == []
      ensures old(rest) != [] ==> x == Char(old(rest)[0]) && rest == old(rest)[1..]
    {
      if rest == [] {
        return EndOfFile;
      }
      x := Char(rest[0]);
      rest := rest[1..];
    }
  }

  /** ';' and newline end a line. */
  predicate EndsLine(c: char) {
    c == ';' || c == '\n'
  }

  /** The characters that stop the storing of a line: the line ends and '#'. */
  predicate StopsStore(c: char) {
    EndsLine(c) || c == '#'
  }

  predicate IsNul(c: char) {
    c == '\0'
  }

  /** The index of the first character of `s` that satisfies `p`, or |s|. */
  function First(s: seq<char>, p: char -> bool): (k: nat)
    ensures k <= |s|
  {
    if s == [] || p(s[0]) then 0 else First(s[1..], p) + 1
  }

  lemma {:induction false} FirstFinds(s: seq<char>, p: char -> bool)
    ensures forall i :: 0 <= i < First(s, p) ==> !p(s[i])
    ensures First(s, p) < |s| ==> p(s[First(s, p)])
  {
    if s != [] && !p(s[0]) {
      FirstFinds(s[1..], p);
      assert forall i :: 1 <= i < First(s, p) ==> s[i] == s[1..][i - 1];
    }
  }

  /** `k` is the first index satisfying `p` (or |s| when there is none). */
  lemma FirstIs(s: seq<char>, p: char -> bool, k: nat)
    requires k <= |s| && (forall i :: 0 <= i < k ==> !p(s[i])) && (k < |s| ==> p(s[k]))
    ensures First(s, p) == k
  {
    FirstFinds(s, p);
  }

  /** A C string: the characters before the first NUL. */
  function CStr(buffer: seq<char>): seq<char> {
    buffer[..First(buffer, IsNul)]
  }

  // ---------------------------------------------------------------------------
  // What read_data reads

  /** One read: the stored line, what is left of the stream, and whether there
      is more to read. */
  datatype Line = Line(text: seq<char>, rest: seq<char>, more: bool)

  /** A read from stream `s` into a buffer that takes at most `cap` characters
      before the terminator: the characters up to the first ';', newline or '#'
      (at most `cap` of them) are stored, and the stream is consumed through
      the first ';' or newline, or to its end. */
  function ReadLine(s: seq<char>, cap: nat): (r: Line)
    ensures |r.text| <= cap && |r.text| <= |s|
    ensures r.more ==> |r.rest| < |s|
    ensures !r.more ==> r.rest == []
  {
    var stop := First(s, StopsStore);
    var end := First(s, EndsLine);
    Line(s[..if stop < cap then stop else cap], if end < |s| then s[end + 1..] else [], end < |s|)
  }

  /** The stored text is a prefix of the stream without ';', newline or '#', at
      most `cap` long; it is cut short of `cap` only at one of those characters
      or at the end of the stream. */
  lemma ReadLineText(s: seq<char>, cap: nat)
    ensures var t := ReadLine(s, cap).text;
            && |t| <= cap && t == s[..|t|]
            && (forall k :: 0 <= k < |t| ==> !StopsStore(t[k]))
            && (|t| < cap ==> |t| == |s| || StopsStore(s[|t|]))
  {
    FirstFinds(s, StopsStore);
  }

  /** The stream is consumed through the first ';' or newline at or after the
      point where storing stopped (the comment and the overflow are thrown
      away), and there is more to read exactly when that terminator was not
      the end of the stream. */
  lemma ReadLineConsumes(s: seq<char>, cap: nat)
    ensures var r := ReadLine(s, cap);
            var j := |s| - |r.rest| - 1;
            && (r.more ==> && |r.text| <= j < |s| && EndsLine(s[j]) && r.rest == s[j + 1..]
                           && forall k :: |r.text| <= k < j ==> !EndsLine(s[k]))
            && (!r.more ==> r.rest == [] && forall k :: |r.text| <= k < |s| ==> !EndsLine(s[k]))
  {
    FirstFinds(s, StopsStore);
    FirstFinds(s, EndsLine);
    var stop, end := First(s, StopsStore), First(s, EndsLine);
    if stop < end {
      assert !EndsLine(s[stop]);
    }
  }

  // ---------------------------------------------------------------------------
  // read_data

  /** read_data as written: the storing loop runs while bytes_read <= buffer_size-1,
      so it stores up to `bufferSize` characters, and the terminating NUL goes to
      index `nulAt`, which is `bufferSize` itself for a long line. The buffer is
      kept as the sequence of characters written to it. */
  method ReadDataAsWritten(stream: Stream, bufferSize: int) returns (written: seq<char>, nulAt: int, more: bool)
    requires bufferSize >= 1
    modifies stream
    ensures var r := ReadLine(old(stream.rest), bufferSize);
            && written == r.text && nulAt == |written|
            && stream.rest == r.rest && more == r.more
  {
    ghost var s := stream.rest;
    var bytesRead := 0;
    var character := EndOfFile;
    written := [];
    while bytesRead <= bufferSize - 1
      invariant 0 <= bytesRead <= bufferSize && |written| == bytesRead
      invariant bytesRead <= |s| && stream.rest == s[bytesRead..] && written == s[..bytesRead]
      invariant forall i :: 0 <= i < bytesRead ==> !StopsStore(s[i])
      invariant bytesRead > 0 ==> character == Char(s[bytesRead - 1])
    {
      character := stream.Getc();
      if character.EndOfFile? || StopsStore(character.c) {
        break;
      }
      written := written + [character.c];
      bytesRead := bytesRead + 1;
    }
    nulAt := bytesRead;
    ReadLineStored(s, bufferSize, bytesRead, character, stream.rest);
    more := SkipRest(stream, character, s);
  }

  /** The state in which the storing loop of read_data ends, whichever way it
      ends, fixes the stored text. */
  lemma ReadLineStored(s: seq<char>, cap: nat, stored: nat, character: Input, rest: seq<char>)
    requires stored <= cap && stored <= |s| && forall i :: 0 <= i < stored ==> !StopsStore(s[i])
    requires || (stored == cap && stored > 0 && character == Char(s[stored - 1]) && rest == s[stored..])
             || (stored < |s| && character == Char(s[stored]) && StopsStore(s[stored]) && rest == s[stored + 1..])
             || (stored == |s| && character == EndOfFile && rest == [])
    ensures ReadLine(s, cap).text == s[..stored]
    ensures |s| - |rest| >= 1 || character == EndOfFile
    ensures character.Char? ==> character.c == s[|s| - |rest| - 1]
    ensures forall i :: 0 <= i < |s| - |rest| - 1 ==> !EndsLine(s[i])
    ensures character.EndOfFile? ==> rest == [] && forall i :: 0 <= i < |s| ==> !EndsLine(s[i])
  {
    FirstFinds(s, StopsStore);
    if stored < cap {
      FirstIs(s, StopsStore, stored);
    }
  }

  /** The second loop of read_data: reads on to the first ';' or newline, or to
      the end of the stream, and reports whether the stream goes on. `character`
      is the last character read so far. */
  method SkipRest(stream: Stream, character: Input, ghost s: seq<char>) returns (more: bool)
    requires |stream.rest| <= |s| && stream.rest == s[|s| - |stream.rest|..]
    requires |s| - |stream.rest| >= 1 || character == EndOfFile
    requires character.Char? ==> character.c == s[|s| - |stream.rest| - 1]
    requires forall i :: 0 <= i < |s| - |stream.rest| - 1 ==> !EndsLine(s[i])
    requires character.EndOfFile? ==> stream.rest == [] && forall i :: 0 <= i < |s| ==> !EndsLine(s[i])
    modifies stream
    ensures var end := First(s, EndsLine);
            && more == (end < |s|) && stream.rest == if end < |s| then s[end + 1..] else []
  {
    var c := character;
    while !(c.EndOfFile? || EndsLine(c.c))
      invariant |stream.rest| <= |s| && stream.rest == s[|s| - |stream.rest|..]
      invariant |s| - |stream.rest| >= 1 || c == EndOfFile
      invariant c.Char? ==> c.c == s[|s| - |stream.rest| - 1]
      invariant forall i :: 0 <= i < |s| - |stream.rest| - 1 ==> !EndsLine(s[i])
      invariant c.EndOfFile? ==> stream.rest == [] && forall i :: 0 <= i < |s| ==> !EndsLine(s[i])
      decreases |stream.rest|, c.Char?
    {
      c := stream.Getc();
    }
    if c.EndOfFile? {
      FirstIs(s, EndsLine, |s|);
      return false;
    }
    FirstIs(s, EndsLine, |s| - |stream.rest| - 1);
    return true;
  }

  /** read_data with the bound its comment promises: the storing loop runs while
      bytes_read < buffer_size-1, so the line and its NUL fit in the buffer.
      The buffer must have room for one character besides the NUL, so that the
      storing loop reads at least once. */
  method ReadData(stream: Stream, buffer: array<char>) returns (more: bool)
    requires buffer.Length >= 2
    modifies stream, buffer
    ensures var r := ReadLine(old(stream.rest), buffer.Length - 1);
            && |r.text| < buffer.Length && buffer[..|r.text|] == r.text && buffer[|r.text|] == '\0'
            && stream.rest == r.rest && more == r.more
  {
    ghost var s := stream.rest;
    var bytesRead := 0;
    var character := EndOfFile;
    while bytesRead < buffer.Length - 1
      invariant 0 <= bytesRead <= buffer.Length - 1
      invariant bytesRead <= |s| && stream.rest == s[bytesRead..] && buffer[..bytesRead] == s[..bytesRead]
      invariant forall i :: 0 <= i < bytesRead ==> !StopsStore(s[i])
      invariant bytesRead > 0 ==> character == Char(s[bytesRead - 1])
    {
      character := stream.Getc();
      if character.EndOfFile? || StopsStore(character.c) {
        break;
      }
      buffer[bytesRead] := character.c;
      bytesRead := bytesRead + 1;
    }
    buffer[bytesRead] := '\0';
    ReadLineStored(s, buffer.Length - 1, bytesRead, character, stream.rest);
    more := SkipRest(stream, character, s);
  }

  /** A line of `n` ordinary characters fills all `n` places of the as-written
      reader's buffer, so its NUL lands at index `n`, one past the buffer. */
  lemma ReadDataOverflow(n: nat)
    ensures var s := seq(n, _ => 'x') + ['\n'];
            |ReadLine(s, n).text| == n
  {
    var s := seq(n, _ => 'x') + ['\n'];
    FirstIs(s, StopsStore, n);
  }

  /** The buffer after a read, seen as a C string, is the stored text up to its
      first NUL. */
  lemma CStrOfTerminated(buffer: seq<char>, text: seq<char>)
    requires |text| < |buffer| && buffer[..|text|] == text && buffer[|text|] == '\0'
    ensures CStr(buffer) == CStr(text)
  {
    FirstFinds(buffer, IsNul);
    FirstFinds(text, IsNul);
    assert forall i :: 0 <= i < |text| ==> buffer[i] == text[i];
    if First(text, IsNul) < |text| {
      FirstIs(buffer, IsNul, First(text, IsNul));
    } else {
      FirstIs(buffer, IsNul, |text|);
    }
  }

  // ---------------------------------------------------------------------------
  // One line of main_loop

  /** What main_loop does with one line. */
  datatype LineOutcome = Skipped | TokeniseFailed | ParseFailed(error: ParseError) | Executed(expression: Parsed)

  /** An empty line is skipped; otherwise it is tokenised, and a line with too
      many tokens or one that does not parse is not executed. */
  function ProcessLine(line: string): (r: LineOutcome)
    ensures r.Skipped? <==> |line| == 0
    ensures r.Executed? ==> |r.expression.commands| >= 1
  {
    if |line| == 0 then Skipped
    else
      var tokens := Split(line);
      if |tokens| > TokarrayMaxTokens then TokeniseFailed
      else match Parse(tokens)
        case Fail(e) => ParseFailed(e)
        case Ok(p) => Executed(p)
  }

  /** What the interpreter is handed: at least one command, no command without
      arguments, each argument a space-free token of the line and never "|",
      within the capacities of the containers, and the tokens of the line are
      the commands joined by "|" plus a stripped "&". */
  lemma ExecutedWellFormed(line: string, p: Parsed)
    requires ProcessLine(line) == Executed(p)
    ensures |p.commands| >= 1 && ProperCommands(p.commands)
    ensures JoinPipes(p.commands) + (if p.background then [Ampersand] else []) == Split(line)
    ensures |p.commands| <= ExpressionMaxCmds
    ensures forall k :: 0 <= k < |p.commands| ==> |p.commands[k]| <= CommandMaxArgv
    ensures forall k, a :: 0 <= k < |p.commands| && 0 <= a < |p.commands[k]| ==> IsToken(p.commands[k][a])
  {
    var t := Split(line);
    ParseSuccess(t, p);
    ParseBounds(t, p);
    SplitTokens(line);
    forall k, a | 0 <= k < |p.commands| && 0 <= a < |p.commands[k]|
      ensures IsToken(p.commands[k][a])
    {
      JoinPipesMember(p.commands, k, a);
      var i :| 0 <= i < |JoinPipes(p.commands)| && JoinPipes(p.commands)[i] == p.commands[k][a];
      assert t[i] == p.commands[k][a];
    }
  }

  /** Every argument of every command appears in the joined tokens. */
  lemma {:induction false} JoinPipesMember(cs: seq<seq<string>>, k: nat, a: nat)
    requires |cs| >= 1 && k < |cs| && a < |cs[k]|
    ensures exists i :: 0 <= i < |JoinPipes(cs)| && JoinPipes(cs)[i] == cs[k][a]
    decreases |cs|
  {
    var j := JoinPipes(cs);
    if |cs| == 1 {
      assert j[a] == cs[k][a];
    } else if k == |cs| - 1 {
      var init := JoinPipes(cs[..|cs| - 1]);
      assert j[|init| + 1 + a] == cs[k][a];
    } else {
      var init := cs[..|cs| - 1];
      JoinPipesMember(init, k, a);
      var i :| 0 <= i < |JoinPipes(init)| && JoinPipes(init)[i] == init[k][a];
      assert j[i] == cs[k][a];
    }
  }

  /** A non-empty line of spaces gets past the empty-line check, tokenises to
      nothing, and fails to parse for having no tokens. */
  lemma SpacesOnlyLine(line: string)
    requires |line| > 0 && AllSpaces(line)
    ensures ProcessLine(line) == ParseFailed(EmptyInput)
  {
    SplitSkipsSpaces(line, []);
    assert line + [] == line;
  }

  /** main_loop's handling of one line (the C string in the buffer): skip an
      empty line, tokenise, parse, hand the expression to the interpreter and
      destroy it. `ran` says whether the interpreter was called; `outcome`
      records what it was given. */
  method RunLine(line: string) returns (ran: bool, ghost outcome: LineOutcome)
    ensures ran <==> ProcessLine(line).Executed?
    ensures outcome == ProcessLine(line)
  {
    if |line| == 0 {
      return false, Skipped;
    }
    var tokens := TokeniseInput(line);
    if tokens == null {
      return false, TokeniseFailed;
    }
    var expr, failure := ParseTokens(tokens);
    if expr == null {
      tokens.Destroy();
      return false, ParseFailed(failure.value);
    }
    outcome := Executed(Parsed(expr.Commands, expr.background));
    expr.Destroy();
    ran := true;
  }

  // ---------------------------------------------------------------------------
  // main_loop

  /** The expressions a whole session hands to the interpreter, line by line. */
  function Session(s: seq<char>): (r: seq<Parsed>)
    ensures |r| <= |s|
    decreases |s|
  {
    var r := ReadLine(s, BufferMaxSize - 1);
    var here := match ProcessLine(CStr(r.text)) case Executed(p) => [p] case _ => [];
    if r.more then here + Session(r.rest) else here
  }

  /** Every expression a session executes is well formed. */
  lemma {:induction false} SessionWellFormed(s: seq<char>)
    ensures forall p :: p in Session(s) ==> |p.commands| >= 1 && ProperCommands(p.commands)
    decreases |s|
  {
    var r := ReadLine(s, BufferMaxSize - 1);
    if ProcessLine(CStr(r.text)).Executed? {
      ExecutedWellFormed(CStr(r.text), ProcessLine(CStr(r.text)).expression);
    }
    if r.more {
      SessionWellFormed(r.rest);
    }
  }

  /** One pass of main_loop: reads a line into the buffer and runs it. `here` is
      what the pass hands to the interpreter (nothing or one expression); with
      what the rest of the stream yields it makes up the session. */
  method ReadAndRun(stream: Stream, buffer: array<char>) returns (more: bool, ghost here: seq<Parsed>)
    requires buffer.Length == BufferMaxSize
    modifies stream, buffer
    ensures here + (if more then Session(stream.rest) else []) == Session(old(stream.rest))
    ensures more ==> |stream.rest| < |old(stream.rest)|
    ensures !more ==> stream.rest == []
  {
    ghost var r := ReadLine(stream.rest, BufferMaxSize - 1);
    more := ReadData(stream, buffer);
    var line := CStr(buffer[..]);
    CStrOfTerminated(buffer[..], r.text);
    var ran, outcome := RunLine(line);
    here := if ran then [outcome.expression] else [];
  }

  /** main_loop: reads the stream line by line until read_data reports its end,
      and runs each line. `executed` is the list of expressions handed to the
      interpreter; the whole stream is consumed. */
  method MainLoop(stream: Stream) returns (ghost executed: seq<Parsed>)
    modifies stream
    ensures executed == Session(old(stream.rest)) && stream.rest == []
  {
    var buffer := new char[BufferMaxSize](_ => '\0');
    var moreToRead := true;
    executed := [];
    ghost var s := stream.rest;
    while moreToRead
      invariant buffer.Length == BufferMaxSize
      invariant !moreToRead ==> stream.rest == []
      invariant executed + (if moreToRead then Session(stream.rest) else []) == Session(s)
      decreases if moreToRead then |stream.rest| + 1 else 0
    {
      ghost var logged := executed;
      ghost var here;
      moreToRead, here := ReadAndRun(stream, buffer);
      executed := executed + here;
      AppendAssoc(logged, here, if moreToRead then Session(stream.rest) else []);
    }
  }
}
