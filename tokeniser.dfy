/** The token array and the tokeniser (src/parser.c, lines 38-140).
    A line is cut at spaces the way repeated strtok(…, " ") cuts it: runs of
    spaces collapse and empty tokens never appear. */
module Tokeniser {
  import opened Wrappers

  const TokarrayMaxTokens := 513

  /** tokarray_t: `tokens` is the fixed array of token slots, `None` a NULL slot.
      `Contents` is the list of tokens the slots hold. */
  class Tokarray {
    var numTokens: int
    const maxTokens: int
    const tokens: array<Option<string>>
    ghost var Contents: seq<string>

    /** The capacity is TOKARRAY_MAX_TOKENS; the slots below the count hold the
        tokens, the slots above it are NULL. */
    ghost predicate Valid()
      reads this, tokens
    {
      && maxTokens == tokens.Length == TokarrayMaxTokens
      && numTokens == |Contents| <= maxTokens
      && (forall i :: 0 <= i < numTokens ==> tokens[i] == Some(Contents[i]))
      && (forall i :: numTokens <= i < maxTokens ==> tokens[i] == None)
    }

    /** tokarray_create: no tokens, capacity TOKARRAY_MAX_TOKENS, every slot NULL. */
    constructor ()
      ensures Valid() && fresh(tokens)
      ensures numTokens == 0 && Contents == []
    {
      var slots := new Option<string>[TokarrayMaxTokens];
      var index := 0;
      while index < slots.Length
        invariant 0 <= index <= slots.Length
        invariant forall i :: 0 <= i < index ==> slots[i] == None
      {
        slots[index] := None;
        index := index + 1;
      }
      numTokens := 0;
      maxTokens := TokarrayMaxTokens;
      tokens := slots;
      Contents := [];
    }

    /** tokarray_token_push: stores a copy of `token` in the first free slot, or
        fails when all TOKARRAY_MAX_TOKENS slots are taken. */
    method TokenPush(token: string) returns (status: int)
      requires Valid()
      modifies this, tokens
      ensures Valid()
      ensures status == (if old(numTokens) < maxTokens then 0 else -1)
      ensures Contents == if status == 0 then old(Contents) + [token] else old(Contents)
    {
      var index := numTokens;
      if index >= maxTokens {
        return -1;
      }
      tokens[index] := Some(token);
      numTokens := numTokens + 1;
      Contents := Contents + [token];
      return 0;
    }

    /** tokarray_token_pop: frees the last token and sets its slot to NULL, or
        fails when there is none. */
    method TokenPop() returns (status: int)
      requires Valid()
      modifies this, tokens
      ensures Valid()
      ensures status == (if old(numTokens) > 0 then 0 else -1)
      ensures Contents == if status == 0 then old(Contents)[..old(numTokens) - 1] else old(Contents)
    {
      var index := numTokens - 1;
      if index < 0 {
        return -1;
      }
      tokens[index] := None;
      numTokens := numTokens - 1;
      Contents := Contents[..index];
      return 0;
    }

    /** tokarray_destroy: pops until no token is left (the free is not modelled). */
    method Destroy()
      requires Valid()
      modifies this, tokens
      ensures Valid() && Contents == []
    {
      while numTokens > 0
        invariant Valid()
        decreases numTokens
      {
        var _ := TokenPop();
      }
    }
  }

  // ---------------------------------------------------------------------------
  // The split specification

  predicate SpaceFree(s: string) {
    forall i :: 0 <= i < |s| ==> s[i] != ' '
  }

  predicate AllSpaces(s: string) {
    forall i :: 0 <= i < |s| ==> s[i] == ' '
  }

  /** A token as strtok returns it: non-empty and without a space. */
  predicate IsToken(s: string) {
    |s| > 0 && SpaceFree(s)
  }

  /** The length of the longest space-free prefix of `s`. */
  function TokenLength(s: string): (n: nat)
    ensures n <= |s|
  {
    if s == [] || s[0] == ' ' then 0 else TokenLength(s[1..]) + 1
  }

  /** The prefix TokenLength measures has no space. */
  lemma {:induction false} TokenLengthSpaceFree(s: string)
    ensures SpaceFree(s[..TokenLength(s)])
    decreases |s|
  {
    if s != [] && s[0] != ' ' {
      TokenLengthSpaceFree(s[1..]);
      var n := TokenLength(s[1..]);
      assert s[..n + 1] == [s[0]] + s[1..][..n];
    }
  }

  /** A space ends the prefix TokenLength measures, unless the line ends first. */
  lemma {:induction false} TokenLengthStops(s: string)
    ensures TokenLength(s) < |s| ==> s[TokenLength(s)] == ' '
    decreases |s|
  {
    if s != [] && s[0] != ' ' {
      TokenLengthStops(s[1..]);
    }
  }

  /** The tokens of `s`: the maximal space-free stretches, left to right. */
  function Split(s: string): seq<string>
    decreases |s|
  {
    if s == [] then []
    else if s[0] == ' ' then Split(s[1..])
    else
      var n := TokenLength(s);
      [s[..n]] + Split(s[n..])
  }

  /** Every token is non-empty and has no space in it. */
  lemma {:induction false} SplitTokens(s: string)
    ensures forall k :: 0 <= k < |Split(s)| ==> IsToken(Split(s)[k])
    decreases |s|
  {
    if s != [] && s[0] == ' ' {
      SplitTokens(s[1..]);
    } else if s != [] {
      var n := TokenLength(s);
      TokenLengthSpaceFree(s);
      SplitTokens(s[n..]);
      var t := Split(s[n..]);
      assert Split(s) == [s[..n]] + t;
      assert forall k :: 0 < k < |Split(s)| ==> Split(s)[k] == t[k - 1];
    }
  }

  /** The stretches of spaces around the tokens of `s`: before the first token,
      between tokens and after the last one. */
  function Gaps(s: string): (g: seq<string>)
    ensures |g| >= 1
    decreases |s|
  {
    if s == [] then [""]
    else if s[0] == ' ' then
      var g := Gaps(s[1..]);
      [[' '] + g[0]] + g[1..]
    else
      [""] + Gaps(s[TokenLength(s)..])
  }

  /** g[0] + t[0] + g[1] + t[1] + … + t[n-1] + g[n]. */
  function Weave(g: seq<string>, t: seq<string>): string
    requires |g| == |t| + 1
  {
    if t == [] then g[0] else g[0] + t[0] + Weave(g[1..], t[1..])
  }

  /** Gaps made of spaces only, the inner ones non-empty. */
  predicate Separating(g: seq<string>) {
    && (forall k :: 0 <= k < |g| ==> AllSpaces(g[k]))
    && (forall k :: 0 < k < |g| - 1 ==> |g[k]| > 0)
  }

  /** A line has one gap more than it has tokens, and its gaps are separating. */
  lemma {:induction false} GapsSeparate(s: string)
    ensures |Gaps(s)| == |Split(s)| + 1
    ensures Separating(Gaps(s))
    decreases |s|
  {
    if s == [] {
    } else if s[0] == ' ' {
      GapsSeparate(s[1..]);
      var g := Gaps(s[1..]);
      var g' := [[' '] + g[0]] + g[1..];
      assert Gaps(s) == g';
      assert Split(s) == Split(s[1..]);
      assert AllSpaces(g'[0]) by {
        assert AllSpaces(g[0]);
      }
      assert forall k :: 0 < k < |g'| ==> g'[k] == g[k];
    } else {
      var n := TokenLength(s);
      TokenLengthStops(s);
      var rest := s[n..];
      GapsSeparate(rest);
      var g := Gaps(rest);
      assert Gaps(s) == [""] + g;
      assert Split(s) == [s[..n]] + Split(rest);
      if |g| > 1 {
        assert rest != [] && rest[0] == ' ';
        assert |g[0]| > 0;
      }
    }
  }

  /** Every line is its tokens woven with separating runs of spaces. */
  lemma {:induction false} SplitDecomposes(s: string)
    ensures |Gaps(s)| == |Split(s)| + 1 && Separating(Gaps(s))
    ensures Weave(Gaps(s), Split(s)) == s
    decreases |s|
  {
    GapsSeparate(s);
    if s == [] {
    } else if s[0] == ' ' {
      SplitDecomposes(s[1..]);
      var g, t := Gaps(s[1..]), Split(s[1..]);
      assert Gaps(s) == [[' '] + g[0]] + g[1..];
      assert Split(s) == t;
      WeaveLeadingGap([' '], g, t);
      assert s == [' '] + s[1..];
    } else {
      var n := TokenLength(s);
      var rest := s[n..];
      SplitDecomposes(rest);
      var g, t := Gaps(rest), Split(rest);
      var g', t' := [""] + g, [s[..n]] + t;
      assert Gaps(s) == g';
      assert Split(s) == t';
      assert g'[1..] == g && t'[1..] == t;
      calc {
        Weave(g', t');
        g'[0] + t'[0] + Weave(g, t);
        s[..n] + rest;
        s;
      }
    }
  }

  lemma WeaveLeadingGap(x: string, g: seq<string>, t: seq<string>)
    requires |g| == |t| + 1
    ensures Weave([x + g[0]] + g[1..], t) == x + Weave(g, t)
  {
    var g' := [x + g[0]] + g[1..];
    if t != [] {
      assert g'[1..] == g[1..];
    }
  }

  /** Leading spaces do not change the tokens. */
  lemma {:induction false} SplitSkipsSpaces(x: string, s: string)
    requires AllSpaces(x)
    ensures Split(x + s) == Split(s)
    decreases |x|
  {
    if x != [] {
      var xs := x + s;
      assert xs != [] && xs[0] == x[0] == ' ';
      assert xs[1..] == x[1..] + s;
      SplitSkipsSpaces(x[1..], s);
    } else {
      assert x + s == s;
    }
  }

  /** A token followed by a space or by the end of the line is exactly one token long. */
  lemma {:induction false} TokenLengthOfToken(tok: string, rest: string)
    requires IsToken(tok)
    requires rest == [] || rest[0] == ' '
    ensures TokenLength(tok + rest) == |tok|
    decreases |tok|
  {
    var s := tok + rest;
    assert s[0] == tok[0] != ' ';
    assert s[1..] == tok[1..] + rest;
    if |tok| == 1 {
      assert s[1..] == rest;
    } else {
      TokenLengthOfToken(tok[1..], rest);
    }
  }

  /** A token followed by a space or by the end of the line is cut off whole. */
  lemma SplitToken(tok: string, rest: string)
    requires IsToken(tok)
    requires rest == [] || rest[0] == ' '
    ensures Split(tok + rest) == [tok] + Split(rest)
  {
    var s := tok + rest;
    TokenLengthOfToken(tok, rest);
    assert s[0] != ' ';
    assert s[..|tok|] == tok && s[|tok|..] == rest;
  }

  /** The tokens are exactly the space-free stretches: whenever a line is woven
      from tokens and separating gaps, Split gives those tokens back. */
  lemma {:induction false} SplitWeave(g: seq<string>, t: seq<string>)
    requires |g| == |t| + 1 && Separating(g)
    requires forall k :: 0 <= k < |t| ==> IsToken(t[k])
    ensures Split(Weave(g, t)) == t
    decreases |t|
  {
    if t == [] {
      SplitSkipsSpaces(g[0], []);
      assert g[0] + [] == g[0];
    } else {
      assert Separating(g[1..]);
      SplitWeave(g[1..], t[1..]);
      SplitWeaveCons(g, t);
    }
  }

  /** The step of SplitWeave: the first token comes off whole. */
  lemma SplitWeaveCons(g: seq<string>, t: seq<string>)
    requires |g| == |t| + 1 && t != [] && Separating(g) && IsToken(t[0])
    requires Split(Weave(g[1..], t[1..])) == t[1..]
    ensures Split(Weave(g, t)) == t
  {
    var rest := Weave(g[1..], t[1..]);
    assert g[1..][0] == g[1];
    assert AllSpaces(g[0]) && AllSpaces(g[1]);
    if |t| > 1 {
      assert |g[1]| > 0;
    }
    WeaveAfterToken(g[1..], t[1..]);
    assert Weave(g, t) == g[0] + t[0] + rest;
    AppendAssoc(g[0], t[0], rest);
    calc {
      Split(Weave(g, t));
      { SplitSkipsSpaces(g[0], t[0] + rest); }
      Split(t[0] + rest);
      { SplitToken(t[0], rest); }
      [t[0]] + Split(rest);
      [t[0]] + t[1..];
      t;
    }
  }

  /** What follows a token in a woven line is empty or starts with a space. */
  lemma WeaveAfterToken(g: seq<string>, t: seq<string>)
    requires |g| == |t| + 1 && AllSpaces(g[0]) && (t != [] ==> |g[0]| > 0)
    ensures var w := Weave(g, t); w == [] || w[0] == ' '
  {
    if t != [] {
      assert Weave(g, t)[0] == g[0][0];
    }
  }

  /** Joining tokens with single spaces and splitting again gives the tokens. */
  function JoinSpaces(t: seq<string>): string
  {
    if t == [] then [] else if |t| == 1 then t[0] else t[0] + [' '] + JoinSpaces(t[1..])
  }

  function SingleSpaceGaps(n: nat): (g: seq<string>)
    ensures |g| == n + 1
    ensures Separating(g)
    ensures n > 0 ==> g[0] == [] && g[n] == []
  {
    if n == 0 then [[]] else if n == 1 then [[], []] else [[]] + [[' ']] + SingleSpaceGaps(n - 1)[1..]
  }

  lemma {:induction false} SplitJoinSpaces(t: seq<string>)
    requires forall k :: 0 <= k < |t| ==> IsToken(t[k])
    ensures Split(JoinSpaces(t)) == t
  {
    JoinIsWeave(t);
    SplitWeave(SingleSpaceGaps(|t|), t);
  }

  lemma {:induction false} JoinIsWeave(t: seq<string>)
    ensures JoinSpaces(t) == Weave(SingleSpaceGaps(|t|), t)
    decreases |t|
  {
    if |t| == 1 {
    } else if |t| > 1 {
      var g := SingleSpaceGaps(|t|);
      JoinIsWeave(t[1..]);
      var g' := SingleSpaceGaps(|t| - 1);
      assert g[1..] == [[' ']] + g'[1..];
      WeaveLeadingGap([' '], g', t[1..]);
      assert g'[0] == [] && [' '] + g'[0] == [' '];
      assert [[' '] + g'[0]] + g'[1..] == g[1..];
    }
  }

  // ---------------------------------------------------------------------------
  // strtok and the tokenising loop

  /** A token cut off by strtok and the text left after its delimiter. */
  datatype Cut = Cut(token: string, rest: string)

  /** The number of spaces `s` starts with. */
  function LeadingSpaces(s: string): (k: nat)
    ensures k <= |s|
  {
    if s != [] && s[0] == ' ' then LeadingSpaces(s[1..]) + 1 else 0
  }

  lemma {:induction false} LeadingSpacesStop(s: string)
    ensures AllSpaces(s[..LeadingSpaces(s)])
    ensures LeadingSpaces(s) < |s| ==> s[LeadingSpaces(s)] != ' '
    decreases |s|
  {
    if s != [] && s[0] == ' ' {
      LeadingSpacesStop(s[1..]);
      var k := LeadingSpaces(s[1..]);
      assert s[..k + 1] == [s[0]] + s[1..][..k];
    }
  }

  /** strtok(…, " "): skip spaces, cut the next token, step over the space that
      ends it. */
  function Strtok(s: string): (r: Option<Cut>)
    ensures r.Some? ==> |r.value.rest| < |s|
  {
    var u := s[LeadingSpaces(s)..];
    if u == [] then None
    else
      var n := TokenLength(u);
      Some(Cut(u[..n], if n < |u| then u[n + 1..] else []))
  }

  /** A line that starts with a token splits into that token and the tokens
      after the space that ends it. */
  lemma SplitCutsToken(u: string)
    requires u != [] && u[0] != ' '
    ensures var n := TokenLength(u);
            Split(u) == [u[..n]] + Split(if n < |u| then u[n + 1..] else [])
  {
    var n := TokenLength(u);
    var rest := if n < |u| then u[n + 1..] else [];
    assert Split(u) == [u[..n]] + Split(u[n..]);
    TokenLengthStops(u);
    if n < |u| {
      assert u[n..] == [' '] + rest;
      SplitSkipsSpaces([' '], rest);
    } else {
      assert u[n..] == rest;
    }
  }

  /** No token is left exactly when the split is empty; otherwise the token
      strtok cuts is the first of the split and the rest holds the others. */
  lemma StrtokSplit(s: string)
    ensures Split(s) == if Strtok(s).Some? then [Strtok(s).value.token] + Split(Strtok(s).value.rest) else []
  {
    SplitAfterSpaces(s);
    var u := s[LeadingSpaces(s)..];
    if u == [] {
      assert Strtok(s) == None;
    } else {
      LeadingSpacesStop(s);
      SplitCutsToken(u);
      var n := TokenLength(u);
      assert Strtok(s) == Some(Cut(u[..n], if n < |u| then u[n + 1..] else []));
    }
  }

  /** Spaces at the start of a line do not change its tokens. */
  lemma SplitAfterSpaces(s: string)
    ensures Split(s) == Split(s[LeadingSpaces(s)..])
  {
    var k := LeadingSpaces(s);
    LeadingSpacesStop(s);
    assert s == s[..k] + s[k..];
    SplitSkipsSpaces(s[..k], s[k..]);
  }

  lemma AppendAssoc<T>(a: seq<T>, b: seq<T>, c: seq<T>)
    ensures a + b + c == a + (b + c)
  {
  }

  lemma AppendShift<T>(a: seq<T>, x: T, b: seq<T>)
    ensures a + ([x] + b) == (a + [x]) + b
  {
  }

  /** tokenise_input: the tokens of `buffer`, or null when there are more than
      TOKARRAY_MAX_TOKENS of them (exactly that many is accepted). */
  method TokeniseInput(buffer: string) returns (tokens: Tokarray?)
    ensures tokens == null <==> |Split(buffer)| > TokarrayMaxTokens
    ensures tokens != null ==> fresh(tokens) && fresh(tokens.tokens) && tokens.Valid()
                               && tokens.Contents == Split(buffer)
  {
    var found := new Tokarray();
    var token := Strtok(buffer);
    StrtokSplit(buffer);
    ghost var all := Split(buffer);
    ghost var pending := all;
    while token.Some? && found.numTokens != found.maxTokens
      invariant found.Valid() && fresh(found) && fresh(found.tokens)
      invariant all == found.Contents + pending
      invariant pending == if token.Some? then [token.value.token] + Split(token.value.rest) else []
      decreases |pending|
    {
      var cut := token.value;
      AppendShift(found.Contents, cut.token, Split(cut.rest));
      var _ := found.TokenPush(cut.token);
      pending := Split(cut.rest);
      token := Strtok(cut.rest);
      StrtokSplit(cut.rest);
    }
    if token.Some? {
      return null;
    }
    return found;
  }
}
