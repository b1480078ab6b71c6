/** The command-line lexer of src/token.rs: tokens, their owning form, their
    textual rendering, and the single-pass automaton that turns a list of
    argument strings into tokens. */
module Tokens {
  import opened Wrappers

  /** One lexical unit of the command line. */
  datatype Token =
    | Positional(text: string)             // `something`
    | Short(key: char, value: Option<string>)  // `-k`, `-k value`
    | Long(name: string, value: Option<string>)  // `--key`, `--key value`
    | DashDash                             // `--`

  /** The owning counterpart of `Token`; in this model both carry plain values. */
  datatype OwnToken =
    | Positional(text: string)
    | Short(key: char, value: Option<string>)
    | Long(name: string, value: Option<string>)
    | DashDash

  /** `OwnToken::borrow`. */
  function Borrow(o: OwnToken): Token
  {
    match o
    case Positional(s) => Token.Positional(s)
    case Short(k, v) => Token.Short(k, v)
    case Long(n, v) => Token.Long(n, v)
    case DashDash => Token.DashDash
  }

  /** `IntoOwned for Token`: copying a token keeps its whole content, so
      borrowing the copy gives the original back. */
  function IntoOwned(t: Token): (o: OwnToken)
    ensures Borrow(o) == t
  {
    match t
    case Positional(s) => OwnToken.Positional(s)
    case Short(k, v) => OwnToken.Short(k, v)
    case Long(n, v) => OwnToken.Long(n, v)
    case DashDash => OwnToken.DashDash
  }

  /** The other direction of the round trip: copying a borrowed owned token
      gives the owned token back. */
  lemma OwnedBorrowRoundTrip(o: OwnToken)
    ensures IntoOwned(Borrow(o)) == o
  {
  }

  function ValueSuffix(v: Option<string>): string
  {
    if v.Some? then " " + v.value else ""
  }

  /** `Display for Token`. */
  function Display(t: Token): string
  {
    match t
    case Positional(s) => s
    case Short(k, v) => ['-', k] + ValueSuffix(v)
    case Long(n, v) => "--" + n + ValueSuffix(v)
    case DashDash => "--"
  }

  /** `Display for OwnToken`: the rendering of its borrowed form. */
  function DisplayOwn(o: OwnToken): string
  {
    Display(Borrow(o))
  }

  lemma DisplayOwnIntoOwned(t: Token)
    ensures DisplayOwn(IntoOwned(t)) == Display(t)
  {
  }

  /** The argument words a token is displayed as; `Display` joins them with
      single spaces. */
  function DisplayWords(t: Token): seq<string>
  {
    match t
    case Positional(s) => [s]
    case Short(k, v) => [['-', k]] + (if v.Some? then [v.value] else [])
    case Long(n, v) => ["--" + n] + (if v.Some? then [v.value] else [])
    case DashDash => ["--"]
  }

  function JoinWords(ws: seq<string>): string
  {
    if |ws| == 0 then "" else if |ws| == 1 then ws[0] else ws[0] + " " + JoinWords(ws[1..])
  }

  /** `s.starts_with('-')`. */
  predicate StartsWithDash(s: string)
  {
    |s| >= 1 && s[0] == '-'
  }

  /** `s.starts_with("--")`. */
  predicate StartsWithDashDash(s: string)
  {
    |s| >= 2 && s[0] == '-' && s[1] == '-'
  }

  /** An argument that value lookahead refuses to take: it starts with '-'
      and is not the lone "-". */
  predicate LooksLikeOption(arg: string)
  {
    arg != "-" && StartsWithDash(arg)
  }

  /** A token that the lexer reads back from its displayed words: a value or
      positional that does not look like an option, a short key other than
      '-', and a non-empty long key. */
  predicate Relexable(t: Token)
  {
    match t
    case Positional(s) => !LooksLikeOption(s)
    case Short(k, v) => k != '-' && (v.Some? ==> !LooksLikeOption(v.value))
    case Long(n, v) => n != "" && (v.Some? ==> !LooksLikeOption(v.value))
    case DashDash => true
  }

  /** The lexer's state: the arguments not read yet (a forward cursor), the
      queued remainder of a short-option cluster, and the positional-only
      flag. */
  datatype LexState = LexState(args: seq<string>, shorts: seq<char>, posOnly: bool)

  /** `Token::parse`: nothing queued, not positional-only. */
  function Start(args: seq<string>): LexState
  {
    LexState(args, [], false)
  }

  /** `next_value`: the following argument is taken as a value exactly when
      it exists and does not look like an option; otherwise nothing is
      consumed. */
  function ValueLookahead(args: seq<string>): (r: (Option<string>, seq<string>))
    ensures r.0.Some? <==> |args| > 0 && !LooksLikeOption(args[0])
    ensures r.0.Some? ==> r.0.value == args[0] && r.1 == args[1..]
    ensures r.0.None? ==> r.1 == args
  {
    if |args| > 0 && (args[0] == "-" || !StartsWithDash(args[0])) then (Some(args[0]), args[1..])
    else (None, args)
  }

  /** One call of `Parse::next`: the token it yields (None at the end) and
      the state after it. Each token comes either from the cluster queue or
      from the arguments, which only ever shrink. */
  function Step(st: LexState): (r: (Option<Token>, LexState))
    ensures r.0.Some? ==>
      |r.1.args| < |st.args| || (r.1.args == st.args && |r.1.shorts| < |st.shorts|)
  {
    if st.shorts != [] then
      (Some(Token.Short(st.shorts[0], None)), st.(shorts := st.shorts[1..]))
    else if st.args == [] then
      (None, st)
    else
      var item, rest := st.args[0], st.args[1..];
      if st.posOnly then
        (Some(Token.Positional(item)), st.(args := rest))
      else if item == "--" then
        (Some(Token.DashDash), LexState(rest, [], true))
      else if StartsWithDashDash(item) then
        var (v, rest') := ValueLookahead(rest);
        (Some(Token.Long(item[2..], v)), LexState(rest', [], false))
      else if StartsWithDash(item) then
        if |item| == 1 then
          (Some(Token.Positional("-")), LexState(rest, [], false))
        else if |item| == 2 then
          var (v, rest') := ValueLookahead(rest);
          (Some(Token.Short(item[1], v)), LexState(rest', [], false))
        else
          (Some(Token.Short(item[1], None)), LexState(rest, item[2..], false))
      else
        (Some(Token.Positional(item)), st.(args := rest))
  }

  /** What every step guarantees: the end is reached exactly when nothing
      is queued and no argument is left; the queued cluster is drained,
      valueless, before any argument is read; a step reads at most two
      arguments, from the front; positional-only mode is never left and in
      it every argument comes out verbatim. */
  lemma StepFacts(st: LexState)
    ensures Step(st).0.None? <==> st.shorts == [] && st.args == []
    ensures Step(st).0.None? ==> Step(st).1 == st
    ensures st.shorts != [] ==>
      Step(st) == (Some(Token.Short(st.shorts[0], None)), st.(shorts := st.shorts[1..]))
    ensures Step(st).0.Some? && st.shorts == [] ==>
      var rest := Step(st).1.args;
      |st.args| - 2 <= |rest| < |st.args| && rest == st.args[|st.args| - |rest|..]
    ensures st.posOnly ==> Step(st).1.posOnly
    ensures st.posOnly && st.shorts == [] && st.args != [] ==>
      Step(st) == (Some(Token.Positional(st.args[0])), st.(args := st.args[1..]))
  {
  }

  /** Every token the lexer yields from a state, in order. */
  function Lex(st: LexState): (ts: seq<Token>)
    decreases |st.args|, |st.shorts|
  {
    var (t, st') := Step(st);
    if t.None? then [] else [t.value] + Lex(st')
  }

  /** Each queued character gives a token and each token reads at most two
      arguments, so a state yields at least |shorts| + ceil(|args| / 2)
      tokens (the lower bound `Parse::size_hint` reports, and more). */
  lemma {:induction false} LexLength(st: LexState)
    ensures |st.shorts| + (|st.args| + 1) / 2 <= |Lex(st)|
    decreases |st.args|, |st.shorts|
  {
    var (t, st') := Step(st);
    StepFacts(st);
    if t.Some? {
      LexLength(st');
    }
  }

  /** The arguments one step reads: a front slice of what is left. */
  function StepWords(st: LexState): seq<string>
  {
    var rest := Step(st).1.args;
    if |rest| <= |st.args| then st.args[..|st.args| - |rest|] else []
  }

  /** For each token the lexer yields, the arguments it was read from. A
      token drained from a cluster's queue reads none; the cluster's first
      short reads the whole `-xyz`. */
  function LexWords(st: LexState): (ws: seq<seq<string>>)
    decreases |st.args|, |st.shorts|
  {
    var (t, st') := Step(st);
    if t.None? then [] else [StepWords(st)] + LexWords(st')
  }

  function Flatten(ws: seq<seq<string>>): seq<string>
  {
    if ws == [] then [] else ws[0] + Flatten(ws[1..])
  }

  /** What a token can have been read from: a positional from its own text;
      a valueless short from nothing (a queued cluster character), from
      `-k`, or from a cluster `-k…` that it starts; a valued short from
      `-k` and the value; a long option from `--name` and its value, if
      any; and `--` from itself. */
  predicate ReadFrom(t: Token, ws: seq<string>)
  {
    match t
    case Positional(s) => ws == [s]
    case Short(k, None) =>
      ws == [] || (|ws| == 1 && |ws[0]| >= 2 && ws[0][..2] == ['-', k])
    case Short(k, Some(v)) => ws == [['-', k], v]
    case Long(n, v) => ws == ["--" + n] + (if v.Some? then [v.value] else [])
    case DashDash => ws == ["--"]
  }

  /** Each step's token is read from the arguments that step consumes. */
  lemma StepReadFrom(st: LexState)
    requires Step(st).0.Some?
    ensures ReadFrom(Step(st).0.value, StepWords(st))
  {
    if st.shorts == [] {
      var item, rest := st.args[0], st.args[1..];
      assert st.args == [item] + rest;
      if st.posOnly || item == "--" || !StartsWithDash(item) || |item| == 1 || (!StartsWithDashDash(item) && |item| > 2) {
        assert Step(st).1.args == rest;
        assert StepWords(st) == [item];
        if !st.posOnly && item != "--" && StartsWithDash(item) {
          if |item| == 1 {
            assert item == "-";
          } else if !StartsWithDashDash(item) {
            assert item[..2] == ['-', item[1]];
          }
        }
      } else {
        var (v, rest') := ValueLookahead(rest);
        assert Step(st).1.args == rest';
        if v.Some? {
          assert StepWords(st) == [item, v.value];
        } else {
          assert StepWords(st) == [item];
        }
        if StartsWithDashDash(item) {
          assert item == "--" + item[2..];
        } else {
          assert item == ['-', item[1]];
        }
      }
    }
  }

  /** One step of the lexer, seen in its token list and its reading: the
      token comes first, and the step's arguments come off the front. */
  lemma LexUnfold(st: LexState)
    requires Step(st).0.Some?
    ensures Lex(st) == [Step(st).0.value] + Lex(Step(st).1)
    ensures LexWords(st) == [StepWords(st)] + LexWords(Step(st).1)
    ensures StepWords(st) + Step(st).1.args == st.args
  {
    StepFacts(st);
  }

  /** Every argument is accounted for exactly once, in order: the lexer
      yields one token per group of arguments it reads, each token is
      read from its group, and the groups joined are the arguments. */
  lemma {:induction false} LexReadsEveryArgument(st: LexState)
    ensures |LexWords(st)| == |Lex(st)|
    ensures Flatten(LexWords(st)) == st.args
    ensures forall i :: 0 <= i < |Lex(st)| ==> ReadFrom(Lex(st)[i], LexWords(st)[i])
    decreases |st.args|, |st.shorts|
  {
    var (t, st') := Step(st);
    if t.None? {
      StepFacts(st);
    } else {
      LexReadsEveryArgument(st');
      StepReadFrom(st);
      LexUnfold(st);
      var ts, ws := Lex(st'), LexWords(st');
      assert ([StepWords(st)] + ws)[1..] == ws;
      forall i | 0 <= i < |Lex(st)|
        ensures ReadFrom(Lex(st)[i], LexWords(st)[i])
      {
        if i > 0 {
          assert Lex(st)[i] == ts[i - 1];
          assert LexWords(st)[i] == ws[i - 1];
        }
      }
    }
  }

  function Positionals(args: seq<string>): (ts: seq<Token>)
    ensures |ts| == |args|
    ensures forall i :: 0 <= i < |args| ==> ts[i] == Token.Positional(args[i])
  {
    seq(|args|, i requires 0 <= i < |args| => Token.Positional(args[i]))
  }

  function ShortRun(cs: seq<char>): (ts: seq<Token>)
    ensures |ts| == |cs|
    ensures forall i :: 0 <= i < |cs| ==> ts[i] == Token.Short(cs[i], None)
  {
    seq(|cs|, i requires 0 <= i < |cs| => Token.Short(cs[i], None))
  }

  /** In positional-only mode every argument comes out verbatim as a
      positional, whatever its shape. */
  lemma {:induction false} PositionalOnly(args: seq<string>)
    ensures Lex(LexState(args, [], true)) == Positionals(args)
  {
    if args != [] {
      PositionalOnly(args[1..]);
      assert Lex(LexState(args, [], true)) == [Token.Positional(args[0])] + Lex(LexState(args[1..], [], true));
    }
  }

  /** `--` yields DashDash and turns every later argument, even `--option`
      or `-x`, into a positional. */
  lemma DashDashThenPositional(rest: seq<string>)
    ensures Lex(Start(["--"] + rest)) == [Token.DashDash] + Positionals(rest)
  {
    var st := Start(["--"] + rest);
    assert st.args[1..] == rest;
    assert Step(st) == (Some(Token.DashDash), LexState(rest, [], true));
    PositionalOnly(rest);
  }

  /** A lone `-` is the positional "-", never a short option. */
  lemma LoneDash(rest: seq<string>)
    ensures Lex(Start(["-"] + rest)) == [Token.Positional("-")] + Lex(Start(rest))
  {
    var st := Start(["-"] + rest);
    assert st.args[1..] == rest;
    assert Step(st) == (Some(Token.Positional("-")), Start(rest));
  }

  /** `--key` is a long option whose key is the argument minus its two
      dashes (no `=` splitting), with its value taken by lookahead. */
  lemma LongOption(arg: string, rest: seq<string>)
    requires StartsWithDashDash(arg) && arg != "--"
    ensures Lex(Start([arg] + rest)) ==
      [Token.Long(arg[2..], ValueLookahead(rest).0)] + Lex(Start(ValueLookahead(rest).1))
  {
    var st := Start([arg] + rest);
    assert st.args[0] == arg && st.args[1..] == rest;
  }

  /** An argument not starting with '-' is a positional, verbatim. */
  lemma PlainPositional(arg: string, rest: seq<string>)
    requires !StartsWithDash(arg)
    ensures Lex(Start([arg] + rest)) == [Token.Positional(arg)] + Lex(Start(rest))
  {
    var st := Start([arg] + rest);
    assert st.args[0] == arg && st.args[1..] == rest;
    assert arg != "--" && !StartsWithDashDash(arg);
  }

  /** `-k` is a single short option with its value taken by lookahead. */
  lemma SingleShort(k: char, rest: seq<string>)
    requires k != '-'
    ensures Lex(Start([['-', k]] + rest)) ==
      [Token.Short(k, ValueLookahead(rest).0)] + Lex(Start(ValueLookahead(rest).1))
  {
    var st := Start([['-', k]] + rest);
    assert st.args[0] == ['-', k] && st.args[1..] == rest;
    assert ['-', k][..2][1] == k;
  }

  /** Queued cluster characters come out one by one, valueless, before
      anything else. */
  lemma {:induction false} DrainShorts(args: seq<string>, cs: seq<char>, posOnly: bool)
    ensures Lex(LexState(args, cs, posOnly)) == ShortRun(cs) + Lex(LexState(args, [], posOnly))
    decreases |cs|
  {
    if cs != [] {
      var st := LexState(args, cs, posOnly);
      assert Step(st) == (Some(Token.Short(cs[0], None)), LexState(args, cs[1..], posOnly));
      DrainShorts(args, cs[1..], posOnly);
      assert ShortRun(cs) == [Token.Short(cs[0], None)] + ShortRun(cs[1..]);
    }
  }

  /** `-xyz` is the short options x, y, z, none of which takes a value. */
  lemma Cluster(k: char, cs: seq<char>, rest: seq<string>)
    requires k != '-' && cs != []
    ensures Lex(Start([['-', k] + cs] + rest)) ==
      [Token.Short(k, None)] + ShortRun(cs) + Lex(Start(rest))
  {
    var arg := ['-', k] + cs;
    var st := Start([arg] + rest);
    assert st.args[0] == arg && st.args[1..] == rest;
    assert arg[2..] == cs;
    assert Step(st) == (Some(Token.Short(k, None)), LexState(rest, cs, false));
    DrainShorts(rest, cs, false);
  }

  /** So `-xyz value` leaves `value` positional. */
  lemma ClusterLeavesValuePositional(k: char, cs: seq<char>, value: string)
    requires k != '-' && cs != [] && !StartsWithDash(value)
    ensures Lex(Start([['-', k] + cs, value])) ==
      [Token.Short(k, None)] + ShortRun(cs) + [Token.Positional(value)]
  {
    Cluster(k, cs, [value]);
    assert [['-', k] + cs, value] == [['-', k] + cs] + [value];
    var st := Start([value]);
    assert Step(st) == (Some(Token.Positional(value)), Start([]));
  }

  /** The displayed words of a relexable token lex back to exactly that
      token, and `Display` is those words joined by single spaces. */
  lemma RelexDisplay(t: Token)
    requires Relexable(t)
    ensures Display(t) == JoinWords(DisplayWords(t))
    ensures Lex(Start(DisplayWords(t))) == [t]
  {
    var ws := DisplayWords(t);
    var st := Start(ws);
    match t
    case Positional(s) =>
      assert Step(st) == (Some(t), Start([]));
    case Short(k, v) =>
      assert ['-', k][..2][1] == k;
      assert ws[1..] == if v.Some? then [v.value] else [];
      assert Step(st) == (Some(t), Start([]));
    case Long(n, v) =>
      assert ("--" + n)[2..] == n;
      assert ("--" + n) != "--";
      assert ws[1..] == if v.Some? then [v.value] else [];
      assert Step(st) == (Some(t), Start([]));
    case DashDash =>
      assert Step(st) == (Some(t), LexState([], [], true));
  }

  /** The argument list of the `ast_parse` test. */
  const AstArgs: seq<string> := [
    "unparsed", "-", "-vvvv", "-v", "val", "-xx", "1", "unp", "--python", "48",
    "--loooong", "-", "-okk", "--", "--option", "-x"]

  /** The tokens the `ast_parse` test expects, in order. */
  const AstTokens: seq<Token> := [
    Token.Positional("unparsed"),
    Token.Positional("-"),
    Token.Short('v', None), Token.Short('v', None), Token.Short('v', None), Token.Short('v', None),
    Token.Short('v', Some("val")),
    Token.Short('x', None), Token.Short('x', None),
    Token.Positional("1"),
    Token.Positional("unp"),
    Token.Long("python", Some("48")),
    Token.Long("loooong", Some("-")),
    Token.Short('o', None), Token.Short('k', None), Token.Short('k', None),
    Token.DashDash,
    Token.Positional("--option"),
    Token.Positional("-x")]

  /* The fixture is proved block by block: each lemma lexes one literal
     block of arguments followed by any further arguments, which works
     because every block leaves the lexer in its start state. The two
     literals are then cut into those blocks on their own. */

  lemma AstParse(args: seq<string>)
    requires args == AstArgs
    ensures Lex(Start(args)) == AstTokens
  {
    AstArgsBlocks(args);
    var r12 := ["-okk", "--", "--option", "-x"];
    var r8 := ["--python", "48", "--loooong", "-"] + r12;
    var r6 := ["1", "unp"] + r8;
    var r5 := ["-xx"] + r6;
    var r3 := ["-v", "val"] + r5;
    var r2 := ["-vvvv"] + r3;
    AstBlock12(r12);
    AstBlock8(r12);
    AstBlock6(r8);
    AstBlock5(r6);
    AstBlock3(r5);
    AstBlock2(r3);
    AstBlock0(r2);
    AstTokensBlocks();
  }

  lemma AstArgsBlocks(args: seq<string>)
    requires args == AstArgs
    ensures args == ["unparsed", "-"] + (["-vvvv"] + (["-v", "val"] + (["-xx"] + (["1", "unp"] +
      (["--python", "48", "--loooong", "-"] + ["-okk", "--", "--option", "-x"])))))
  {
  }

  lemma AstTokensBlocks()
    ensures AstTokens ==
      [Token.Positional("unparsed"), Token.Positional("-")] +
      ([Token.Short('v', None), Token.Short('v', None), Token.Short('v', None), Token.Short('v', None)] +
      ([Token.Short('v', Some("val"))] +
      ([Token.Short('x', None), Token.Short('x', None)] +
      ([Token.Positional("1"), Token.Positional("unp")] +
      ([Token.Long("python", Some("48")), Token.Long("loooong", Some("-"))] +
      [Token.Short('o', None), Token.Short('k', None), Token.Short('k', None),
       Token.DashDash, Token.Positional("--option"), Token.Positional("-x")])))))
  {
  }

  lemma AstBlock0(rest: seq<string>)
    ensures Lex(Start(["unparsed", "-"] + rest)) ==
      [Token.Positional("unparsed"), Token.Positional("-")] + Lex(Start(rest))
  {
    assert ["unparsed", "-"] + rest == ["unparsed"] + (["-"] + rest);
    PlainPositional("unparsed", ["-"] + rest);
    LoneDash(rest);
  }

  lemma AstBlock2(rest: seq<string>)
    ensures Lex(Start(["-vvvv"] + rest)) ==
      [Token.Short('v', None), Token.Short('v', None), Token.Short('v', None), Token.Short('v', None)] + Lex(Start(rest))
  {
    assert "-vvvv" == ['-', 'v'] + "vvv";
    Cluster('v', "vvv", rest);
    assert [Token.Short('v', None)] + ShortRun("vvv") ==
      [Token.Short('v', None), Token.Short('v', None), Token.Short('v', None), Token.Short('v', None)];
  }

  lemma AstBlock3(rest: seq<string>)
    ensures Lex(Start(["-v", "val"] + rest)) == [Token.Short('v', Some("val"))] + Lex(Start(rest))
  {
    assert "-v" == ['-', 'v'];
    assert ["-v", "val"] + rest == [['-', 'v']] + (["val"] + rest);
    SingleShort('v', ["val"] + rest);
    assert ValueLookahead(["val"] + rest) == (Some("val"), rest);
  }

  lemma AstBlock5(rest: seq<string>)
    ensures Lex(Start(["-xx"] + rest)) == [Token.Short('x', None), Token.Short('x', None)] + Lex(Start(rest))
  {
    assert "-xx" == ['-', 'x'] + "x";
    Cluster('x', "x", rest);
  }

  lemma AstBlock6(rest: seq<string>)
    ensures Lex(Start(["1", "unp"] + rest)) ==
      [Token.Positional("1"), Token.Positional("unp")] + Lex(Start(rest))
  {
    assert ["1", "unp"] + rest == ["1"] + (["unp"] + rest);
    PlainPositional("1", ["unp"] + rest);
    PlainPositional("unp", rest);
  }

  lemma AstBlock8(rest: seq<string>)
    ensures Lex(Start(["--python", "48", "--loooong", "-"] + rest)) ==
      [Token.Long("python", Some("48")), Token.Long("loooong", Some("-"))] + Lex(Start(rest))
  {
    assert ["--python", "48", "--loooong", "-"] + rest == ["--python", "48"] + (["--loooong", "-"] + rest);
    AstLongValue("--python", "python", "48", ["--loooong", "-"] + rest);
    AstLongValue("--loooong", "loooong", "-", rest);
  }

  /** A long option followed by an argument that lookahead takes. */
  lemma AstLongValue(arg: string, key: string, value: string, rest: seq<string>)
    requires arg == "--" + key && key != "" && !LooksLikeOption(value)
    ensures Lex(Start([arg, value] + rest)) == [Token.Long(key, Some(value))] + Lex(Start(rest))
  {
    assert [arg, value] + rest == [arg] + ([value] + rest);
    assert arg[2..] == key;
    LongOption(arg, [value] + rest);
    assert ValueLookahead([value] + rest) == (Some(value), rest);
  }

  lemma AstBlock12(args: seq<string>)
    requires args == ["-okk", "--", "--option", "-x"]
    ensures Lex(Start(args)) == [Token.Short('o', None), Token.Short('k', None), Token.Short('k', None),
                                 Token.DashDash, Token.Positional("--option"), Token.Positional("-x")]
  {
    var rest := ["--option", "-x"];
    assert "-okk" == ['-', 'o'] + "kk";
    assert args == [['-', 'o'] + "kk"] + (["--"] + rest);
    Cluster('o', "kk", ["--"] + rest);
    DashDashThenPositional(rest);
  }

  /** The lexer object: `Parse` with its argument cursor, its queue of
      cluster characters and its positional-only flag. */
  class Parse {
    const args: seq<string>
    var next: nat
    var shorts: seq<char>
    var posOnly: bool

    ghost predicate Valid()
      reads this
    {
      next <= |args|
    }

    /** The abstract lexer state this object stands for. */
    ghost function State(): LexState
      reads this
      requires Valid()
    {
      LexState(args[next..], shorts, posOnly)
    }

    /** `Token::parse`. */
    constructor (args: seq<string>)
      ensures Valid() && State() == Start(args)
    {
      this.args := args;
      next := 0;
      shorts := [];
      posOnly := false;
    }

    /** `next_value`: peek at the next argument and consume it as a value
        unless it looks like an option. */
    method NextValue() returns (v: Option<string>)
      requires Valid()
      modifies this`next
      ensures Valid()
      ensures (v, args[next..]) == ValueLookahead(old(args[next..]))
    {
      if next < |args| && (args[next] == "-" || !StartsWithDash(args[next])) {
        v := Some(args[next]);
        next := next + 1;
      } else {
        v := None;
      }
    }

    /** `Parse::next`. */
    method Next() returns (t: Option<Token>)
      requires Valid()
      modifies this
      ensures Valid()
      ensures (t, State()) == Step(old(State()))
    {
      if shorts != [] {
        t := Some(Token.Short(shorts[0], None));
        shorts := shorts[1..];
        return;
      }
      if next == |args| {
        return None;
      }
      var item := args[next];
      next := next + 1;
      if posOnly {
        return Some(Token.Positional(item));
      }
      if item == "--" {
        posOnly := true;
        t := Some(Token.DashDash);
      } else if StartsWithDashDash(item) {
        var v := NextValue();
        t := Some(Token.Long(item[2..], v));
      } else if StartsWithDash(item) {
        if |item| == 1 {
          t := Some(Token.Positional("-"));
        } else if |item| == 2 {
          var v := NextValue();
          t := Some(Token.Short(item[1], v));
        } else {
          shorts := item[2..];
          t := Some(Token.Short(item[1], None));
        }
      } else {
        t := Some(Token.Positional(item));
      }
    }

    /** `Parse::size_hint`, with the argument iterator reporting its exact
        length: half the arguments left is a lower bound on the tokens still
        to come, and no upper bound is given. */
    function SizeHint(): (r: (nat, Option<nat>))
      reads this
      requires Valid()
      ensures r.0 <= |Lex(State())| && r.1.None?
    {
      LexLength(State());
      ((|args| - next) / 2, None)
    }

    /** `collect::<Vec<_>>()`: drain the lexer. */
    method Collect() returns (ts: seq<Token>)
      requires Valid()
      modifies this
      ensures Valid() && ts == Lex(old(State()))
    {
      ts := [];
      while true
        invariant Valid()
        invariant ts + Lex(State()) == Lex(old(State()))
        decreases |args| - next, |shorts|
      {
        var t := Next();
        if t.None? {
          return;
        }
        ts := ts + [t.value];
      }
    }
  }
}
