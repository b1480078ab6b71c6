/** The hand-written builder of the test module of src/lib.rs: it stands
    for what a derive would generate for a struct with a raw string `a`, a
    parsed i32 `b`, a switch `c`, a counter `d` and an optional string `x`. */
module TestBuilder {
  import opened Wrappers
  import opened Tokens
  import opened Errors
  import opened Args
  import opened IntParse

  const U32Max: nat := 0xFFFF_FFFF

  /** `TestParseError`: only the i32 parser of `b` can fail; the string
      parsers of `a` and `x` are infallible. */
  datatype TestParseError = B(kind: IntErrorKind)

  type TestError = Error<TestParseError>

  /** `TestInit`, the builder state. `d` is a u32. */
  datatype TestInit = TestInit(
    term: bool,
    a: Option<string>,
    b: Option<int>,
    c: bool,
    d: nat,
    x: Option<Option<string>>)

  /** `Test`, the value being built. */
  datatype Test = Test(a: string, b: int, c: bool, d: nat, x: Option<string>)

  /** `Default for TestInit`: nothing seen yet. */
  function Default(): (s: TestInit)
    ensures !s.term && s.a.None? && s.b.None? && !s.c && s.d == 0 && s.x.None?
  {
    TestInit(false, None, None, false, 0, None)
  }

  /** The tokens `poll_init` handles without panicking: a positional before
      `--` reaches `todo!()`, and a `-d` at the u32 maximum overflows. */
  predicate Accepts(s: TestInit, t: Token)
  {
    s.term || (!t.Positional? && (t == Token.Short('d', None) ==> s.d < U32Max))
  }

  /** The value of `-b`, parsed as an i32. */
  function ParseB(v: string): (r: Result<int, TestError>)
    ensures r.Success? <==> ParseI32(v).Success?
    ensures r.Success? ==> r.value == ParseI32(v).value
    ensures r.Failure? ==> r.error == ValueParse(B(ParseI32(v).error))
  {
    match ParseI32(v)
    case Success(n) => Success(n)
    case Failure(e) => Failure(ValueParse(B(e)))
  }

  /** `poll_init` on a short option `-k` with an optional value. */
  function PollShort(s: TestInit, k: char, v: Option<string>): (r: (TestInit, Outcome<TestError>))
    requires k == 'd' && v.None? ==> s.d < U32Max
  {
    var t := Token.Short(k, v);
    if k == 'a' then
      if v.None? then (s, Fail(ExpectedValue(t)))
      else
        var (a, o) := TryInsert(s.a, Success(v.value), UnexpectedMulti(t));
        (s.(a := a), o)
    else if k == 'b' then
      if v.None? then (s, Fail(ExpectedValue(t)))
      else
        var (b, o) := TryInsert(s.b, ParseB(v.value), UnexpectedMulti(t));
        (s.(b := b), o)
    else if k == 'c' then
      if v.Some? then (s, Fail(UnexpectedValue(t)))
      else
        var (c, o) := TrySet(s.c, UnexpectedMulti(t));
        (s.(c := c), o)
    else if k == 'd' then
      if v.Some? then (s, Fail(UnexpectedValue(t)))
      else (s.(d := s.d + 1), Pass)
    else if k == 'x' then
      if v.None? then (s, Fail(ExpectedValue(t)))
      else
        var (x, o) := TryInsert(s.x, Success(Some(v.value)), UnexpectedMulti(t));
        (s.(x := x), o)
    else (s, Fail(UnknownOption(t)))
  }

  /** `TestInit::poll_init`: after `--` everything is accepted and ignored;
      before it, options update their own field only. */
  function Poll(s: TestInit, t: Token): (r: (TestInit, Outcome<TestError>))
    requires Accepts(s, t)
    ensures r.0.d <= U32Max || r.0.d == s.d
    ensures s.term ==> r == (s, Pass)
    ensures !s.term && t.DashDash? ==> r == (s.(term := true), Pass)
    ensures !s.term && t.Long? ==> r == (s, Fail(UnknownOption(t)))
    ensures r.1.Fail? ==> r.0 == s
  {
    if s.term then (s, Pass)
    else
      match t
      case Positional(_) => assert false; (s, Pass)
      case Short(k, v) => PollShort(s, k, v)
      case Long(_, _) => (s, Fail(UnknownOption(t)))
      case DashDash => (s.(term := true), Pass)
  }

  /** `TestInit::finish`: `a` is required before `b`; a missing `x` is
      `None`. */
  function Finish(s: TestInit): (r: Result<Test, TestError>)
    ensures r.Success? <==> s.a.Some? && s.b.Some?
    ensures s.a.None? ==> r == Failure(RequiredOption("a"))
    ensures s.a.Some? && s.b.None? ==> r == Failure(RequiredOption("b"))
    ensures r.Success? ==>
      r.value == Test(s.a.value, s.b.value, s.c, s.d, if s.x.Some? then s.x.value else None)
  {
    if s.a.None? then Failure(RequiredOption("a"))
    else if s.b.None? then Failure(RequiredOption("b"))
    else Success(Test(s.a.value, s.b.value, s.c, s.d, if s.x.Some? then s.x.value else None))
  }

  /** `FromArgs for Test`. */
  function TestArgs(): Builder<TestInit, Test, TestError>
  {
    Builder(Default(), Poll, Finish)
  }

  /** The builder's `poll` is `Poll`, defined wherever `Accepts` holds. */
  lemma PollStep(s: TestInit, t: Token)
    requires Accepts(s, t)
    ensures TestArgs().poll.requires(s, t) && TestArgs().poll(s, t) == Poll(s, t)
  {
    assert Accepts(s, t);
  }

  /** Once `term` is set every token is accepted and ignored. */
  lemma {:induction false} TermIgnoresRest(s: TestInit, ts: seq<Token>)
    requires s.term
    ensures Feedable(TestArgs(), s, ts) && Feed(TestArgs(), s, ts) == (s, [])
    decreases |ts|
  {
    if ts != [] {
      PollStep(s, ts[0]);
      TermIgnoresRest(s, ts[1..]);
      FeedCons(TestArgs(), s, ts[0], ts[1..]);
      assert ts == [ts[0]] + ts[1..];
    }
  }

  /** `--` sets `term`, after which nothing is recorded, valid or not. */
  lemma DashDashEndsOptions(s: TestInit, ts: seq<Token>)
    requires !s.term
    ensures Feedable(TestArgs(), s, [Token.DashDash] + ts)
    ensures Feed(TestArgs(), s, [Token.DashDash] + ts) == (s.(term := true), [])
  {
    PollStep(s, Token.DashDash);
    TermIgnoresRest(s.(term := true), ts);
    FeedCons(TestArgs(), s, Token.DashDash, ts);
  }

  function Ds(n: nat): (ts: seq<Token>)
    ensures |ts| == n && forall i :: 0 <= i < n ==> ts[i] == Token.Short('d', None)
  {
    seq(n, _ => Token.Short('d', None))
  }

  /** `d` counts the `-d` shorts, one per token, and nothing else changes
      or is reported. */
  lemma {:induction false} CountsD(s: TestInit, n: nat, rest: seq<Token>)
    requires !s.term && s.d + n <= U32Max
    ensures Feedable(TestArgs(), s, Ds(n) + rest) <==> Feedable(TestArgs(), s.(d := s.d + n), rest)
    ensures Feedable(TestArgs(), s, Ds(n) + rest) ==>
      Feed(TestArgs(), s, Ds(n) + rest) == Feed(TestArgs(), s.(d := s.d + n), rest)
    decreases n
  {
    if n > 0 {
      var t := Token.Short('d', None);
      var s' := s.(d := s.d + 1);
      CountsD(s', n - 1, rest);
      PollStep(s, t);
      FeedCons(TestArgs(), s, t, Ds(n - 1) + rest);
      assert Ds(n) + rest == [t] + (Ds(n - 1) + rest);
    } else {
      assert Ds(n) + rest == rest;
    }
  }

  /** A second `-a v` is refused as a repeat and changes nothing. */
  lemma RepeatedA(s: TestInit, v: string)
    requires !s.term && s.a.Some?
    ensures Poll(s, Token.Short('a', Some(v))) == (s, Fail(UnexpectedMulti(Token.Short('a', Some(v)))))
  {
  }

  /** `-a v1 -a v2` with no `b`: the repeat is reported, then the missing
      `b`. */
  lemma RepeatedAMissingB(args: seq<string>, v1: string, v2: string)
    requires !LooksLikeOption(v1) && !LooksLikeOption(v2)
    requires args == ["-a", v1, "-a", v2]
    ensures Feedable(TestArgs(), TestArgs().default, Lex(Start(args)))
    ensures FromArgsResult(TestArgs(), Lex(Start(args))) ==
      Failure([UnexpectedMulti(Token.Short('a', Some(v2))), RequiredOption("b")])
  {
    var t1, t2 := Token.Short('a', Some(v1)), Token.Short('a', Some(v2));
    var r1, r2 := [v1, "-a", v2], [v2];
    assert "-a" == ['-', 'a'];
    assert args == [['-', 'a']] + r1 && r1[1..] == ["-a", v2] == [['-', 'a']] + r2;
    SingleShort('a', r2);
    assert ValueLookahead(r2) == (Some(v2), []);
    assert Lex(Start([])) == [];
    SingleShort('a', r1);
    assert ValueLookahead(r1) == (Some(v1), r1[1..]);
    assert Lex(Start(args)) == [t1] + [t2];
    var s1 := Default().(a := Some(v1));
    PollStep(Default(), t1);
    PollStep(s1, t2);
    FeedCons(TestArgs(), s1, t2, []);
    FeedCons(TestArgs(), Default(), t1, [t2]);
    assert [t2] + [] == [t2];
    assert Poll(Default(), t1) == (s1, Pass);
    assert Poll(s1, t2) == (s1, Fail(UnexpectedMulti(t2)));
    var none: seq<TestError> := [];
    assert Feed(TestArgs(), s1, []) == (s1, none);
    assert [UnexpectedMulti(t2)] + none == [UnexpectedMulti(t2)];
    assert Feed(TestArgs(), s1, [t2]) == (s1, [UnexpectedMulti(t2)]);
    assert Feed(TestArgs(), Default(), [t1, t2]) == (s1, [UnexpectedMulti(t2)]);
    assert Finish(s1) == Failure(RequiredOption("b"));
    assert [t1] + [t2] == [t1, t2];
    assert Feedable(TestArgs(), TestArgs().default, Lex(Start(args)));
    assert FromArgsResult(TestArgs(), Lex(Start(args))) == Failure([UnexpectedMulti(t2)] + [RequiredOption("b")]);
    var e1: TestError, e2: TestError := UnexpectedMulti(t2), RequiredOption("b");
    assert [e1] + [e2] == [e1, e2];
  }

  const ExpandedArgs: seq<string> := ["-a", "a_val", "-c", "-ddd", "-d", "-b", "42"]

  const ExpandedTokens: seq<Token> := [
    Token.Short('a', Some("a_val")),
    Token.Short('c', None),
    Token.Short('d', None),
    Token.Short('d', None),
    Token.Short('d', None),
    Token.Short('d', None),
    Token.Short('b', Some("42"))]

  /** The lexer's reading of the `expanded` arguments. */
  lemma ExpandedLex(args: seq<string>)
    requires args == ExpandedArgs
    ensures Lex(Start(args)) == ExpandedTokens
  {
    ExpandedLexFrom2(args[2..]);
    assert args == [['-', 'a']] + args[1..];
    SingleShort('a', args[1..]);
    assert ValueLookahead(args[1..]) == (Some("a_val"), args[2..]);
    assert ExpandedTokens == [ExpandedTokens[0]] + ExpandedTokens[1..];
  }

  lemma ExpandedLexFrom2(args: seq<string>)
    requires args == ExpandedArgs[2..]
    ensures Lex(Start(args)) == ExpandedTokens[1..]
  {
    ExpandedLexFrom3(args[1..]);
    assert args == [['-', 'c']] + args[1..];
    SingleShort('c', args[1..]);
    assert ValueLookahead(args[1..]) == (None, args[1..]);
    assert ExpandedTokens[1..] == [ExpandedTokens[1]] + ExpandedTokens[2..];
  }

  lemma ExpandedLexFrom3(args: seq<string>)
    requires args == ExpandedArgs[3..]
    ensures Lex(Start(args)) == ExpandedTokens[2..]
  {
    ExpandedLexFrom4(args[1..]);
    assert args[0] == "-ddd" == ['-', 'd'] + "dd";
    assert args == [['-', 'd'] + "dd"] + args[1..];
    Cluster('d', "dd", args[1..]);
    assert ShortRun("dd") == [Token.Short('d', None), Token.Short('d', None)];
    assert ExpandedTokens[2..] == ExpandedTokens[2..5] + ExpandedTokens[5..];
  }

  lemma ExpandedLexFrom4(args: seq<string>)
    requires args == ExpandedArgs[4..]
    ensures Lex(Start(args)) == ExpandedTokens[5..]
  {
    var last := args[2..];
    assert last == ["42"];
    assert Lex(Start([])) == [];
    assert args[1..] == [['-', 'b']] + last;
    SingleShort('b', last);
    assert ValueLookahead(last) == (Some("42"), []);
    assert args == [['-', 'd']] + args[1..];
    SingleShort('d', args[1..]);
    assert ValueLookahead(args[1..]) == (None, args[1..]);
  }

  /** Feeding the `expanded` tokens from the default state. */
  lemma ExpandedFeed(ts: seq<Token>)
    requires ts == ExpandedTokens
    ensures Feedable(TestArgs(), Default(), ts)
    ensures Feed(TestArgs(), Default(), ts) ==
      (TestInit(false, Some("a_val"), Some(42), true, 4, None), [])
  {
    var s0 := Default();
    var s1 := s0.(a := Some("a_val"));
    var s2 := s1.(c := true);
    var s6 := s2.(d := 4);
    var s7 := s6.(b := Some(42));
    assert ParseI32("42") == Success(42);
    PollStep(s6, ts[6]);
    FeedCons(TestArgs(), s6, ts[6], []);
    assert ts[6..] == [ts[6]] + [];
    assert Feed(TestArgs(), s6, []) == (s6, []);
    CountsD(s2, 4, ts[6..]);
    assert ts[2..] == Ds(4) + ts[6..];
    PollStep(s1, ts[1]);
    FeedCons(TestArgs(), s1, ts[1], ts[2..]);
    assert ts[1..] == [ts[1]] + ts[2..];
    PollStep(s0, ts[0]);
    FeedCons(TestArgs(), s0, ts[0], ts[1..]);
    assert ts == [ts[0]] + ts[1..];
  }

  /** The `expanded` test: `-a a_val -c -ddd -d -b 42` builds
      `Test { a: "a_val", b: 42, c: true, d: 4, x: None }`. */
  lemma Expanded(args: seq<string>)
    requires args == ExpandedArgs
    ensures Feedable(TestArgs(), TestArgs().default, Lex(Start(args)))
    ensures FromArgsResult(TestArgs(), Lex(Start(args))) == Success(Test("a_val", 42, true, 4, None))
  {
    ExpandedLex(args);
    ExpandedFeed(Lex(Start(args)));
  }
}
