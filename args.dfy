/** The builder protocol of src/lib.rs (`PollInit`, `FromArgs`), the eager
    driver `from_args`, and the set-once helpers `try_insert` and
    `try_set`. */
module Args {
  import opened Wrappers
  import opened Tokens

  /** A `PollInit` implementation, as its three operations: the `Default`
      state, `poll_init` (feed one token, updating the state and passing or
      failing) and `finish` (consume the state). `poll` is partial so that an
      implementation may refuse tokens it would panic on. */
  datatype Builder<!S, O, E> = Builder(
    default: S,
    poll: (S, Token) --> (S, Outcome<E>),
    finish: S -> Result<O, E>)

  /** Every token of `ts`, fed in order from `s`, is one `poll` accepts. */
  ghost predicate Feedable<S, O, E>(b: Builder<S, O, E>, s: S, ts: seq<Token>)
    decreases |ts|
  {
    ts == [] || (b.poll.requires(s, ts[0]) && Feedable(b, b.poll(s, ts[0]).0, ts[1..]))
  }

  /** The outcome of every `poll` call when `ts` is fed in order from `s`:
      one per token, failures included. */
  function Trace<S, O, E>(b: Builder<S, O, E>, s: S, ts: seq<Token>): (r: seq<Outcome<E>>)
    requires Feedable(b, s, ts)
    ensures |r| == |ts|
    decreases |ts|
  {
    if ts == [] then []
    else
      var (s', o) := b.poll(s, ts[0]);
      [o] + Trace(b, s', ts[1..])
  }

  /** The errors of the failing outcomes, in order. */
  function Failures<E>(os: seq<Outcome<E>>): (errs: seq<E>)
    ensures |errs| <= |os|
  {
    if os == [] then []
    else (if os[0].Fail? then [os[0].error] else []) + Failures(os[1..])
  }

  /** The fold of `from_args`: the state after feeding all of `ts` from
      `s`, and the errors of the failing calls. */
  function Feed<S, O, E>(b: Builder<S, O, E>, s: S, ts: seq<Token>): (r: (S, seq<E>))
    requires Feedable(b, s, ts)
    decreases |ts|
  {
    if ts == [] then (s, [])
    else
      var (s', o) := b.poll(s, ts[0]);
      var (s'', errs) := Feed(b, s', ts[1..]);
      (s'', (if o.Fail? then [o.error] else []) + errs)
  }

  /** The fold feeds every token, even after failures, and keeps exactly
      one error per failing call, in token order. */
  lemma {:induction false} FeedKeepsEveryFailure<S, O, E>(b: Builder<S, O, E>, s: S, ts: seq<Token>)
    requires Feedable(b, s, ts)
    ensures Feed(b, s, ts).1 == Failures(Trace(b, s, ts))
    decreases |ts|
  {
    if ts != [] {
      var (s', o) := b.poll(s, ts[0]);
      FeedKeepsEveryFailure(b, s', ts[1..]);
      var tr := Trace(b, s, ts);
      assert tr[0] == o && tr[1..] == Trace(b, s', ts[1..]);
    }
  }

  /** One step of the fold: the head token is polled first, then the tail
      is fed from the state it leaves. */
  lemma FeedCons<S, O, E>(b: Builder<S, O, E>, s: S, t: Token, ts: seq<Token>)
    ensures Feedable(b, s, [t] + ts) <==> b.poll.requires(s, t) && Feedable(b, b.poll(s, t).0, ts)
    ensures Feedable(b, s, [t] + ts) && b.poll(s, t).1.Pass? ==>
      Feed(b, s, [t] + ts) == Feed(b, b.poll(s, t).0, ts)
    ensures Feedable(b, s, [t] + ts) && b.poll(s, t).1.Fail? ==>
      var (s', o) := b.poll(s, t);
      Feed(b, s, [t] + ts) == (Feed(b, s', ts).0, [o.error] + Feed(b, s', ts).1)
  {
    assert ([t] + ts)[0] == t && ([t] + ts)[1..] == ts;
    if Feedable(b, s, [t] + ts) {
      var errs := Feed(b, b.poll(s, t).0, ts).1;
      assert [] + errs == errs;
    }
  }

  /** How `from_args` combines the token errors with `finish`'s result. */
  function Combine<O, E>(errs: seq<E>, fin: Result<O, E>): (r: Result<O, seq<E>>)
    ensures r.Success? <==> errs == [] && fin.Success?
    ensures r.Success? ==> r.value == fin.value
    ensures fin.Failure? ==> r == Failure(errs + [fin.error])
    ensures fin.Success? && errs != [] ==> r == Failure(errs)
  {
    match fin
    case Success(o) => if errs == [] then Success(o) else Failure(errs)
    case Failure(e) => Failure(errs + [e])
  }

  /** `from_args` on a token list: fold every token through `poll` from
      the default state, then `finish` the final state exactly once. */
  function FromArgsResult<S, O, E>(b: Builder<S, O, E>, ts: seq<Token>): (r: Result<O, seq<E>>)
    requires Feedable(b, b.default, ts)
  {
    var (s, errs) := Feed(b, b.default, ts);
    Combine(errs, b.finish(s))
  }

  /** The result is `Ok` exactly when no call failed and `finish`
      succeeded; a failing `finish` comes after all token errors; a
      successful `finish` after token errors is dropped. */
  lemma FromArgsOutcome<S, O, E>(b: Builder<S, O, E>, ts: seq<Token>)
    requires Feedable(b, b.default, ts)
    ensures var errs := Failures(Trace(b, b.default, ts));
      var fin := b.finish(Feed(b, b.default, ts).0);
      && (FromArgsResult(b, ts).Success? <==> errs == [] && fin.Success?)
      && (FromArgsResult(b, ts).Success? ==> FromArgsResult(b, ts).value == fin.value)
      && (fin.Failure? ==> FromArgsResult(b, ts) == Failure(errs + [fin.error]))
      && (fin.Success? && errs != [] ==> FromArgsResult(b, ts) == Failure(errs))
  {
    FeedKeepsEveryFailure(b, b.default, ts);
  }

  /** One step of the lexer, seen by the fold: at the end nothing is left
      to feed; otherwise the token's poll comes first, its error (if any)
      before the errors of the rest. */
  lemma StepFeed<S, O, E>(b: Builder<S, O, E>, s: S, st: LexState)
    requires Feedable(b, s, Lex(st))
    ensures Step(st).0.None? ==> Feed(b, s, Lex(st)) == (s, [])
    ensures Step(st).0.Some? ==>
      var t := Step(st).0.value;
      b.poll.requires(s, t) && Feedable(b, b.poll(s, t).0, Lex(Step(st).1)) &&
      Feed(b, s, Lex(st)) ==
        (Feed(b, b.poll(s, t).0, Lex(Step(st).1)).0,
         (if b.poll(s, t).1.Fail? then [b.poll(s, t).1.error] else []) + Feed(b, b.poll(s, t).0, Lex(Step(st).1)).1)
  {
    var (t, st') := Step(st);
    if t.Some? {
      var ts := Lex(st');
      assert Lex(st) == [t.value] + ts;
      FeedCons(b, s, t.value, ts);
    }
  }

  /** `from_args`: lex `args` and fold each token into the builder state,
      pushing the error of every failing call, then finish. */
  method FromArgs<S, O, E>(args: seq<string>, b: Builder<S, O, E>) returns (r: Result<O, seq<E>>)
    requires Feedable(b, b.default, Lex(Start(args)))
    ensures r == FromArgsResult(b, Lex(Start(args)))
  {
    var parser := new Parse(args);
    var s := b.default;
    var errs: seq<E> := [];
    ghost var total := Feed(b, b.default, Lex(Start(args)));
    assert errs + total.1 == total.1;
    while true
      invariant parser.Valid()
      invariant Feedable(b, s, Lex(parser.State()))
      invariant total == (Feed(b, s, Lex(parser.State())).0, errs + Feed(b, s, Lex(parser.State())).1)
      decreases |parser.State().args|, |parser.State().shorts|
    {
      StepFeed(b, s, parser.State());
      var t := parser.Next();
      if t.None? {
        assert errs + [] == errs;
        break;
      }
      var o;
      s, o := b.poll(s, t.value).0, b.poll(s, t.value).1;
      ghost var rest := Feed(b, s, Lex(parser.State()));
      if o.Fail? {
        assert errs + ([o.error] + rest.1) == (errs + [o.error]) + rest.1;
        errs := errs + [o.error];
      } else {
        assert [] + rest.1 == rest.1;
      }
    }
    r := Combine(errs, b.finish(s));
  }

  /** `try_insert`: fill an empty slot with a value that may fail to be
      produced; a filled slot is never overwritten. `repeat` is the error
      for a slot that is already filled (the value is then not produced). */
  function TryInsert<T, E>(opt: Option<T>, val: Result<T, E>, repeat: E): (r: (Option<T>, Outcome<E>))
    ensures r.1.Pass? <==> opt.None? && val.Success?
    ensures r.1.Pass? ==> r.0 == Some(val.value)
    ensures r.1.Fail? ==> r.0 == opt
    ensures r.1.Fail? ==> r.1.error == (if opt.Some? then repeat else val.error)
  {
    if opt.Some? then (opt, Fail(repeat))
    else if val.Failure? then (opt, Fail(val.error))
    else (Some(val.value), Pass)
  }

  /** `try_set`: a flag may be raised once; raising it again fails with
      `repeat` and leaves it raised. */
  function TrySet<E>(flag: bool, repeat: E): (r: (bool, Outcome<E>))
    ensures r.0
    ensures r.1.Fail? <==> flag
    ensures r.1.Fail? ==> r.1.error == repeat
  {
    if flag then (true, Fail(repeat)) else (true, Pass)
  }

  /** Once the first insertion into an empty slot succeeds, every later one
      reports the repeat and leaves the slot holding the first value. */
  lemma TryInsertOnce<T, E>(v1: T, val: Result<T, E>, repeat: E)
    ensures var (opt, o) := TryInsert(None, Success(v1), repeat);
      o.Pass? && TryInsert(opt, val, repeat) == (Some(v1), Fail(repeat))
  {
  }
}
