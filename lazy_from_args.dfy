/** The lazy driver of src/from_args.rs: an iterator that yields each token
    error as soon as `poll_init` reports it and, once the tokens run out,
    the result of `finish`, after which it is empty. */
module LazyFromArgs {
  import opened Wrappers
  import opened Tokens
  import opened Args

  /** The items still to come from builder state `s` with tokens `ts`
      left. */
  function Items<S, O, E>(b: Builder<S, O, E>, s: S, ts: seq<Token>): (items: seq<Result<O, E>>)
    requires Feedable(b, s, ts)
    ensures |items| >= 1 && items[|items| - 1] == b.finish(Feed(b, s, ts).0)
    decreases |ts|
  {
    if ts == [] then [b.finish(s)]
    else
      var (s', o) := b.poll(s, ts[0]);
      (if o.Fail? then [Failure(o.error)] else []) + Items(b, s', ts[1..])
  }

  function AsFailures<O, E>(errs: seq<E>): (items: seq<Result<O, E>>)
    ensures |items| == |errs| && forall i :: 0 <= i < |errs| ==> items[i] == Failure(errs[i])
  {
    seq(|errs|, i requires 0 <= i < |errs| => Failure(errs[i]))
  }

  /** The items are the errors the eager fold collects, each as an error
      item, followed by the result of `finish` on the final state. */
  lemma {:induction false} ItemsShape<S, O, E>(b: Builder<S, O, E>, s: S, ts: seq<Token>)
    requires Feedable(b, s, ts)
    ensures Items(b, s, ts) == AsFailures(Feed(b, s, ts).1) + [b.finish(Feed(b, s, ts).0)]
    decreases |ts|
  {
    if ts != [] {
      var (s', o) := b.poll(s, ts[0]);
      ItemsShape(b, s', ts[1..]);
      var errs := Feed(b, s', ts[1..]).1;
      if o.Fail? {
        assert AsFailures<O, E>([o.error] + errs) == [Failure(o.error)] + AsFailures<O, E>(errs);
      } else {
        assert [] + errs == errs;
      }
    }
  }

  /** Relation to the eager driver: the iterator yields exactly one item per
      failing `poll_init` call, in order, and then `finish`'s result even
      after errors, so it has at least one item; the eager driver succeeds
      exactly when the iterator's only item is a success, with the same
      value. */
  lemma LazyMatchesEager<S, O, E>(b: Builder<S, O, E>, ts: seq<Token>)
    requires Feedable(b, b.default, ts)
    ensures var items := Items(b, b.default, ts);
      var errs := Failures(Trace(b, b.default, ts));
      && |items| == |errs| + 1
      && items[..|items| - 1] == AsFailures(errs)
      && items[|items| - 1] == b.finish(Feed(b, b.default, ts).0)
      && (FromArgsResult(b, ts).Success? <==> |items| == 1 && items[0].Success?)
      && (FromArgsResult(b, ts).Success? ==> FromArgsResult(b, ts).value == items[0].value)
  {
    ItemsShape(b, b.default, ts);
    FeedKeepsEveryFailure(b, b.default, ts);
    var items := Items(b, b.default, ts);
    var errs := Failures(Trace(b, b.default, ts));
    assert items[..|items| - 1] == AsFailures(errs);
  }

  /** One step of the lexer, seen by the lazy driver: at the end the only
      item left is `finish`'s; otherwise the token's error, when its poll
      fails, comes before the items of the rest. */
  lemma StepItems<S, O, E>(b: Builder<S, O, E>, s: S, st: LexState)
    requires Feedable(b, s, Lex(st))
    ensures Step(st).0.None? ==> Items(b, s, Lex(st)) == [b.finish(s)]
    ensures Step(st).0.Some? ==>
      var t := Step(st).0.value;
      b.poll.requires(s, t) && Feedable(b, b.poll(s, t).0, Lex(Step(st).1)) &&
      Items(b, s, Lex(st)) ==
        (if b.poll(s, t).1.Fail? then [Failure(b.poll(s, t).1.error)] else []) +
        Items(b, b.poll(s, t).0, Lex(Step(st).1))
  {
    var (t, st') := Step(st);
    if t.Some? {
      var ts := Lex(st');
      assert Lex(st) == [t.value] + ts;
      FeedCons(b, s, t.value, ts);
      assert Lex(st)[0] == t.value && Lex(st)[1..] == ts;
    }
  }

  /** `FromArgsIter`: the lexer and the builder state, which is taken out
      when `finish` runs. */
  class FromArgsIter<S, O, E> {
    const builder: Builder<S, O, E>
    const parser: Parse
    var init: Option<S>

    ghost predicate Valid()
      reads this, parser
    {
      parser.Valid() && (init.Some? ==> Feedable(builder, init.value, Lex(parser.State())))
    }

    /** The items the iterator has yet to yield. */
    ghost function Remaining(): seq<Result<O, E>>
      reads this, parser
      requires Valid()
    {
      if init.None? then [] else Items(builder, init.value, Lex(parser.State()))
    }

    /** A fresh iterator over the tokens of `args`, from the builder's
        default state. */
    constructor (args: seq<string>, builder: Builder<S, O, E>)
      requires Feedable(builder, builder.default, Lex(Start(args)))
      ensures Valid() && fresh(parser)
      ensures Remaining() == Items(builder, builder.default, Lex(Start(args)))
    {
      this.builder := builder;
      this.parser := new Parse(args);
      this.init := Some(builder.default);
    }

    /** One round of the loop of `FromArgsIter::next`: take the next token
        and, if there is one, poll `s` with it. */
    method FeedOne(s: S) returns (done: bool, s': S, o: Outcome<E>)
      requires parser.Valid() && Feedable(builder, s, Lex(parser.State()))
      modifies parser
      ensures parser.Valid() && Feedable(builder, s', Lex(parser.State()))
      ensures done ==> Items(builder, s, Lex(old(parser.State()))) == [builder.finish(s')]
      ensures !done ==>
        Items(builder, s, Lex(old(parser.State()))) ==
          (if o.Fail? then [Failure(o.error)] else []) + Items(builder, s', Lex(parser.State()))
      ensures !done ==>
        |parser.State().args| < |old(parser.State()).args| ||
        (parser.State().args == old(parser.State()).args &&
         |parser.State().shorts| < |old(parser.State()).shorts|)
    {
      StepItems(builder, s, parser.State());
      var t := parser.Next();
      if t.None? {
        return true, s, Pass;
      }
      s', o := builder.poll(s, t.value).0, builder.poll(s, t.value).1;
      done := false;
    }

    /** The loop of `FromArgsIter::next`: feed tokens to the state `s`
        until a `poll` fails, returning its error and the state after it,
        or until the tokens run out, returning the final state. */
    method FeedUntilError(s: S) returns (s': S, err: Option<E>)
      requires parser.Valid() && Feedable(builder, s, Lex(parser.State()))
      modifies parser
      ensures parser.Valid() && Feedable(builder, s', Lex(parser.State()))
      ensures err.None? ==> Items(builder, s, Lex(old(parser.State()))) == [builder.finish(s')]
      ensures err.Some? ==>
        Items(builder, s, Lex(old(parser.State()))) ==
          [Failure(err.value)] + Items(builder, s', Lex(parser.State()))
    {
      ghost var rem := Items(builder, s, Lex(parser.State()));
      s' := s;
      while true
        invariant parser.Valid()
        invariant Feedable(builder, s', Lex(parser.State()))
        invariant Items(builder, s', Lex(parser.State())) == rem
        decreases |parser.State().args|, |parser.State().shorts|
      {
        var done, o;
        done, s', o := FeedOne(s');
        if done {
          return s', None;
        }
        if o.Fail? {
          return s', Some(o.error);
        }
        assert rem == [] + Items(builder, s', Lex(parser.State()));
      }
    }

    /** `FromArgsIter::next`: feed tokens until one fails and yield its
        error, leaving the later tokens for the next call; at the end of the
        tokens take the state out and yield `finish`'s result; once the
        state is gone, yield nothing. */
    method Next() returns (item: Option<Result<O, E>>)
      requires Valid()
      modifies this, parser
      ensures Valid()
      ensures old(init).None? ==> item.None? && init.None?
      ensures old(Remaining()) == [] ==> item.None? && Remaining() == []
      ensures old(Remaining()) != [] ==>
        item == Some(old(Remaining())[0]) && Remaining() == old(Remaining())[1..]
      ensures init.None? <==> Remaining() == []
    {
      if init.None? {
        return None;
      }
      var s', err := FeedUntilError(init.value);
      if err.None? {
        init := None;
        item := Some(builder.finish(s'));
      } else {
        init := Some(s');
        item := Some(Failure(err.value));
      }
    }

    /** `size_hint` as written: at least one item, always. */
    function SizeHintAsWritten(): (r: (nat, Option<nat>))
      ensures r == (1, None)
    {
      (1, None)
    }

    /** `size_hint` with a lower bound that holds in every state: one while
        the builder state is present, and an exact zero once it is gone. */
    function SizeHint(): (r: (nat, Option<nat>))
      reads this, parser
      requires Valid()
      ensures r.0 <= |Remaining()|
      ensures r.1.Some? ==> |Remaining()| <= r.1.value
    {
      if init.None? then (0, Some(0)) else (1, None)
    }
  }

  /** The lower bound of one as written is wrong once the iterator is
      exhausted: nothing remains, yet one item is promised. */
  lemma SizeHintOverstatesWhenExhausted<S, O, E>(it: FromArgsIter<S, O, E>)
    requires it.Valid() && it.init.None?
    ensures it.SizeHintAsWritten().0 > |it.Remaining()|
  {
  }
}
