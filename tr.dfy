/** The flag traits of src/tr.rs: a switch can be set once, a counter
    counts up to a limit. Each trait method mutates its receiver; the model
    gives each a pure step function (state in, state and outcome out) and a
    class whose method performs that step in place. */
module Tr {
  import opened Wrappers
  import opened Errors

  /** `Switch for bool`: setting a set flag fails and leaves it set. */
  function SetBool(b: bool): (r: (bool, Outcome<SwitchAlreadySetError>))
    ensures r.0
    ensures r.1.Fail? <==> b
  {
    if b then (b, Fail(SwitchAlreadySetError)) else (true, Pass)
  }

  /** A switch succeeds exactly once: after any first `set`, a second one
      fails, and the flag reads as set either way. */
  lemma SetTwiceFails(b: bool)
    ensures var (b1, o1) := SetBool(b);
      var (b2, o2) := SetBool(b1);
      b1 == b2 && o2.Fail? && (o1.Pass? <==> !b)
  {
  }

  /** A `bool` in place. */
  class BoolSwitch {
    var on: bool

    constructor ()
      ensures !on
    {
      on := false;
    }

    /** `Switch::set`. */
    method Set() returns (r: Outcome<SwitchAlreadySetError>)
      modifies this
      ensures (on, r) == SetBool(old(on))
    {
      if on {
        r := Fail(SwitchAlreadySetError);
      } else {
        on := true;
        r := Pass;
      }
    }

    /** `Switch::is_set`. */
    function IsSet(): bool
      reads this
    {
      on
    }
  }

  /** The doc example `Agree`, a two-valued switch. */
  datatype Agree = Yes | No

  function SetAgree(a: Agree): (r: (Agree, Outcome<SwitchAlreadySetError>))
    ensures r.0 == Yes
    ensures r.1.Fail? <==> a == Yes
  {
    match a
    case Yes => (a, Fail(SwitchAlreadySetError))
    case No => (Yes, Pass)
  }

  function AgreeIsSet(a: Agree): bool
  {
    a.Yes?
  }

  function AgreeOf(b: bool): Agree
  {
    if b then Yes else No
  }

  /** `Agree` is `bool` under the renaming true = Yes: `set` and `is_set`
      commute with it. */
  lemma AgreeIsBool(b: bool)
    ensures SetAgree(AgreeOf(b)) == (AgreeOf(SetBool(b).0), SetBool(b).1)
    ensures AgreeIsSet(AgreeOf(b)) == b
  {
  }

  /** The unsigned integer types that implement `Counter`. */
  datatype Unsigned = U8 | U16 | U32 | U64 | USize

  /** The largest value of each type; `usize` is taken to be 64 bits. */
  function MaxValue(u: Unsigned): nat
  {
    match u
    case U8 => 0xFF
    case U16 => 0xFFFF
    case U32 => 0xFFFF_FFFF
    case U64 => 0xFFFF_FFFF_FFFF_FFFF
    case USize => 0xFFFF_FFFF_FFFF_FFFF
  }

  /** `checked_add` on a type: `None` when the sum leaves the type. */
  function CheckedAdd(u: Unsigned, n: nat, d: nat): (r: Option<nat>)
    requires n <= MaxValue(u)
    ensures r.Some? <==> n + d <= MaxValue(u)
    ensures r.Some? ==> r.value == n + d
  {
    if n + d <= MaxValue(u) then Some(n + d) else None
  }

  /** `Counter::inc` for an unsigned type:
      `*self = self.checked_add(1).ok_or(..)?`, so on overflow the `?`
      returns before the assignment and the value stays as it was. */
  function IncUnsigned(u: Unsigned, n: nat): (r: (nat, Outcome<TooManyOptionsError>))
    requires n <= MaxValue(u)
  {
    match CheckedAdd(u, n, 1)
    case None => (n, Fail(TooManyOptionsError))
    case Some(m) => (m, Pass)
  }

  /** The doc example `AtMost5(u8)`: refuses once the count reaches 5. */
  function IncAtMost5(n: nat): (r: (nat, Outcome<TooManyOptionsError>))
    requires n <= MaxValue(U8)
  {
    if n >= 5 then (n, Fail(TooManyOptionsError)) else (n + 1, Pass)
  }

  /** The reference counter: count up to `limit`, then refuse and keep the
      value. */
  function Bounded(limit: nat, n: nat): (r: (nat, Outcome<TooManyOptionsError>))
    ensures r.1.Pass? <==> n < limit
    ensures r.1.Pass? ==> r.0 == n + 1
    ensures r.1.Fail? ==> r.0 == n
  {
    if n < limit then (n + 1, Pass) else (n, Fail(TooManyOptionsError))
  }

  /** Every unsigned counter is the reference counter bounded by its
      type's maximum. */
  lemma IncUnsignedIsBounded(u: Unsigned, n: nat)
    requires n <= MaxValue(u)
    ensures IncUnsigned(u, n) == Bounded(MaxValue(u), n)
    ensures IncUnsigned(u, n).0 <= MaxValue(u)
  {
  }

  /** `AtMost5` is the reference counter bounded by 5, and its `u8` never
      overflows. */
  lemma IncAtMost5IsBounded(n: nat)
    requires n <= MaxValue(U8)
    ensures IncAtMost5(n) == Bounded(5, n)
    ensures IncAtMost5(n).0 <= MaxValue(U8)
  {
  }

  /** `k` increments of the reference counter from `n`: the value reached
      and how many of them failed. */
  function BoundedRepeat(limit: nat, n: nat, k: nat): (nat, nat)
    decreases k
  {
    if k == 0 then (n, 0)
    else
      var (m, o) := Bounded(limit, n);
      var (v, fails) := BoundedRepeat(limit, m, k - 1);
      (v, fails + (if o.Fail? then 1 else 0))
  }

  /** From a value within the limit, `k` increments reach the limit
      capped, and exactly the increments past the limit fail. */
  lemma {:induction false} BoundedRepeatCounts(limit: nat, n: nat, k: nat)
    requires n <= limit
    ensures BoundedRepeat(limit, n, k) ==
      (if n + k <= limit then (n + k, 0) else (limit, n + k - limit))
    decreases k
  {
    if k > 0 {
      BoundedRepeatCounts(limit, Bounded(limit, n).0, k - 1);
    }
  }

  /** An unsigned counter in place; the value never leaves its type. */
  class UnsignedCounter {
    const kind: Unsigned
    var value: nat

    ghost predicate Valid()
      reads this
    {
      value <= MaxValue(kind)
    }

    constructor (kind: Unsigned)
      ensures Valid() && this.kind == kind && value == 0
    {
      this.kind := kind;
      value := 0;
    }

    /** `Counter::inc`. */
    method Inc() returns (r: Outcome<TooManyOptionsError>)
      requires Valid()
      modifies this
      ensures Valid() && (value, r) == IncUnsigned(kind, old(value))
    {
      var sum := CheckedAdd(kind, value, 1);
      match sum
      case None =>
        r := Fail(TooManyOptionsError);
      case Some(m) =>
        value := m;
        r := Pass;
    }
  }

  /** `AtMost5` in place. */
  class AtMost5 {
    var count: nat

    ghost predicate Valid()
      reads this
    {
      count <= MaxValue(U8)
    }

    constructor (count: nat)
      requires count <= MaxValue(U8)
      ensures Valid() && this.count == count
    {
      this.count := count;
    }

    /** `Counter::inc`. */
    method Inc() returns (r: Outcome<TooManyOptionsError>)
      requires Valid()
      modifies this
      ensures Valid() && (count, r) == IncAtMost5(old(count))
    {
      if count >= 5 {
        r := Fail(TooManyOptionsError);
      } else {
        count := count + 1;
        r := Pass;
      }
    }
  }
}
