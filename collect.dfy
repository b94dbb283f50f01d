// How every loop over inputs, outputs or configuration entries turns its
// per-item results into one result under an error policy: fast-fail
// returns the first error alone as soon as it happens, accumulate goes on
// and reports every error in order (the loops of src/engine.rs,
// src/engine_async.rs, src/builder.rs and src/builder_async.rs).
module Collecting {
  import opened Wrappers
  import opened Seqs
  import opened Errors

  type Step<A> = Result<A, SingleIoError>

  /** The successful values, in order. */
  function Values<A>(rs: seq<Step<A>>): seq<A>
  {
    if |rs| == 0 then []
    else Values(rs[..|rs| - 1]) + (if rs[|rs| - 1].Ok? then [rs[|rs| - 1].value] else [])
  }

  /** The errors, in order. */
  function Failures<A>(rs: seq<Step<A>>): seq<SingleIoError>
  {
    if |rs| == 0 then []
    else Failures(rs[..|rs| - 1]) + (if rs[|rs| - 1].Err? then [rs[|rs| - 1].error] else [])
  }

  function IsFailure<A>(): Step<A> -> bool
  {
    (r: Step<A>) => r.Err?
  }

  /** Where the first error is, if there is one. */
  function FirstFailure<A>(rs: seq<Step<A>>): (r: Option<nat>)
    ensures r.Some? ==> r.value < |rs| && rs[r.value].Err? && forall j :: 0 <= j < r.value ==> rs[j].Ok?
    ensures r.None? ==> forall j :: 0 <= j < |rs| ==> rs[j].Ok?
  {
    var p := IsFailure<A>();
    assert forall j :: 0 <= j < |rs| ==> (p(rs[j]) <==> rs[j].Err?);
    FirstIndex(rs, p)
  }

  /** The outcome of a loop over `rs` under `policy`. */
  function Collect<A>(policy: ErrorPolicy, rs: seq<Step<A>>): Result<seq<A>, AggregateError>
  {
    match policy
    case FastFail =>
      (match FirstFailure(rs)
       case Some(i) => Err(Single(rs[i].error))
       case None => Ok(Values(rs)))
    case Accumulate =>
      if Failures(rs) == [] then Ok(Values(rs)) else Err(AggregateError(Failures(rs)))
  }

  /** How many items the loop performs: fast-fail stops right after the
      first error. */
  function Attempted<A>(policy: ErrorPolicy, rs: seq<Step<A>>): (n: nat)
    ensures n <= |rs|
  {
    match FirstFailure(rs)
    case Some(i) => if policy == FastFail then i + 1 else |rs|
    case None => |rs|
  }

  /** The unit result of a loop whose items produce nothing. */
  function Discard<A>(r: Result<seq<A>, AggregateError>): Result<(), AggregateError>
  {
    match r
    case Ok(_) => Ok(())
    case Err(e) => Err(e)
  }

  // ------------------------------------------------------------- lemmas

  lemma {:induction false} FailuresNoneIffAllOk<A>(rs: seq<Step<A>>)
    ensures Failures(rs) == [] <==> forall j :: 0 <= j < |rs| ==> rs[j].Ok?
    ensures Failures(rs) == [] ==> |Values(rs)| == |rs|
    ensures Failures(rs) == [] ==> forall j :: 0 <= j < |rs| ==> Values(rs)[j] == rs[j].value
  {
    if |rs| > 0 {
      var init := rs[..|rs| - 1];
      FailuresNoneIffAllOk(init);
      assert forall j :: 0 <= j < |init| ==> init[j] == rs[j];
    }
  }

  lemma {:induction false} FailuresCount<A>(rs: seq<Step<A>>)
    ensures |Failures(rs)| + |Values(rs)| == |rs|
  {
    if |rs| > 0 {
      FailuresCount(rs[..|rs| - 1]);
    }
  }

  /** A loop succeeds exactly when every item succeeded, and then yields
      every item's value in order, under either policy. */
  lemma CollectOk<A>(policy: ErrorPolicy, rs: seq<Step<A>>)
    ensures Collect(policy, rs).Ok? <==> forall j :: 0 <= j < |rs| ==> rs[j].Ok?
    ensures Collect(policy, rs).Ok? ==>
      |Collect(policy, rs).value| == |rs| && forall j :: 0 <= j < |rs| ==> Collect(policy, rs).value[j] == rs[j].value
  {
    FailuresNoneIffAllOk(rs);
  }

  /** Fast-fail reports exactly one error, the first, and stops there. */
  lemma FastFailReportsFirst<A>(rs: seq<Step<A>>)
    requires Collect(FastFail, rs).Err?
    ensures FirstFailure(rs).Some?
    ensures Collect(FastFail, rs).error.errors == [rs[FirstFailure(rs).value].error]
    ensures Attempted(FastFail, rs) == FirstFailure(rs).value + 1
  {
  }

  /** Accumulate goes through every item and reports all errors in
      order: as many as there were failing items. */
  lemma {:induction false} AccumulateReportsAll<A>(rs: seq<Step<A>>)
    requires Collect(Accumulate, rs).Err?
    ensures Collect(Accumulate, rs).error.errors == Failures(rs)
    ensures |Collect(Accumulate, rs).error.errors| == |rs| - |Values(rs)| > 0
    ensures Attempted(Accumulate, rs) == |rs|
  {
    FailuresCount(rs);
  }

  /** Each error accumulate reports is an item's error, and each failing
      item's error is reported. */
  lemma {:induction false} FailuresAreTheErrors<A>(rs: seq<Step<A>>)
    ensures forall e :: e in Failures(rs) <==> exists j :: 0 <= j < |rs| && rs[j] == Err(e)
  {
    if |rs| > 0 {
      var init := rs[..|rs| - 1];
      FailuresAreTheErrors(init);
      assert forall j :: 0 <= j < |init| ==> init[j] == rs[j];
    }
  }

  /** Under fast-fail, what follows the first error has no influence. */
  lemma {:induction false} FastFailIgnoresRest<A>(rs: seq<Step<A>>, other: seq<Step<A>>)
    requires FirstFailure(rs).Some?
    ensures var n := Attempted(FastFail, rs);
            Collect(FastFail, rs[..n] + other) == Collect(FastFail, rs)
  {
    var i := FirstFailure(rs).value;
    var rs2 := rs[..i + 1] + other;
    assert forall j :: 0 <= j <= i ==> rs2[j] == rs[j];
    UniqueFirst(rs2, IsFailure<A>(), i);
    assert FirstFailure(rs2) == Some(i);
  }

  /** The two facts a loop needs at a failing item under fast-fail. */
  lemma {:induction false} StopAtFirstFailure<A>(rs: seq<Step<A>>, i: nat)
    requires i < |rs| && rs[i].Err? && Failures(rs[..i]) == []
    ensures Collect(FastFail, rs) == Err(Single(rs[i].error))
    ensures Attempted(FastFail, rs) == i + 1
  {
    FailuresNoneIffAllOk(rs[..i]);
    assert forall j :: 0 <= j < i ==> rs[..i][j] == rs[j];
    UniqueFirst(rs, IsFailure<A>(), i);
  }

  /** What a loop has at its end when it did not stop early. */
  lemma {:induction false} CollectAtEnd<A>(policy: ErrorPolicy, rs: seq<Step<A>>)
    requires policy == FastFail ==> Failures(rs) == []
    ensures Collect(policy, rs) == if Failures(rs) == [] then Ok(Values(rs)) else Err(AggregateError(Failures(rs)))
    ensures Attempted(policy, rs) == |rs|
  {
    FailuresNoneIffAllOk(rs);
  }

  lemma PrefixStep<A>(rs: seq<Step<A>>, i: nat)
    requires i < |rs|
    ensures Values(rs[..i + 1]) == Values(rs[..i]) + (if rs[i].Ok? then [rs[i].value] else [])
    ensures Failures(rs[..i + 1]) == Failures(rs[..i]) + (if rs[i].Err? then [rs[i].error] else [])
  {
    assert rs[..i + 1][..i] == rs[..i];
  }
}
