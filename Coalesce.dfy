/**
 * The combinators of Functions.ErrorIO.swift that fold a batch of results
 * into one: every failure's causes go into one fresh aggregate.
 */
module Coalescing {
  import opened Wrappers
  import opened Functional
  import opened Errors

  /** `coalesce`: all the values when nothing failed, otherwise every failure's causes in input order. */
  method Coalesce<T>(arr: seq<Result<T, ErrorIO>>) returns (r: Result<seq<T>, ErrorIO>)
    ensures SelectFailures(arr) == [] ==> r == Success(RejectFailures(arr))
    ensures SelectFailures(arr) != [] ==>
      r.Failure? && fresh(r.error) &&
      r.error.errors == AllCauses(SelectFailures(arr)) &&
      r.error.domain == DefaultDomain && r.error.code == DefaultCode
  {
    var failures := SelectFailures(arr);
    if |failures| > 0 {
      var errorIO := new ErrorIO();
      for i := 0 to |failures|
        invariant fresh(errorIO) && errorIO !in failures
        invariant errorIO.errors == AllCauses(failures[..i])
        invariant errorIO.domain == DefaultDomain && errorIO.code == DefaultCode
      {
        assert failures[..i + 1][..i] == failures[..i];
        ghost var expected := AllCauses(failures[..i + 1]);
        assert errorIO !in failures[..i + 1];
        errorIO.Merge(failures[i]);
        assert errorIO.errors == expected;
      }
      assert failures[..|failures|] == failures;
      r := Failure(errorIO);
    } else {
      r := Success(RejectFailures(arr));
    }
  }

  /** Without failures, `coalesce` gives back every value, in input order. */
  lemma CoalesceValues<T>(arr: seq<Result<T, ErrorIO>>)
    requires SelectFailures(arr) == []
    ensures |RejectFailures(arr)| == |arr|
    ensures forall i :: 0 <= i < |arr| ==> arr[i].Success? && RejectFailures(arr)[i] == arr[i].value
  {
    NoFailuresSelected(arr);
    RejectFailuresAllSuccesses(arr);
  }

  /** The failing sides of a result, as a list of at most one error. */
  function SideErrors<T>(side: Result<T, ErrorIO>): seq<ErrorIO>
  {
    if side.Failure? then [side.error] else []
  }

  /** The errors `coalesce2` visits: for each pair in order, the left one and then the right one. */
  function PairErrors<T, U>(arr: seq<(Result<T, ErrorIO>, Result<U, ErrorIO>)>): seq<ErrorIO>
    decreases |arr|
  {
    if arr == [] then []
    else PairErrors(arr[..|arr| - 1]) + SideErrors(arr[|arr| - 1].0) + SideErrors(arr[|arr| - 1].1)
  }

  /** Both sides of every pair succeeded. */
  predicate AllPairsSucceed<T, U>(arr: seq<(Result<T, ErrorIO>, Result<U, ErrorIO>)>)
  {
    forall i :: 0 <= i < |arr| ==> arr[i].0.Success? && arr[i].1.Success?
  }

  /** The value pairs of pairs whose sides all succeeded. */
  function PairValues<T, U>(arr: seq<(Result<T, ErrorIO>, Result<U, ErrorIO>)>): (r: seq<(T, U)>)
    requires AllPairsSucceed(arr)
    ensures |r| == |arr|
    ensures forall i :: 0 <= i < |arr| ==> r[i] == (arr[i].0.value, arr[i].1.value)
  {
    seq(|arr|, i requires 0 <= i < |arr| => (arr[i].0.value, arr[i].1.value))
  }

  /** Some side of some pair failed exactly when there is an error to visit. */
  lemma {:induction false} PairErrorsEmpty<T, U>(arr: seq<(Result<T, ErrorIO>, Result<U, ErrorIO>)>)
    ensures PairErrors(arr) == [] <==> AllPairsSucceed(arr)
    decreases |arr|
  {
    if arr != [] {
      var init := arr[..|arr| - 1];
      PairErrorsEmpty(init);
      assert forall i :: 0 <= i < |init| ==> init[i] == arr[i];
      if AllPairsSucceed(arr) {
        assert AllPairsSucceed(init);
      }
    }
  }

  /**
   * The unwraps of `coalesce2` are safe whenever every failing side carries
   * at least one cause: then an empty aggregate means every side succeeded.
   */
  lemma {:induction false} AggregateEmptyOnlyWhenAllSucceed<T, U>(arr: seq<(Result<T, ErrorIO>, Result<U, ErrorIO>)>)
    requires forall i :: 0 <= i < |arr| && arr[i].0.Failure? ==> arr[i].0.error.errors != []
    requires forall i :: 0 <= i < |arr| && arr[i].1.Failure? ==> arr[i].1.error.errors != []
    ensures AllCauses(PairErrors(arr)) == [] ==> AllPairsSucceed(arr)
  {
    var es := PairErrors(arr);
    PairErrorsMembers(arr);
    AllCausesEmpty(es);
    PairErrorsEmpty(arr);
    if es != [] {
      assert es[0] in es;
    }
  }

  /** Every error visited is the error of a failing side. */
  lemma {:induction false} PairErrorsMembers<T, U>(arr: seq<(Result<T, ErrorIO>, Result<U, ErrorIO>)>)
    ensures forall e :: e in PairErrors(arr) ==>
      exists i :: 0 <= i < |arr| && ((arr[i].0.Failure? && arr[i].0.error == e) || (arr[i].1.Failure? && arr[i].1.error == e))
    decreases |arr|
  {
    if arr != [] {
      var init := arr[..|arr| - 1];
      PairErrorsMembers(init);
      assert forall i :: 0 <= i < |init| ==> init[i] == arr[i];
    }
  }

  /** The causes of a failing side; none for a success. */
  function SideCauses<T>(side: Result<T, ErrorIO>): seq<Cause>
    reads if side.Failure? then {side.error} else {}
  {
    if side.Failure? then side.error.errors else []
  }

  lemma PairErrorsStep<T, U>(arr: seq<(Result<T, ErrorIO>, Result<U, ErrorIO>)>, i: nat)
    requires i < |arr|
    ensures AllCauses(PairErrors(arr[..i + 1]))
         == AllCauses(PairErrors(arr[..i])) + SideCauses(arr[i].0) + SideCauses(arr[i].1)
  {
    assert arr[..i + 1][..i] == arr[..i];
    var (left, right) := arr[i];
    AllCausesAppend(PairErrors(arr[..i]), SideErrors(left));
    AllCausesAppend(PairErrors(arr[..i]) + SideErrors(left), SideErrors(right));
    assert AllCauses(SideErrors(left)) == SideCauses(left) by {
      if left.Failure? {
        assert AllCauses([left.error]) == AllCauses([]) + left.error.errors;
      }
    }
    assert AllCauses(SideErrors(right)) == SideCauses(right) by {
      if right.Failure? {
        assert AllCauses([right.error]) == AllCauses([]) + right.error.errors;
      }
    }
  }

  /** No side of any pair fails with `x`. */
  predicate NoSideIs<T, U>(arr: seq<(Result<T, ErrorIO>, Result<U, ErrorIO>)>, x: ErrorIO)
  {
    forall j :: 0 <= j < |arr| ==> arr[j].0 != Failure(x) && arr[j].1 != Failure(x)
  }

  /** An aggregate no side of `arr` fails with is not among the errors visited. */
  lemma {:induction false} PairErrorsExclude<T, U>(arr: seq<(Result<T, ErrorIO>, Result<U, ErrorIO>)>, x: ErrorIO)
    requires NoSideIs(arr, x)
    ensures x !in PairErrors(arr)
    decreases |arr|
  {
    if arr != [] {
      PairErrorsExclude(arr[..|arr| - 1], x);
    }
  }

  /** One step of the fold of `coalesce2`: `into <~ error` when `side` failed. */
  method MergeSide<T>(into: ErrorIO, side: Result<T, ErrorIO>)
    modifies into
    ensures into.errors == old(into.errors) + old(SideCauses(side))
    ensures into.domain == old(into.domain) && into.code == old(into.code)
  {
    if side.Failure? {
      into.Merge(side.error);
    }
  }

  /** The fold of `coalesce2`: each pair's left error and then its right error, into a fresh aggregate. */
  method AggregatePairErrors<T, U>(arr: seq<(Result<T, ErrorIO>, Result<U, ErrorIO>)>) returns (errorIO: ErrorIO)
    ensures fresh(errorIO)
    ensures errorIO.errors == AllCauses(PairErrors(arr))
    ensures errorIO.domain == DefaultDomain && errorIO.code == DefaultCode
  {
    errorIO := new ErrorIO();
    for i := 0 to |arr|
      invariant fresh(errorIO) && NoSideIs(arr, errorIO)
      invariant errorIO.errors == AllCauses(PairErrors(arr[..i]))
      invariant errorIO.domain == DefaultDomain && errorIO.code == DefaultCode
    {
      ghost var expected := AllCauses(PairErrors(arr[..i + 1]));
      assert expected == errorIO.errors + SideCauses(arr[i].0) + SideCauses(arr[i].1) by {
        PairErrorsStep(arr, i);
      }
      assert errorIO !in PairErrors(arr[..i + 1]) by {
        assert NoSideIs(arr[..i + 1], errorIO);
        PairErrorsExclude(arr[..i + 1], errorIO);
      }
      label before:
      MergeSide(errorIO, arr[i].0);
      MergeSide(errorIO, arr[i].1);
      AllCausesUnchanged@before(PairErrors(arr[..i + 1]));
    }
    assert arr[..|arr|] == arr;
  }

  /**
   * The `map` of `coalesce2`: every pair's values, force-unwrapped in input
   * order; the first failing side traps.
   */
  method UnwrapPairs<T, U>(arr: seq<(Result<T, ErrorIO>, Result<U, ErrorIO>)>) returns (r: Run<seq<(T, U)>>)
    ensures AllPairsSucceed(arr) ==> r == Returned(PairValues(arr))
    ensures !AllPairsSucceed(arr) ==> r == Trapped
  {
    var pairs: seq<(T, U)> := [];
    for i := 0 to |arr|
      invariant |pairs| == i
      invariant AllPairsSucceed(arr[..i])
      invariant forall k :: 0 <= k < i ==> pairs[k] == (arr[k].0.value, arr[k].1.value)
    {
      if arr[i].0.Failure? || arr[i].1.Failure? {
        return Trapped;
      }
      assert arr[..i + 1] == arr[..i] + [arr[i]];
      pairs := pairs + [(arr[i].0.value, arr[i].1.value)];
    }
    assert arr[..|arr|] == arr;
    assert pairs == PairValues(arr);
    r := Returned(pairs);
  }

  /**
   * `coalesce2` as written: the fold above, then a failure when the aggregate
   * holds a cause, otherwise every pair's values with forced unwraps, which
   * trap on a failing side whose aggregate is empty.
   */
  method Coalesce2AsWritten<T, U>(arr: seq<(Result<T, ErrorIO>, Result<U, ErrorIO>)>)
    returns (r: Run<Result<seq<(T, U)>, ErrorIO>>)
    ensures AllCauses(PairErrors(arr)) != [] ==>
      r.Returned? && r.value.Failure? && fresh(r.value.error) &&
      r.value.error.errors == AllCauses(PairErrors(arr))
    ensures AllCauses(PairErrors(arr)) == [] && AllPairsSucceed(arr) ==>
      r == Returned(Success(PairValues(arr)))
    ensures AllCauses(PairErrors(arr)) == [] && !AllPairsSucceed(arr) ==> r == Trapped
  {
    var errorIO := AggregatePairErrors(arr);
    if |errorIO.errors| > 0 {
      return Returned(Failure(errorIO));
    }
    assert AllCauses(PairErrors(arr)) == [];
    var unwrapped := UnwrapPairs(arr);
    match unwrapped {
      case Trapped => r := Trapped;
      case Returned(pairs) => r := Returned(Success(pairs));
    }
  }

  /** An input that reaches the forced unwrap with a failing side: a failure whose aggregate is empty. */
  method Coalesce2TrapsOnEmptyFailure() returns (r: Run<Result<seq<(int, int)>, ErrorIO>>)
    ensures r == Trapped
  {
    var empty := new ErrorIO();
    var arr: seq<(Result<int, ErrorIO>, Result<int, ErrorIO>)> := [(Failure(empty), Success(0))];
    assert arr[..0] == [];
    assert PairErrors(arr) == [empty];
    assert AllCauses([empty]) == AllCauses([]) + empty.errors;
    assert !AllPairsSucceed(arr) by {
      assert arr[0].0.Failure?;
    }
    r := Coalesce2AsWritten(arr);
  }

  /**
   * `coalesce2` as intended: a failure, carrying the aggregate, exactly when
   * some side failed; otherwise every pair's values in input order.
   */
  method Coalesce2<T, U>(arr: seq<(Result<T, ErrorIO>, Result<U, ErrorIO>)>)
    returns (r: Result<seq<(T, U)>, ErrorIO>)
    ensures r.Failure? <==> !AllPairsSucceed(arr)
    ensures r.Failure? ==> fresh(r.error) && r.error.errors == AllCauses(PairErrors(arr))
    ensures r.Success? ==> AllPairsSucceed(arr) && r.value == PairValues(arr)
  {
    var errorIO := AggregatePairErrors(arr);
    PairErrorsEmpty(arr);
    if |errorIO.errors| > 0 || !AllPairsSucceed(arr) {
      return Failure(errorIO);
    }
    r := Success(PairValues(arr));
  }

  /** `failure(message, file, line)`: a failure carrying the one-cause aggregate of `defaultError`. */
  method FailureFromMessage<T>(message: string, file: string, line: int) returns (r: Result<T, ErrorIO>)
    ensures r.Failure? && fresh(r.error)
    ensures r.error.errors == [DefaultCause(UserInfo(Some(message), Some(file), Some(line)))]
    ensures r.error.domain == DefaultDomain && r.error.code == DefaultCode
  {
    var e := ErrorIO.DefaultError(message, file, line);
    r := Failure(e);
  }
}
