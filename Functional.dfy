/**
 * The generic list, Optional and Result combinators of Functions.Functional.swift.
 *
 * Swift arrays and sequences are `seq`s. Functions that build a local array
 * in a loop are methods with that loop, each proved against a specification
 * function (Filter, FilterMap, ToDictionary, Unfolded); the combinators the
 * source writes as expressions, folds or recursion are functions.
 */
module Functional {
  import opened Wrappers

  // ---------------------------------------------------------------------------
  // Specification functions and the folds the source builds on
  // ---------------------------------------------------------------------------

  /** `id`: the identity function. */
  function Id<T>(x: T): T { x }

  /** The negation of a pred, as a value. */
  function Not<T>(p: T -> bool): T -> bool { x => !p(x) }

  /** `f >>> g`: `f`, then `g` on its result. */
  function Compose<A, B, C>(f: A -> B, g: B -> C): A -> C { x => g(f(x)) }

  /** Swift's `reduce` (and its curried form `reducer`): a left fold. */
  function Reduce<A, B>(s: seq<A>, initial: B, combine: (B, A) -> B): B
    decreases |s|
  {
    if s == [] then initial else combine(Reduce(s[..|s| - 1], initial, combine), s[|s| - 1])
  }

  /** The elements of `s` that satisfy `p`, in their original order. */
  function Filter<T>(p: T -> bool, s: seq<T>): (r: seq<T>)
    ensures |r| <= |s|
    decreases |s|
  {
    if s == [] then []
    else Filter(p, s[..|s| - 1]) + (if p(s[|s| - 1]) then [s[|s| - 1]] else [])
  }

  /** The present results of `f` over `s`, in order: what `mapFilter` builds. */
  function FilterMap<A, B>(f: A -> Option<B>, s: seq<A>): (r: seq<B>)
    ensures |r| <= |s|
    decreases |s|
  {
    if s == [] then []
    else FilterMap(f, s[..|s| - 1]) + (match f(s[|s| - 1]) case Some(y) => [y] case None => [])
  }

  /** `mapr`: Swift's `map`, element by element. */
  function Mapr<A, B>(f: A -> B, s: seq<A>): (r: seq<B>)
    ensures |r| == |s|
    ensures forall i :: 0 <= i < |s| ==> r[i] == f(s[i])
  {
    seq(|s|, i requires 0 <= i < |s| => f(s[i]))
  }

  lemma {:induction false} FilterAppend<T>(p: T -> bool, a: seq<T>, b: seq<T>)
    ensures Filter(p, a + b) == Filter(p, a) + Filter(p, b)
    decreases |b|
  {
    if b == [] {
      assert a + b == a;
    } else {
      var b' := b[..|b| - 1];
      assert (a + b)[..|a + b| - 1] == a + b';
      FilterAppend(p, a, b');
    }
  }

  /** What a predicate keeps and what its negation keeps make up the input, as a multiset. */
  lemma {:induction false} FilterSplitsInput<T>(p: T -> bool, s: seq<T>)
    ensures |Filter(p, s)| + |Filter(Not(p), s)| == |s|
    ensures multiset(Filter(p, s)) + multiset(Filter(Not(p), s)) == multiset(s)
    decreases |s|
  {
    if s != [] {
      var s', x := s[..|s| - 1], s[|s| - 1];
      FilterSplitsInput(p, s');
      assert s == s' + [x];
      assert Not(p)(x) == !p(x);
      if p(x) {
        assert Filter(p, s) == Filter(p, s') + [x];
        assert Filter(Not(p), s) == Filter(Not(p), s');
      } else {
        assert Filter(p, s) == Filter(p, s');
        assert Filter(Not(p), s) == Filter(Not(p), s') + [x];
      }
    }
  }

  lemma {:induction false} FilterNoneSatisfy<T>(p: T -> bool, s: seq<T>)
    requires forall i :: 0 <= i < |s| ==> !p(s[i])
    ensures Filter(p, s) == []
    decreases |s|
  {
    if s != [] {
      FilterNoneSatisfy(p, s[..|s| - 1]);
    }
  }

  /** Whatever `mapFilter(f)` keeps is `f`'s present result for some element. */
  lemma {:induction false} FilterMapSound<A, B>(f: A -> Option<B>, s: seq<A>)
    ensures forall y :: y in FilterMap(f, s) ==> exists x :: x in s && f(x) == Some(y)
    decreases |s|
  {
    if s != [] {
      var s' := s[..|s| - 1];
      FilterMapSound(f, s');
      forall y | y in FilterMap(f, s)
        ensures exists x :: x in s && f(x) == Some(y)
      {
        if y in FilterMap(f, s') {
          var x :| x in s' && f(x) == Some(y);
          assert x in s;
        } else {
          assert f(s[|s| - 1]) == Some(y);
        }
      }
    }
  }

  lemma {:induction false} FilterMapAppend<A, B>(f: A -> Option<B>, a: seq<A>, b: seq<A>)
    ensures FilterMap(f, a + b) == FilterMap(f, a) + FilterMap(f, b)
    decreases |b|
  {
    if b == [] {
      assert a + b == a;
    } else {
      var b' := b[..|b| - 1];
      assert (a + b)[..|a + b| - 1] == a + b';
      FilterMapAppend(f, a, b');
    }
  }

  /** Filtering out only elements that `f` sends to nil does not change what `mapFilter(f)` keeps. */
  lemma {:induction false} FilterMapAfterFilter<A, B>(f: A -> Option<B>, q: A -> bool, s: seq<A>)
    requires forall x :: !q(x) ==> f(x).None?
    ensures FilterMap(f, Filter(q, s)) == FilterMap(f, s)
    decreases |s|
  {
    if s != [] {
      var s', x := s[..|s| - 1], s[|s| - 1];
      FilterMapAfterFilter(f, q, s');
      assert [x][..0] == [];
      if q(x) {
        assert Filter(q, s) == Filter(q, s') + [x];
        FilterMapAppend(f, Filter(q, s'), [x]);
      } else {
        assert Filter(q, s) == Filter(q, s');
      }
    }
  }

  // ---------------------------------------------------------------------------
  // Heads and tails
  // ---------------------------------------------------------------------------

  /** `head`: the first element, or nil for an empty collection. */
  function Head<T>(s: seq<T>): (r: Option<T>)
    ensures r.None? <==> s == []
    ensures r.Some? ==> r.value == s[0]
  {
    if |s| > 0 then Some(s[0]) else None
  }

  /**
   * `tail(collection, n)`: all but the first `n` elements. The loop ranges over
   * `n ..< endIndex`, and Swift traps on a range whose end is below its start,
   * so `n` may not exceed the length.
   */
  method TailFrom<T>(s: seq<T>, n: nat) returns (theTail: seq<T>)
    requires n <= |s|
    ensures s[..n] + theTail == s
  {
    theTail := [];
    for i := n to |s|
      invariant theTail == s[n..i]
    {
      theTail := theTail + [s[i]];
    }
    assert s[..n] + s[n..] == s;
  }

  /** `tail(collection)`: all but the first element; traps on an empty collection. */
  method Tail<T>(s: seq<T>) returns (theTail: seq<T>)
    requires |s| >= 1
    ensures [s[0]] + theTail == s
  {
    theTail := TailFrom(s, 1);
  }

  /** `collect`: drains a sequence's generator into an array, in generation order. */
  method Collect<T>(s: seq<T>) returns (collected: seq<T>)
    ensures collected == s
  {
    collected := [];
    var i := 0;
    while i < |s|
      invariant 0 <= i <= |s|
      invariant collected == s[..i]
    {
      var current := s[i];
      collected := collected + [current];
      i := i + 1;
    }
  }

  /**
   * `decompose` as written: it slices `array[1 ..< array.count]` before it
   * checks the count, so an empty array forms the range `1 ..< 0` and traps.
   */
  function DecomposeAsWritten<T>(arr: seq<T>): (r: Run<Option<(T, seq<T>)>>)
    ensures r.Trapped? <==> arr == []
    ensures r.Returned? ==> r.value.Some?
  {
    if |arr| < 1 then Trapped
    else Returned(Some((arr[0], arr[1..])))
  }

  /** `decompose` as its documentation describes it: nil for an empty array. */
  function Decompose<T>(arr: seq<T>): (r: Option<(T, seq<T>)>)
    ensures r.None? <==> arr == []
    ensures r.Some? ==> [r.value.0] + r.value.1 == arr
  {
    if |arr| > 0 then Some((arr[0], arr[1..])) else None
  }

  /** The empty array exhibits the trap in `decompose`: no nil ever comes back. */
  lemma DecomposeEmptyTraps<T>()
    ensures DecomposeAsWritten<T>([]) == Trapped
    ensures Decompose<T>([]) == None
  {
  }

  /** `head` is the first half of `decompose`. */
  lemma HeadIsDecomposeHead<T>(s: seq<T>)
    ensures Head(s) == Decompose(s).Map((d: (T, seq<T>)) => d.0)
  {
  }

  // ---------------------------------------------------------------------------
  // Comparing and zipping sequences
  // ---------------------------------------------------------------------------

  /**
   * `equal(one, two, equality)`: steps both generators together; true exactly
   * when both run out at once and every pair met on the way is equal.
   */
  method Equal<A, B>(one: seq<A>, two: seq<B>, equality: (A, B) -> bool) returns (b: bool)
    ensures b <==> |one| == |two| && forall i :: 0 <= i < |one| ==> equality(one[i], two[i])
  {
    var i := 0;
    while true
      invariant 0 <= i <= |one| && i <= |two|
      invariant forall j :: 0 <= j < i ==> equality(one[j], two[j])
      decreases |one| - i
    {
      var left := if i < |one| then Some(one[i]) else None;
      var right := if i < |two| then Some(two[i]) else None;
      if left.None? && right.None? {
        return true;
      } else if left.None? || (right.None? && !(left.None? && right.None?)) {
        return false;
      } else if !equality(left.value, right.value) {
        return false;
      }
      i := i + 1;
    }
  }

  /**
   * The sequence `unfold` produces from `initial`. The Swift loop runs until the
   * closure returns nil; here the closure comes with a measure that each step
   * decreases, so the sequence is finite.
   */
  function Unfolded<T(!new), U>(closure: T -> Option<(U, T)>, measure: T -> nat, initial: T): seq<U>
    requires forall t :: closure(t).Some? ==> measure(closure(t).value.1) < measure(t)
    decreases measure(initial)
  {
    match closure(initial)
    case None => []
    case Some(step) => [step.0] + Unfolded(closure, measure, step.1)
  }

  /** `unfold`: applies `closure` from `initial` until it returns nil, collecting what it creates. */
  method Unfold<T(!new), U>(closure: T -> Option<(U, T)>, measure: T -> nat, initial: T) returns (arr: seq<U>)
    requires forall t :: closure(t).Some? ==> measure(closure(t).value.1) < measure(t)
    ensures arr == Unfolded(closure, measure, initial)
  {
    arr := [];
    var current := initial;
    while closure(current).Some?
      invariant arr + Unfolded(closure, measure, current) == Unfolded(closure, measure, initial)
      decreases measure(current)
    {
      var step := closure(current).value;
      current := step.1;
      arr := arr + [step.0];
    }
  }

  /** The step of the zip generator over positions of `one` and `two`. */
  function ZipStep<A, B>(one: seq<A>, two: seq<B>): nat -> Option<((A, B), nat)>
  {
    (i: nat) => if i < |one| && i < |two| then Some(((one[i], two[i]), i + 1)) else None
  }

  /** How many pairs the zip generator still yields from position `i`. */
  function ZipRemaining<A, B>(one: seq<A>, two: seq<B>): nat -> nat
  {
    (i: nat) => if i < |one| && i < |two| then (if |one| < |two| then |one| else |two|) - i else 0
  }

  lemma {:induction false} ZipUnfolded<A, B>(one: seq<A>, two: seq<B>, i: nat)
    requires forall t :: ZipStep(one, two)(t).Some? ==>
      ZipRemaining(one, two)(ZipStep(one, two)(t).value.1) < ZipRemaining(one, two)(t)
    ensures var r := Unfolded(ZipStep(one, two), ZipRemaining(one, two), i);
      |r| == ZipRemaining(one, two)(i) &&
      forall k :: 0 <= k < |r| ==> r[k] == (one[i + k], two[i + k])
    decreases ZipRemaining(one, two)(i)
  {
    if ZipStep(one, two)(i).Some? {
      ZipUnfolded(one, two, i + 1);
    }
  }

  /** `zipseq`: the pairs of `one` and `two` position by position, up to the shorter length. */
  method ZipSeq<A, B>(one: seq<A>, two: seq<B>) returns (zipped: seq<(A, B)>)
    ensures |zipped| == if |one| < |two| then |one| else |two|
    ensures forall k :: 0 <= k < |zipped| ==> zipped[k] == (one[k], two[k])
  {
    assert forall t :: ZipStep(one, two)(t).Some? ==>
      ZipRemaining(one, two)(ZipStep(one, two)(t).value.1) < ZipRemaining(one, two)(t);
    zipped := Unfold(ZipStep(one, two), ZipRemaining(one, two), 0);
    ZipUnfolded(one, two, 0);
  }

  // ---------------------------------------------------------------------------
  // Optionals
  // ---------------------------------------------------------------------------

  /** `both`: the two values as a pair when both are present. */
  function Both<T, U>(one: Option<T>, two: Option<U>): (r: Option<(T, U)>)
    ensures r.Some? <==> one.Some? && two.Some?
    ensures r.Some? ==> r.value == (one.value, two.value)
  {
    if one.Some? && two.Some? then Some((one.value, two.value)) else None
  }

  /** `all(one, two, three)`: the three values as a triple when all are present. */
  function All3<T, U, V>(one: Option<T>, two: Option<U>, three: Option<V>): (r: Option<(T, U, V)>)
    ensures r.Some? <==> one.Some? && two.Some? && three.Some?
    ensures r.Some? ==> r.value == (one.value, two.value, three.value)
  {
    if one.Some? && two.Some? && three.Some? then Some((one.value, two.value, three.value)) else None
  }

  /** `all(one, two, three, four)`: the four values as a quadruple when all are present. */
  function All4<T, U, V, W>(one: Option<T>, two: Option<U>, three: Option<V>, four: Option<W>): (r: Option<(T, U, V, W)>)
    ensures r.Some? <==> one.Some? && two.Some? && three.Some? && four.Some?
    ensures r.Some? ==> r.value == (one.value, two.value, three.value, four.value)
  {
    if one.Some? && two.Some? && three.Some? && four.Some? then
      Some((one.value, two.value, three.value, four.value))
    else None
  }

  /** `nonNil`: true for a present value. */
  function NonNil<T>(value: Option<T>): (r: bool)
    ensures r <==> value != None
  {
    match value
    case Some(_) => true
    case None => false
  }

  /** The generic `isNil` as written: its `.Some` case returns true. */
  function IsNilAsWritten<T>(val: Option<T>): (r: bool)
    ensures r <==> val.Some?
  {
    match val
    case Some(_) => true
    case None => false
  }

  /** `isNil` as its documentation describes it: true exactly for nil. */
  function IsNil<T>(val: Option<T>): (r: bool)
    ensures r <==> val == None
  {
    match val
    case Some(_) => false
    case None => true
  }

  /** The generic `isNil` and `nonNil` agree instead of being complements. */
  lemma IsNilAsWrittenAgreesWithNonNil<T>(val: Option<T>)
    ensures IsNilAsWritten(val) == NonNil(val)
    ensures IsNil(val) == !NonNil(val)
  {
  }

  /** `rejectEitherNil(tuple)`: the pair with its optionals flattened, or nil. */
  function RejectEitherNil<T, U>(tuple: (Option<T>, Option<U>)): (r: Option<(T, U)>)
    ensures r.Some? <==> tuple.0.Some? && tuple.1.Some?
    ensures r.Some? ==> r.value == (tuple.0.value, tuple.1.value)
  {
    if tuple.0.Some? && tuple.1.Some? then Some((tuple.0.value, tuple.1.value)) else None
  }

  /** The step of the fold in `rejectEitherNil(collection)`. */
  function KeepBothPresent<T, U>(nonNilValues: seq<(T, U)>, item: (Option<T>, Option<U>)): seq<(T, U)>
  {
    if NonNil(item.0) && NonNil(item.1) then nonNilValues + [(item.0.value, item.1.value)]
    else nonNilValues
  }

  /** `rejectEitherNil(collection)`: the tuples with no nil element, flattened, in order. */
  function RejectEitherNilAll<T, U>(collection: seq<(Option<T>, Option<U>)>): seq<(T, U)>
  {
    Reduce(collection, [], KeepBothPresent)
  }

  /** The fold keeps what `mapFilter(rejectEitherNil)` keeps. */
  lemma {:induction false} RejectEitherNilAllIsFilterMap<T, U>(collection: seq<(Option<T>, Option<U>)>)
    ensures RejectEitherNilAll(collection) == FilterMap(RejectEitherNil, collection)
    decreases |collection|
  {
    if collection != [] {
      RejectEitherNilAllIsFilterMap(collection[..|collection| - 1]);
    }
  }

  /** `rejectNil`: the present values, in order. */
  method RejectNil<T>(collection: seq<Option<T>>) returns (nonNilValues: seq<T>)
    ensures nonNilValues == FilterMap(Id, collection)
  {
    nonNilValues := [];
    for i := 0 to |collection|
      invariant nonNilValues == FilterMap(Id, collection[..i])
    {
      assert collection[..i + 1][..i] == collection[..i];
      var item := collection[i];
      if NonNil(item) {
        nonNilValues := nonNilValues + [item.value];
      }
    }
    assert collection[..|collection|] == collection;
  }

  /** Every present value survives `rejectNil`, and nothing else does. */
  lemma {:induction false} FilterMapIdKeepsPresent<T>(collection: seq<Option<T>>)
    ensures |FilterMap(Id, collection)| == |Filter((o: Option<T>) => o.Some?, collection)|
    ensures forall x :: x in FilterMap(Id, collection) <==> Some(x) in collection
    decreases |collection|
  {
    if collection != [] {
      var c' := collection[..|collection| - 1];
      FilterMapIdKeepsPresent(c');
      assert collection == c' + [collection[|collection| - 1]];
    }
  }

  // ---------------------------------------------------------------------------
  // Filtering, selecting and partitioning
  // ---------------------------------------------------------------------------

  /** `selectWhere`: the elements satisfying `pred`, in order. */
  method SelectWhere<T>(pred: T -> bool, s: seq<T>) returns (keepers: seq<T>)
    ensures keepers == Filter(pred, s)
  {
    keepers := [];
    for i := 0 to |s|
      invariant keepers == Filter(pred, s[..i])
    {
      assert s[..i + 1][..i] == s[..i];
      if pred(s[i]) {
        keepers := keepers + [s[i]];
      }
    }
    assert s[..|s|] == s;
  }

  /** `mapFilter`: the non-nil results of `transform`, in order. */
  method MapFilter<A, B>(transform: A -> Option<B>, source: seq<A>) returns (result: seq<B>)
    ensures result == FilterMap(transform, source)
  {
    result := [];
    for i := 0 to |source|
      invariant result == FilterMap(transform, source[..i])
    {
      assert source[..i + 1][..i] == source[..i];
      var y := transform(source[i]);
      if y.Some? {
        result := result + [y.value];
      }
    }
    assert source[..|source|] == source;
  }

  /** `rejectIf`: the elements failing `pred`, in order. */
  method RejectIf<T>(pred: T -> bool, source: seq<T>) returns (results: seq<T>)
    ensures results == Filter(Not(pred), source)
  {
    results := [];
    for i := 0 to |source|
      invariant results == Filter(Not(pred), source[..i])
    {
      assert source[..i + 1][..i] == source[..i];
      if !pred(source[i]) {
        results := results + [source[i]];
      }
    }
    assert source[..|source|] == source;
  }

  /**
   * `rejectIfAndDispose`: like `rejectIf`, and `disposal` is called on every
   * rejected element in order. The calls are modelled by returning the
   * sequence of elements they were made with.
   */
  method RejectIfAndDispose<T>(pred: T -> bool, source: seq<T>) returns (results: seq<T>, disposed: seq<T>)
    ensures results == Filter(Not(pred), source)
    ensures disposed == Filter(pred, source)
    ensures multiset(results) + multiset(disposed) == multiset(source)
  {
    results, disposed := [], [];
    for i := 0 to |source|
      invariant results == Filter(Not(pred), source[..i])
      invariant disposed == Filter(pred, source[..i])
    {
      assert source[..i + 1][..i] == source[..i];
      if !pred(source[i]) {
        results := results + [source[i]];
      } else {
        disposed := disposed + [source[i]];
      }
    }
    assert source[..|source|] == source;
    FilterSplitsInput(pred, source);
  }

  /** The step of the fold in `partition`. */
  function PartitionStep<T>(pred: T -> bool): ((seq<T>, seq<T>), T) -> (seq<T>, seq<T>)
  {
    (into: (seq<T>, seq<T>), each: T) =>
      if pred(each) then (into.0 + [each], into.1) else (into.0, into.1 + [each])
  }

  /** `partition`: a fold that sends each element left or right. */
  function Partition<T>(pred: T -> bool, s: seq<T>): (seq<T>, seq<T>)
  {
    Reduce(s, ([], []), PartitionStep(pred))
  }

  /** `partition p xs == (filter p xs, filter (not . p) xs)`; together they hold the input. */
  lemma {:induction false} PartitionIsFilters<T>(pred: T -> bool, s: seq<T>)
    ensures Partition(pred, s) == (Filter(pred, s), Filter(Not(pred), s))
    ensures multiset(Partition(pred, s).0) + multiset(Partition(pred, s).1) == multiset(s)
    decreases |s|
  {
    if s != [] {
      var s', x := s[..|s| - 1], s[|s| - 1];
      PartitionIsFilters(pred, s');
      assert Partition(pred, s) == PartitionStep(pred)(Partition(pred, s'), x);
      assert Not(pred)(x) == !pred(x);
      if pred(x) {
        assert Filter(pred, s) == Filter(pred, s') + [x];
        assert Filter(Not(pred), s) == Filter(Not(pred), s');
      } else {
        assert Filter(pred, s) == Filter(pred, s');
        assert Filter(Not(pred), s) == Filter(Not(pred), s') + [x];
      }
    }
    FilterSplitsInput(pred, s);
  }

  /** `takeWhile`: the longest prefix all of whose elements satisfy `pred`. */
  method TakeWhile<T>(pred: T -> bool, s: seq<T>) returns (taken: seq<T>)
    ensures taken <= s
    ensures forall x :: x in taken ==> pred(x)
    ensures |taken| < |s| ==> !pred(s[|taken|])
  {
    taken := [];
    for i := 0 to |s|
      invariant taken == s[..i]
      invariant forall x :: x in taken ==> pred(x)
    {
      if pred(s[i]) {
        taken := taken + [s[i]];
      } else {
        break;
      }
    }
  }

  /** `takeFirst`: the first element satisfying `pred`, or nil when none does. */
  method TakeFirst<T>(pred: T -> bool, s: seq<T>) returns (r: Option<T>)
    ensures r.None? <==> forall i :: 0 <= i < |s| ==> !pred(s[i])
    ensures r.Some? ==> exists i :: 0 <= i < |s| && s[i] == r.value && pred(s[i]) &&
                                     forall j :: 0 <= j < i ==> !pred(s[j])
  {
    for i := 0 to |s|
      invariant forall j :: 0 <= j < i ==> !pred(s[j])
    {
      if pred(s[i]) {
        return Some(s[i]);
      }
    }
    return None;
  }

  /** `any(pred)`: whether some element satisfies `pred`. */
  method Any<T>(pred: T -> bool, s: seq<T>) returns (b: bool)
    ensures b <==> exists i :: 0 <= i < |s| && pred(s[i])
  {
    for i := 0 to |s|
      invariant forall j :: 0 <= j < i ==> !pred(s[j])
    {
      if pred(s[i]) {
        return true;
      }
    }
    return false;
  }

  /** `all(pred)`: whether every element satisfies `pred`. */
  method All<T>(pred: T -> bool, s: seq<T>) returns (b: bool)
    ensures b <==> forall i :: 0 <= i < |s| ==> pred(s[i])
  {
    for i := 0 to |s|
      invariant forall j :: 0 <= j < i ==> pred(s[j])
    {
      if !pred(s[i]) {
        return false;
      }
    }
    return true;
  }

  /**
   * `findWhere` as written: `maybeIndex` is never set to nil, so when no
   * element matches the loop goes on to read `domain[endIndex]` and traps
   * (at once, for an empty collection).
   */
  method FindWhereAsWritten<T>(domain: seq<T>, pred: T -> bool) returns (r: Run<nat>)
    ensures r.Trapped? <==> forall i :: 0 <= i < |domain| ==> !pred(domain[i])
    ensures r.Returned? ==> r.value < |domain| && pred(domain[r.value]) &&
                            forall j :: 0 <= j < r.value ==> !pred(domain[j])
  {
    var index := 0;
    while index < |domain|
      invariant 0 <= index <= |domain|
      invariant forall j :: 0 <= j < index ==> !pred(domain[j])
    {
      if pred(domain[index]) {
        return Returned(index);
      }
      index := index + 1;
    }
    return Trapped;
  }

  /** `findWhere` as its documentation describes it: the first matching index, or nil. */
  method FindWhere<T>(domain: seq<T>, pred: T -> bool) returns (r: Option<nat>)
    ensures r.None? <==> forall i :: 0 <= i < |domain| ==> !pred(domain[i])
    ensures r.Some? ==> r.value < |domain| && pred(domain[r.value]) &&
                        forall j :: 0 <= j < r.value ==> !pred(domain[j])
  {
    var index := 0;
    while index < |domain|
      invariant 0 <= index <= |domain|
      invariant forall j :: 0 <= j < index ==> !pred(domain[j])
    {
      if pred(domain[index]) {
        return Some(index);
      }
      index := index + 1;
    }
    return None;
  }

  // ---------------------------------------------------------------------------
  // Results
  // ---------------------------------------------------------------------------

  /** `isSuccess`: whether there is a value to unwrap. */
  function IsSuccess<T, E>(result: Result<T, E>): (r: bool)
    ensures r <==> UnwrapValue(result).Some?
  {
    result.Success?
  }

  /** `isFailure`: the negation of `isSuccess`, so true exactly for a failure. */
  function IsFailure<T, E>(result: Result<T, E>): (r: bool)
    ensures r <==> result.Failure?
    ensures r <==> UnwrapError(result).Some?
  {
    !IsSuccess(result)
  }

  /** `unwrapValue`: the success value, or nil. */
  function UnwrapValue<T, E>(result: Result<T, E>): (r: Option<T>)
    ensures r.None? <==> result.Failure?
    ensures r.Some? ==> result == Success(r.value)
  {
    if result.Success? then Some(result.value) else None
  }

  /** `unwrapError`: the failure's error, or nil. */
  function UnwrapError<T, E>(result: Result<T, E>): (r: Option<E>)
    ensures r.None? <==> result.Success?
    ensures r.Some? ==> result == Failure(r.value)
  {
    if result.Failure? then Some(result.error) else None
  }

  /** `selectFailures`: `mapFilter { $0.error }`, the errors of the failing results. */
  function SelectFailures<T, E>(arr: seq<Result<T, E>>): (r: seq<E>)
    ensures forall e :: e in r ==> Failure(e) in arr
  {
    FilterMapSound(UnwrapError, arr);
    FilterMap(UnwrapError, arr)
  }

  /** `rejectFailures`: `rejectIf(!isSuccess)` and then `mapFilter(unwrapValue)`. */
  function RejectFailures<T, E>(source: seq<Result<T, E>>): (r: seq<T>)
    ensures forall v :: v in r ==> Success(v) in source
  {
    FilterMapAfterFilter(UnwrapValue, Not(IsFailure), source);
    FilterMapSound(UnwrapValue, source);
    FilterMap(UnwrapValue, Filter(Not(IsFailure), source))
  }

  /** Rejecting the failures first changes nothing: `unwrapValue` drops them anyway. */
  lemma RejectFailuresIsFilterMap<T, E>(source: seq<Result<T, E>>)
    ensures RejectFailures(source) == FilterMap(UnwrapValue, source)
  {
    FilterMapAfterFilter(UnwrapValue, Not(IsFailure), source);
  }

  /** Every result is either a failure or a success: the two selections share out the input. */
  lemma {:induction false} FailuresAndSuccessesCount<T, E>(source: seq<Result<T, E>>)
    ensures |SelectFailures(source)| + |RejectFailures(source)| == |source|
    decreases |source|
  {
    RejectFailuresIsFilterMap(source);
    if source != [] {
      var s' := source[..|source| - 1];
      FailuresAndSuccessesCount(s');
      RejectFailuresIsFilterMap(s');
    }
  }

  /** No failure is selected exactly when every result is a success. */
  lemma {:induction false} NoFailuresSelected<T, E>(source: seq<Result<T, E>>)
    ensures SelectFailures(source) == [] <==> forall i :: 0 <= i < |source| ==> source[i].Success?
    decreases |source|
  {
    if source != [] {
      var s' := source[..|source| - 1];
      NoFailuresSelected(s');
      assert forall i :: 0 <= i < |s'| ==> s'[i] == source[i];
    }
  }

  /** With no failures, `rejectFailures` returns every value in input order. */
  lemma {:induction false} RejectFailuresAllSuccesses<T, E>(source: seq<Result<T, E>>)
    requires forall i :: 0 <= i < |source| ==> source[i].Success?
    ensures |RejectFailures(source)| == |source|
    ensures forall i :: 0 <= i < |source| ==> RejectFailures(source)[i] == source[i].value
    decreases |source|
  {
    RejectFailuresIsFilterMap(source);
    if source != [] {
      var s' := source[..|source| - 1];
      RejectFailuresAllSuccesses(s');
      RejectFailuresIsFilterMap(s');
    }
  }

  /**
   * `rejectFailuresAndDispose`: the success values, after `disposal` has been
   * called on the error of each failure in order (the errors it was called
   * with are returned as `disposedErrors`).
   */
  method RejectFailuresAndDispose<T, E>(source: seq<Result<T, E>>) returns (values: seq<T>, disposedErrors: seq<E>)
    ensures values == RejectFailures(source)
    ensures disposedErrors == SelectFailures(source)
  {
    var kept, disposed := RejectIfAndDispose(IsFailure, source);
    disposedErrors := MapFilter(UnwrapError, disposed);
    values := MapFilter(UnwrapValue, kept);
    FilterMapAfterFilter(UnwrapError, IsFailure, source);
  }

  // ---------------------------------------------------------------------------
  // Dictionaries
  // ---------------------------------------------------------------------------

  /** The step of the fold in `groupBy`. */
  function GroupStep<K, V>(keyOf: V -> K): (map<K, seq<V>>, V) -> map<K, seq<V>>
  {
    (current: map<K, seq<V>>, next: V) =>
      var key := keyOf(next);
      var withKey := if key !in current then current[key := []] else current;
      withKey[key := withKey[key] + [next]]
  }

  /** `groupBy`: a fold that files each element under its key. */
  function GroupBy<K, V>(keyOf: V -> K, s: seq<V>): map<K, seq<V>>
  {
    Reduce(s, map[], GroupStep(keyOf))
  }

  /** Whether `keyOf` sends an element to `key`. */
  function HasKey<K(==), V>(keyOf: V -> K, key: K): V -> bool
  {
    x => keyOf(x) == key
  }

  /** Each key of `groupBy` is the key of some element, and its group is those elements in order. */
  lemma {:induction false} GroupByGroups<K, V>(keyOf: V -> K, s: seq<V>)
    ensures forall k :: k in GroupBy(keyOf, s) <==> exists i :: 0 <= i < |s| && keyOf(s[i]) == k
    ensures forall k :: k in GroupBy(keyOf, s) ==> GroupBy(keyOf, s)[k] == Filter(HasKey(keyOf, k), s)
    decreases |s|
  {
    if s != [] {
      var s' := s[..|s| - 1];
      GroupByGroups(keyOf, s');
      forall k
        ensures k in GroupBy(keyOf, s) <==> exists i :: 0 <= i < |s| && keyOf(s[i]) == k
      {
        if k in GroupBy(keyOf, s') {
          var i :| 0 <= i < |s'| && keyOf(s'[i]) == k;
          assert s[i] == s'[i];
        }
        if exists i :: 0 <= i < |s| && keyOf(s[i]) == k {
          var i :| 0 <= i < |s| && keyOf(s[i]) == k;
          if i < |s'| {
            assert s'[i] == s[i];
          }
        }
      }
      var x := s[|s| - 1];
      assert GroupBy(keyOf, s) == GroupStep(keyOf)(GroupBy(keyOf, s'), x);
      forall k | k in GroupBy(keyOf, s)
        ensures GroupBy(keyOf, s)[k] == Filter(HasKey(keyOf, k), s)
      {
        var m' := GroupBy(keyOf, s');
        assert HasKey(keyOf, k)(x) == (keyOf(x) == k);
        if k == keyOf(x) {
          assert Filter(HasKey(keyOf, k), s) == Filter(HasKey(keyOf, k), s') + [x];
          if k !in m' {
            assert forall i :: 0 <= i < |s'| ==> !HasKey(keyOf, k)(s'[i]);
            FilterNoneSatisfy(HasKey(keyOf, k), s');
          }
        } else {
          assert Filter(HasKey(keyOf, k), s) == Filter(HasKey(keyOf, k), s');
          assert k in m';
        }
      }
    }
  }

  /** The dictionary of `pairs`, assigned in order, so that later keys overwrite earlier ones. */
  function ToDictionary<K, V>(pairs: seq<(K, V)>): map<K, V>
    decreases |pairs|
  {
    if pairs == [] then map[]
    else ToDictionary(pairs[..|pairs| - 1])[pairs[|pairs| - 1].0 := pairs[|pairs| - 1].1]
  }

  /** A key is present iff some pair has it, and it holds the value of the last such pair. */
  lemma {:induction false} ToDictionaryLastWins<K, V>(pairs: seq<(K, V)>)
    ensures forall k :: k in ToDictionary(pairs) <==> exists i :: 0 <= i < |pairs| && pairs[i].0 == k
    ensures forall i :: 0 <= i < |pairs| && (forall j :: i < j < |pairs| ==> pairs[j].0 != pairs[i].0) ==>
      ToDictionary(pairs)[pairs[i].0] == pairs[i].1
    decreases |pairs|
  {
    if pairs != [] {
      var p' := pairs[..|pairs| - 1];
      ToDictionaryLastWins(p');
      forall k
        ensures k in ToDictionary(pairs) <==> exists i :: 0 <= i < |pairs| && pairs[i].0 == k
      {
        if k in ToDictionary(p') {
          var i :| 0 <= i < |p'| && p'[i].0 == k;
          assert pairs[i] == p'[i];
        }
        if exists i :: 0 <= i < |pairs| && pairs[i].0 == k {
          var i :| 0 <= i < |pairs| && pairs[i].0 == k;
          if i < |p'| {
            assert p'[i] == pairs[i];
          }
        }
      }
      forall i | 0 <= i < |pairs| && (forall j :: i < j < |pairs| ==> pairs[j].0 != pairs[i].0)
        ensures ToDictionary(pairs)[pairs[i].0] == pairs[i].1
      {
        if i < |p'| {
          assert p'[i] == pairs[i];
          assert forall j :: i < j < |p'| ==> p'[j] == pairs[j];
        }
      }
    }
  }

  /** `mapToDictionary`: the dictionary of the pairs `transform` makes, later keys winning. */
  method MapToDictionary<A, K, V>(transform: A -> (K, V), s: seq<A>) returns (result: map<K, V>)
    ensures result == ToDictionary(Mapr(transform, s))
  {
    result := map[];
    for i := 0 to |s|
      invariant result == ToDictionary(Mapr(transform, s[..i]))
    {
      assert Mapr(transform, s[..i + 1])[..i] == Mapr(transform, s[..i]);
      var (key, value) := transform(s[i]);
      result := result[key := value];
    }
    assert s[..|s|] == s;
  }

  // ---------------------------------------------------------------------------
  // Index-driven maps and ranges
  // ---------------------------------------------------------------------------

  /** `mapIfIndex`: transforms exactly the elements whose index satisfies `ifIndex`. */
  method MapIfIndex<T>(source: seq<T>, transform: T -> T, ifIndex: int --> bool) returns (result: seq<T>)
    requires forall i :: 0 <= i < |source| ==> ifIndex.requires(i)
    ensures |result| == |source|
    ensures forall i :: 0 <= i < |source| ==>
      result[i] == if ifIndex(i) then transform(source[i]) else source[i]
  {
    result := [];
    for index := 0 to |source|
      invariant |result| == index
      invariant forall i :: 0 <= i < index ==>
        result[i] == if ifIndex(i) then transform(source[i]) else source[i]
    {
      if ifIndex(index) {
        result := result + [transform(source[index])];
      } else {
        result := result + [source[index]];
      }
    }
  }

  /**
   * `mapEveryNth`: transforms the n-th, 2n-th, ... elements (1-based). Swift's
   * `%` traps on a zero divisor, but the test is only evaluated for an index of
   * the collection, so `n == 0` is harmless on an empty one. For the test
   * against zero it makes no difference that Swift's `%` truncates and
   * Dafny's is Euclidean.
   */
  method MapEveryNth<T>(source: seq<T>, n: int, transform: T -> T) returns (result: seq<T>)
    requires n != 0 || |source| == 0
    ensures |result| == |source|
    ensures forall i :: 0 <= i < |source| ==>
      result[i] == if (i + 1) % n == 0 then transform(source[i]) else source[i]
  {
    var isNth := (i: int) requires n != 0 => (i + 1) % n == 0;
    result := MapIfIndex(source, transform, isNth);
  }

  /** A Swift `Range`: the half-open interval `start ..< end`, which never has `end < start`. */
  datatype Range = Range(start: int, end: int)

  /**
   * `contains(collection, range)` as written: both ends are tested against the
   * half-open interval of valid indices, so a range ending at `endIndex` is
   * rejected. The collection is represented by its count (its `startIndex` is 0).
   */
  function ContainsAsWritten(count: nat, range: Range): (r: bool)
    requires range.start <= range.end
    ensures r ==> range.end < count
  {
    (0 <= range.start < count) && (0 <= range.end < count)
  }

  /** Whether `i` is a valid index of a collection with `count` elements. */
  predicate ValidIndex(count: nat, i: int)
  {
    0 <= i < count
  }

  /** `contains` as documented: the range stays within the valid indices `0 ..< count`. */
  function Contains(count: nat, range: Range): (r: bool)
    requires range.start <= range.end
    ensures r ==> forall i :: range.start <= i < range.end ==> ValidIndex(count, i)
    ensures r ==> range.end <= count
  {
    0 <= range.start && range.end <= count
  }

  /** For a non-empty range, `contains` holds exactly when every index in it is valid. */
  lemma ContainsIffValidIndices(count: nat, range: Range)
    requires range.start < range.end
    ensures Contains(count, range) <==> forall i :: range.start <= i < range.end ==> ValidIndex(count, i)
  {
    if forall i :: range.start <= i < range.end ==> ValidIndex(count, i) {
      assert ValidIndex(count, range.start);
      assert ValidIndex(count, range.end - 1);
    }
  }

  /** `0 ..< 3` on a three-element collection holds only valid indices, yet is rejected. */
  lemma ContainsRejectsWholeRange()
    ensures !ContainsAsWritten(3, Range(0, 3))
    ensures Contains(3, Range(0, 3))
  {
  }
}
