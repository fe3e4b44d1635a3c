/**
 * `valueForKeypath` and `setValueForKeypath` of Functions.Functional.swift:
 * reading and writing through a tree of nested dictionaries. The source
 * casts `AnyObject` values to dictionaries; here a value is either a nested
 * dictionary or something else.
 */
module Keypaths {
  import opened Wrappers
  import opened Errors
  import opened Coalescing

  /** A value in a dictionary tree: a nested dictionary, or any other object. */
  datatype Value = Leaf(atom: string) | Dict(entries: map<string, Value>)

  /** The message of the failure for a step through something that is not a dictionary. */
  const NotADictionaryMessage: string :=
    "setValueForKeypath() -> found a value for dict[firstKey!] but it was not an NSDictionary"

  /** The source line whose `__LINE__` that failure records. */
  const NotADictionaryLine: int := 1152

  /**
   * `valueForKeypath`: the value reached by following `keypath` from
   * `dictionary`; nil when a key is missing or a step is not a dictionary.
   * Swift traps on an empty keypath.
   */
  function ValueForKeypath(dictionary: map<string, Value>, keypath: seq<string>): (r: Option<Value>)
    requires |keypath| > 0
    ensures r.Some? ==> keypath[0] in dictionary
    ensures r.Some? && |keypath| > 1 ==> dictionary[keypath[0]].Dict?
    decreases |keypath|
  {
    if keypath[0] !in dictionary then None
    else if |keypath| == 1 then Some(dictionary[keypath[0]])
    else match dictionary[keypath[0]]
      case Dict(inner) => ValueForKeypath(inner, keypath[1..])
      case Leaf(_) => None
  }

  /** Following `keypath` steps through a value that is not a dictionary before its last key. */
  predicate Blocked(dictionary: map<string, Value>, keypath: seq<string>)
    requires |keypath| > 0
    decreases |keypath|
  {
    |keypath| > 1 && keypath[0] in dictionary &&
    match dictionary[keypath[0]]
    case Leaf(_) => true
    case Dict(inner) => Blocked(inner, keypath[1..])
  }

  /** Two keypaths name different keys at some level both reach. */
  ghost predicate Diverge(p: seq<string>, q: seq<string>)
  {
    exists i :: 0 <= i < |p| && i < |q| && p[i] != q[i]
  }

  /** Every lookup along a keypath diverging from `keypath` finds the same in `a` as in `b`. */
  ghost predicate AgreeOffPath(a: map<string, Value>, b: map<string, Value>, keypath: seq<string>)
  {
    forall p :: |p| > 0 && Diverge(p, keypath) ==> ValueForKeypath(a, p) == ValueForKeypath(b, p)
  }

  /**
   * `setValueForKeypath`: a copy of `dict` in which the entry at `keypath`
   * is `value` (removed when `value` is nil), creating missing levels as
   * empty dictionaries; a failure when a step is not a dictionary. Swift
   * traps on an empty keypath. `file` is the `__FILE__` the failure records.
   */
  method SetValueForKeypath(dict: map<string, Value>, keypath: seq<string>, value: Option<Value>, file: string)
    returns (r: Result<map<string, Value>, ErrorIO>)
    requires |keypath| > 0
    ensures r.Failure? <==> Blocked(dict, keypath)
    ensures r.Failure? ==> fresh(r.error)
    ensures r.Failure? ==>
      r.error.errors == [DefaultCause(UserInfo(Some(NotADictionaryMessage), Some(file), Some(NotADictionaryLine)))]
    ensures r.Success? ==> ValueForKeypath(r.value, keypath) == value
    ensures r.Success? ==> r.value - {keypath[0]} == dict - {keypath[0]}
    ensures r.Success? && |keypath| > 1 ==> keypath[0] in r.value && r.value[keypath[0]].Dict?
    ensures r.Success? ==> AgreeOffPath(r.value, dict, keypath)
    ensures r.Success? ==> LevelsAreDicts(r.value, keypath)
    decreases |keypath|
  {
    if |keypath| == 1 {
      AssignSets(dict, keypath[0], value);
      return Success(Assign(dict, keypath[0], value));
    }
    var firstKey, remainingKeys := keypath[0], keypath[1..];
    var d := dict;
    if firstKey !in d {
      d := d[firstKey := Dict(map[])];
    }
    match d[firstKey]
    case Dict(subDict) =>
      var sub := SetValueForKeypath(subDict, remainingKeys, value, file);
      BlockedBelow(dict, keypath, subDict);
      // `.map` on the recursive result: a success is stored back under `firstKey`.
      match sub {
        case Success(changed) =>
          assert keypath == [firstKey] + remainingKeys;
          DescendSet(dict, firstKey, remainingKeys, value, changed);
          LevelsBelow(dict, firstKey, remainingKeys, changed);
          // Storing over `firstKey` discards the empty dictionary put there above.
          r := Success(dict[firstKey := Dict(changed)]);
        case Failure(e) =>
          r := Failure(e);
      }
    case Leaf(_) =>
      r := FailureFromMessage(NotADictionaryMessage, file, NotADictionaryLine);
  }

  /**
   * Every proper prefix of `keypath` leads to a dictionary: the levels that
   * `setValueForKeypath` walks through or creates.
   */
  ghost predicate LevelsAreDicts(m: map<string, Value>, keypath: seq<string>)
  {
    forall j :: 1 <= j < |keypath| ==>
      ValueForKeypath(m, keypath[..j]).Some? && ValueForKeypath(m, keypath[..j]).value.Dict?
  }

  /**
   * Storing a sub-dictionary whose levels along `rest` are dictionaries under
   * `firstKey` makes every level along `firstKey` followed by `rest` a dictionary.
   */
  lemma LevelsBelow(dict: map<string, Value>, firstKey: string, rest: seq<string>, changed: map<string, Value>)
    requires |rest| > 0
    requires LevelsAreDicts(changed, rest)
    ensures LevelsAreDicts(dict[firstKey := Dict(changed)], [firstKey] + rest)
  {
    var after := dict[firstKey := Dict(changed)];
    var keypath := [firstKey] + rest;
    forall j | 1 <= j < |keypath|
      ensures ValueForKeypath(after, keypath[..j]).Some? && ValueForKeypath(after, keypath[..j]).value.Dict?
    {
      if j == 1 {
        assert keypath[..1] == [firstKey];
      } else {
        assert keypath[..j][1..] == rest[..j - 1];
        assert ValueForKeypath(after, keypath[..j]) == ValueForKeypath(changed, rest[..j - 1]);
      }
    }
  }

  /**
   * Removing `["a", "b", "c"]` from an empty dictionary keeps the levels it
   * creates: `{a: {}}` lacks the level `b` and so is not a possible result.
   */
  lemma CreatedLevelsKept()
    ensures LevelsAreDicts(map["a" := Dict(map["b" := Dict(map[])])], ["a", "b", "c"])
    ensures !LevelsAreDicts(map["a" := Dict(map[])], ["a", "b", "c"])
  {
    var keypath := ["a", "b", "c"];
    assert keypath[..1] == ["a"] && keypath[..2] == ["a", "b"];
    assert ["a", "b"][1..] == ["b"];
  }

  /** What `dict[key] = value` leaves in a Swift dictionary: `value` under `key`, or no `key` for nil. */
  function Assign(dict: map<string, Value>, key: string, value: Option<Value>): map<string, Value>
  {
    if value.Some? then dict[key := value.value] else dict - {key}
  }

  /** Assigning at a one-key keypath sets it and changes nothing off it. */
  lemma AssignSets(dict: map<string, Value>, key: string, value: Option<Value>)
    ensures ValueForKeypath(Assign(dict, key, value), [key]) == value
    ensures Assign(dict, key, value) - {key} == dict - {key}
    ensures AgreeOffPath(Assign(dict, key, value), dict, [key])
    ensures !Blocked(dict, [key])
  {
    var updated := Assign(dict, key, value);
    assert updated - {key} == dict - {key};
    SiblingsKept(dict, updated, key);
  }

  /**
   * A keypath of two or more keys is blocked in `dict` exactly when the rest
   * of it is blocked in the dictionary under its first key (an empty one
   * when the key is missing).
   */
  lemma BlockedBelow(dict: map<string, Value>, keypath: seq<string>, subDict: map<string, Value>)
    requires |keypath| > 1
    requires keypath[0] in dict ==> dict[keypath[0]] == Dict(subDict)
    requires keypath[0] !in dict ==> subDict == map[]
    ensures Blocked(dict, keypath) <==> Blocked(subDict, keypath[1..])
  {
  }

  /** Lookups that start at another key do not see a change to `key`. */
  lemma SiblingsKept(before: map<string, Value>, after: map<string, Value>, key: string)
    requires after - {key} == before - {key}
    ensures forall p :: |p| > 0 && p[0] != key ==> ValueForKeypath(after, p) == ValueForKeypath(before, p)
  {
    forall p | |p| > 0 && p[0] != key
      ensures ValueForKeypath(after, p) == ValueForKeypath(before, p)
    {
      assert p[0] in after <==> p[0] in after - {key};
      assert p[0] in before <==> p[0] in before - {key};
      if p[0] in after {
        assert after[p[0]] == (after - {key})[p[0]];
        assert before[p[0]] == (before - {key})[p[0]];
      }
    }
  }

  /**
   * Replacing the dictionary at `firstKey` by one that agrees with it on every
   * keypath diverging from `rest` keeps every keypath diverging from
   * `firstKey` followed by `rest`.
   */
  lemma NestedChangeKept(dict: map<string, Value>, firstKey: string, rest: seq<string>, changed: map<string, Value>)
    requires |rest| > 0
    requires firstKey in dict ==> dict[firstKey].Dict?
    requires AgreeOffPath(changed, if firstKey in dict then dict[firstKey].entries else map[], rest)
    ensures AgreeOffPath(dict[firstKey := Dict(changed)], dict, [firstKey] + rest)
  {
    SiblingsKept(dict, dict[firstKey := Dict(changed)], firstKey);
    var keypath := [firstKey] + rest;
    var after := dict[firstKey := Dict(changed)];
    forall p | |p| > 0 && Diverge(p, keypath)
      ensures ValueForKeypath(after, p) == ValueForKeypath(dict, p)
    {
      if p[0] == firstKey {
        var i :| 0 <= i < |p| && i < |keypath| && p[i] != keypath[i];
        assert Diverge(p[1..], rest) by {
          assert p[1..][i - 1] != rest[i - 1];
        }
        if firstKey !in dict {
          EmptyHoldsNothing(p[1..]);
        }
      }
    }
  }

  /** Setting below `firstKey` sets the whole keypath and keeps everything off it. */
  lemma DescendSet(dict: map<string, Value>, firstKey: string, rest: seq<string>, value: Option<Value>, changed: map<string, Value>)
    requires |rest| > 0
    requires firstKey in dict ==> dict[firstKey].Dict?
    requires ValueForKeypath(changed, rest) == value
    requires AgreeOffPath(changed, if firstKey in dict then dict[firstKey].entries else map[], rest)
    ensures ValueForKeypath(dict[firstKey := Dict(changed)], [firstKey] + rest) == value
    ensures dict[firstKey := Dict(changed)] - {firstKey} == dict - {firstKey}
    ensures AgreeOffPath(dict[firstKey := Dict(changed)], dict, [firstKey] + rest)
  {
    assert ([firstKey] + rest)[1..] == rest;
    NestedChangeKept(dict, firstKey, rest, changed);
  }

  /** Nothing is found in an empty dictionary. */
  lemma EmptyHoldsNothing(p: seq<string>)
    requires |p| > 0
    ensures ValueForKeypath(map[], p) == None
  {
  }
}
