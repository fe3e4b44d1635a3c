/**
 * `ErrorIO`: an aggregate error that owns one ordered list of causes. The
 * Swift value is a struct whose `mutating` methods change its `errors` array
 * in place; here it is a class whose methods modify that field.
 */
module Errors {
  import opened Wrappers
  import opened Strings

  /** The user-info entries Funky puts into an `NSError`. */
  datatype UserInfo = UserInfo(description: Option<string>, file: Option<string>, line: Option<int>)

  /** An `IErrorType`: an `NSError` with a domain, a code and its user info. */
  datatype Cause = Cause(domain: string, code: int, info: UserInfo)

  /** The domain an aggregate has unless changed. */
  const DefaultDomain: string := "com.illumntr.MultiError"

  /** The code an aggregate has unless changed. */
  const DefaultCode: int := 1

  /** The cause `defaultError(userInfo)` adds: empty domain, code 0. */
  function DefaultCause(info: UserInfo): Cause
  {
    Cause("", 0, info)
  }

  /**
   * The `localizedDescription` of a cause: its message when one was given,
   * otherwise the text Foundation generates, supplied as `fallback`.
   */
  function CauseDescription(fallback: Cause -> string): Cause -> string
  {
    (c: Cause) => match c.info.description
         case Some(message) => message
         case None => fallback(c)
  }

  class ErrorIO {
    var errors: seq<Cause>
    var domain: string
    var code: int

    /** `init()`: no causes, the default domain and code. */
    constructor ()
      ensures errors == []
      ensures domain == DefaultDomain && code == DefaultCode
    {
      errors := [];
      domain := DefaultDomain;
      code := DefaultCode;
    }

    /** `init(_ others: ErrorIO...)`: the causes of every argument, in argument order. */
    constructor FromAggregates(others: seq<ErrorIO>)
      ensures errors == AllCauses(others)
      ensures domain == DefaultDomain && code == DefaultCode
    {
      errors := [];
      domain := DefaultDomain;
      code := DefaultCode;
      new;
      for i := 0 to |others|
        invariant errors == AllCauses(others[..i])
        invariant domain == DefaultDomain && code == DefaultCode
      {
        assert others[..i + 1][..i] == others[..i];
        errors := errors + others[i].errors;
      }
      assert others[..|others|] == others;
    }

    /** `init(_ others: IErrorType...)`: exactly the given causes, in order. */
    constructor FromCauses(causes: seq<Cause>)
      ensures errors == causes
      ensures domain == DefaultDomain && code == DefaultCode
    {
      errors := [];
      domain := DefaultDomain;
      code := DefaultCode;
      new;
      for i := 0 to |causes|
        invariant errors == causes[..i]
        invariant domain == DefaultDomain && code == DefaultCode
      {
        errors := errors + [causes[i]];
      }
    }

    /** `init(arrayLiteral:)`: `extend` with the literal's causes. */
    constructor FromArrayLiteral(causes: seq<Cause>)
      ensures errors == causes
      ensures domain == DefaultDomain && code == DefaultCode
    {
      errors := [];
      domain := DefaultDomain;
      code := DefaultCode;
      new;
      Extend(causes);
    }

    // -------------------------------------------------------------------------
    // The collection view
    // -------------------------------------------------------------------------

    /** `errorCount`. */
    function ErrorCount(): nat
      reads this
    {
      |errors|
    }

    /** `startIndex`. */
    function StartIndex(): nat
      reads this
    {
      0
    }

    /** `endIndex`. */
    function EndIndex(): nat
      reads this
    {
      |errors|
    }

    /** `subscript(position)`: Swift traps on a position outside the collection. */
    function At(position: nat): Cause
      reads this
      requires StartIndex() <= position < EndIndex()
    {
      errors[position]
    }

    /** One step of the generator `generate` returns, from `position`. */
    function GeneratorNext(position: nat): Option<(Cause, nat)>
      reads this
    {
      if position < |errors| then Some((errors[position], position + 1)) else None
    }

    /** Running the generator to its end, as a `for … in` over the aggregate does. */
    method Generate() returns (items: seq<Cause>)
      ensures items == errors
    {
      items := [];
      var position := 0;
      var next := GeneratorNext(position);
      while next.Some?
        invariant position <= |errors|
        invariant items == errors[..position]
        invariant next == GeneratorNext(position)
        decreases |errors| - position
      {
        items := items + [next.value.0];
        position := next.value.1;
        next := GeneratorNext(position);
      }
    }

    // -------------------------------------------------------------------------
    // Adding causes
    // -------------------------------------------------------------------------

    /** `append` (and `<~` with one cause): one more cause at the end. */
    method Append(newElement: Cause)
      modifies this
      ensures errors == old(errors) + [newElement]
      ensures domain == old(domain) && code == old(code)
    {
      errors := errors + [newElement];
    }

    /** `extend`: the given causes at the end, in order. */
    method Extend(causes: seq<Cause>)
      modifies this
      ensures errors == old(errors) + causes
      ensures domain == old(domain) && code == old(code)
    {
      errors := errors + causes;
    }

    /** `<~` with another aggregate: its causes at the end, as the flattening initialiser does. */
    method Merge(other: ErrorIO)
      modifies this
      ensures errors == old(errors) + old(other.errors)
      ensures domain == old(domain) && code == old(code)
    {
      errors := errors + other.errors;
    }

    /** `<~` with a message: one cause carrying that message. */
    method AppendMessage(message: string)
      modifies this
      ensures errors == old(errors) + [DefaultCause(UserInfo(Some(message), None, None))]
      ensures domain == old(domain) && code == old(code)
    {
      Append(DefaultCause(UserInfo(Some(message), None, None)));
    }

    // -------------------------------------------------------------------------
    // Ready-made aggregates
    // -------------------------------------------------------------------------

    /** `defaultError(userInfo)`: a new aggregate holding one cause with that user info. */
    static method DefaultErrorFromUserInfo(info: UserInfo) returns (e: ErrorIO)
      ensures fresh(e)
      ensures e.errors == [DefaultCause(info)]
      ensures e.domain == DefaultDomain && e.code == DefaultCode
    {
      e := new ErrorIO();
      e.Append(DefaultCause(info));
    }

    /** `defaultError(message, file, line)`: one cause carrying the message, file and line. */
    static method DefaultError(message: string, file: string, line: int) returns (e: ErrorIO)
      ensures fresh(e)
      ensures e.errors == [DefaultCause(UserInfo(Some(message), Some(file), Some(line)))]
      ensures e.domain == DefaultDomain && e.code == DefaultCode
    {
      e := DefaultErrorFromUserInfo(UserInfo(Some(message), Some(file), Some(line)));
    }

    /** `defaultError(file, line)`: one cause carrying only the file and line. */
    static method DefaultErrorAt(file: string, line: int) returns (e: ErrorIO)
      ensures fresh(e)
      ensures e.errors == [DefaultCause(UserInfo(None, Some(file), Some(line)))]
      ensures e.domain == DefaultDomain && e.code == DefaultCode
    {
      e := DefaultErrorFromUserInfo(UserInfo(None, Some(file), Some(line)));
    }

    // -------------------------------------------------------------------------
    // Description
    // -------------------------------------------------------------------------

    /** `localizedDescription`: the causes' descriptions as a described list. */
    function LocalizedDescription(fallback: Cause -> string): string
      reads this
    {
      "<ErrorIO: errors = " + Describe(errors, CauseDescription(fallback)) + ">"
    }
  }

  /** The causes of all the aggregates, one aggregate after another. */
  function AllCauses(es: seq<ErrorIO>): seq<Cause>
    reads es
    decreases |es|
  {
    if es == [] then [] else AllCauses(es[..|es| - 1]) + es[|es| - 1].errors
  }

  lemma {:induction false} AllCausesAppend(a: seq<ErrorIO>, b: seq<ErrorIO>)
    ensures AllCauses(a + b) == AllCauses(a) + AllCauses(b)
    decreases |b|
  {
    if b == [] {
      assert a + b == a;
    } else {
      AllCausesAppend(a, b[..|b| - 1]);
      assert (a + b)[..|a + b| - 1] == a + b[..|b| - 1];
    }
  }

  /** Aggregates that did not change still hold the same causes. */
  twostate lemma {:induction false} AllCausesUnchanged(es: seq<ErrorIO>)
    requires forall k :: 0 <= k < |es| ==> unchanged(es[k])
    ensures AllCauses(es) == old(AllCauses(es))
    decreases |es|
  {
    if es != [] {
      AllCausesUnchanged(es[..|es| - 1]);
    }
  }

  /** The aggregate of several aggregates is empty exactly when each of them is. */
  lemma {:induction false} AllCausesEmpty(es: seq<ErrorIO>)
    ensures AllCauses(es) == [] <==> forall i :: 0 <= i < |es| ==> es[i].errors == []
    decreases |es|
  {
    if es != [] {
      AllCausesEmpty(es[..|es| - 1]);
      assert forall i :: 0 <= i < |es| - 1 ==> es[..|es| - 1][i] == es[i];
    }
  }

  /** The collection view agrees with `errors`: its count, its bounds and each position. */
  lemma CollectionViewAgrees(e: ErrorIO)
    ensures e.ErrorCount() == e.EndIndex() - e.StartIndex()
    ensures forall i :: e.StartIndex() <= i < e.EndIndex() ==> e.At(i) == e.errors[i]
    ensures forall i :: e.StartIndex() <= i < e.EndIndex() ==> e.GeneratorNext(i) == Some((e.At(i), i + 1))
    ensures e.GeneratorNext(e.EndIndex()) == None
  {
  }

  /**
   * When every cause describes itself in one line, the description is a
   * first line "<ErrorIO: errors = [", one indented line per cause in order
   * (a comma after all but the last), and a last line "]>".
   */
  lemma LocalizedDescriptionLines(e: ErrorIO, fallback: Cause -> string)
    requires forall c :: c in e.errors ==> SingleLine(CauseDescription(fallback)(c))
    ensures Lines(e.LocalizedDescription(fallback))
         == ["<ErrorIO: errors = ["] + ListedLines(e.errors, CauseDescription(fallback)) + ["]>"]
    ensures |Lines(e.LocalizedDescription(fallback))| == e.ErrorCount() + 2
  {
    var prefix, suffix := "<ErrorIO: errors = ", ">";
    DescribeFramedLines(prefix, e.errors, CauseDescription(fallback), suffix);
    assert e.LocalizedDescription(fallback) == prefix + Describe(e.errors, CauseDescription(fallback)) + suffix;
    assert prefix + "[" == "<ErrorIO: errors = [";
    assert "]" + suffix == "]>";
  }
}
