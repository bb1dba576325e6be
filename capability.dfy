/**
 * The string-transform capability the engine calls through: `StringAnonymizer[K]`
 * (anonymizer.go:12-17), and what it means to apply one of its operations to a run
 * of values, stopping at the first error.
 */
module Capability {
  import opened Wrappers

  /** One operation of the capability: a key and a string in, a string or an error out. */
  type Op<!K> = (K, string) -> Result<string>

  /** The two-operation contract; an implementation is any pair of operations. */
  datatype StringAnonymizer<!K> = StringAnonymizer(anonymizeString: Op<K>, deanonymizeString: Op<K>)

  /** `op` applied to each value in turn under one key; the first error aborts the run. */
  function ApplyAll<K>(op: Op<K>, key: K, vs: seq<string>): (r: Result<seq<string>>)
    ensures r.Ok? ==> |r.value| == |vs|
    decreases vs
  {
    if vs == [] then Ok([])
    else match op(key, vs[0])
      case Err(e) => Err(e)
      case Ok(v) =>
        match ApplyAll(op, key, vs[1..])
        case Err(e) => Err(e)
        case Ok(rest) => Ok([v] + rest)
  }

  /** The index of the first value `op` refuses, or `|vs|` when it refuses none. */
  function FirstFailure<K>(op: Op<K>, key: K, vs: seq<string>): (j: nat)
    ensures j <= |vs|
    ensures forall i :: 0 <= i < j ==> op(key, vs[i]).Ok?
    ensures j < |vs| ==> op(key, vs[j]).Err?
    decreases vs
  {
    if vs == [] || op(key, vs[0]).Err? then 0 else 1 + FirstFailure(op, key, vs[1..])
  }

  /** The values `op` is called on by a fail-fast run: up to and including the first refused one. */
  function Attempted<K>(op: Op<K>, key: K, vs: seq<string>): (calls: seq<string>)
    ensures calls <= vs
  {
    var j := FirstFailure(op, key, vs);
    if j < |vs| then vs[..j + 1] else vs
  }

  /**
   * A fail-fast run succeeds exactly when every value is accepted, and then holds each
   * value's image in place; otherwise it fails with the error of the first refused value.
   */
  lemma {:induction false} ApplyAllFailFast<K>(op: Op<K>, key: K, vs: seq<string>)
    ensures ApplyAll(op, key, vs).Ok? <==> FirstFailure(op, key, vs) == |vs|
    ensures ApplyAll(op, key, vs).Ok? ==>
      forall i :: 0 <= i < |vs| ==> op(key, vs[i]) == Ok(ApplyAll(op, key, vs).value[i])
    ensures ApplyAll(op, key, vs).Err? ==>
      ApplyAll(op, key, vs) == Err(op(key, vs[FirstFailure(op, key, vs)]).error)
    decreases vs
  {
    if vs != [] {
      ApplyAllFailFast(op, key, vs[1..]);
      var r := ApplyAll(op, key, vs);
      if r.Ok? {
        forall i | 0 <= i < |vs| ensures op(key, vs[i]) == Ok(r.value[i]) {
          if i > 0 {
            assert vs[1..][i - 1] == vs[i];
          }
        }
      }
    }
  }

  /** Running over `a + b` is running over `a`, then, if that succeeded, over `b`. */
  lemma {:induction false} ApplyAllAppend<K>(op: Op<K>, key: K, a: seq<string>, b: seq<string>)
    ensures ApplyAll(op, key, a + b) ==
      match ApplyAll(op, key, a)
      case Err(e) => Err(e)
      case Ok(x) =>
        match ApplyAll(op, key, b)
        case Err(e) => Err(e)
        case Ok(y) => Ok(x + y)
    decreases a
  {
    if a == [] {
      assert a + b == b;
      if ApplyAll(op, key, b).Ok? {
        assert [] + ApplyAll(op, key, b).value == ApplyAll(op, key, b).value;
      }
    } else {
      assert (a + b)[0] == a[0] && (a + b)[1..] == a[1..] + b;
      ApplyAllAppend(op, key, a[1..], b);
      match op(key, a[0])
      case Err(_) =>
      case Ok(v) =>
        match ApplyAll(op, key, a[1..])
        case Err(_) =>
        case Ok(x) =>
          match ApplyAll(op, key, b)
          case Err(_) =>
          case Ok(y) =>
            assert [v] + (x + y) == ([v] + x) + y;
    }
  }

  /** The calls over `a + b`: those over `a`, and those over `b` only if all of `a` was accepted. */
  lemma {:induction false} AttemptedAppend<K>(op: Op<K>, key: K, a: seq<string>, b: seq<string>)
    ensures Attempted(op, key, a + b) ==
      if FirstFailure(op, key, a) < |a| then Attempted(op, key, a) else a + Attempted(op, key, b)
  {
    FirstFailureAppend(op, key, a, b);
    var j := FirstFailure(op, key, a);
    if j < |a| {
      assert (a + b)[..j + 1] == a[..j + 1];
    } else {
      var k := FirstFailure(op, key, b);
      if k < |b| {
        assert (a + b)[..j + k + 1] == a + b[..k + 1];
      }
    }
  }

  lemma {:induction false} FirstFailureAppend<K>(op: Op<K>, key: K, a: seq<string>, b: seq<string>)
    ensures FirstFailure(op, key, a + b) ==
      if FirstFailure(op, key, a) < |a| then FirstFailure(op, key, a)
      else |a| + FirstFailure(op, key, b)
    decreases a
  {
    if a == [] {
      assert a + b == b;
    } else {
      assert (a + b)[0] == a[0] && (a + b)[1..] == a[1..] + b;
      FirstFailureAppend(op, key, a[1..], b);
    }
  }

  /** The round-trip law of the contract, on the given values under one key. */
  predicate RoundTripsOn<K>(c: StringAnonymizer<K>, key: K, vs: seq<string>) {
    forall i :: 0 <= i < |vs| ==>
      c.anonymizeString(key, vs[i]).Ok? &&
      c.deanonymizeString(key, c.anonymizeString(key, vs[i]).value) == Ok(vs[i])
  }

  /**
   * The round-trip law on every string: forward never fails and the inverse undoes it.
   * The engine relies on it without checking it.
   */
  ghost predicate Reversible<K>(c: StringAnonymizer<K>, key: K) {
    forall v :: c.anonymizeString(key, v).Ok? &&
      c.deanonymizeString(key, c.anonymizeString(key, v).value) == Ok(v)
  }

  lemma ReversibleRoundTripsOn<K>(c: StringAnonymizer<K>, key: K, vs: seq<string>)
    requires Reversible(c, key)
    ensures RoundTripsOn(c, key, vs)
  {
  }

  /** Under the round-trip law, a fail-fast inverse run undoes a forward run. */
  lemma {:induction false} ApplyAllRoundTrip<K>(c: StringAnonymizer<K>, key: K, vs: seq<string>)
    requires RoundTripsOn(c, key, vs)
    ensures ApplyAll(c.anonymizeString, key, vs).Ok?
    ensures ApplyAll(c.deanonymizeString, key, ApplyAll(c.anonymizeString, key, vs).value) == Ok(vs)
    decreases vs
  {
    if vs != [] {
      assert RoundTripsOn(c, key, vs[1..]) by {
        forall i | 0 <= i < |vs[1..]| ensures vs[1..][i] == vs[i + 1] { }
      }
      ApplyAllRoundTrip(c, key, vs[1..]);
      var x := c.anonymizeString(key, vs[0]).value;
      var rest := ApplyAll(c.anonymizeString, key, vs[1..]).value;
      assert ApplyAll(c.anonymizeString, key, vs).value == [x] + rest;
      assert ([x] + rest)[0] == x && ([x] + rest)[1..] == rest;
      assert [vs[0]] + vs[1..] == vs;
    }
  }
}
