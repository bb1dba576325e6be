/**
 * The record-traversal engine of anonymizer.go: `StructAnonymizer`, its constructor,
 * `Anonymize`/`Deanonymize` and the recursive walk behind them.
 */
module Anonymizer {
  import opened Wrappers
  import opened Records
  import opened Capability

  /** A struct anonymizer: nothing but the capability it was built with (anonymizer.go:22-24). */
  datatype StructAnonymizer<!K> = StructAnonymizer(stringAnonymizer: StringAnonymizer<K>)

  function NewStructAnonymizer<K>(c: StringAnonymizer<K>): (a: StructAnonymizer<K>)
    ensures a.stringAnonymizer == c
  {
    StructAnonymizer(c)
  }

  /**
   * What one walk over `fs` with operation `op` produces: every marked string replaced by
   * its image under `op`, every struct field walked in turn, the first error returned.
   * A successful walk keeps every field, tag and kind: it only sets strings in place.
   */
  function TransformFields<K>(op: Op<K>, key: K, fs: seq<Field>): (r: Result<seq<Field>>)
    ensures r.Ok? ==> SameShape(fs, r.value)
    decreases fs
  {
    if fs == [] then Ok([])
    else match TransformField(op, key, fs[0])
      case Err(e) => Err(e)
      case Ok(f) =>
        match TransformFields(op, key, fs[1..])
        case Err(e) => Err(e)
        case Ok(rest) =>
          assert ([f] + rest)[0] == f && ([f] + rest)[1..] == rest;
          Ok([f] + rest)
  }

  /** One field of the walk: the copy keeps the field's tag and kind (anonymizer.go:60-74). */
  function TransformField<K>(op: Op<K>, key: K, f: Field): (r: Result<Field>)
    ensures r.Ok? ==> SameFieldShape(f, r.value)
    decreases f
  {
    match f.value
    case Str(s) =>
      if f.tag.Some? then
        (match op(key, s)
         case Err(e) => Err(e)
         case Ok(t) => Ok(Field(f.tag, Str(t))))
      else Ok(f)
    case Struct(n) =>
      (match TransformFields(op, key, n)
       case Err(e) => Err(e)
       case Ok(m) => Ok(Field(f.tag, Struct(m))))
    case Other(_, _) => Ok(f)
  }

  /**
   * The walk is a fail-fast run of `op` over the marked values, in visiting order: it
   * fails exactly when that run fails, with the same error; when it succeeds, the marked
   * values of the result are that run's images and nothing else in the record changed.
   */
  lemma {:induction false} TransformFieldsSpec<K>(op: Op<K>, key: K, fs: seq<Field>)
    ensures TransformFields(op, key, fs).Ok? <==> ApplyAll(op, key, MarkedValues(fs)).Ok?
    ensures TransformFields(op, key, fs).Err? ==>
      TransformFields(op, key, fs).error == ApplyAll(op, key, MarkedValues(fs)).error
    ensures TransformFields(op, key, fs).Ok? ==>
      && Skeleton(TransformFields(op, key, fs).value) == Skeleton(fs)
      && MarkedValues(TransformFields(op, key, fs).value) == ApplyAll(op, key, MarkedValues(fs)).value
    decreases fs
  {
    if fs != [] {
      TransformFieldSpec(op, key, fs[0]);
      TransformFieldsSpec(op, key, fs[1..]);
      ApplyAllAppend(op, key, FieldMarkedValues(fs[0]), MarkedValues(fs[1..]));
      var r := TransformFields(op, key, fs);
      if r.Ok? {
        var f := TransformField(op, key, fs[0]).value;
        var rest := TransformFields(op, key, fs[1..]).value;
        assert r.value == [f] + rest;
        assert r.value[0] == f && r.value[1..] == rest;
      }
    }
  }

  lemma {:induction false} TransformFieldSpec<K>(op: Op<K>, key: K, f: Field)
    ensures TransformField(op, key, f).Ok? <==> ApplyAll(op, key, FieldMarkedValues(f)).Ok?
    ensures TransformField(op, key, f).Err? ==>
      TransformField(op, key, f).error == ApplyAll(op, key, FieldMarkedValues(f)).error
    ensures TransformField(op, key, f).Ok? ==>
      && FieldSkeleton(TransformField(op, key, f).value) == FieldSkeleton(f)
      && FieldMarkedValues(TransformField(op, key, f).value) == ApplyAll(op, key, FieldMarkedValues(f)).value
    decreases f
  {
    match f.value
    case Str(s) =>
      if f.tag.Some? {
        assert [s][1..] == [];
      }
    case Struct(n) => TransformFieldsSpec(op, key, n);
    case Other(_, _) =>
  }

  /** Walking `a + b` is walking `a`, then, if that succeeded, walking `b`. */
  lemma {:induction false} TransformFieldsAppend<K>(op: Op<K>, key: K, a: seq<Field>, b: seq<Field>)
    ensures TransformFields(op, key, a + b) ==
      match TransformFields(op, key, a)
      case Err(e) => Err(e)
      case Ok(x) =>
        match TransformFields(op, key, b)
        case Err(e) => Err(e)
        case Ok(y) => Ok(x + y)
    decreases a
  {
    if a == [] {
      assert a + b == b;
      if TransformFields(op, key, b).Ok? {
        assert [] + TransformFields(op, key, b).value == TransformFields(op, key, b).value;
      }
    } else {
      assert (a + b)[0] == a[0] && (a + b)[1..] == a[1..] + b;
      TransformFieldsAppend(op, key, a[1..], b);
      match TransformField(op, key, a[0])
      case Err(_) =>
      case Ok(g) =>
        match TransformFields(op, key, a[1..])
        case Err(_) =>
        case Ok(x) =>
          match TransformFields(op, key, b)
          case Err(_) =>
          case Ok(y) =>
            assert [g] + (x + y) == ([g] + x) + y;
    }
  }

  lemma {:induction false} MarkedValuesAppend(a: seq<Field>, b: seq<Field>)
    ensures MarkedValues(a + b) == MarkedValues(a) + MarkedValues(b)
    decreases a
  {
    if a == [] {
      assert a + b == b;
    } else {
      assert (a + b)[0] == a[0] && (a + b)[1..] == a[1..] + b;
      MarkedValuesAppend(a[1..], b);
    }
  }

  /** A walk that succeeded called `op` on every marked value; one that failed did not. */
  lemma AttemptedByTransform<K>(op: Op<K>, key: K, fs: seq<Field>)
    ensures TransformFields(op, key, fs).Ok? ==> Attempted(op, key, MarkedValues(fs)) == MarkedValues(fs)
    ensures TransformFields(op, key, fs).Err? ==> FirstFailure(op, key, MarkedValues(fs)) < |MarkedValues(fs)|
  {
    TransformFieldsSpec(op, key, fs);
    ApplyAllFailFast(op, key, MarkedValues(fs));
  }

  /** One more field walked successfully extends the walked prefix. */
  lemma TraverseStepOk<K>(op: Op<K>, key: K, orig: seq<Field>, i: nat, done: seq<Field>, g: Field)
    requires i < |orig|
    requires TransformFields(op, key, orig[..i]) == Ok(done)
    requires TransformField(op, key, orig[i]) == Ok(g)
    ensures TransformFields(op, key, orig[..i + 1]) == Ok(done + [g])
    ensures MarkedValues(orig[..i + 1]) == MarkedValues(orig[..i]) + FieldMarkedValues(orig[i])
  {
    assert orig[..i + 1] == orig[..i] + [orig[i]];
    TransformFieldsAppend(op, key, orig[..i], [orig[i]]);
    MarkedValuesAppend(orig[..i], [orig[i]]);
    assert [orig[i]][1..] == [];
    assert [g] + [] == [g];
    assert FieldMarkedValues(orig[i]) + [] == FieldMarkedValues(orig[i]);
  }

  /** A field that fails after a successfully walked prefix fails the whole walk, and ends the calls. */
  lemma TraverseStepErr<K>(op: Op<K>, key: K, orig: seq<Field>, i: nat, e: Error)
    requires i < |orig|
    requires TransformFields(op, key, orig[..i]).Ok?
    requires TransformField(op, key, orig[i]) == Err(e)
    ensures TransformFields(op, key, orig) == Err(e)
    ensures Attempted(op, key, MarkedValues(orig)) ==
      MarkedValues(orig[..i]) + Attempted(op, key, FieldMarkedValues(orig[i]))
  {
    assert orig == orig[..i] + ([orig[i]] + orig[i + 1..]);
    TransformFieldsAppend(op, key, orig[..i], [orig[i]] + orig[i + 1..]);
    assert ([orig[i]] + orig[i + 1..])[0] == orig[i] && ([orig[i]] + orig[i + 1..])[1..] == orig[i + 1..];
    MarkedValuesAppend(orig[..i], [orig[i]] + orig[i + 1..]);
    AttemptedByTransform(op, key, orig[..i]);
    assert FirstFailure(op, key, MarkedValues(orig[..i])) == |MarkedValues(orig[..i])| by {
      TransformFieldsSpec(op, key, orig[..i]);
      ApplyAllFailFast(op, key, MarkedValues(orig[..i]));
    }
    AttemptedAppend(op, key, MarkedValues(orig[..i]), MarkedValues([orig[i]] + orig[i + 1..]));
    TransformFieldSpec(op, key, orig[i]);
    ApplyAllFailFast(op, key, FieldMarkedValues(orig[i]));
    AttemptedAppend(op, key, FieldMarkedValues(orig[i]), MarkedValues(orig[i + 1..]));
  }

  /**
   * The walk `anonymize`/`deanonymize` of anonymizer.go, on the copy `cp`: fields are
   * visited in order and overwritten in place; a nested struct is walked recursively
   * and written back; the first error stops the walk. `calls` records the strings
   * handed to `op`, in order.
   */
  method Traverse<K>(op: Op<K>, key: K, cp: array<Field>) returns (err: Option<Error>, ghost calls: seq<string>)
    modifies cp
    ensures match TransformFields(op, key, old(cp[..]))
      case Ok(out) => err == None && cp[..] == out
      case Err(e) => err == Some(e)
    ensures calls == Attempted(op, key, MarkedValues(old(cp[..])))
    decreases cp[..]
  {
    ghost var orig := cp[..];
    err, calls := None, [];
    var i := 0;
    while i < cp.Length
      invariant 0 <= i <= cp.Length
      invariant cp[i..] == orig[i..]
      invariant TransformFields(op, key, orig[..i]) == Ok(cp[..i])
      invariant calls == MarkedValues(orig[..i])
    {
      var f := cp[i];
      assert f == orig[i];
      ghost var done := cp[..i];
      ghost var rest := cp[i + 1..];
      assert rest == orig[i + 1..];
      match f.value {
        case Str(s) =>
          if f.tag.Some? {
            var r := op(key, s);
            calls := calls + [s];
            if r.Err? {
              TraverseStepErr(op, key, orig, i, r.error);
              err := Some(r.error);
              return;
            }
            cp[i] := Field(f.tag, Str(r.value));
          }
        case Struct(n) =>
          var inner := new Field[|n|](j requires 0 <= j < |n| => n[j]);
          assert inner[..] == n;
          assert orig[i] in orig && f.value < f;  // n lies inside orig: the walk terminates
          var e, c := Traverse(op, key, inner);
          calls := calls + c;
          if e.Some? {
            TraverseStepErr(op, key, orig, i, e.value);
            err := e;
            return;
          }
          AttemptedByTransform(op, key, n);
          cp[i] := Field(f.tag, Struct(inner[..]));
        case Other(_, _) =>
      }
      assert cp[i + 1..] == rest;
      TraverseStepOk(op, key, orig, i, done, cp[i]);
      assert cp[..i + 1] == done + [cp[i]];
      i := i + 1;
    }
    assert orig[..cp.Length] == orig && cp[..cp.Length] == cp[..];
    AttemptedByTransform(op, key, orig);
  }

  /**
   * `Anonymize` (anonymizer.go:34-46): walks a fresh copy of `data` with the forward
   * operation and returns it, or, on the first error, that error and the zero value.
   */
  method Anonymize<K>(a: StructAnonymizer<K>, key: K, data: Record)
    returns (out: Record, err: Option<Error>, ghost calls: seq<string>)
    ensures match TransformFields(a.stringAnonymizer.anonymizeString, key, data)
      case Ok(r) => err == None && out == r
      case Err(e) => err == Some(e) && out == Zero(data)
    ensures calls == Attempted(a.stringAnonymizer.anonymizeString, key, MarkedValues(data))
  {
    var cp := new Field[|data|](i requires 0 <= i < |data| => data[i]);
    assert cp[..] == data;
    err, calls := Traverse(a.stringAnonymizer.anonymizeString, key, cp);
    if err.Some? {
      out := Zero(data);
    } else {
      out := cp[..];
    }
  }

  /**
   * `Deanonymize` (anonymizer.go:80-93): the same walk over a fresh copy, with the
   * inverse operation.
   */
  method Deanonymize<K>(a: StructAnonymizer<K>, key: K, data: Record)
    returns (out: Record, err: Option<Error>, ghost calls: seq<string>)
    ensures match TransformFields(a.stringAnonymizer.deanonymizeString, key, data)
      case Ok(r) => err == None && out == r
      case Err(e) => err == Some(e) && out == Zero(data)
    ensures calls == Attempted(a.stringAnonymizer.deanonymizeString, key, MarkedValues(data))
  {
    var cp := new Field[|data|](i requires 0 <= i < |data| => data[i]);
    assert cp[..] == data;
    err, calls := Traverse(a.stringAnonymizer.deanonymizeString, key, cp);
    if err.Some? {
      out := Zero(data);
    } else {
      out := cp[..];
    }
  }

  /**
   * Fail-fast: the walk fails exactly when `op` refuses some marked value, and then with
   * the error of the first refused one in visiting order.
   */
  lemma FirstErrorWins<K>(op: Op<K>, key: K, fs: seq<Field>)
    ensures TransformFields(op, key, fs).Err? <==> FirstFailure(op, key, MarkedValues(fs)) < |MarkedValues(fs)|
    ensures TransformFields(op, key, fs).Err? ==>
      TransformFields(op, key, fs) == Err(op(key, MarkedValues(fs)[FirstFailure(op, key, MarkedValues(fs))]).error)
  {
    TransformFieldsSpec(op, key, fs);
    ApplyAllFailFast(op, key, MarkedValues(fs));
  }

  /**
   * Field isolation, one level down: a field that is neither marked nor a struct comes
   * out identical, and a marked one comes out as its image under `op`, tag kept.
   * (`Skeleton` equality in TransformFieldsSpec says the same at every depth.)
   */
  lemma FieldIsolation<K>(op: Op<K>, key: K, fs: seq<Field>, i: nat)
    requires TransformFields(op, key, fs).Ok?
    requires i < |fs|
    ensures |TransformFields(op, key, fs).value| == |fs|
    ensures !IsMarked(fs[i]) && !fs[i].value.Struct? ==> TransformFields(op, key, fs).value[i] == fs[i]
    ensures IsMarked(fs[i]) ==>
      && op(key, fs[i].value.s).Ok?
      && TransformFields(op, key, fs).value[i] == Field(fs[i].tag, Str(op(key, fs[i].value.s).value))
  {
    TransformFieldsSpec(op, key, fs);
    var out := TransformFields(op, key, fs).value;
    assert |out| == |Skeleton(out)| == |Skeleton(fs)| == |fs|;
    SkeletonAt(out, i);
    SkeletonAt(fs, i);
    TransformFieldAt(op, key, fs, i);
  }

  lemma {:induction false} SkeletonAt(fs: seq<Field>, i: nat)
    requires i < |fs|
    ensures Skeleton(fs)[i] == FieldSkeleton(fs[i])
    decreases i
  {
    if i > 0 {
      SkeletonAt(fs[1..], i - 1);
    }
  }

  /** The i-th field of a successful walk is the walk of the i-th field. */
  lemma {:induction false} TransformFieldAt<K>(op: Op<K>, key: K, fs: seq<Field>, i: nat)
    requires TransformFields(op, key, fs).Ok?
    requires i < |fs|
    ensures TransformField(op, key, fs[i]).Ok?
    ensures i < |TransformFields(op, key, fs).value|
    ensures TransformFields(op, key, fs).value[i] == TransformField(op, key, fs[i]).value
    decreases i
  {
    if i > 0 {
      TransformFieldAt(op, key, fs[1..], i - 1);
    }
  }

  /** A walk succeeds with `out` when each field, walked on its own, succeeds with its image in `out`. */
  lemma {:induction false} TransformPointwise<K>(op: Op<K>, key: K, fs: seq<Field>, out: seq<Field>)
    requires |out| == |fs|
    requires forall i :: 0 <= i < |fs| ==> TransformField(op, key, fs[i]) == Ok(out[i])
    ensures TransformFields(op, key, fs) == Ok(out)
    decreases fs
  {
    if fs != [] {
      assert TransformField(op, key, fs[0]) == Ok(out[0]);
      TransformPointwise(op, key, fs[1..], out[1..]);
      assert [out[0]] + out[1..] == out;
    }
  }

  /**
   * Under the round-trip law on the marked values, deanonymizing what anonymizing
   * produced gives back the original record, at every depth.
   */
  lemma RoundTrip<K>(c: StringAnonymizer<K>, key: K, data: Record)
    requires RoundTripsOn(c, key, MarkedValues(data))
    ensures TransformFields(c.anonymizeString, key, data).Ok?
    ensures TransformFields(c.deanonymizeString, key, TransformFields(c.anonymizeString, key, data).value) == Ok(data)
  {
    TransformFieldsSpec(c.anonymizeString, key, data);
    ApplyAllRoundTrip(c, key, MarkedValues(data));
    var out := TransformFields(c.anonymizeString, key, data).value;
    TransformFieldsSpec(c.deanonymizeString, key, out);
    var back := TransformFields(c.deanonymizeString, key, out).value;
    Reconstruct(back, data);
  }

  /** The round trip for a capability that satisfies the law on every string. */
  lemma RoundTripReversible<K>(c: StringAnonymizer<K>, key: K, data: Record)
    requires Reversible(c, key)
    ensures TransformFields(c.anonymizeString, key, data).Ok?
    ensures TransformFields(c.deanonymizeString, key, TransformFields(c.anonymizeString, key, data).value) == Ok(data)
  {
    ReversibleRoundTripsOn(c, key, MarkedValues(data));
    RoundTrip(c, key, data);
  }

  /**
   * The forward and the inverse walk visit the same fields: when both succeed they leave
   * the same skeleton, and at each marked value, in the same order, each puts its own
   * operation's image.
   */
  lemma SameFieldsBothWays<K>(c: StringAnonymizer<K>, key: K, data: Record)
    requires TransformFields(c.anonymizeString, key, data).Ok?
    requires TransformFields(c.deanonymizeString, key, data).Ok?
    ensures Skeleton(TransformFields(c.anonymizeString, key, data).value) ==
            Skeleton(TransformFields(c.deanonymizeString, key, data).value)
    ensures |MarkedValues(TransformFields(c.anonymizeString, key, data).value)| == |MarkedValues(data)|
    ensures |MarkedValues(TransformFields(c.deanonymizeString, key, data).value)| == |MarkedValues(data)|
    ensures forall i :: 0 <= i < |MarkedValues(data)| ==>
      && c.anonymizeString(key, MarkedValues(data)[i]) ==
           Ok(MarkedValues(TransformFields(c.anonymizeString, key, data).value)[i])
      && c.deanonymizeString(key, MarkedValues(data)[i]) ==
           Ok(MarkedValues(TransformFields(c.deanonymizeString, key, data).value)[i])
  {
    TransformFieldsSpec(c.anonymizeString, key, data);
    TransformFieldsSpec(c.deanonymizeString, key, data);
    ApplyAllFailFast(c.anonymizeString, key, MarkedValues(data));
    ApplyAllFailFast(c.deanonymizeString, key, MarkedValues(data));
  }

  /** `fs` with the value of every present `anonymize` tag set to `v`, at every depth. */
  function Retag(fs: seq<Field>, v: string): (r: seq<Field>)
    decreases fs
  {
    if fs == [] then [] else [RetagField(fs[0], v)] + Retag(fs[1..], v)
  }

  function RetagField(f: Field, v: string): Field
    decreases f
  {
    var tag := if f.tag.Some? then Some(v) else None;
    match f.value
    case Struct(n) => Field(tag, Struct(Retag(n, v)))
    case _ => Field(tag, f.value)
  }

  /**
   * Only the presence of the tag matters: giving every present tag another value (say
   * "" or "false") changes nothing in the walk but those tags.
   */
  lemma {:induction false} TagValueIrrelevant<K>(op: Op<K>, key: K, fs: seq<Field>, v: string)
    ensures TransformFields(op, key, Retag(fs, v)) ==
      match TransformFields(op, key, fs)
      case Err(e) => Err(e)
      case Ok(out) => Ok(Retag(out, v))
    decreases fs
  {
    if fs != [] {
      var rs := Retag(fs, v);
      assert rs[0] == RetagField(fs[0], v) && rs[1..] == Retag(fs[1..], v);
      TagValueIrrelevantField(op, key, fs[0], v);
      TagValueIrrelevant(op, key, fs[1..], v);
      match TransformField(op, key, fs[0])
      case Err(_) =>
      case Ok(g) =>
        match TransformFields(op, key, fs[1..])
        case Err(_) =>
        case Ok(rest) =>
          assert ([g] + rest)[0] == g && ([g] + rest)[1..] == rest;
    }
  }

  lemma {:induction false} TagValueIrrelevantField<K>(op: Op<K>, key: K, f: Field, v: string)
    ensures TransformField(op, key, RetagField(f, v)) ==
      match TransformField(op, key, f)
      case Err(e) => Err(e)
      case Ok(g) => Ok(RetagField(g, v))
    decreases f
  {
    match f.value
    case Str(_) =>
    case Struct(n) => TagValueIrrelevant(op, key, n, v);
    case Other(_, _) =>
  }

  /**
   * A string field tagged with the empty value, inside a struct field that carries no tag,
   * is still handed to the capability.
   */
  lemma NestedUntaggedStructIsWalked<K>(op: Op<K>, key: K, s: string, t: string)
    requires op(key, s) == Ok(t)
    ensures TransformFields(op, key, [Field(None, Struct([Field(Some(""), Str(s))]))]) ==
            Ok([Field(None, Struct([Field(Some(""), Str(t))]))])
  {
    assert TransformFields(op, key, []) == Ok([]);
    var inner := [Field(Some(""), Str(s))];
    assert inner[1..] == [];
    assert [Field(Some(""), Str(t))] + [] == [Field(Some(""), Str(t))];
    assert TransformField(op, key, inner[0]) == Ok(Field(Some(""), Str(t)));
    assert TransformFields(op, key, inner) == Ok([Field(Some(""), Str(t))]);
    var outer := [Field(None, Struct(inner))];
    assert outer[1..] == [];
    assert [Field(None, Struct([Field(Some(""), Str(t))]))] + [] == [Field(None, Struct([Field(Some(""), Str(t))]))];
    assert TransformField(op, key, outer[0]) == Ok(Field(None, Struct([Field(Some(""), Str(t))])));
  }
}
