/**
 * The shape of a struct value as the traversal engine sees it through reflection:
 * an ordered list of fields, each with its kind, its value and whether it carries
 * the `anonymize` struct tag (anonymizer.go:8-10, 56-74).
 */
module Records {
  import opened Wrappers

  /** What a field holds, by its reflect kind. */
  datatype Value =
    | Str(s: string)                  // kind String
    | Struct(fields: seq<Field>)      // kind Struct, named or embedded
    | Other(kind: string, bits: int)  // any other kind (numbers, bools, slices, maps,
                                      // pointers, interfaces); `bits` is its content, 0 its zero

  /**
   * One field of a struct. `tag` is what `Tag.Lookup("anonymize")` finds: `None` when the
   * field has no such tag, `Some(v)` with the tag's value otherwise (possibly "" or "false").
   */
  datatype Field = Field(tag: Option<string>, value: Value)

  /** A struct value: its fields in declaration order. */
  type Record = seq<Field>

  /** A field the engine hands to the capability: of string kind and carrying the tag. */
  predicate IsMarked(f: Field) {
    f.value.Str? && f.tag.Some?
  }

  /** The values of the marked string fields, at every depth, in the order they are visited. */
  function MarkedValues(fs: seq<Field>): seq<string>
    decreases fs
  {
    if fs == [] then [] else FieldMarkedValues(fs[0]) + MarkedValues(fs[1..])
  }

  function FieldMarkedValues(f: Field): seq<string>
    decreases f
  {
    match f.value
    case Str(s) => if f.tag.Some? then [s] else []
    case Struct(n) => MarkedValues(n)
    case Other(_, _) => []
  }

  /**
   * Everything the engine must leave alone: the record with each marked string
   * blanked out. Tags, kinds, untagged strings and other values are kept.
   */
  function Skeleton(fs: seq<Field>): (r: seq<Field>)
    decreases fs
    ensures |r| == |fs|
  {
    if fs == [] then [] else [FieldSkeleton(fs[0])] + Skeleton(fs[1..])
  }

  function FieldSkeleton(f: Field): Field
    decreases f
  {
    match f.value
    case Str(s) => if f.tag.Some? then Field(f.tag, Str("")) else f
    case Struct(n) => Field(f.tag, Struct(Skeleton(n)))
    case Other(_, _) => f
  }

  /** Two struct values of the same type: same fields, tags and kinds, at every depth. */
  predicate SameShape(a: seq<Field>, b: seq<Field>)
    decreases a
  {
    |a| == |b| && (a != [] ==> SameFieldShape(a[0], b[0]) && SameShape(a[1..], b[1..]))
  }

  predicate SameFieldShape(a: Field, b: Field)
    decreases a
  {
    a.tag == b.tag &&
    match a.value
    case Str(_) => b.value.Str?
    case Struct(n) => b.value.Struct? && SameShape(n, b.value.fields)
    case Other(k, _) => b.value.Other? && b.value.kind == k
  }

  /** Go's zero value of the struct type of `fs` (what `var empty T` holds). */
  function Zero(fs: seq<Field>): (z: seq<Field>)
    decreases fs
    ensures SameShape(fs, z)
  {
    if fs == [] then [] else [ZeroField(fs[0])] + Zero(fs[1..])
  }

  function ZeroField(f: Field): (z: Field)
    decreases f
    ensures SameFieldShape(f, z)
  {
    match f.value
    case Str(_) => Field(f.tag, Str(""))
    case Struct(n) => Field(f.tag, Struct(Zero(n)))
    case Other(k, _) => Field(f.tag, Other(k, 0))
  }

  /** The zero value depends on the type alone, not on the value it is taken from. */
  lemma {:induction false} ZeroOfShape(a: seq<Field>, b: seq<Field>)
    requires SameShape(a, b)
    ensures Zero(a) == Zero(b)
    decreases a
  {
    if a != [] {
      ZeroFieldOfShape(a[0], b[0]);
      ZeroOfShape(a[1..], b[1..]);
    }
  }

  lemma {:induction false} ZeroFieldOfShape(a: Field, b: Field)
    requires SameFieldShape(a, b)
    ensures ZeroField(a) == ZeroField(b)
    decreases a
  {
    match a.value
    case Str(_) =>
    case Struct(n) => ZeroOfShape(n, b.value.fields);
    case Other(_, _) =>
  }

  /** The skeleton keeps one (blank) marked string per marked string. */
  lemma {:induction false} SkeletonKeepsMarkCount(fs: seq<Field>)
    ensures |MarkedValues(Skeleton(fs))| == |MarkedValues(fs)|
    decreases fs
  {
    if fs != [] {
      FieldSkeletonKeepsMarkCount(fs[0]);
      SkeletonKeepsMarkCount(fs[1..]);
      assert Skeleton(fs)[1..] == Skeleton(fs[1..]);
    }
  }

  lemma {:induction false} FieldSkeletonKeepsMarkCount(f: Field)
    ensures |FieldMarkedValues(FieldSkeleton(f))| == |FieldMarkedValues(f)|
    decreases f
  {
    match f.value
    case Str(_) =>
    case Struct(n) => SkeletonKeepsMarkCount(n);
    case Other(_, _) =>
  }

  /**
   * A record is determined by its skeleton and its marked values: whatever agrees with
   * a record on both is that record.
   */
  lemma {:induction false} Reconstruct(a: seq<Field>, b: seq<Field>)
    requires Skeleton(a) == Skeleton(b)
    requires MarkedValues(a) == MarkedValues(b)
    ensures a == b
    decreases a
  {
    if a != [] {
      assert Skeleton(a)[0] == FieldSkeleton(a[0]) && Skeleton(b)[0] == FieldSkeleton(b[0]);
      assert Skeleton(a)[1..] == Skeleton(a[1..]) && Skeleton(b)[1..] == Skeleton(b[1..]);
      FieldSkeletonKeepsMarkCount(a[0]);
      FieldSkeletonKeepsMarkCount(b[0]);
      var n := |FieldMarkedValues(a[0])|;
      assert MarkedValues(a)[..n] == FieldMarkedValues(a[0]);
      assert MarkedValues(b)[..n] == FieldMarkedValues(b[0]);
      assert MarkedValues(a)[n..] == MarkedValues(a[1..]);
      assert MarkedValues(b)[n..] == MarkedValues(b[1..]);
      FieldReconstruct(a[0], b[0]);
      Reconstruct(a[1..], b[1..]);
      assert a == [a[0]] + a[1..];
      assert b == [b[0]] + b[1..];
    }
  }

  lemma {:induction false} FieldReconstruct(a: Field, b: Field)
    requires FieldSkeleton(a) == FieldSkeleton(b)
    requires FieldMarkedValues(a) == FieldMarkedValues(b)
    ensures a == b
    decreases a
  {
    match a.value
    case Str(_) =>
    case Struct(n) => Reconstruct(n, b.value.fields);
    case Other(_, _) =>
  }
}
