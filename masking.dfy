/**
 * masking.go: `MaskingAnonymizer`, a lossy capability that replaces every marked string
 * by the key it is given and leaves strings alone on the way back. Keys are strings, so
 * `fmt.Sprintf("%v", key)` is the key itself.
 */
module Masking {
  import opened Wrappers
  import opened Records
  import opened Capability
  import opened Anonymizer

  /** `MaskingAnonymizer[T]`: an empty struct. */
  datatype MaskingAnonymizer = MaskingAnonymizer

  /** `NewMaskingAnonymizer(mask)`: the mask is dropped; only the per-call key masks. */
  function NewMaskingAnonymizer(mask: string): MaskingAnonymizer {
    MaskingAnonymizer
  }

  /** `AnonymizeString`: the key's string form, whatever the value; never an error. */
  function AnonymizeString(m: MaskingAnonymizer, key: string, value: string): Result<string> {
    Ok(key)
  }

  /** `DeanonymizeString`: the value as given, whatever the key; never an error. */
  function DeanonymizeString(m: MaskingAnonymizer, key: string, value: string): Result<string> {
    Ok(value)
  }

  /** The capability a caller hands to `NewStructAnonymizer`. */
  function AsStringAnonymizer(m: MaskingAnonymizer): StringAnonymizer<string> {
    StringAnonymizer((k, v) => AnonymizeString(m, k, v), (k, v) => DeanonymizeString(m, k, v))
  }

  /** Whatever mask it is built with, the masking anonymizer behaves the same. */
  lemma MaskArgumentIgnored(mask1: string, mask2: string, key: string, value: string)
    ensures AnonymizeString(NewMaskingAnonymizer(mask1), key, value) ==
            AnonymizeString(NewMaskingAnonymizer(mask2), key, value)
    ensures DeanonymizeString(NewMaskingAnonymizer(mask1), key, value) ==
            DeanonymizeString(NewMaskingAnonymizer(mask2), key, value)
  {
  }

  /** Forward never fails and does not look at the value: its result is the key. */
  lemma MaskIgnoresValue(m: MaskingAnonymizer, key: string, v1: string, v2: string)
    ensures AnonymizeString(m, key, v1).Ok?
    ensures AnonymizeString(m, key, v1) == AnonymizeString(m, key, v2)
    ensures AnonymizeString(m, key, v1).value == key
  {
  }

  /** Inverse never fails and does not look at the key: its result is its input. */
  lemma MaskInverseIsIdentity(m: MaskingAnonymizer, k1: string, k2: string, value: string)
    ensures DeanonymizeString(m, k1, value) == DeanonymizeString(m, k2, value) == Ok(value)
  {
  }

  /** Masking twice under one key is masking once. */
  lemma MaskIdempotent(m: MaskingAnonymizer, key: string, value: string)
    ensures AnonymizeString(m, key, AnonymizeString(m, key, value).value) == AnonymizeString(m, key, value)
  {
  }

  /** Masking is lossy: undoing it, under any key, gives the mask back, not the original. */
  lemma MaskIsLossy(m: MaskingAnonymizer, key: string, other: string, value: string)
    ensures DeanonymizeString(m, other, AnonymizeString(m, key, value).value) == Ok(key)
    ensures value != key ==> DeanonymizeString(m, other, AnonymizeString(m, key, value).value) != Ok(value)
  {
  }

  /** So the masking capability never satisfies the round-trip law. */
  lemma MaskNotReversible(m: MaskingAnonymizer, key: string)
    ensures !Reversible(AsStringAnonymizer(m), key)
  {
    var c := AsStringAnonymizer(m);
    var v := key + "*";
    assert |v| != |key|;
    assert c.deanonymizeString(key, c.anonymizeString(key, v).value) != Ok(v);
  }

  /** A fail-fast masking run over n values yields n copies of the key. */
  lemma {:induction false} ApplyAllMask(m: MaskingAnonymizer, key: string, vs: seq<string>)
    ensures ApplyAll(AsStringAnonymizer(m).anonymizeString, key, vs).Ok?
    ensures forall i :: 0 <= i < |vs| ==> ApplyAll(AsStringAnonymizer(m).anonymizeString, key, vs).value[i] == key
    decreases vs
  {
    if vs != [] {
      ApplyAllMask(m, key, vs[1..]);
    }
  }

  /** A fail-fast identity run gives its input back. */
  lemma {:induction false} ApplyAllIdentity(m: MaskingAnonymizer, key: string, vs: seq<string>)
    ensures ApplyAll(AsStringAnonymizer(m).deanonymizeString, key, vs) == Ok(vs)
    decreases vs
  {
    if vs != [] {
      ApplyAllIdentity(m, key, vs[1..]);
      assert [vs[0]] + vs[1..] == vs;
    }
  }

  /**
   * Through the traversal, masking never fails, turns every marked string at every depth
   * into the key, and leaves everything else (untagged strings among it) as it was.
   */
  lemma MaskRecord(m: MaskingAnonymizer, key: string, data: Record)
    ensures TransformFields(AsStringAnonymizer(m).anonymizeString, key, data).Ok?
    ensures Skeleton(TransformFields(AsStringAnonymizer(m).anonymizeString, key, data).value) == Skeleton(data)
    ensures |MarkedValues(TransformFields(AsStringAnonymizer(m).anonymizeString, key, data).value)| == |MarkedValues(data)|
    ensures forall i :: 0 <= i < |MarkedValues(data)| ==>
      MarkedValues(TransformFields(AsStringAnonymizer(m).anonymizeString, key, data).value)[i] == key
  {
    TransformFieldsSpec(AsStringAnonymizer(m).anonymizeString, key, data);
    ApplyAllMask(m, key, MarkedValues(data));
  }

  /** Deanonymizing through the masking capability returns any record unchanged. */
  lemma UnmaskRecordIsIdentity(m: MaskingAnonymizer, key: string, data: Record)
    ensures TransformFields(AsStringAnonymizer(m).deanonymizeString, key, data) == Ok(data)
  {
    var op := AsStringAnonymizer(m).deanonymizeString;
    TransformFieldsSpec(op, key, data);
    ApplyAllIdentity(m, key, MarkedValues(data));
    Reconstruct(TransformFields(op, key, data).value, data);
  }
}
