/** The `TestMaskingAnonymizer` scenario of masking_test.go, run through the engine. */
module MaskingTest {
  import opened Wrappers
  import opened Records
  import opened Anonymizer
  import opened Masking
  import TestAnonymizer

  const JohnDoeMasked: Record := [
    Field(Some("true"), Str("***")),
    Field(Some("true"), Str("***")),
    Field(None, Str("ThreeDotsLabs"))
  ]

  /** `TestMaskingAnonymizer` (masking_test.go:13-37): key "***" masks John Doe. */
  lemma MaskingScenario()
    ensures TransformFields(AsStringAnonymizer(MaskingAnonymizer).anonymizeString, "***", TestAnonymizer.JohnDoe) ==
            Ok(JohnDoeMasked)
    ensures TransformFields(AsStringAnonymizer(MaskingAnonymizer).deanonymizeString, "", JohnDoeMasked) ==
            Ok(JohnDoeMasked)
  {
    var op := AsStringAnonymizer(MaskingAnonymizer).anonymizeString;
    assert TransformField(op, "***", TestAnonymizer.JohnDoe[0]) == Ok(JohnDoeMasked[0]);
    assert TransformField(op, "***", TestAnonymizer.JohnDoe[1]) == Ok(JohnDoeMasked[1]);
    assert TransformField(op, "***", TestAnonymizer.JohnDoe[2]) == Ok(JohnDoeMasked[2]);
    TransformPointwise(op, "***", TestAnonymizer.JohnDoe, JohnDoeMasked);
    UnmaskRecordIsIdentity(MaskingAnonymizer, "", JohnDoeMasked);
  }

  /** `TestMaskingAnonymizer` through the public API: the asserted fields hold. */
  method TestMaskingAnonymizer() {
    var a := NewStructAnonymizer(AsStringAnonymizer(MaskingAnonymizer));
    ghost var calls;
    MaskingScenario();
    var anonymized, err;
    anonymized, err, calls := Anonymize(a, "***", TestAnonymizer.JohnDoe);
    assert err == None;
    assert anonymized[0].value.s == "***" && anonymized[1].value.s == "***";
    assert anonymized[2].value.s == "ThreeDotsLabs";
    var deanonymized;
    deanonymized, err, calls := Deanonymize(a, "", anonymized);
    assert err == None;
    assert deanonymized[0].value.s == "***" && deanonymized[1].value.s == "***";
    assert deanonymized[2].value.s == "ThreeDotsLabs";
  }
}
