/**
 * The reversible capability of anonymizer_test.go:47-62, `testStringAnonymizer`: it
 * encodes a value as `anonymized.<key>.<value>` and decodes by splitting on `.`, and the
 * `TestStructAnonymizer` scenario (anonymizer_test.go:15-45) run through the engine.
 */
module TestAnonymizer {
  import opened Wrappers
  import opened Records
  import opened Capability
  import opened Anonymizer
  import opened Strings

  /** `testStringAnonymizer`: an empty struct; keys are strings. */
  datatype TestStringAnonymizer = TestStringAnonymizer

  const InvalidValue: Error := "invalid value"
  const InvalidKey: Error := "invalid key"

  /**
   * `AnonymizeString`: `fmt.Sprintf("anonymized.%s.%s", key, value)`, never an error.
   */
  function AnonymizeString(t: TestStringAnonymizer, key: string, value: string): (r: Result<string>)
    ensures r.Ok?
  {
    Ok("anonymized." + key + "." + value)
  }

  /**
   * `DeanonymizeString`: split on `.`; anything but three pieces is an invalid value, a
   * middle piece other than `key` an invalid key; otherwise the last piece. The first
   * piece is never looked at.
   */
  function DeanonymizeString(t: TestStringAnonymizer, key: string, value: string): (r: Result<string>)
    ensures r == Err(InvalidValue) <==> CountChar(value, '.') != 2
    ensures r == Err(InvalidKey) <==> CountChar(value, '.') == 2 && Split(value, '.')[1] != key
    ensures r.Ok? ==> '.' !in r.value
  {
    var parts := Split(value, '.');
    if |parts| != 3 then Err(InvalidValue)
    else if parts[1] != key then Err(InvalidKey)
    else Ok(parts[2])
  }

  /** The capability the test hands to `NewStructAnonymizer`. */
  function AsStringAnonymizer(t: TestStringAnonymizer): StringAnonymizer<string> {
    StringAnonymizer((k, v) => AnonymizeString(t, k, v), (k, v) => DeanonymizeString(t, k, v))
  }

  /** Decoding accepts `<anything dot-free>.<key>.<value>` and returns the value. */
  lemma DecodeAccepts(t: TestStringAnonymizer, first: string, key: string, value: string)
    requires '.' !in first && '.' !in key && '.' !in value
    ensures DeanonymizeString(t, key, first + "." + key + "." + value) == Ok(value)
  {
    var parts := [first, key, value];
    Join3(first, key, value, '.');
    SplitJoin(parts, '.');
  }

  /** ... and only those: a successful decode saw `<first>.<key>.<result>`, all dot-free. */
  lemma DecodeSound(t: TestStringAnonymizer, key: string, value: string)
    requires DeanonymizeString(t, key, value).Ok?
    ensures '.' !in key
    ensures var parts := Split(value, '.');
      value == parts[0] + "." + key + "." + DeanonymizeString(t, key, value).value
  {
    var parts := Split(value, '.');
    JoinSplit(value, '.');
    assert parts == [parts[0], parts[1], parts[2]];
    Join3(parts[0], parts[1], parts[2], '.');
  }

  /** Encoding then decoding under the same key gives the value back, the empty one included. */
  lemma EncodeDecode(t: TestStringAnonymizer, key: string, value: string)
    requires '.' !in key && '.' !in value
    ensures DeanonymizeString(t, key, AnonymizeString(t, key, value).value) == Ok(value)
  {
    assert '.' !in "anonymized";
    assert "anonymized." + key + "." + value == "anonymized" + "." + key + "." + value;
    DecodeAccepts(t, "anonymized", key, value);
  }

  /** Decoding under another key is an error, never a wrong value. */
  lemma WrongKeyFails(t: TestStringAnonymizer, key: string, other: string, value: string)
    requires '.' !in key && '.' !in value && other != key
    ensures DeanonymizeString(t, other, AnonymizeString(t, key, value).value) == Err(InvalidKey)
  {
    var parts := ["anonymized", key, value];
    Join3("anonymized", key, value, '.');
    assert '.' !in "anonymized";
    assert "anonymized." + key + "." + value == "anonymized" + ['.'] + key + ['.'] + value;
    SplitJoin(parts, '.');
  }

  /** The encoding adds exactly two dots to those of the key and the value. */
  lemma EncodeDotCount(t: TestStringAnonymizer, key: string, value: string)
    ensures CountChar(AnonymizeString(t, key, value).value, '.') ==
            CountChar(key, '.') + CountChar(value, '.') + 2
  {
    var enc := "anonymized." + key + "." + value;
    assert enc == "anonymized." + (key + ("." + value));
    CountCharAppend("anonymized.", key + ("." + value), '.');
    CountCharAppend(key, "." + value, '.');
    CountCharAppend(".", value, '.');
  }

  /** A key or value containing `.` does not round-trip: its encoding is an invalid value. */
  lemma DotBreaksRoundTrip(t: TestStringAnonymizer, key: string, other: string, value: string)
    requires '.' in key || '.' in value
    ensures DeanonymizeString(t, other, AnonymizeString(t, key, value).value) == Err(InvalidValue)
  {
    EncodeDotCount(t, key, value);
    CountCharAbsent(key, '.');
    CountCharAbsent(value, '.');
  }

  /** The test capability satisfies the round-trip law on dot-free values under a dot-free key. */
  lemma RoundTripsOnDotFree(t: TestStringAnonymizer, key: string, vs: seq<string>)
    requires '.' !in key
    requires forall i :: 0 <= i < |vs| ==> '.' !in vs[i]
    ensures RoundTripsOn(AsStringAnonymizer(t), key, vs)
  {
    forall i | 0 <= i < |vs|
      ensures AsStringAnonymizer(t).deanonymizeString(key, AsStringAnonymizer(t).anonymizeString(key, vs[i]).value) == Ok(vs[i])
    {
      EncodeDecode(t, key, vs[i]);
    }
  }

  /** `testStruct` (anonymizer_test.go:15-19) holding John Doe of ThreeDotsLabs. */
  const JohnDoe: Record := [
    Field(Some("true"), Str("John")),
    Field(Some("true"), Str("Doe")),
    Field(None, Str("ThreeDotsLabs"))
  ]

  const JohnDoeAnonymized: Record := [
    Field(Some("true"), Str("anonymized.id.John")),
    Field(Some("true"), Str("anonymized.id.Doe")),
    Field(None, Str("ThreeDotsLabs"))
  ]

  /** `TestStructAnonymizer`: with key "id" the record anonymizes as asserted ... */
  lemma StructAnonymizerScenario()
    ensures TransformFields(AsStringAnonymizer(TestStringAnonymizer).anonymizeString, "id", JohnDoe) ==
            Ok(JohnDoeAnonymized)
  {
    var t := TestStringAnonymizer;
    var op := AsStringAnonymizer(t).anonymizeString;
    assert op("id", "John") == AnonymizeString(t, "id", "John");
    assert op("id", "Doe") == AnonymizeString(t, "id", "Doe");
    assert "anonymized." + "id" + "." + "John" == "anonymized.id.John";
    assert "anonymized." + "id" + "." + "Doe" == "anonymized.id.Doe";
    forall i | 0 <= i < 3 ensures TransformField(op, "id", JohnDoe[i]) == Ok(JohnDoeAnonymized[i]) { }
    TransformPointwise(op, "id", JohnDoe, JohnDoeAnonymized);
  }

  /** ... and deanonymizing the result with key "id" gives John Doe back. */
  lemma StructDeanonymizerScenario()
    ensures TransformFields(AsStringAnonymizer(TestStringAnonymizer).deanonymizeString, "id", JohnDoeAnonymized) ==
            Ok(JohnDoe)
  {
    var op := AsStringAnonymizer(TestStringAnonymizer).deanonymizeString;
    DecodesTaggedField("John");
    DecodesTaggedField("Doe");
    assert "anonymized.id." + "John" == "anonymized.id.John";
    assert "anonymized.id." + "Doe" == "anonymized.id.Doe";
    TransformPointwise(op, "id", JohnDoeAnonymized, JohnDoe);
  }

  lemma DecodesTaggedField(v: string)
    requires '.' !in v
    ensures TransformField(AsStringAnonymizer(TestStringAnonymizer).deanonymizeString, "id",
                           Field(Some("true"), Str("anonymized.id." + v))) == Ok(Field(Some("true"), Str(v)))
  {
    EncodeDecode(TestStringAnonymizer, "id", v);
    assert "anonymized." + "id" + "." + v == "anonymized.id." + v;
  }

  /** `TestStructAnonymizer` through the public API: the asserted fields hold. */
  method TestStructAnonymizer() {
    var a := NewStructAnonymizer(AsStringAnonymizer(TestStringAnonymizer));
    ghost var calls;
    StructAnonymizerScenario();
    var anonymized, err;
    anonymized, err, calls := Anonymize(a, "id", JohnDoe);
    assert err == None;
    assert anonymized[0].value.s == "anonymized.id.John";
    assert anonymized[1].value.s == "anonymized.id.Doe";
    assert anonymized[2].value.s == "ThreeDotsLabs";
    StructDeanonymizerScenario();
    var deanonymized;
    deanonymized, err, calls := Deanonymize(a, "id", anonymized);
    assert err == None;
    assert deanonymized[0].value.s == "John";
    assert deanonymized[1].value.s == "Doe";
    assert deanonymized[2].value.s == "ThreeDotsLabs";
  }
}
