/** `AttributeEntry`: one element of a token's `attributes` array, an untagged union. No tag says which
    variant an object is: serde buffers the value, tries the `String` variant's derived visitor, then
    the `Number` variant's, and keeps the first that succeeds. Untagged struct variants are read from
    objects only. Unknown keys are ignored; a known key given twice fails that variant. */
module Attributes {
  import opened Serde
  import opened DisplayTypes

  datatype AttributeEntry =
    | StringAttribute(traitType: string, stringValue: string)
    | NumberAttribute(traitType: string, numberValue: U64, displayType: Option<DisplayType>)

  /** What the `String` variant's visitor has read so far. */
  datatype StringFields = StringFields(traitType: Option<string>, value: Option<string>)

  /** What the `Number` variant's visitor has read so far; `displayType` is `Some(..)` once the key
      has been read, whatever its value. */
  datatype NumberFields = NumberFields(traitType: Option<string>, value: Option<U64>, displayType: Option<Option<DisplayType>>)

  function StringFieldStep(f: StringFields, key: string, v: Json): Result<StringFields>
  {
    if key == "trait_type" then
      if f.traitType.Some? then Err(DuplicateField(key))
      else var t :- DeserializeString(v); Ok(f.(traitType := Some(t)))
    else if key == "value" then
      if f.value.Some? then Err(DuplicateField(key))
      else var s :- DeserializeString(v); Ok(f.(value := Some(s)))
    else Ok(f)
  }

  function NumberFieldStep(f: NumberFields, key: string, v: Json): Result<NumberFields>
  {
    if key == "trait_type" then
      if f.traitType.Some? then Err(DuplicateField(key))
      else var t :- DeserializeString(v); Ok(f.(traitType := Some(t)))
    else if key == "value" then
      if f.value.Some? then Err(DuplicateField(key))
      else var n :- DeserializeU64(v); Ok(f.(value := Some(n)))
    else if key == "display_type" then
      if f.displayType.Some? then Err(DuplicateField(key))
      else var d :- DeserializeOption(v); Ok(f.(displayType := Some(d)))
    else Ok(f)
  }

  /** The derived visitor of the `String` variant. */
  function StringVariant(j: Json): (r: Result<AttributeEntry>)
    ensures r.Ok? ==> r.value.StringAttribute?
    ensures !j.JObject? ==> r == Err(InvalidType)
  {
    match j
    case JObject(entries) =>
      var f :- VisitMap(entries, StringFields(None, None), StringFieldStep);
      if f.traitType.None? then Err(MissingField("trait_type"))
      else if f.value.None? then Err(MissingField("value"))
      else Ok(StringAttribute(f.traitType.value, f.value.value))
    case _ => Err(InvalidType)
  }

  /** The derived visitor of the `Number` variant; a missing `display_type` is `None`. */
  function NumberVariant(j: Json): (r: Result<AttributeEntry>)
    ensures r.Ok? ==> r.value.NumberAttribute?
    ensures !j.JObject? ==> r == Err(InvalidType)
  {
    match j
    case JObject(entries) =>
      var f :- VisitMap(entries, NumberFields(None, None, None), NumberFieldStep);
      if f.traitType.None? then Err(MissingField("trait_type"))
      else if f.value.None? then Err(MissingField("value"))
      else Ok(NumberAttribute(f.traitType.value, f.value.value,
                              if f.displayType.Some? then f.displayType.value else None))
    case _ => Err(InvalidType)
  }

  /** The untagged decode: `String` first, then `Number`; if neither accepts, the element fails. */
  function Deserialize(j: Json): (r: Result<AttributeEntry>)
    ensures r.Err? ==> r.error == NoMatchingVariant
    ensures !j.JObject? ==> r == Err(NoMatchingVariant)
  {
    match StringVariant(j)
    case Ok(e) => Ok(e)
    case Err(_) =>
      match NumberVariant(j)
      case Ok(e) => Ok(e)
      case Err(_) => Err(NoMatchingVariant)
  }

  /** Each variant writes only its own fields; `Number` writes `display_type` even when it is `None`,
      as `null`. */
  function Serialize(a: AttributeEntry): (j: Json)
    ensures j.JObject?
    ensures a.StringAttribute? ==> |j.entries| == 2 && j.entries[0].0 == "trait_type" && j.entries[1].0 == "value"
    ensures a.NumberAttribute? ==>
              && |j.entries| == 3
              && j.entries[0].0 == "trait_type" && j.entries[1].0 == "value" && j.entries[2].0 == "display_type"
    ensures Count(j.entries, "trait_type") == 1 && Find(j.entries, "trait_type") == JString(a.traitType)
    ensures a.StringAttribute? ==>
              Count(j.entries, "value") == 1 && Find(j.entries, "value") == JString(a.stringValue)
    ensures a.NumberAttribute? ==>
              Count(j.entries, "value") == 1 && Find(j.entries, "value") == JInt(a.numberValue)
    ensures a.StringAttribute? ==> Count(j.entries, "display_type") == 0
    ensures a.NumberAttribute? ==>
              && Count(j.entries, "display_type") == 1
              && Find(j.entries, "display_type") == SerializeOption(a.displayType)
              && (a.displayType.None? ==> Find(j.entries, "display_type") == JNull)
  {
    match a
    case StringAttribute(t, v) =>
      var e := [("trait_type", JString(t)), ("value", JString(v))];
      assert e[1..] == [e[1]] && e[1..][1..] == [];
      assert Count(e[1..], "trait_type") == 0 && Count(e[1..], "value") == 1 && Count(e[1..], "display_type") == 0;
      JObject(e)
    case NumberAttribute(t, n, d) =>
      var e := [("trait_type", JString(t)), ("value", JInt(n)), ("display_type", SerializeOption(d))];
      assert e[1..] == [e[1], e[2]] && e[1..][1..] == [e[2]] && e[1..][1..][1..] == [];
      assert Count(e[1..][1..], "trait_type") == 0 && Count(e[1..][1..], "value") == 0;
      assert Count(e[1..][1..], "display_type") == 1;
      assert Count(e[1..], "trait_type") == 0 && Count(e[1..], "value") == 1 && Count(e[1..], "display_type") == 1;
      assert Find(e[1..], "display_type") == Find(e[1..][1..], "display_type") == e[2].1;
      JObject(e)
  }

  /** `key` occurs exactly once and its value is a string. */
  predicate HasString(entries: seq<(string, Json)>, key: string)
  {
    ReadsExactlyOnce(entries, key, DeserializeString)
  }

  /** The `String` visitor succeeds exactly when `trait_type` and `value` are each read at most once
      and are strings, and it then holds the values under those keys. */
  lemma {:induction false} VisitStringFieldsSpec(e: seq<(string, Json)>, f: StringFields)
    ensures var r := VisitMap(e, f, StringFieldStep);
      && (r.Ok? <==> ReadsOnce(e, "trait_type", f.traitType.Some?, DeserializeString)
                     && ReadsOnce(e, "value", f.value.Some?, DeserializeString))
      && (r.Ok? ==> r.value == StringFields(Read(e, "trait_type", f.traitType, DeserializeString),
                                            Read(e, "value", f.value, DeserializeString)))
  {
    if e != [] {
      match StringFieldStep(f, e[0].0, e[0].1)
      case Err(_) =>
      case Ok(next) =>
        VisitStringFieldsSpec(e[1..], next);
    }
  }

  /** The same for the `Number` visitor, with `value` an integer in `u64` range and `display_type`
      `null` or a display type. */
  lemma {:induction false} VisitNumberFieldsSpec(e: seq<(string, Json)>, f: NumberFields)
    ensures var r := VisitMap(e, f, NumberFieldStep);
      && (r.Ok? <==>
            && ReadsOnce(e, "trait_type", f.traitType.Some?, DeserializeString)
            && ReadsOnce(e, "value", f.value.Some?, DeserializeU64)
            && ReadsOnce(e, "display_type", f.displayType.Some?, DeserializeOption))
      && (r.Ok? ==> r.value == NumberFields(Read(e, "trait_type", f.traitType, DeserializeString),
                                            Read(e, "value", f.value, DeserializeU64),
                                            Read(e, "display_type", f.displayType, DeserializeOption)))
  {
    if e != [] {
      match NumberFieldStep(f, e[0].0, e[0].1)
      case Err(_) =>
      case Ok(next) =>
        VisitNumberFieldsSpec(e[1..], next);
    }
  }

  /** The `String` variant accepts an object exactly when `trait_type` and `value` each occur once
      with a string value, and takes those strings; every other key is ignored. */
  lemma StringVariantExactly(e: seq<(string, Json)>)
    ensures StringVariant(JObject(e)).Ok? <==> HasString(e, "trait_type") && HasString(e, "value")
    ensures StringVariant(JObject(e)).Ok? ==>
              StringVariant(JObject(e)).value == StringAttribute(Find(e, "trait_type").s, Find(e, "value").s)
  {
    VisitStringFieldsSpec(e, StringFields(None, None));
  }

  /** The `Number` variant accepts an object exactly when `trait_type` occurs once with a string,
      `value` once with an integer in `u64` range, and `display_type` at most once with `null` or a
      display type; a missing or `null` `display_type` is `None`. */
  lemma NumberVariantExactly(e: seq<(string, Json)>)
    ensures NumberVariant(JObject(e)).Ok? <==>
              && HasString(e, "trait_type")
              && ReadsExactlyOnce(e, "value", DeserializeU64)
              && ReadsOnce(e, "display_type", false, DeserializeOption)
    ensures NumberVariant(JObject(e)).Ok? ==>
              NumberVariant(JObject(e)).value ==
                NumberAttribute(Find(e, "trait_type").s, Find(e, "value").i,
                                if Count(e, "display_type") == 1 then DeserializeOption(Find(e, "display_type")).value else None)
  {
    VisitNumberFieldsSpec(e, NumberFields(None, None, None));
  }

  /** A JSON integer in `u64` range. */
  predicate IsU64(j: Json)
  {
    j.JInt? && 0 <= j.i < U64_LIMIT
  }

  /** An object whose `value` is a string is the `String` variant, whatever `display_type` says. */
  lemma StringValueGivesStringVariant(e: seq<(string, Json)>)
    requires HasString(e, "trait_type") && HasString(e, "value")
    ensures Deserialize(JObject(e)) == Ok(StringAttribute(Find(e, "trait_type").s, Find(e, "value").s))
  {
    StringVariantExactly(e);
  }

  /** An object whose `value` is an integer in `u64` range is the `Number` variant. */
  lemma IntegerValueGivesNumberVariant(e: seq<(string, Json)>)
    requires HasString(e, "trait_type") && Count(e, "value") == 1 && IsU64(Find(e, "value"))
    requires ReadsOnce(e, "display_type", false, DeserializeOption)
    ensures Deserialize(JObject(e)) ==
              Ok(NumberAttribute(Find(e, "trait_type").s, Find(e, "value").i,
                                 if Count(e, "display_type") == 1 then DeserializeOption(Find(e, "display_type")).value else None))
  {
    StringVariantExactly(e);
    NumberVariantExactly(e);
  }

  /** A `value` that is neither a string nor an integer in `u64` range (negative, 2^64 or more,
      fractional, or another shape) makes the element fail. */
  lemma UnrepresentableValueRejected(e: seq<(string, Json)>)
    requires Count(e, "value") == 1 && !Find(e, "value").JString? && !IsU64(Find(e, "value"))
    ensures Deserialize(JObject(e)) == Err(NoMatchingVariant)
  {
    StringVariantExactly(e);
    NumberVariantExactly(e);
  }

  /** A numeric element whose `display_type` is neither `null` nor a display type fails. */
  lemma BadDisplayTypeRejected(e: seq<(string, Json)>)
    requires Count(e, "value") == 1 && !Find(e, "value").JString?
    requires Count(e, "display_type") == 1 && DeserializeOption(Find(e, "display_type")).Err?
    ensures Deserialize(JObject(e)) == Err(NoMatchingVariant)
  {
    StringVariantExactly(e);
    NumberVariantExactly(e);
  }

  /** An element without `trait_type` or without `value`, or with either key twice, fails. */
  lemma MissingOrRepeatedKeyRejected(e: seq<(string, Json)>)
    requires Count(e, "trait_type") != 1 || Count(e, "value") != 1
    ensures Deserialize(JObject(e)) == Err(NoMatchingVariant)
  {
    StringVariantExactly(e);
    NumberVariantExactly(e);
  }

  /** No value is accepted by both variants, so trying `Number` before `String` would decode every
      element the same way. */
  lemma VariantsDisjoint(j: Json)
    ensures !(StringVariant(j).Ok? && NumberVariant(j).Ok?)
    ensures NumberVariant(j).Ok? ==> Deserialize(j) == NumberVariant(j)
  {
    if j.JObject? {
      StringVariantExactly(j.entries);
      NumberVariantExactly(j.entries);
    }
  }

  /** Decoding what was encoded gives the entry back. */
  lemma RoundTrip(a: AttributeEntry)
    ensures Deserialize(Serialize(a)) == Ok(a)
  {
    match a
    case StringAttribute(t, v) =>
      var e := Serialize(a).entries;
      var f1 := StringFields(Some(t), None);
      assert StringFieldStep(StringFields(None, None), e[0].0, e[0].1) == Ok(f1);
      assert StringFieldStep(f1, e[1].0, e[1].1) == Ok(StringFields(Some(t), Some(v)));
      var f2 := StringFields(Some(t), Some(v));
      assert e[1..][0] == e[1] && e[1..][1..] == [];
      assert VisitMap(e[1..][1..], f2, StringFieldStep) == Ok(f2);
      assert VisitMap(e[1..], f1, StringFieldStep) == Ok(f2);
      assert VisitMap(e, StringFields(None, None), StringFieldStep) == Ok(f2);
    case NumberAttribute(t, n, d) =>
      var e := Serialize(a).entries;
      var f1 := NumberFields(Some(t), None, None);
      var f2 := NumberFields(Some(t), Some(n), None);
      var f3 := NumberFields(Some(t), Some(n), Some(d));
      assert StringFieldStep(StringFields(None, None), e[0].0, e[0].1).Ok?;
      assert StringFieldStep(StringFields(Some(t), None), e[1].0, e[1].1).Err?;
      assert VisitMap(e, StringFields(None, None), StringFieldStep).Err?;
      assert NumberFieldStep(NumberFields(None, None, None), e[0].0, e[0].1) == Ok(f1);
      assert NumberFieldStep(f1, e[1].0, e[1].1) == Ok(f2);
      assert NumberFieldStep(f2, e[2].0, e[2].1) == Ok(f3);
      assert e[1..][0] == e[1] && e[1..][1..][0] == e[2] && e[1..][1..][1..] == [];
      assert VisitMap(e[1..][1..][1..], f3, NumberFieldStep) == Ok(f3);
      assert VisitMap(e[1..][1..], f2, NumberFieldStep) == Ok(f3);
      assert VisitMap(e[1..], f1, NumberFieldStep) == Ok(f3);
      assert VisitMap(e, NumberFields(None, None, None), NumberFieldStep) == Ok(f3);
  }

  /** `{"trait_type": "Core", "value": "Vortex"}` is a textual attribute. */
  lemma TextualSample()
    ensures Deserialize(JObject([("trait_type", JString("Core")), ("value", JString("Vortex"))])) ==
            Ok(StringAttribute("Core", "Vortex"))
  {
    RoundTrip(StringAttribute("Core", "Vortex"));
  }

  /** `{"trait_type": "Level", "value": 5, "display_type": "number"}` is a numerical attribute shown
      as a number. */
  lemma NumericSample()
    ensures Deserialize(JObject([("trait_type", JString("Level")), ("value", JInt(5)), ("display_type", JString("number"))])) ==
            Ok(NumberAttribute("Level", 5, Some(Number)))
  {
    RoundTrip(NumberAttribute("Level", 5, Some(Number)));
  }

  /** `{"trait_type": "X", "value": -1}` is refused: -1 is no `u64`. */
  lemma NegativeSample()
    ensures Deserialize(JObject([("trait_type", JString("X")), ("value", JInt(-1))])) == Err(NoMatchingVariant)
  {
    var e := [("trait_type", JString("X")), ("value", JInt(-1))];
    assert e[1..][1..] == [];
    assert Count(e, "value") == 1 && Find(e, "value") == JInt(-1);
    UnrepresentableValueRejected(e);
  }

  /** `Vec<AttributeEntry>` from a JSON array: elements are decoded in order and the first that
      fails fails the whole array. */
  function DeserializeAll(items: seq<Json>): (r: Result<seq<AttributeEntry>>)
    ensures r.Ok? <==> forall i | 0 <= i < |items| :: Deserialize(items[i]).Ok?
    ensures r.Ok? ==> |r.value| == |items| && forall i | 0 <= i < |items| :: r.value[i] == Deserialize(items[i]).value
    ensures r.Err? ==> r.error == NoMatchingVariant
  {
    if items == [] then Ok([])
    else
      var first :- Deserialize(items[0]);
      var rest :- DeserializeAll(items[1..]);
      assert forall i | 1 <= i < |items| :: items[i] == items[1..][i - 1];
      Ok([first] + rest)
  }

  /** The `attributes` field: a JSON array of entries, in order. */
  function DeserializeVec(j: Json): (r: Result<seq<AttributeEntry>>)
    ensures r.Ok? ==> j.JArray? && |r.value| == |j.items|
    ensures r.Ok? ==> forall i | 0 <= i < |j.items| :: Deserialize(j.items[i]) == Ok(r.value[i])
    ensures j.JArray? && r.Err? ==> exists i | 0 <= i < |j.items| :: Deserialize(j.items[i]).Err?
  {
    if j.JArray? then DeserializeAll(j.items) else Err(InvalidType)
  }

  /** The entries written in order as a JSON array. */
  function SerializeVec(entries: seq<AttributeEntry>): (j: Json)
    ensures j.JArray? && |j.items| == |entries|
    ensures DeserializeVec(j) == Ok(entries)
  {
    var items := seq(|entries|, i requires 0 <= i < |entries| => Serialize(entries[i]));
    forall i | 0 <= i < |entries| ensures Deserialize(items[i]) == Ok(entries[i]) {
      RoundTrip(entries[i]);
    }
    var r := DeserializeAll(items);
    assert r.Ok? && r.value == entries;
    JArray(items)
  }
}
