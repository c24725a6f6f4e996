/** `Metadata`: the token-level record of the OpenSea metadata standard. In this revision all eight
    fields are required: a decode needs every key, `attributes` is an ordered list whose order is
    kept, and `background_color` goes through the hex colour codec. serde's derived code reads the
    record from a JSON object (unknown keys ignored, a known key twice is an error, missing keys are
    reported in declaration order) or, positionally, from a JSON array of exactly eight values. */
module NftMetadata {
  import opened Serde
  import Attributes
  import Rgb8FromStrRadix16

  type AttributeEntry = Attributes.AttributeEntry
  type Rgb8 = Rgb8FromStrRadix16.Rgb8

  datatype Metadata = Metadata(
    image: Url,
    externalUrl: Url,
    description: string,
    name: string,
    attributes: seq<AttributeEntry>,
    backgroundColor: Rgb8,
    animationUrl: Url,
    youtubeUrl: Url)

  /** The JSON keys, in declaration order. */
  const FIELD_NAMES: seq<string> :=
    ["image", "external_url", "description", "name", "attributes", "background_color", "animation_url", "youtube_url"]

  /** What the derived visitor has read so far. */
  datatype MetadataFields = MetadataFields(
    image: Option<Url>,
    externalUrl: Option<Url>,
    description: Option<string>,
    name: Option<string>,
    attributes: Option<seq<AttributeEntry>>,
    backgroundColor: Option<Rgb8>,
    animationUrl: Option<Url>,
    youtubeUrl: Option<Url>)

  const NO_FIELDS := MetadataFields(None, None, None, None, None, None, None, None)

  /** One entry of the object: a known key already read is a duplicate, a known key's value is
      decoded by that field's decoder, any other key is skipped. */
  function MetadataFieldStep(f: MetadataFields, key: string, v: Json): Result<MetadataFields>
  {
    if key == "image" then
      if f.image.Some? then Err(DuplicateField(key))
      else var x :- DeserializeUrl(v); Ok(f.(image := Some(x)))
    else if key == "external_url" then
      if f.externalUrl.Some? then Err(DuplicateField(key))
      else var x :- DeserializeUrl(v); Ok(f.(externalUrl := Some(x)))
    else if key == "description" then
      if f.description.Some? then Err(DuplicateField(key))
      else var x :- DeserializeString(v); Ok(f.(description := Some(x)))
    else if key == "name" then
      if f.name.Some? then Err(DuplicateField(key))
      else var x :- DeserializeString(v); Ok(f.(name := Some(x)))
    else if key == "attributes" then
      if f.attributes.Some? then Err(DuplicateField(key))
      else var x :- Attributes.DeserializeVec(v); Ok(f.(attributes := Some(x)))
    else if key == "background_color" then
      if f.backgroundColor.Some? then Err(DuplicateField(key))
      else var x :- Rgb8FromStrRadix16.Deserialize(v); Ok(f.(backgroundColor := Some(x)))
    else if key == "animation_url" then
      if f.animationUrl.Some? then Err(DuplicateField(key))
      else var x :- DeserializeUrl(v); Ok(f.(animationUrl := Some(x)))
    else if key == "youtube_url" then
      if f.youtubeUrl.Some? then Err(DuplicateField(key))
      else var x :- DeserializeUrl(v); Ok(f.(youtubeUrl := Some(x)))
    else Ok(f)
  }

  /** After the visit: the first field in declaration order that was not read is missing. */
  function FromFields(f: MetadataFields): Result<Metadata>
  {
    if f.image.None? then Err(MissingField("image"))
    else if f.externalUrl.None? then Err(MissingField("external_url"))
    else if f.description.None? then Err(MissingField("description"))
    else if f.name.None? then Err(MissingField("name"))
    else if f.attributes.None? then Err(MissingField("attributes"))
    else if f.backgroundColor.None? then Err(MissingField("background_color"))
    else if f.animationUrl.None? then Err(MissingField("animation_url"))
    else if f.youtubeUrl.None? then Err(MissingField("youtube_url"))
    else Ok(Metadata(f.image.value, f.externalUrl.value, f.description.value, f.name.value,
                     f.attributes.value, f.backgroundColor.value, f.animationUrl.value, f.youtubeUrl.value))
  }

  /** The field at position `i` of the declaration order accepts `v`. */
  predicate ElementAccepted(i: nat, v: Json)
  {
    if i == 0 || i == 1 || i == 6 || i == 7 then DeserializeUrl(v).Ok?
    else if i == 2 || i == 3 then DeserializeString(v).Ok?
    else if i == 4 then Attributes.DeserializeVec(v).Ok?
    else if i == 5 then Rgb8FromStrRadix16.Deserialize(v).Ok?
    else false
  }

  /** Every element present among the first eight is accepted by the field at its position. */
  predicate PrefixAccepted(items: seq<Json>)
  {
    forall i | 0 <= i < |items| && i < |FIELD_NAMES| :: ElementAccepted(i, items[i])
  }

  /** The positional form: the eight values in declaration order. An element that is not there is
      an invalid length at its position; an element beyond the eighth is an error. */
  function FromArray(items: seq<Json>): (r: Result<Metadata>)
    ensures r.Ok? <==> |items| == |FIELD_NAMES| && PrefixAccepted(items)
    ensures PrefixAccepted(items) && |items| < |FIELD_NAMES| ==> r == Err(InvalidLength(|items|))
    ensures PrefixAccepted(items) && |items| > |FIELD_NAMES| ==> r == Err(TrailingElements)
    ensures r.Err? && r.error.InvalidLength? ==> r.error.index == |items| < |FIELD_NAMES|
    ensures r == Err(TrailingElements) ==> |items| > |FIELD_NAMES|
    ensures r.Err? && r.error.InvalidLength? ==> r.error.index == |items| < |FIELD_NAMES|
    ensures r == Err(TrailingElements) ==> |items| > |FIELD_NAMES|
  {
    if |items| < 1 then Err(InvalidLength(0)) else
    var image :- DeserializeUrl(items[0]);
    if |items| < 2 then Err(InvalidLength(1)) else
    var externalUrl :- DeserializeUrl(items[1]);
    if |items| < 3 then Err(InvalidLength(2)) else
    var description :- DeserializeString(items[2]);
    if |items| < 4 then Err(InvalidLength(3)) else
    var name :- DeserializeString(items[3]);
    if |items| < 5 then Err(InvalidLength(4)) else
    var attributes :- Attributes.DeserializeVec(items[4]);
    if |items| < 6 then Err(InvalidLength(5)) else
    var backgroundColor :- Rgb8FromStrRadix16.Deserialize(items[5]);
    if |items| < 7 then Err(InvalidLength(6)) else
    var animationUrl :- DeserializeUrl(items[6]);
    if |items| < 8 then Err(InvalidLength(7)) else
    var youtubeUrl :- DeserializeUrl(items[7]);
    if |items| > 8 then Err(TrailingElements)
    else Ok(Metadata(image, externalUrl, description, name, attributes, backgroundColor, animationUrl, youtubeUrl))
  }

  /** The derived `Deserialize`: an object through the visitor, an array positionally, anything else
      is the wrong type. */
  function Deserialize(j: Json): (r: Result<Metadata>)
    ensures !j.JObject? && !j.JArray? ==> r == Err(InvalidType)
  {
    match j
    case JObject(entries) =>
      var f :- VisitMap(entries, NO_FIELDS, MetadataFieldStep);
      FromFields(f)
    case JArray(items) => FromArray(items)
    case _ => Err(InvalidType)
  }

  /** The derived `Serialize`: every field, in declaration order, under its own key. */
  function Serialize(m: Metadata): (j: Json)
    ensures j.JObject? && |j.entries| == |FIELD_NAMES|
    ensures forall i | 0 <= i < |FIELD_NAMES| :: j.entries[i].0 == FIELD_NAMES[i]
  {
    JObject([
      ("image", SerializeUrl(m.image)),
      ("external_url", SerializeUrl(m.externalUrl)),
      ("description", JString(m.description)),
      ("name", JString(m.name)),
      ("attributes", Attributes.SerializeVec(m.attributes)),
      ("background_color", Rgb8FromStrRadix16.Serialize(m.backgroundColor)),
      ("animation_url", SerializeUrl(m.animationUrl)),
      ("youtube_url", SerializeUrl(m.youtubeUrl))])
  }

  /** Every key occurs exactly once and its field's decoder accepts its value. */
  predicate AllFieldsOnce(e: seq<(string, Json)>)
  {
    && ReadsExactlyOnce(e, "image", DeserializeUrl)
    && ReadsExactlyOnce(e, "external_url", DeserializeUrl)
    && ReadsExactlyOnce(e, "description", DeserializeString)
    && ReadsExactlyOnce(e, "name", DeserializeString)
    && ReadsExactlyOnce(e, "attributes", Attributes.DeserializeVec)
    && ReadsExactlyOnce(e, "background_color", Rgb8FromStrRadix16.Deserialize)
    && ReadsExactlyOnce(e, "animation_url", DeserializeUrl)
    && ReadsExactlyOnce(e, "youtube_url", DeserializeUrl)
  }

  /** The record an object denotes: each field decoded from the value under its key. */
  function Denoted(e: seq<(string, Json)>): Metadata
    requires AllFieldsOnce(e)
  {
    Metadata(
      DeserializeUrl(Find(e, "image")).value,
      DeserializeUrl(Find(e, "external_url")).value,
      DeserializeString(Find(e, "description")).value,
      DeserializeString(Find(e, "name")).value,
      Attributes.DeserializeVec(Find(e, "attributes")).value,
      Rgb8FromStrRadix16.Deserialize(Find(e, "background_color")).value,
      DeserializeUrl(Find(e, "animation_url")).value,
      DeserializeUrl(Find(e, "youtube_url")).value)
  }

  /** Each known key is read at most once in all, counting the reads recorded in `f`, and its value
      decodes. */
  predicate FieldsAccept(e: seq<(string, Json)>, f: MetadataFields)
  {
    && ReadsOnce(e, "image", f.image.Some?, DeserializeUrl)
    && ReadsOnce(e, "external_url", f.externalUrl.Some?, DeserializeUrl)
    && ReadsOnce(e, "description", f.description.Some?, DeserializeString)
    && ReadsOnce(e, "name", f.name.Some?, DeserializeString)
    && ReadsOnce(e, "attributes", f.attributes.Some?, Attributes.DeserializeVec)
    && ReadsOnce(e, "background_color", f.backgroundColor.Some?, Rgb8FromStrRadix16.Deserialize)
    && ReadsOnce(e, "animation_url", f.animationUrl.Some?, DeserializeUrl)
    && ReadsOnce(e, "youtube_url", f.youtubeUrl.Some?, DeserializeUrl)
  }

  /** The fields after reading `e`, starting from `f`. */
  function FieldsRead(e: seq<(string, Json)>, f: MetadataFields): MetadataFields
  {
    MetadataFields(
      Read(e, "image", f.image, DeserializeUrl),
      Read(e, "external_url", f.externalUrl, DeserializeUrl),
      Read(e, "description", f.description, DeserializeString),
      Read(e, "name", f.name, DeserializeString),
      Read(e, "attributes", f.attributes, Attributes.DeserializeVec),
      Read(e, "background_color", f.backgroundColor, Rgb8FromStrRadix16.Deserialize),
      Read(e, "animation_url", f.animationUrl, DeserializeUrl),
      Read(e, "youtube_url", f.youtubeUrl, DeserializeUrl))
  }

  /** One step of the visitor agrees with the per-key statement: an entry whose key is already read
      or whose value does not decode is refused by both, and otherwise both move on alike. */
  lemma FieldsStep(e: seq<(string, Json)>, f: MetadataFields)
    requires e != []
    ensures MetadataFieldStep(f, e[0].0, e[0].1).Err? ==> !FieldsAccept(e, f)
    ensures MetadataFieldStep(f, e[0].0, e[0].1).Ok? ==>
              var next := MetadataFieldStep(f, e[0].0, e[0].1).value;
              && (FieldsAccept(e, f) <==> FieldsAccept(e[1..], next))
              && (FieldsAccept(e, f) ==> FieldsRead(e, f) == FieldsRead(e[1..], next))
  {
    var k := e[0].0;
    if k == "image" {
      FieldsStepOnImage(e, f);
    } else if k == "external_url" {
      FieldsStepOnExternalUrl(e, f);
    } else if k == "description" {
      FieldsStepOnDescription(e, f);
    } else if k == "name" {
      FieldsStepOnName(e, f);
    } else if k == "attributes" {
      FieldsStepOnAttributes(e, f);
    } else if k == "background_color" {
      FieldsStepOnBackgroundColor(e, f);
    } else if k == "animation_url" {
      FieldsStepOnAnimationUrl(e, f);
    } else if k == "youtube_url" {
      FieldsStepOnYoutubeUrl(e, f);
    } else {
      FieldsStepOnUnknown(e, f);
    }
  }

  // The step lemma for one key at a time: each key's case is its own proof obligation, which keeps
  // every one of them small.

  lemma FieldsStepOnImage(e: seq<(string, Json)>, f: MetadataFields)
    requires e != [] && e[0].0 == "image"
    ensures MetadataFieldStep(f, e[0].0, e[0].1).Err? ==> !FieldsAccept(e, f)
    ensures MetadataFieldStep(f, e[0].0, e[0].1).Ok? ==>
              var next := MetadataFieldStep(f, e[0].0, e[0].1).value;
              && (FieldsAccept(e, f) <==> FieldsAccept(e[1..], next))
              && (FieldsAccept(e, f) ==> FieldsRead(e, f) == FieldsRead(e[1..], next))
  {
    ReadStep(e, "image", f.image.Some?, f.image, DeserializeUrl);
    ReadStep(e, "external_url", f.externalUrl.Some?, f.externalUrl, DeserializeUrl);
    ReadStep(e, "description", f.description.Some?, f.description, DeserializeString);
    ReadStep(e, "name", f.name.Some?, f.name, DeserializeString);
    ReadStep(e, "attributes", f.attributes.Some?, f.attributes, Attributes.DeserializeVec);
    ReadStep(e, "background_color", f.backgroundColor.Some?, f.backgroundColor, Rgb8FromStrRadix16.Deserialize);
    ReadStep(e, "animation_url", f.animationUrl.Some?, f.animationUrl, DeserializeUrl);
    ReadStep(e, "youtube_url", f.youtubeUrl.Some?, f.youtubeUrl, DeserializeUrl);
  }

  lemma FieldsStepOnExternalUrl(e: seq<(string, Json)>, f: MetadataFields)
    requires e != [] && e[0].0 == "external_url"
    ensures MetadataFieldStep(f, e[0].0, e[0].1).Err? ==> !FieldsAccept(e, f)
    ensures MetadataFieldStep(f, e[0].0, e[0].1).Ok? ==>
              var next := MetadataFieldStep(f, e[0].0, e[0].1).value;
              && (FieldsAccept(e, f) <==> FieldsAccept(e[1..], next))
              && (FieldsAccept(e, f) ==> FieldsRead(e, f) == FieldsRead(e[1..], next))
  {
    ReadStep(e, "image", f.image.Some?, f.image, DeserializeUrl);
    ReadStep(e, "external_url", f.externalUrl.Some?, f.externalUrl, DeserializeUrl);
    ReadStep(e, "description", f.description.Some?, f.description, DeserializeString);
    ReadStep(e, "name", f.name.Some?, f.name, DeserializeString);
    ReadStep(e, "attributes", f.attributes.Some?, f.attributes, Attributes.DeserializeVec);
    ReadStep(e, "background_color", f.backgroundColor.Some?, f.backgroundColor, Rgb8FromStrRadix16.Deserialize);
    ReadStep(e, "animation_url", f.animationUrl.Some?, f.animationUrl, DeserializeUrl);
    ReadStep(e, "youtube_url", f.youtubeUrl.Some?, f.youtubeUrl, DeserializeUrl);
  }

  lemma FieldsStepOnDescription(e: seq<(string, Json)>, f: MetadataFields)
    requires e != [] && e[0].0 == "description"
    ensures MetadataFieldStep(f, e[0].0, e[0].1).Err? ==> !FieldsAccept(e, f)
    ensures MetadataFieldStep(f, e[0].0, e[0].1).Ok? ==>
              var next := MetadataFieldStep(f, e[0].0, e[0].1).value;
              && (FieldsAccept(e, f) <==> FieldsAccept(e[1..], next))
              && (FieldsAccept(e, f) ==> FieldsRead(e, f) == FieldsRead(e[1..], next))
  {
    ReadStep(e, "image", f.image.Some?, f.image, DeserializeUrl);
    ReadStep(e, "external_url", f.externalUrl.Some?, f.externalUrl, DeserializeUrl);
    ReadStep(e, "description", f.description.Some?, f.description, DeserializeString);
    ReadStep(e, "name", f.name.Some?, f.name, DeserializeString);
    ReadStep(e, "attributes", f.attributes.Some?, f.attributes, Attributes.DeserializeVec);
    ReadStep(e, "background_color", f.backgroundColor.Some?, f.backgroundColor, Rgb8FromStrRadix16.Deserialize);
    ReadStep(e, "animation_url", f.animationUrl.Some?, f.animationUrl, DeserializeUrl);
    ReadStep(e, "youtube_url", f.youtubeUrl.Some?, f.youtubeUrl, DeserializeUrl);
  }

  lemma FieldsStepOnName(e: seq<(string, Json)>, f: MetadataFields)
    requires e != [] && e[0].0 == "name"
    ensures MetadataFieldStep(f, e[0].0, e[0].1).Err? ==> !FieldsAccept(e, f)
    ensures MetadataFieldStep(f, e[0].0, e[0].1).Ok? ==>
              var next := MetadataFieldStep(f, e[0].0, e[0].1).value;
              && (FieldsAccept(e, f) <==> FieldsAccept(e[1..], next))
              && (FieldsAccept(e, f) ==> FieldsRead(e, f) == FieldsRead(e[1..], next))
  {
    ReadStep(e, "image", f.image.Some?, f.image, DeserializeUrl);
    ReadStep(e, "external_url", f.externalUrl.Some?, f.externalUrl, DeserializeUrl);
    ReadStep(e, "description", f.description.Some?, f.description, DeserializeString);
    ReadStep(e, "name", f.name.Some?, f.name, DeserializeString);
    ReadStep(e, "attributes", f.attributes.Some?, f.attributes, Attributes.DeserializeVec);
    ReadStep(e, "background_color", f.backgroundColor.Some?, f.backgroundColor, Rgb8FromStrRadix16.Deserialize);
    ReadStep(e, "animation_url", f.animationUrl.Some?, f.animationUrl, DeserializeUrl);
    ReadStep(e, "youtube_url", f.youtubeUrl.Some?, f.youtubeUrl, DeserializeUrl);
  }

  lemma FieldsStepOnAttributes(e: seq<(string, Json)>, f: MetadataFields)
    requires e != [] && e[0].0 == "attributes"
    ensures MetadataFieldStep(f, e[0].0, e[0].1).Err? ==> !FieldsAccept(e, f)
    ensures MetadataFieldStep(f, e[0].0, e[0].1).Ok? ==>
              var next := MetadataFieldStep(f, e[0].0, e[0].1).value;
              && (FieldsAccept(e, f) <==> FieldsAccept(e[1..], next))
              && (FieldsAccept(e, f) ==> FieldsRead(e, f) == FieldsRead(e[1..], next))
  {
    ReadStep(e, "image", f.image.Some?, f.image, DeserializeUrl);
    ReadStep(e, "external_url", f.externalUrl.Some?, f.externalUrl, DeserializeUrl);
    ReadStep(e, "description", f.description.Some?, f.description, DeserializeString);
    ReadStep(e, "name", f.name.Some?, f.name, DeserializeString);
    ReadStep(e, "attributes", f.attributes.Some?, f.attributes, Attributes.DeserializeVec);
    ReadStep(e, "background_color", f.backgroundColor.Some?, f.backgroundColor, Rgb8FromStrRadix16.Deserialize);
    ReadStep(e, "animation_url", f.animationUrl.Some?, f.animationUrl, DeserializeUrl);
    ReadStep(e, "youtube_url", f.youtubeUrl.Some?, f.youtubeUrl, DeserializeUrl);
  }

  lemma FieldsStepOnBackgroundColor(e: seq<(string, Json)>, f: MetadataFields)
    requires e != [] && e[0].0 == "background_color"
    ensures MetadataFieldStep(f, e[0].0, e[0].1).Err? ==> !FieldsAccept(e, f)
    ensures MetadataFieldStep(f, e[0].0, e[0].1).Ok? ==>
              var next := MetadataFieldStep(f, e[0].0, e[0].1).value;
              && (FieldsAccept(e, f) <==> FieldsAccept(e[1..], next))
              && (FieldsAccept(e, f) ==> FieldsRead(e, f) == FieldsRead(e[1..], next))
  {
    ReadStep(e, "image", f.image.Some?, f.image, DeserializeUrl);
    ReadStep(e, "external_url", f.externalUrl.Some?, f.externalUrl, DeserializeUrl);
    ReadStep(e, "description", f.description.Some?, f.description, DeserializeString);
    ReadStep(e, "name", f.name.Some?, f.name, DeserializeString);
    ReadStep(e, "attributes", f.attributes.Some?, f.attributes, Attributes.DeserializeVec);
    ReadStep(e, "background_color", f.backgroundColor.Some?, f.backgroundColor, Rgb8FromStrRadix16.Deserialize);
    ReadStep(e, "animation_url", f.animationUrl.Some?, f.animationUrl, DeserializeUrl);
    ReadStep(e, "youtube_url", f.youtubeUrl.Some?, f.youtubeUrl, DeserializeUrl);
  }

  lemma FieldsStepOnAnimationUrl(e: seq<(string, Json)>, f: MetadataFields)
    requires e != [] && e[0].0 == "animation_url"
    ensures MetadataFieldStep(f, e[0].0, e[0].1).Err? ==> !FieldsAccept(e, f)
    ensures MetadataFieldStep(f, e[0].0, e[0].1).Ok? ==>
              var next := MetadataFieldStep(f, e[0].0, e[0].1).value;
              && (FieldsAccept(e, f) <==> FieldsAccept(e[1..], next))
              && (FieldsAccept(e, f) ==> FieldsRead(e, f) == FieldsRead(e[1..], next))
  {
    ReadStep(e, "image", f.image.Some?, f.image, DeserializeUrl);
    ReadStep(e, "external_url", f.externalUrl.Some?, f.externalUrl, DeserializeUrl);
    ReadStep(e, "description", f.description.Some?, f.description, DeserializeString);
    ReadStep(e, "name", f.name.Some?, f.name, DeserializeString);
    ReadStep(e, "attributes", f.attributes.Some?, f.attributes, Attributes.DeserializeVec);
    ReadStep(e, "background_color", f.backgroundColor.Some?, f.backgroundColor, Rgb8FromStrRadix16.Deserialize);
    ReadStep(e, "animation_url", f.animationUrl.Some?, f.animationUrl, DeserializeUrl);
    ReadStep(e, "youtube_url", f.youtubeUrl.Some?, f.youtubeUrl, DeserializeUrl);
  }

  lemma FieldsStepOnYoutubeUrl(e: seq<(string, Json)>, f: MetadataFields)
    requires e != [] && e[0].0 == "youtube_url"
    ensures MetadataFieldStep(f, e[0].0, e[0].1).Err? ==> !FieldsAccept(e, f)
    ensures MetadataFieldStep(f, e[0].0, e[0].1).Ok? ==>
              var next := MetadataFieldStep(f, e[0].0, e[0].1).value;
              && (FieldsAccept(e, f) <==> FieldsAccept(e[1..], next))
              && (FieldsAccept(e, f) ==> FieldsRead(e, f) == FieldsRead(e[1..], next))
  {
    ReadStep(e, "image", f.image.Some?, f.image, DeserializeUrl);
    ReadStep(e, "external_url", f.externalUrl.Some?, f.externalUrl, DeserializeUrl);
    ReadStep(e, "description", f.description.Some?, f.description, DeserializeString);
    ReadStep(e, "name", f.name.Some?, f.name, DeserializeString);
    ReadStep(e, "attributes", f.attributes.Some?, f.attributes, Attributes.DeserializeVec);
    ReadStep(e, "background_color", f.backgroundColor.Some?, f.backgroundColor, Rgb8FromStrRadix16.Deserialize);
    ReadStep(e, "animation_url", f.animationUrl.Some?, f.animationUrl, DeserializeUrl);
    ReadStep(e, "youtube_url", f.youtubeUrl.Some?, f.youtubeUrl, DeserializeUrl);
  }

  lemma FieldsStepOnUnknown(e: seq<(string, Json)>, f: MetadataFields)
    requires e != [] && e[0].0 !in FIELD_NAMES
    ensures MetadataFieldStep(f, e[0].0, e[0].1).Err? ==> !FieldsAccept(e, f)
    ensures MetadataFieldStep(f, e[0].0, e[0].1).Ok? ==>
              var next := MetadataFieldStep(f, e[0].0, e[0].1).value;
              && (FieldsAccept(e, f) <==> FieldsAccept(e[1..], next))
              && (FieldsAccept(e, f) ==> FieldsRead(e, f) == FieldsRead(e[1..], next))
  {
    ReadStep(e, "image", f.image.Some?, f.image, DeserializeUrl);
    ReadStep(e, "external_url", f.externalUrl.Some?, f.externalUrl, DeserializeUrl);
    ReadStep(e, "description", f.description.Some?, f.description, DeserializeString);
    ReadStep(e, "name", f.name.Some?, f.name, DeserializeString);
    ReadStep(e, "attributes", f.attributes.Some?, f.attributes, Attributes.DeserializeVec);
    ReadStep(e, "background_color", f.backgroundColor.Some?, f.backgroundColor, Rgb8FromStrRadix16.Deserialize);
    ReadStep(e, "animation_url", f.animationUrl.Some?, f.animationUrl, DeserializeUrl);
    ReadStep(e, "youtube_url", f.youtubeUrl.Some?, f.youtubeUrl, DeserializeUrl);
  }

  /** The visitor succeeds exactly when each known key is read at most once in all (counting the
      reads recorded in `f`) and its value decodes, and it then holds those values. */
  lemma {:induction false} VisitMetadataFieldsSpec(e: seq<(string, Json)>, f: MetadataFields)
    ensures VisitMap(e, f, MetadataFieldStep).Ok? <==> FieldsAccept(e, f)
    ensures VisitMap(e, f, MetadataFieldStep).Ok? ==> VisitMap(e, f, MetadataFieldStep).value == FieldsRead(e, f)
  {
    if e != [] {
      FieldsStep(e, f);
      match MetadataFieldStep(f, e[0].0, e[0].1)
      case Err(_) =>
      case Ok(next) =>
        VisitMetadataFieldsSpec(e[1..], next);
    }
  }

  /** An object decodes exactly when each of the eight keys occurs once with a value its field
      accepts, and it then decodes to the record those values denote. */
  lemma ObjectDecodesExactly(e: seq<(string, Json)>)
    ensures Deserialize(JObject(e)).Ok? <==> AllFieldsOnce(e)
    ensures Deserialize(JObject(e)).Ok? ==> Deserialize(JObject(e)).value == Denoted(e)
  {
    VisitMetadataFieldsSpec(e, NO_FIELDS);
  }

  /** Writing a record and reading it back gives the record, `attributes` in the same order. */
  lemma RoundTrip(m: Metadata)
    ensures Deserialize(Serialize(m)) == Ok(m)
  {
    var j := Serialize(m);
    EntriesInOrderVisited(m, j.entries[0].1, j.entries[1].1, j.entries[2].1, j.entries[3].1,
                          j.entries[4].1, j.entries[5].1, j.entries[6].1, j.entries[7].1);
  }

  /** The slots of the visitor once every field of `m` has been read. */
  function AllRead(m: Metadata): MetadataFields
  {
    MetadataFields(Some(m.image), Some(m.externalUrl), Some(m.description), Some(m.name),
                   Some(m.attributes), Some(m.backgroundColor), Some(m.animationUrl), Some(m.youtubeUrl))
  }

  /** The eight keys in declaration order, holding values that decode to the fields of `m`, visit to
      all of `m`. */
  lemma EntriesInOrderVisited(m: Metadata, v0: Json, v1: Json, v2: Json, v3: Json, v4: Json, v5: Json, v6: Json, v7: Json)
    requires DeserializeUrl(v0) == Ok(m.image)
    requires DeserializeUrl(v1) == Ok(m.externalUrl)
    requires DeserializeString(v2) == Ok(m.description)
    requires DeserializeString(v3) == Ok(m.name)
    requires Attributes.DeserializeVec(v4) == Ok(m.attributes)
    requires Rgb8FromStrRadix16.Deserialize(v5) == Ok(m.backgroundColor)
    requires DeserializeUrl(v6) == Ok(m.animationUrl)
    requires DeserializeUrl(v7) == Ok(m.youtubeUrl)
    ensures VisitMap([("image", v0), ("external_url", v1), ("description", v2), ("name", v3), ("attributes", v4), ("background_color", v5), ("animation_url", v6), ("youtube_url", v7)], NO_FIELDS, MetadataFieldStep) == Ok(AllRead(m))
  {
    var a, b := [("image", v0), ("external_url", v1), ("description", v2), ("name", v3)], [("attributes", v4), ("background_color", v5), ("animation_url", v6), ("youtube_url", v7)];
    assert [("image", v0), ("external_url", v1), ("description", v2), ("name", v3), ("attributes", v4), ("background_color", v5), ("animation_url", v6), ("youtube_url", v7)] == a + b;
    FirstHalfVisited(m, v0, v1, v2, v3);
    SecondHalfVisited(m, v4, v5, v6, v7);
    VisitMapAppend(a, b, NO_FIELDS, MetadataFieldStep);
  }

  /** The slots of the visitor once the first four fields of `m` have been read. */
  function FirstHalfRead(m: Metadata): MetadataFields
  {
    NO_FIELDS.(image := Some(m.image), externalUrl := Some(m.externalUrl), description := Some(m.description),
               name := Some(m.name))
  }

  lemma FirstHalfVisited(m: Metadata, v0: Json, v1: Json, v2: Json, v3: Json)
    requires DeserializeUrl(v0) == Ok(m.image)
    requires DeserializeUrl(v1) == Ok(m.externalUrl)
    requires DeserializeString(v2) == Ok(m.description)
    requires DeserializeString(v3) == Ok(m.name)
    ensures VisitMap([("image", v0), ("external_url", v1), ("description", v2), ("name", v3)], NO_FIELDS, MetadataFieldStep) == Ok(FirstHalfRead(m))
  {
    var e := [("image", v0), ("external_url", v1), ("description", v2), ("name", v3)];
    var f1 := NO_FIELDS.(image := Some(m.image));
    var f2 := f1.(externalUrl := Some(m.externalUrl));
    var f3 := f2.(description := Some(m.description));
    StepImageFresh(NO_FIELDS, v0);
    StepExternalUrlFresh(f1, v1);
    StepDescriptionFresh(f2, v2);
    StepNameFresh(f3, v3);
    VisitMapAt(e, 0, NO_FIELDS, MetadataFieldStep);
    VisitMapAt(e, 1, f1, MetadataFieldStep);
    VisitMapAt(e, 2, f2, MetadataFieldStep);
    VisitMapAt(e, 3, f3, MetadataFieldStep);
    assert e[4..] == [] && e[0..] == e;
  }

  lemma SecondHalfVisited(m: Metadata, v4: Json, v5: Json, v6: Json, v7: Json)
    requires Attributes.DeserializeVec(v4) == Ok(m.attributes)
    requires Rgb8FromStrRadix16.Deserialize(v5) == Ok(m.backgroundColor)
    requires DeserializeUrl(v6) == Ok(m.animationUrl)
    requires DeserializeUrl(v7) == Ok(m.youtubeUrl)
    ensures VisitMap([("attributes", v4), ("background_color", v5), ("animation_url", v6), ("youtube_url", v7)], FirstHalfRead(m), MetadataFieldStep) == Ok(AllRead(m))
  {
    var e := [("attributes", v4), ("background_color", v5), ("animation_url", v6), ("youtube_url", v7)];
    var f4 := FirstHalfRead(m);
    var f5 := f4.(attributes := Some(m.attributes));
    var f6 := f5.(backgroundColor := Some(m.backgroundColor));
    var f7 := f6.(animationUrl := Some(m.animationUrl));
    StepAttributesFresh(f4, v4);
    StepBackgroundColorFresh(f5, v5);
    StepAnimationUrlFresh(f6, v6);
    StepYoutubeUrlFresh(f7, v7);
    VisitMapAt(e, 0, f4, MetadataFieldStep);
    VisitMapAt(e, 1, f5, MetadataFieldStep);
    VisitMapAt(e, 2, f6, MetadataFieldStep);
    VisitMapAt(e, 3, f7, MetadataFieldStep);
    assert e[4..] == [] && e[0..] == e;
  }

  lemma StepImageFresh(f: MetadataFields, v: Json)
    requires f.image.None? && DeserializeUrl(v).Ok?
    ensures MetadataFieldStep(f, "image", v) == Ok(f.(image := Some(DeserializeUrl(v).value)))
  {
  }

  lemma StepExternalUrlFresh(f: MetadataFields, v: Json)
    requires f.externalUrl.None? && DeserializeUrl(v).Ok?
    ensures MetadataFieldStep(f, "external_url", v) == Ok(f.(externalUrl := Some(DeserializeUrl(v).value)))
  {
  }

  lemma StepDescriptionFresh(f: MetadataFields, v: Json)
    requires f.description.None? && DeserializeString(v).Ok?
    ensures MetadataFieldStep(f, "description", v) == Ok(f.(description := Some(DeserializeString(v).value)))
  {
  }

  lemma StepNameFresh(f: MetadataFields, v: Json)
    requires f.name.None? && DeserializeString(v).Ok?
    ensures MetadataFieldStep(f, "name", v) == Ok(f.(name := Some(DeserializeString(v).value)))
  {
  }

  lemma StepAttributesFresh(f: MetadataFields, v: Json)
    requires f.attributes.None? && Attributes.DeserializeVec(v).Ok?
    ensures MetadataFieldStep(f, "attributes", v) == Ok(f.(attributes := Some(Attributes.DeserializeVec(v).value)))
  {
  }

  lemma StepBackgroundColorFresh(f: MetadataFields, v: Json)
    requires f.backgroundColor.None? && Rgb8FromStrRadix16.Deserialize(v).Ok?
    ensures MetadataFieldStep(f, "background_color", v) == Ok(f.(backgroundColor := Some(Rgb8FromStrRadix16.Deserialize(v).value)))
  {
  }

  lemma StepAnimationUrlFresh(f: MetadataFields, v: Json)
    requires f.animationUrl.None? && DeserializeUrl(v).Ok?
    ensures MetadataFieldStep(f, "animation_url", v) == Ok(f.(animationUrl := Some(DeserializeUrl(v).value)))
  {
  }

  lemma StepYoutubeUrlFresh(f: MetadataFields, v: Json)
    requires f.youtubeUrl.None? && DeserializeUrl(v).Ok?
    ensures MetadataFieldStep(f, "youtube_url", v) == Ok(f.(youtubeUrl := Some(DeserializeUrl(v).value)))
  {
  }

  /** The values of an object's entries, in order. */
  function Values(e: seq<(string, Json)>): (vs: seq<Json>)
    ensures |vs| == |e| && forall i | 0 <= i < |e| :: vs[i] == e[i].1
  {
    seq(|e|, i requires 0 <= i < |e| => e[i].1)
  }

  /** The positional form is read exactly when it has eight elements that the fields accept in
      declaration order, and it then holds those values. */
  lemma ArrayDecodesExactly(items: seq<Json>)
    ensures Deserialize(JArray(items)).Ok? <==>
              && |items| == 8
              && DeserializeUrl(items[0]).Ok?
              && DeserializeUrl(items[1]).Ok?
              && DeserializeString(items[2]).Ok?
              && DeserializeString(items[3]).Ok?
              && Attributes.DeserializeVec(items[4]).Ok?
              && Rgb8FromStrRadix16.Deserialize(items[5]).Ok?
              && DeserializeUrl(items[6]).Ok?
              && DeserializeUrl(items[7]).Ok?
    ensures Deserialize(JArray(items)).Ok? ==>
              Deserialize(JArray(items)).value == Metadata(
                DeserializeUrl(items[0]).value,
                DeserializeUrl(items[1]).value,
                DeserializeString(items[2]).value,
                DeserializeString(items[3]).value,
                Attributes.DeserializeVec(items[4]).value,
                Rgb8FromStrRadix16.Deserialize(items[5]).value,
                DeserializeUrl(items[6]).value,
                DeserializeUrl(items[7]).value)
  {
  }

  /** The positional form of a written record, its values in declaration order, reads back as the
      same record. */
  lemma ArrayRoundTrip(m: Metadata)
    ensures Deserialize(JArray(Values(Serialize(m).entries))) == Ok(m)
  {
    ArrayDecodesExactly(Values(Serialize(m).entries));
  }

  /** An object that lacks one of the eight keys is refused. */
  lemma MissingFieldRejected(e: seq<(string, Json)>, key: string)
    requires key in FIELD_NAMES
    requires forall i | 0 <= i < |e| :: e[i].0 != key
    ensures Deserialize(JObject(e)).Err?
  {
    CountZero(e, key);
    ObjectDecodesExactly(e);
  }

  /** An object in which one of the eight keys occurs twice is refused. */
  lemma DuplicateFieldRejected(e: seq<(string, Json)>, key: string, i: nat, j: nat)
    requires key in FIELD_NAMES
    requires i < j < |e| && e[i].0 == key && e[j].0 == key
    ensures Deserialize(JObject(e)).Err?
  {
    CountAtLeastTwo(e, key, i, j);
    ObjectDecodesExactly(e);
  }

  /** When the visit goes through, the first key in declaration order that the object lacks is the
      one reported missing. */
  lemma FirstMissingFieldReported(e: seq<(string, Json)>, i: nat)
    requires i < |FIELD_NAMES|
    requires FieldsAccept(e, NO_FIELDS)
    requires Count(e, FIELD_NAMES[i]) == 0
    requires forall k | 0 <= k < i :: Count(e, FIELD_NAMES[k]) == 1
    ensures Deserialize(JObject(e)) == Err(MissingField(FIELD_NAMES[i]))
  {
    VisitMetadataFieldsSpec(e, NO_FIELDS);
    var f := FieldsRead(e, NO_FIELDS);
    FilledIffPresent(e);
    assert !Filled(f, i);
    forall k | 0 <= k < i ensures Filled(f, k) {
      assert Count(e, FIELD_NAMES[k]) == 1;
    }
    FirstEmptySlotReported(f, i);
  }

  /** Whether the slot of the `k`-th field, in declaration order, holds a value. */
  predicate Filled(f: MetadataFields, k: nat)
    requires k < |FIELD_NAMES|
  {
    match k
    case 0 => f.image.Some?
    case 1 => f.externalUrl.Some?
    case 2 => f.description.Some?
    case 3 => f.name.Some?
    case 4 => f.attributes.Some?
    case 5 => f.backgroundColor.Some?
    case 6 => f.animationUrl.Some?
    case 7 => f.youtubeUrl.Some?
  }

  /** After a visit that goes through, a slot holds a value exactly when its key occurs. */
  lemma FilledIffPresent(e: seq<(string, Json)>)
    requires FieldsAccept(e, NO_FIELDS)
    ensures forall k | 0 <= k < |FIELD_NAMES| :: Filled(FieldsRead(e, NO_FIELDS), k) <==> Count(e, FIELD_NAMES[k]) == 1
  {
    var f := FieldsRead(e, NO_FIELDS);
    forall k | 0 <= k < |FIELD_NAMES| ensures Filled(f, k) <==> Count(e, FIELD_NAMES[k]) == 1 {
      match k
      case 0 =>
      case 1 =>
      case 2 =>
      case 3 =>
      case 4 =>
      case 5 =>
      case 6 =>
      case 7 =>
    }
  }

  /** The fields are assembled in declaration order: the first empty slot is the missing field. */
  lemma FirstEmptySlotReported(f: MetadataFields, i: nat)
    requires i < |FIELD_NAMES| && !Filled(f, i)
    requires forall k | 0 <= k < i :: Filled(f, k)
    ensures FromFields(f) == Err(MissingField(FIELD_NAMES[i]))
  {
    if i > 0 { assert Filled(f, 0); }
    if i > 1 { assert Filled(f, 1); }
    if i > 2 { assert Filled(f, 2); }
    if i > 3 { assert Filled(f, 3); }
    if i > 4 { assert Filled(f, 4); }
    if i > 5 { assert Filled(f, 5); }
    if i > 6 { assert Filled(f, 6); }
  }

  /** An entry under a key that is none of the eight changes nothing, wherever it stands. */
  lemma UnknownKeyIgnored(before: seq<(string, Json)>, key: string, v: Json, after: seq<(string, Json)>)
    requires key !in FIELD_NAMES
    ensures Deserialize(JObject(before + [(key, v)] + after)) == Deserialize(JObject(before + after))
  {
    VisitMapSkipsIgnoredKey(before, key, v, after, NO_FIELDS, MetadataFieldStep);
  }
}
