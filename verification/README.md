# nft-metadata: a Dafny model of the JSON codec for NFT metadata

The crate `nft-metadata` defines the record a marketplace reads for a non-fungible token, following the
OpenSea metadata convention, and derives its JSON codec with serde. This project models that codec as
pure functions over parsed JSON values and proves what it accepts, what it refuses and that writing
then reading gives the value back.

- `Metadata` (`NftMetadata`) has eight fields, and all eight are required: `image`, `external_url`,
  `description`, `name`, `attributes`, `background_color`, `animation_url` and `youtube_url`.
  - The derived decoder reads a JSON object entry by entry. Unknown keys are skipped. A known key seen
    twice is an error. After the visit, the first missing field in declaration order is reported.
  - It also reads a JSON array of exactly eight values, by position.
  - `attributes` keeps its order.
- `AttributeEntry` (`Attributes`) is an untagged union of a textual and a numerical attribute.
  - The decoder tries `String { trait_type, value }` first, then `Number { trait_type, value: u64,
    display_type }`, and keeps the first variant that accepts. Each variant accepts objects only.
  - A `value` that is negative, 2^64 or more, or fractional is refused.
  - An unknown `display_type` token is refused.
  - The two variants accept disjoint sets of objects, so the order of the attempts never changes a result.
- `DisplayType` (`DisplayTypes`) is a closed set of four snake_case tokens. Inside the untagged union it
  is read from serde's buffered value: either a bare token, or a one-entry object `{token: null}`.
- `rgb8_fromstr_radix_16` (`Rgb8FromStrRadix16`, over `Hex`) writes the background colour as six
  lower-case hex digits.
  - It reads any hex text, in either case, that decodes to exactly three bytes.
  - An odd length fails before any character is checked.
  - Otherwise the first non-hex character fails, with its position.
- `Serde` holds what the derived code relies on:
  - a JSON value type;
  - the error kinds;
  - the primitive conversions for `String`, `u64` and `Url`;
  - the `visit_map` loop that every derived struct visitor runs over an object's entries.

Three consequences of the code that a reader of the OpenSea convention might not expect:
- Every field of `Metadata` is a plain, non-`Option` type and none carries `#[serde(default)]`
  (src/lib.rs:19-37). So an object without `attributes`, or without any other of the eight keys, is
  refused (`NftMetadata.MissingFieldRejected`).
- `String` is declared before `Number` (src/lib.rs:47-63), so the untagged decoder tries the textual
  variant first. `Attributes.VariantsDisjoint` shows that the order cannot change a result.
- `display_type: Option<DisplayType>` has no `skip_serializing_if` (src/lib.rs:61-62), so `None` is
  written as `null` (`Attributes.Serialize`), and `null` reads back as `None` (`Attributes.RoundTrip`).

## Model

| member | source | states |
|---|---|---|
| `Serde.DeserializeString` | src/lib.rs:25-27 | A `String` field accepts exactly a JSON string and takes its text; anything else is an invalid type. |
| `Serde.DeserializeU64` | src/lib.rs:60 | A `u64` accepts exactly a JSON integer in [0, 2^64). A negative integer down to -2^63 is an invalid value. A fractional number is an invalid type. |
| `Serde.DeserializeUrl` | src/lib.rs:21 | A `Url` field accepts exactly a JSON string and keeps its text. |
| `Serde.SerializeUrl` | src/lib.rs:21 | A URL is written as the string of its text and reads back as the same URL. |
| `Serde.VisitMapAt` | src/lib.rs:17 | The derived `visit_map` loop: when the entry at position k is accepted, the visit goes on from position k + 1 with the updated fields. |
| `Serde.VisitMapAppend` | src/lib.rs:17 | Visiting two runs of entries in a row is visiting the first run and then, if that goes through, the second from where the first stopped; the first failure stops the visit. |
| `Serde.VisitMapSkipsIgnoredKey` | src/lib.rs:17 | An entry whose key the visitor ignores can be inserted anywhere in an object without changing the visit. |
| `Hex.Decode` | src/lib.rs:89-91 | Hex text decodes exactly when its length is even and every character is a hex digit. Byte i is then digit 2i times 16 plus digit 2i+1. Odd length gives `OddLength`. Otherwise a failure names the first non-hex character and its position. |
| `Hex.DecodePairs` | src/lib.rs:89-91 | Reading digit pairs from a position: succeeds exactly when every character from there on is hex, with each byte taken from its pair; otherwise fails at the first non-hex character from there on. |
| `Hex.Encode` | src/lib.rs:89-91 | Encoding gives two characters per byte, all of them lower-case hex digits. |
| `Hex.EncodePairs` | src/lib.rs:89-91 | Digit pair i of the encoding denotes byte i, high nibble first. |
| `Hex.DecodeEncode` | src/lib.rs:89-91 | Decoding an encoding gives the bytes back. |
| `Hex.EncodeDecode` | src/lib.rs:89-91 | Encoding what was decoded gives the original text in lower case. |
| `Hex.Lowercase` | src/lib.rs:89-91 | Lower-casing hex text keeps its length and the value of every digit. |
| `Hex.LowercaseKeepsLower` | src/lib.rs:89-91 | Text already in lower case is unchanged by lower-casing. |
| `Rgb8FromStrRadix16.Deserialize` | src/lib.rs:93-108 | A colour is read only from a JSON string whose hex decoding is its three channel bytes. Text of another byte count is `NotAColor`. A hex error is passed on, and a non-string is an invalid type. |
| `Rgb8FromStrRadix16.Serialize` | src/lib.rs:110-115 | A colour is written as six lower-case hex digits that read back as the same colour. |
| `Rgb8FromStrRadix16.AcceptsExactlySixHexDigits` | src/lib.rs:97-107 | A colour string is accepted exactly when it is six hex digits. Then r, g and b are the first, second and third digit pairs. |
| `Rgb8FromStrRadix16.RejectsOtherText` | src/lib.rs:97-100 | Any other text is refused. Odd length is `OddLength`, and well-formed hex of the wrong byte count is `NotAColor`. |
| `Rgb8FromStrRadix16.SerializeNormalizes` | src/lib.rs:110-115 | Writing a decoded colour gives back its text in lower case. |
| `Rgb8FromStrRadix16.FromJson` | src/lib.rs:128-140 | "f2f2f2" is the colour (242, 242, 242). |
| `Rgb8FromStrRadix16.ToJson` | src/lib.rs:142-153 | (242, 242, 242) is written "f2f2f2". |
| `Rgb8FromStrRadix16.FromNotColorJson` | src/lib.rs:155-160 | "f2f2f2f2" is refused as not a colour. |
| `DisplayTypes.Token` | src/lib.rs:66-82 | Every variant's token is non-empty snake_case. |
| `DisplayTypes.FromToken` | src/lib.rs:66-82 | A token maps to the variant whose token it is. Any other text is `UnknownVariant` and is the token of no variant. |
| `DisplayTypes.TokenBijection` | src/lib.rs:66-82 | Tokens and variants correspond one to one. |
| `DisplayTypes.Deserialize` | src/lib.rs:66-82 | A display type is read from a known token string, or from a one-entry object whose key is a known token and whose value is `null`. |
| `DisplayTypes.Serialize` | src/lib.rs:66-82 | A display type is written as its token and reads back as itself. |
| `DisplayTypes.DeserializeOption` | src/lib.rs:61-62 | `null` reads as `None`. Any other value must be a display type and is then `Some` of it. |
| `DisplayTypes.SerializeOption` | src/lib.rs:61-62 | `None` and `Some(d)` are written so that they read back unchanged. |
| `DisplayTypes.UnknownTokenRejected` | src/lib.rs:61-82 | A string that is none of the four tokens is refused, whether bare or as the key of a one-entry object. |
| `Attributes.StringVariant` | src/lib.rs:48-54 | The textual variant's derived visitor reads objects only, and anything it accepts is a textual attribute. |
| `Attributes.NumberVariant` | src/lib.rs:55-63 | The numerical variant's derived visitor reads objects only, and anything it accepts is a numerical attribute. |
| `Attributes.Deserialize` | src/lib.rs:39-64 | A non-object is refused. Any failure is the single "no variant matched" error. |
| `Attributes.Serialize` | src/lib.rs:39-64 | An entry is written as an object of its variant's own fields, in declaration order: `trait_type` and `value` for the textual variant, and `trait_type`, `value` and `display_type` for the numerical one. Each key holds the entry's value, and `display_type` is `null` when it is `None`. |
| `Attributes.VisitStringFieldsSpec` | src/lib.rs:48-54 | The textual visitor goes through exactly when `trait_type` and `value` are each read at most once and are strings. It then holds the values under those keys. |
| `Attributes.VisitNumberFieldsSpec` | src/lib.rs:55-63 | The numerical visitor goes through exactly when `trait_type` (a string), `value` (a `u64`) and `display_type` (null or a token) are each read at most once and decode. It then holds those values. |
| `Attributes.StringVariantExactly` | src/lib.rs:48-54 | The textual variant accepts an object exactly when `trait_type` and `value` each occur once with a string, and takes those strings. |
| `Attributes.NumberVariantExactly` | src/lib.rs:55-63 | The numerical variant accepts an object exactly when `trait_type` occurs once with a string, `value` once with a `u64`, and `display_type` at most once with a valid value. A missing or `null` `display_type` is `None`. |
| `Attributes.StringValueGivesStringVariant` | src/lib.rs:40-54 | An object with a string `trait_type` and a string `value` decodes as the textual variant. |
| `Attributes.IntegerValueGivesNumberVariant` | src/lib.rs:40-63 | An object with a string `trait_type`, a `u64` `value` and a valid or absent `display_type` decodes as the numerical variant with those values. |
| `Attributes.UnrepresentableValueRejected` | src/lib.rs:53-60 | A `value` that is neither a string nor an integer in `u64` range makes the element fail. |
| `Attributes.BadDisplayTypeRejected` | src/lib.rs:62 | A numerical element whose `display_type` is neither `null` nor a valid display type fails. |
| `Attributes.MissingOrRepeatedKeyRejected` | src/lib.rs:47-63 | An element where `trait_type` or `value` is absent or repeated fails. |
| `Attributes.VariantsDisjoint` | src/lib.rs:44-63 | No object is accepted by both variants, so whenever the numerical variant accepts, the untagged decode returns its result. |
| `Attributes.RoundTrip` | src/lib.rs:39-64 | Writing an entry and reading it back gives the same entry, for both variants. |
| `Attributes.TextualSample` | src/lib.rs:48-54 | `{"trait_type": "Core", "value": "Vortex"}` is the textual attribute ("Core", "Vortex"). |
| `Attributes.NumericSample` | src/lib.rs:55-63 | `{"trait_type": "Level", "value": 5, "display_type": "number"}` is the numerical attribute ("Level", 5, `Number`). |
| `Attributes.NegativeSample` | src/lib.rs:60 | `{"trait_type": "X", "value": -1}` fails. |
| `Attributes.DeserializeAll` | src/lib.rs:28-29 | A list of elements decodes exactly when every element does. The result has the same length, and element i is the decoding of element i. |
| `Attributes.DeserializeVec` | src/lib.rs:28-29 | `attributes` is read only from an array. The result keeps the array's length and order. A failure points to an element that fails. |
| `Attributes.SerializeVec` | src/lib.rs:28-29 | A list of entries is written as an array of the same length that reads back as the same list, in order. |
| `NftMetadata.Deserialize` | src/lib.rs:16-37 | A record is read from an object or an array; any other JSON value is an invalid type. |
| `NftMetadata.FromArray` | src/lib.rs:19-37 | The positional `visit_seq` succeeds exactly when there are eight elements and each is accepted by the field at its position. When every element present among the first eight is accepted, a short array is an invalid length at its own length (the first absent position), and a ninth element is reported as trailing. Conversely, an invalid-length report always carries the array's own length, below eight, and a trailing report comes only from an array longer than eight. |
| `NftMetadata.Serialize` | src/lib.rs:16-37 | A record is written as an object with exactly the eight keys, in declaration order. |
| `NftMetadata.VisitMetadataFieldsSpec` | src/lib.rs:19-37 | The record's visitor goes through exactly when each of the eight keys is read at most once in all and its value decodes. It then holds those values. |
| `NftMetadata.ObjectDecodesExactly` | src/lib.rs:19-37 | An object decodes exactly when each of the eight keys occurs exactly once with a value its field accepts. It then decodes to the record those values denote, and other keys play no part. |
| `NftMetadata.ArrayDecodesExactly` | src/lib.rs:19-37 | An array decodes exactly when it has eight elements that the fields accept, in declaration order. It then holds those values. |
| `NftMetadata.RoundTrip` | src/lib.rs:16-37 | Writing a record and reading it back gives the same record, with `attributes` in the same order. |
| `NftMetadata.ArrayRoundTrip` | src/lib.rs:16-37 | The values of a written record, as an array in declaration order, read back as the same record. |
| `NftMetadata.MissingFieldRejected` | src/lib.rs:19-37 | An object that lacks any one of the eight keys is refused. |
| `NftMetadata.DuplicateFieldRejected` | src/lib.rs:19-37 | An object in which one of the eight keys occurs twice is refused. |
| `NftMetadata.FirstMissingFieldReported` | src/lib.rs:19-37 | When the visit goes through, the first absent key in declaration order is the one reported missing. |
| `NftMetadata.FilledIffPresent` | src/lib.rs:19-37 | After a visit that goes through, a field holds a value exactly when its key occurs. |
| `NftMetadata.FirstEmptySlotReported` | src/lib.rs:19-37 | The record is assembled in declaration order, and the first empty field is the one reported missing. |
| `NftMetadata.UnknownKeyIgnored` | src/lib.rs:19-37 | An entry under a key that is none of the eight changes nothing, wherever it stands. |

## Left out

- URL parsing is left out. `url::Url` is taken as its text: any JSON string is accepted for a URL field, and a URL is written back as that text. `Url::parse`'s syntax checks and normalisation are not modelled.
- JSON text is left out. The model starts from parsed values and stops at values: reading and writing JSON characters, whitespace and escapes are not modelled. A number literal arrives already classed as serde_json's parser classes it. `-0`, a number with a fraction or an exponent, and an integer outside [-2^63, 2^64) arrive as `JFloat`, so a `value` of `-0` is refused like any float. Every other integer arrives as `JInt`.
- The hex crate counts and indexes UTF-8 bytes; the model counts characters. For ASCII text the two agree. For text with non-ASCII characters, both refuse it, but the crate may report a different error kind or position.
- Error messages are not modelled, only the error kind and the field or token it names. serde_json folds every one of them into one error type.
- Serialization failures are left out. The writers cannot fail on these types, so every `Serialize` returns a JSON value.
- The `Debug`, `Clone` and `Copy` derives are not modelled.
- The `serde` feature gate is not modelled; the model is the build with the feature enabled.
- `rgb::RGB8` is taken as its three channels, in the order `as_slice` lists them.
- `NftMetadata.Deserialize`: its own contract only says which JSON shapes are refused outright. What it accepts and returns is stated by `NftMetadata.ObjectDecodesExactly` and `NftMetadata.ArrayDecodesExactly`.
