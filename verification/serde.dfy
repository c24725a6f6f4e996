/** The wire side of the codec: a JSON value as serde_json hands it to a deserializer, the errors a
    decode can report, the primitive conversions serde performs for strings, unsigned 64-bit integers
    and URLs, and the loop that serde's derived `visit_map` runs over the entries of an object. */
module Serde {

  /** A parsed JSON value, with numbers classed as serde_json's parser classes them: `JInt` is an
      integer in [-2^63, 2^64) written without fraction or exponent, other than `-0`; `JFloat` is every
      other number, `-0` and integers outside that range included. An object keeps its entries in
      document order, duplicate keys included. */
  datatype Json =
    | JNull
    | JBool(b: bool)
    | JInt(i: int)
    | JFloat(x: real)
    | JString(s: string)
    | JArray(items: seq<Json>)
    | JObject(entries: seq<(string, Json)>)

  /** The kinds of failure serde reports while decoding; only the kind and the offending name matter. */
  datatype DecodeError =
    | InvalidType                               // the value has the wrong JSON shape
    | InvalidValue                              // right shape, value out of range
    | InvalidLength(index: nat)                 // a struct given as an array ran out of elements
    | TrailingElements                          // a struct given as an array has too many elements
    | MissingField(field: string)
    | DuplicateField(field: string)
    | UnknownVariant(token: string)             // an enum token outside the closed set
    | NoMatchingVariant                         // no variant of an untagged enum accepted the value
    | OddLength                                 // hex text with an odd number of digits
    | InvalidHexCharacter(c: char, index: nat)  // hex text with a non-hex character
    | NotAColor                                 // hex text that is not exactly three bytes

  datatype Option<+T> = None | Some(value: T)

  datatype Result<+T> = Ok(value: T) | Err(error: DecodeError) {
    predicate IsFailure() { Err? }
    function PropagateFailure<U>(): Result<U> requires Err? { Err(error) }
    function Extract(): T requires Ok? { value }
  }

  const U64_LIMIT: int := 0x1_0000_0000_0000_0000
  const I64_MIN: int := -0x8000_0000_0000_0000

  /** Rust's `u64`. */
  type U64 = n: int | 0 <= n < U64_LIMIT

  /** A `url::Url`, kept as the already-parsed text of its serialization. */
  datatype Url = Url(href: string)

  /** `String` from JSON: only a JSON string is accepted. */
  function DeserializeString(j: Json): (r: Result<string>)
    ensures r.Ok? <==> j.JString?
    ensures r.Ok? ==> r.value == j.s
    ensures r.Err? ==> r.error == InvalidType
  {
    if j.JString? then Ok(j.s) else Err(InvalidType)
  }

  /** `u64` from JSON. serde_json reads a non-negative integer below 2^64 as `u64`, a negative one
      down to -2^63 as `i64` (out of range for `u64`), and every other number as `f64`, which `u64`
      refuses by type. */
  function DeserializeU64(j: Json): (r: Result<U64>)
    ensures r.Ok? <==> j.JInt? && 0 <= j.i < U64_LIMIT
    ensures r.Ok? ==> r.value == j.i
    ensures j.JInt? && I64_MIN <= j.i < 0 ==> r == Err(InvalidValue)
    ensures j.JFloat? ==> r == Err(InvalidType)
  {
    match j
    case JInt(i) =>
      if 0 <= i < U64_LIMIT then Ok(i)
      else if I64_MIN <= i < 0 then Err(InvalidValue)
      else Err(InvalidType)
    case _ => Err(InvalidType)
  }

  /** `Url` from JSON: a JSON string, taken as already-valid URL text. */
  function DeserializeUrl(j: Json): (r: Result<Url>)
    ensures r.Ok? <==> j.JString?
    ensures r.Ok? ==> r.value.href == j.s
  {
    if j.JString? then Ok(Url(j.s)) else Err(InvalidType)
  }

  /** A URL is written as the JSON string of its serialization. */
  function SerializeUrl(u: Url): (j: Json)
    ensures j.JString? && j.s == u.href
    ensures DeserializeUrl(j) == Ok(u)
  {
    JString(u.href)
  }

  /** How many entries of an object carry `key`. */
  function Count(entries: seq<(string, Json)>, key: string): nat
  {
    if entries == [] then 0
    else (if entries[0].0 == key then 1 else 0) + Count(entries[1..], key)
  }

  /** The value of the first entry that carries `key`. */
  function Find(entries: seq<(string, Json)>, key: string): Json
    requires Count(entries, key) > 0
  {
    if entries[0].0 == key then entries[0].1 else Find(entries[1..], key)
  }

  /** `key` is read at most once in all, counting a read before `entries`, and its value, if read
      here, is accepted by `decode`. */
  predicate ReadsOnce<T>(entries: seq<(string, Json)>, key: string, readBefore: bool, decode: Json -> Result<T>)
  {
    && Count(entries, key) + (if readBefore then 1 else 0) <= 1
    && (Count(entries, key) == 1 ==> decode(Find(entries, key)).Ok?)
  }

  /** `key` occurs exactly once and `decode` accepts its value. */
  predicate ReadsExactlyOnce<T>(entries: seq<(string, Json)>, key: string, decode: Json -> Result<T>)
  {
    Count(entries, key) == 1 && decode(Find(entries, key)).Ok?
  }

  /** A visitor's slot for `key` after `entries`: the decoded value when the key occurs once and
      decodes, and otherwise what it held before. */
  function Read<T>(entries: seq<(string, Json)>, key: string, slot: Option<T>, decode: Json -> Result<T>): Option<T>
  {
    if ReadsExactlyOnce(entries, key, decode) then Some(decode(Find(entries, key)).value) else slot
  }

  /** How reading the first entry of `entries` bears on the key `key`: another key leaves it as it was,
      the key itself must not have been read before and its value must decode. */
  lemma ReadStep<T>(entries: seq<(string, Json)>, key: string, readBefore: bool, slot: Option<T>, decode: Json -> Result<T>)
    requires entries != []
    ensures entries[0].0 != key ==>
              && ReadsOnce(entries, key, readBefore, decode) == ReadsOnce(entries[1..], key, readBefore, decode)
              && Read(entries, key, slot, decode) == Read(entries[1..], key, slot, decode)
    ensures entries[0].0 == key ==>
              && (ReadsOnce(entries, key, readBefore, decode) <==>
                    !readBefore && decode(entries[0].1).Ok? && ReadsOnce(entries[1..], key, true, decode))
              && (ReadsOnce(entries, key, readBefore, decode) ==>
                    Read(entries, key, slot, decode) == Read(entries[1..], key, Some(decode(entries[0].1).value), decode))
  {
  }

  lemma {:induction false} CountZero(entries: seq<(string, Json)>, key: string)
    ensures Count(entries, key) == 0 <==> forall i | 0 <= i < |entries| :: entries[i].0 != key
  {
    if entries != [] {
      CountZero(entries[1..], key);
      if Count(entries, key) == 0 {
        forall i | 0 <= i < |entries| ensures entries[i].0 != key {
          if i > 0 { assert entries[i] == entries[1..][i - 1]; }
        }
      } else if entries[0].0 != key {
        var k :| 0 <= k < |entries[1..]| && entries[1..][k].0 == key;
        assert entries[k + 1].0 == key;
      }
    }
  }

  /** Two entries under `key` at distinct positions make its count at least two. */
  lemma {:induction false} CountAtLeastTwo(entries: seq<(string, Json)>, key: string, i: nat, j: nat)
    requires i < j < |entries| && entries[i].0 == key && entries[j].0 == key
    ensures Count(entries, key) >= 2
  {
    CountZero(entries, key);
    if i == 0 {
      CountZero(entries[1..], key);
      assert entries[1..][j - 1] == entries[j];
    } else {
      assert entries[1..][i - 1] == entries[i] && entries[1..][j - 1] == entries[j];
      CountAtLeastTwo(entries[1..], key, i - 1, j - 1);
    }
  }

  /** The loop of serde's derived `visit_map`: entries are handed to `step` in document order, and the
      first error stops the visit. `step` decides what a key means for the struct being decoded. */
  function VisitMap<S>(entries: seq<(string, Json)>, fields: S, step: (S, string, Json) -> Result<S>): Result<S>
    decreases |entries|
  {
    if entries == [] then Ok(fields)
    else
      var next :- step(fields, entries[0].0, entries[0].1);
      VisitMap(entries[1..], next, step)
  }

  /** An entry whose key `step` ignores can be inserted anywhere without changing the visit. */
  lemma {:induction false} VisitMapSkipsIgnoredKey<S>(before: seq<(string, Json)>, key: string, v: Json,
                                                      after: seq<(string, Json)>, fields: S,
                                                      step: (S, string, Json) -> Result<S>)
    requires forall f: S :: step(f, key, v) == Ok(f)
    ensures VisitMap(before + [(key, v)] + after, fields, step) == VisitMap(before + after, fields, step)
  {
    var e := before + [(key, v)] + after;
    if before == [] {
      assert e[0] == (key, v) && e[1..] == after;
      assert before + after == after;
    } else {
      assert e[0] == before[0];
      assert e[1..] == before[1..] + [(key, v)] + after;
      assert (before + after)[0] == before[0];
      assert (before + after)[1..] == before[1..] + after;
      match step(fields, before[0].0, before[0].1)
      case Err(_) =>
      case Ok(next) =>
        VisitMapSkipsIgnoredKey(before[1..], key, v, after, next, step);
    }
  }

  /** The visit from entry `k` on: when `step` accepts entry `k`, the visit carries on from `k + 1`. */
  lemma VisitMapAt<S>(entries: seq<(string, Json)>, k: nat, fields: S, step: (S, string, Json) -> Result<S>)
    requires k < |entries| && step(fields, entries[k].0, entries[k].1).Ok?
    ensures VisitMap(entries[k..], fields, step) ==
            VisitMap(entries[k + 1..], step(fields, entries[k].0, entries[k].1).value, step)
  {
    assert entries[k..][0] == entries[k];
    assert entries[k..][1..] == entries[k + 1..];
  }

  /** Visiting two runs of entries one after the other is visiting the first run and, if that goes
      through, the second from where the first left off. */
  lemma {:induction false} VisitMapAppend<S>(a: seq<(string, Json)>, b: seq<(string, Json)>, fields: S,
                                             step: (S, string, Json) -> Result<S>)
    ensures VisitMap(a + b, fields, step) ==
            (if VisitMap(a, fields, step).Err? then VisitMap(a, fields, step)
             else VisitMap(b, VisitMap(a, fields, step).value, step))
  {
    if a == [] {
      assert a + b == b;
    } else {
      assert (a + b)[0] == a[0] && (a + b)[1..] == a[1..] + b;
      match step(fields, a[0].0, a[0].1)
      case Err(_) =>
      case Ok(next) =>
        VisitMapAppend(a[1..], b, next, step);
    }
  }
}
