/** `DisplayType`: how a numerical attribute is displayed. A closed enumeration whose wire form is a
    snake_case token. It is only ever decoded inside the untagged `AttributeEntry`, where serde first
    buffers the value and then reads an enum from that buffer: a bare token string, or an object
    with the token as its single key and `null` (the unit) as its value. */
module DisplayTypes {
  import opened Serde

  datatype DisplayType = Number | BoostPercentage | BoostNumber | Date

  /** The snake_case token of each variant. */
  function Token(d: DisplayType): (t: string)
    ensures |t| > 0 && forall i | 0 <= i < |t| :: 'a' <= t[i] <= 'z' || t[i] == '_'
  {
    match d
    case Number => "number"
    case BoostPercentage => "boost_percentage"
    case BoostNumber => "boost_number"
    case Date => "date"
  }

  /** The variant a token names; any other text is an unknown variant. */
  function FromToken(t: string): (r: Result<DisplayType>)
    ensures r.Ok? ==> Token(r.value) == t
    ensures r.Err? ==> r == Err(UnknownVariant(t)) && forall d :: Token(d) != t
  {
    if t == "number" then Ok(Number)
    else if t == "boost_percentage" then Ok(BoostPercentage)
    else if t == "boost_number" then Ok(BoostNumber)
    else if t == "date" then Ok(Date)
    else Err(UnknownVariant(t))
  }

  /** Tokens and variants are in one-to-one correspondence. */
  lemma TokenBijection(t: string, d: DisplayType)
    ensures FromToken(t) == Ok(d) <==> Token(d) == t
  {
    match d
    case Number =>
    case BoostPercentage =>
    case BoostNumber =>
    case Date =>
  }

  /** Reading a `DisplayType` from a buffered value: a token string, or a single-entry object
      `{token: null}`. The token is checked before the entry's value. */
  function Deserialize(j: Json): (r: Result<DisplayType>)
    ensures r.Ok? <==>
              || (j.JString? && FromToken(j.s).Ok?)
              || (j.JObject? && |j.entries| == 1 && FromToken(j.entries[0].0).Ok? && j.entries[0].1 == JNull)
    ensures r.Ok? && j.JString? ==> Token(r.value) == j.s
    ensures r.Ok? && j.JObject? ==> Token(r.value) == j.entries[0].0
  {
    match j
    case JString(t) => FromToken(t)
    case JObject(entries) =>
      if |entries| != 1 then Err(InvalidValue)
      else
        var d :- FromToken(entries[0].0);
        if entries[0].1 == JNull then Ok(d) else Err(InvalidType)
    case _ => Err(InvalidType)
  }

  /** A unit variant is written as its token. */
  function Serialize(d: DisplayType): (j: Json)
    ensures j == JString(Token(d))
    ensures Deserialize(j) == Ok(d)
  {
    TokenBijection(Token(d), d);
    JString(Token(d))
  }

  /** `Option<DisplayType>` from a buffered value: `null` is `None`, anything else must be a
      `DisplayType`. */
  function DeserializeOption(j: Json): (r: Result<Option<DisplayType>>)
    ensures j == JNull ==> r == Ok(None)
    ensures j != JNull ==> (r.Ok? <==> Deserialize(j).Ok?)
    ensures j != JNull && r.Ok? ==> r.value == Some(Deserialize(j).value)
  {
    if j == JNull then Ok(None)
    else
      var d :- Deserialize(j);
      Ok(Some(d))
  }

  /** `None` is written as `null`, `Some(d)` as the token of `d`. */
  function SerializeOption(o: Option<DisplayType>): (j: Json)
    ensures DeserializeOption(j) == Ok(o)
  {
    match o
    case None => JNull
    case Some(d) => Serialize(d)
  }

  /** A string that is none of the four tokens is refused, bare or as an object key. */
  lemma UnknownTokenRejected(t: string, v: Json)
    requires forall d :: Token(d) != t
    ensures DeserializeOption(JString(t)) == Err(UnknownVariant(t))
    ensures DeserializeOption(JObject([(t, v)])) == Err(UnknownVariant(t))
  {
  }
}
