/** The Doctrine column type `identifiers`: a list of identifiers of possibly
    different classes, stored as a JSON list of UUID strings; each element's
    class is recovered from its node suffix. */
module DoctrineIdentifierArrayType {
  import opened Wrappers
  import opened Uuid
  import opened Identifiers
  import opened KindRegistry

  /** `getName()`, the type name Doctrine's conversion errors carry. */
  const Name: string := "identifiers"

  /** The stored JSON text, seen through what `json_decode` makes of it: a list
      of strings, or text that does not decode. */
  datatype JsonText = StringList(items: seq<string>) | Malformed(raw: string)

  /** The PHP list of identifier objects. */
  function IdValues(ids: seq<Identifier>): (vs: seq<Value>)
    ensures |vs| == |ids| && forall i | 0 <= i < |ids| :: vs[i] == Id(ids[i])
  {
    seq(|ids|, i requires 0 <= i < |ids| => Id(ids[i]))
  }

  /** The PHP list of strings that `json_decode` produced. */
  function StrValues(items: seq<string>): (vs: seq<Value>)
    ensures |vs| == |items| && forall i | 0 <= i < |items| :: vs[i] == Str(items[i])
  {
    seq(|items|, i requires 0 <= i < |items| => Str(items[i]))
  }

  /** The mapping closure of `convertToDatabaseValue`, typed `Identifier`. */
  function EncodeElement(v: Value): (r: Result<string, Error>)
    ensures r.Ok? <==> v.Id?
    ensures r.Ok? ==> r.value == ToString(v.id)
    ensures r.Err? ==> r.error == TypeError(v)
  {
    if v.Id? then Ok(ToString(v.id)) else Err(TypeError(v))
  }

  /** `convertToDatabaseValue($value)`: null stores null, a non-array is a
      conversion error, and a list of identifiers is stored as the list of
      their string forms, in the same order; an element that is not an
      identifier is refused by the typed closure. */
  function ConvertToDatabaseValue(value: Value): (r: Result<Option<JsonText>, Error>)
    ensures value.Null? ==> r == Ok(None)
    ensures !value.Null? && !value.Arr? ==> r == Err(ConversionFailed(value, Name))
    ensures value.Arr? ==>
              (r.Ok? <==> forall i | 0 <= i < |value.items| :: value.items[i].Id?)
    ensures value.Arr? && r.Ok? ==>
              r.value.Some? && r.value.value.StringList? &&
              |r.value.value.items| == |value.items| &&
              forall i | 0 <= i < |value.items| :: r.value.value.items[i] == ToString(value.items[i].id)
    ensures value.Arr? && r.Err? ==>
              exists i | 0 <= i < |value.items| ::
                !value.items[i].Id? && r.error == TypeError(value.items[i]) &&
                forall j | 0 <= j < i :: value.items[j].Id?
  {
    if value.Null? then Ok(None)
    else if !value.Arr? then Err(ConversionFailed(value, Name))
    else
      match ArrayMap(EncodeElement, value.items)
      case Ok(strings) => Ok(Some(StringList(strings)))
      case Err(e) => Err(e)
  }

  /** The mapping closure of `convertToPHPValue`: the class registered for the
      element's node constructs the identifier from the unchanged string. An
      unknown node reports the whole decoded list. */
  function DecodeElement(reg: Registry, decoded: seq<string>, s: string): (r: Result<Identifier, Error>)
    ensures ResolveKind(reg, s).None? ==> r == Err(ConversionFailed(Arr(StrValues(decoded)), Name))
    ensures ResolveKind(reg, s).Some? ==> r == FromString(ResolveKind(reg, s).value, s)
  {
    match ResolveKind(reg, s)
    case None => Err(ConversionFailed(Arr(StrValues(decoded)), Name))
    case Some(k) => FromString(k, s)
  }

  /** `convertToPHPValue($value)`: null reads as the empty list (not null),
      undecodable text is a conversion error naming the text, and otherwise
      every string becomes an identifier of its registered class carrying that
      exact string, in the same order. One element that cannot be converted
      fails the whole list. */
  function ConvertToPHPValue(reg: Registry, value: Option<JsonText>): (r: Result<seq<Identifier>, Error>)
    ensures value.None? ==> r == Ok([])
    ensures value.Some? && value.value.Malformed? ==>
              r == Err(ConversionFailed(Str(value.value.raw), Name))
    ensures value.Some? && value.value.StringList? ==>
              var items := value.value.items;
              (r.Ok? <==> forall i | 0 <= i < |items| ::
                            NodeOf(items[i]) in Nodes(reg) && IsValid(items[i]))
    ensures value.Some? && value.value.StringList? && r.Ok? ==>
              var items := value.value.items;
              |r.value| == |items| &&
              forall i | 0 <= i < |items| ::
                Valid(r.value[i]) && ToString(r.value[i]) == items[i] &&
                ResolveKind(reg, items[i]) == Some(r.value[i].kind)
    ensures value.Some? && value.value.StringList? && r.Err? ==>
              var items := value.value.items;
              exists i | 0 <= i < |items| ::
                DecodeElement(reg, items, items[i]) == Err(r.error) &&
                forall j | 0 <= j < i :: NodeOf(items[j]) in Nodes(reg) && IsValid(items[j])
  {
    match value
    case None => Ok([])
    case Some(Malformed(raw)) => Err(ConversionFailed(Str(raw), Name))
    case Some(StringList(items)) => ArrayMap(s => DecodeElement(reg, items, s), items)
  }

  /** Reading a stored list and writing the result back stores the same list. */
  lemma ReadThenWrite(reg: Registry, items: seq<string>)
    requires ConvertToPHPValue(reg, Some(StringList(items))).Ok?
    ensures ConvertToDatabaseValue(Arr(IdValues(ConvertToPHPValue(reg, Some(StringList(items))).value)))
            == Ok(Some(StringList(items)))
  {
    var ids := ConvertToPHPValue(reg, Some(StringList(items))).value;
    var r := ConvertToDatabaseValue(Arr(IdValues(ids)));
    assert r.value.value.items == items;
  }

  /** Writing a list of identifiers, each stamped with its own kind's node,
      and reading it back, with distinct nodes in the registry, gives the same
      list. */
  lemma WriteThenRead(reg: Registry, ids: seq<Identifier>)
    requires NodesDistinct(reg)
    requires forall i | 0 <= i < |ids| :: Stamped(reg, ids[i])
    ensures ConvertToDatabaseValue(Arr(IdValues(ids))).Ok?
    ensures ConvertToPHPValue(reg, ConvertToDatabaseValue(Arr(IdValues(ids))).value) == Ok(ids)
  {
    var stored := ConvertToDatabaseValue(Arr(IdValues(ids))).value.value.items;
    forall i | 0 <= i < |ids|
      ensures DecodeElement(reg, stored, stored[i]) == Ok(ids[i])
    {
      ResolveRegistered(reg, ids[i].kind, ids[i].uuid);
    }
    var r := ConvertToPHPValue(reg, Some(StringList(stored)));
    assert r.Ok?;
    assert r.value == ids;
  }
}
