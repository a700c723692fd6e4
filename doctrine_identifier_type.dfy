/** The Doctrine column type `identifier`: one identifier stored as its UUID
    string, its class recovered from the node suffix on the way back. */
module DoctrineIdentifierType {
  import opened Wrappers
  import opened Uuid
  import opened Identifiers
  import opened KindRegistry

  /** `getName()`, the type name Doctrine's conversion errors carry. */
  const Name: string := "identifier"

  /** `convertToDatabaseValue($value)`: null and the empty string store null,
      a valid UUID string is stored as given, an identifier or UUID object as
      its string form; anything else is a conversion error. */
  function ConvertToDatabaseValue(value: Value): (r: Result<Option<string>, Error>)
    ensures value.Null? || value == Str("") ==> r == Ok(None)
    ensures value.Str? && value.s != "" ==>
              r == if IsValid(value.s) then Ok(Some(value.s)) else Err(ConversionFailed(value, Name))
    ensures value.Id? ==> r == Ok(Some(ToString(value.id)))
    ensures value.UuidObj? ==> r == Ok(Some(value.u.text))
    ensures value.Arr? || value.Other? ==> r == Err(ConversionFailed(value, Name))
    ensures r.Ok? && r.value.Some? && !value.Id? ==> IsValid(r.value.value)
  {
    if value.Null? || value == Str("") then Ok(None)
    else if value.Str? && IsValid(value.s) then Ok(Some(value.s))
    else if value.Id? then Ok(Some(ToString(value.id)))
    else if value.UuidObj? then Ok(Some(value.u.text))
    else Err(ConversionFailed(value, Name))
  }

  /** `convertToPHPValue($value)`: null and the empty string give null;
      otherwise the class registered for the node suffix constructs the
      identifier from the unchanged string. An unknown node is a conversion
      error naming the value; a known node on an invalid string is the
      constructor's invalid-argument error. */
  function ConvertToPHPValue(reg: Registry, value: Option<string>): (r: Result<Option<Identifier>, Error>)
    ensures value.None? || value == Some("") ==> r == Ok(None)
    ensures value.Some? && value.value != "" && r.Ok? ==> r.value.Some?
    ensures value.Some? && value.value != "" && NodeOf(value.value) !in Nodes(reg) ==>
              r == Err(ConversionFailed(Str(value.value), Name))
    ensures value.Some? && value.value != "" && NodeOf(value.value) in Nodes(reg) ==>
              (r.Ok? <==> IsValid(value.value))
    ensures value.Some? && value.value != "" && NodeOf(value.value) in Nodes(reg) && r.Err? ==>
              r.error == InvalidArgument(NotValidUuidMessage(value.value))
    ensures r.Ok? && r.value.Some? ==>
              var id := r.value.value;
              Valid(id) && ToString(id) == value.value && ResolveKind(reg, value.value) == Some(id.kind)
  {
    if value.None? || value.value == "" then Ok(None)
    else
      match ResolveKind(reg, value.value)
      case None => Err(ConversionFailed(Str(value.value), Name))
      case Some(k) =>
        match FromString(k, value.value)
        case Ok(id) => Ok(Some(id))
        case Err(e) => Err(e)
  }

  /** Reading a valid string with a registered node and writing the result
      back stores the same string. */
  lemma ReadThenWrite(reg: Registry, s: string)
    requires IsValid(s) && NodeOf(s) in Nodes(reg)
    ensures ConvertToPHPValue(reg, Some(s)).Ok?
    ensures ConvertToDatabaseValue(Id(ConvertToPHPValue(reg, Some(s)).value.value)) == Ok(Some(s))
  {
  }

  /** Writing an identifier stamped with its kind's node and reading it back,
      with distinct nodes in the registry, gives the same identifier. */
  lemma WriteThenRead(reg: Registry, id: Identifier)
    requires NodesDistinct(reg) && Stamped(reg, id)
    ensures ConvertToDatabaseValue(Id(id)) == Ok(Some(ToString(id)))
    ensures ConvertToPHPValue(reg, Some(ToString(id))) == Ok(Some(id))
  {
    ResolveRegistered(reg, id.kind, id.uuid);
  }
}
