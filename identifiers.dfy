/** The `Identifier` value type: an immutable UUID string tagged with the
    concrete identifier class (its kind), together with its factories,
    string forms and comparisons. */
module Identifiers {
  import opened Wrappers
  import opened Uuid

  /** A concrete final subclass of `Identifier`, named by its class name
      (`TestId`, `Test2Id`, ...). `instanceof static` on final classes is
      equality of kinds. */
  datatype Kind = Kind(name: string)

  /** An identifier object: its class and its single `$uuid` field. */
  datatype Identifier = Identifier(kind: Kind, uuid: string)

  /** What every factory guarantees of the stored string. */
  predicate Valid(id: Identifier) {
    IsValid(id.uuid)
  }

  /** The constructor's argument type, `string | UuidInterface`. */
  datatype UuidArg = Text(s: string) | Raw(u: RawUuid)

  /** The PHP values (`mixed`) the core and its adapters inspect. */
  datatype Value =
    | Null
    | Str(s: string)
    | UuidObj(u: RawUuid)
    | Id(id: Identifier)
    | Arr(items: seq<Value>)
    | Other(debugType: string)   // int, float, bool and unrelated objects

  /** The exceptions that can escape the core and its adapters. */
  datatype Error =
    | InvalidArgument(message: string)             // InvalidArgumentException
    | TypeError(argument: Value)                    // a typed closure parameter refused its argument
    | ConversionFailed(value: Value, toType: string) // Doctrine's ConversionException::conversionFailed

  function NotValidUuidMessage(s: string): string {
    "\"" + s + "\" is not valid uuid."
  }

  const MissingValueMessage: string := "Expect at least one non nullable value"

  /** `get_debug_type` for the values `fromAny` refuses. */
  function DebugType(v: Value): string
    requires !v.UuidObj?
  {
    match v
    case Null => "null"
    case Str(_) => "string"
    case Id(id) => id.kind.name
    case Arr(_) => "array"
    case Other(t) => t
  }

  // ----- construction -------------------------------------------------------

  /** The private constructor: a valid string is stored as given, a UUID
      object is stored as its `toString()`, anything else throws. */
  function New(k: Kind, arg: UuidArg): (r: Result<Identifier, Error>)
    ensures r.Ok? ==> r.value.kind == k && Valid(r.value)
    ensures arg.Text? ==> (r.Ok? <==> IsValid(arg.s))
    ensures arg.Text? && r.Ok? ==> r.value.uuid == arg.s
    ensures arg.Text? && r.Err? ==> r.error == InvalidArgument(NotValidUuidMessage(arg.s))
    ensures arg.Raw? ==> r == Ok(Identifier(k, arg.u.text))
  {
    match arg
    case Text(s) =>
      if IsValid(s) then Ok(Identifier(k, s)) else Err(InvalidArgument(NotValidUuidMessage(s)))
    case Raw(u) => Ok(Identifier(k, u.text))
  }

  /** `K::fromString($s)`: succeeds exactly on valid strings, keeps the string
      as given (no case normalisation), and otherwise quotes it in the error. */
  function FromString(k: Kind, s: string): (r: Result<Identifier, Error>)
    ensures r.Ok? <==> IsValid(s)
    ensures r.Ok? ==> r.value.kind == k && ToString(r.value) == s
    ensures r.Err? ==> r.error == InvalidArgument(NotValidUuidMessage(s))
  {
    New(k, Text(s))
  }

  /** `K::fromUuid($u)`: always succeeds and stores the object's string form. */
  function FromUuid(k: Kind, u: RawUuid): (r: Result<Identifier, Error>)
    ensures r.Ok? && r.value.kind == k && ToString(r.value) == u.text
    ensures Valid(r.value)
  {
    New(k, Raw(u))
  }

  /** `Identifier::fromClass($class, $uuid)`, with the callable built from the
      class name replaced by the kind tag: a string goes through `fromString`,
      a UUID object through `fromUuid`, and the result is of the requested kind. */
  function FromClass(k: Kind, arg: UuidArg): (r: Result<Identifier, Error>)
    ensures r.Ok? ==> r.value.kind == k && Valid(r.value)
    ensures arg.Text? ==> r == FromString(k, arg.s)
    ensures arg.Raw? ==> r == FromUuid(k, arg.u)
  {
    match arg
    case Text(s) => FromString(k, s)
    case Raw(u) => FromUuid(k, u)
  }

  /** `K::fromAny($any)`: an identifier of kind K is returned as it is, a UUID
      object or a string is converted, everything else (including an
      identifier of another kind) is refused. */
  function FromAny(k: Kind, any: Value): (r: Result<Identifier, Error>)
    ensures any.Id? && any.id.kind == k ==> r == Ok(any.id)
    ensures any.UuidObj? ==> r == FromUuid(k, any.u)
    ensures any.Str? ==> r == FromString(k, any.s)
    ensures r.Ok? ==> r.value.kind == k
    ensures !any.Str? && !any.UuidObj? && !(any.Id? && any.id.kind == k) ==>
              r == Err(InvalidArgument("Unexpected any: " + DebugType(any)))
  {
    if any.Id? && any.id.kind == k then Ok(any.id)
    else if any.UuidObj? then FromUuid(k, any.u)
    else if any.Str? then FromString(k, any.s)
    else Err(InvalidArgument("Unexpected any: " + DebugType(any)))
  }

  // ----- string forms -------------------------------------------------------

  /** `toString()`: the stored string, which together with the kind is the
      whole identifier, and a valid UUID for any identifier a factory made. */
  function ToString(id: Identifier): (s: string)
    ensures Identifier(id.kind, s) == id
    ensures Valid(id) ==> IsValid(s)
  {
    id.uuid
  }

  /** `__toString()`: the same string as `toString()`. */
  function MagicToString(id: Identifier): (s: string)
    ensures s == ToString(id)
  {
    id.uuid
  }

  /** `jsonSerialize()`: the identifier serialises as the bare string of
      `toString()`. */
  function JsonSerialize(id: Identifier): (s: string)
    ensures s == ToString(id)
  {
    id.uuid
  }

  /** The string form determines the identifier within a kind: parsing it
      back as the same kind gives the same identifier. */
  lemma FromStringOfToString(id: Identifier)
    requires Valid(id)
    ensures FromString(id.kind, ToString(id)) == Ok(id)
  {
  }

  // ----- comparisons --------------------------------------------------------

  /** `$self->equals($other)`: a string or UUID object compares by string
      alone; an identifier must also be of the same kind; anything else is
      never equal. */
  function Equals(self: Identifier, other: Value): (r: bool)
    ensures other.Id? ==> (r <==> self == other.id)
    ensures other.Str? ==> (r <==> ToString(self) == other.s)
    ensures other.UuidObj? ==> (r <==> ToString(self) == other.u.text)
    ensures other.Null? || other.Arr? || other.Other? ==> !r
  {
    if (other.Id? && other.id.kind == self.kind) || other.UuidObj? then
      self.uuid == (if other.Id? then other.id.uuid else other.u.text)
    else if other.Str? then self.uuid == other.s
    else false
  }

  /** `Identifier::same($left, $right)`: false when either side is null or the
      classes differ, otherwise `equals`; so it holds exactly for two present,
      identical identifiers. */
  function Same(left: Option<Identifier>, right: Option<Identifier>): (r: bool)
    ensures r <==> left.Some? && right.Some? && left.value == right.value
  {
    if left.None? || right.None? then false
    else if left.value.kind != right.value.kind then false
    else Equals(left.value, Id(right.value))
  }

  lemma SameSymmetric(a: Option<Identifier>, b: Option<Identifier>)
    ensures Same(a, b) == Same(b, a)
  {
  }

  lemma SameReflexive(x: Identifier)
    ensures Same(Some(x), Some(x))
    ensures !Same(None, None)
  {
  }

  /** Two identifiers with the same string but different kinds: `equals`
      refuses them, while comparing with the bare string accepts. */
  lemma EqualsAcrossKinds(a: Identifier, b: Identifier)
    requires a.kind != b.kind && a.uuid == b.uuid
    ensures !Equals(a, Id(b)) && !Same(Some(a), Some(b))
    ensures Equals(a, Str(ToString(b)))
  {
  }

  // ----- first present candidate (test-specified `from` / `try`) ------------

  /** The index of the first non-null candidate, if there is one. */
  function FirstPresent(candidates: seq<Value>): (r: Option<nat>)
    ensures r.None? <==> forall i | 0 <= i < |candidates| :: candidates[i].Null?
    ensures r.Some? ==> r.value < |candidates| && !candidates[r.value].Null? &&
                        forall j | 0 <= j < r.value :: candidates[j].Null?
  {
    if candidates == [] then None
    else if !candidates[0].Null? then Some(0)
    else
      match FirstPresent(candidates[1..])
      case None => None
      case Some(i) => Some(i + 1)
  }

  /** `K::from(...$values)`: the identifier built by `fromAny` from the first
      non-null candidate; fails when every candidate is null. */
  function From(k: Kind, candidates: seq<Value>): (r: Result<Identifier, Error>)
    ensures (forall i | 0 <= i < |candidates| :: candidates[i].Null?) ==>
              r == Err(InvalidArgument(MissingValueMessage))
    ensures forall i | 0 <= i < |candidates| && !candidates[i].Null? ::
              (forall j | 0 <= j < i :: candidates[j].Null?) ==> r == FromAny(k, candidates[i])
  {
    match FirstPresent(candidates)
    case None => Err(InvalidArgument(MissingValueMessage))
    case Some(i) => FromAny(k, candidates[i])
  }

  /** `K::try(...$values)`: like `from`, but null when every candidate is null. */
  function Try(k: Kind, candidates: seq<Value>): (r: Result<Option<Identifier>, Error>)
    ensures (forall i | 0 <= i < |candidates| :: candidates[i].Null?) ==> r == Ok(None)
    ensures (exists i | 0 <= i < |candidates| :: !candidates[i].Null?) ==>
              r == match From(k, candidates) case Ok(id) => Ok(Some(id)) case Err(e) => Err(e)
  {
    match FirstPresent(candidates)
    case None => Ok(None)
    case Some(i) =>
      match FromAny(k, candidates[i])
      case Ok(id) => Ok(Some(id))
      case Err(e) => Err(e)
  }

  /** Once a candidate is present, whatever follows it is never inspected. */
  lemma FromIgnoresLater(k: Kind, candidates: seq<Value>, rest: seq<Value>)
    requires exists i | 0 <= i < |candidates| :: !candidates[i].Null?
    ensures From(k, candidates + rest) == From(k, candidates)
  {
    var i := FirstPresent(candidates).value;
    assert forall j | 0 <= j <= i :: (candidates + rest)[j] == candidates[j];
  }
}
