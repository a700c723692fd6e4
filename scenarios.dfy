/** The scenarios of the library's test suite, restated as facts about the
    model: two identifier classes registered with their nodes, and the two
    UUID strings the tests use, both ending in the first class's node. The
    tests never call the column types; `ColumnScenario` is an example of them
    built on the tests' registry and strings. */
module Scenarios {
  import opened Wrappers
  import opened Uuid
  import opened Identifiers
  import opened KindRegistry
  import DoctrineIdentifierType
  import DoctrineIdentifierArrayType

  const TestId: Kind := Kind("TestId")
  const Test2Id: Kind := Kind("Test2Id")
  const Uuid1: string := "1eb65a11-b71f-67f0-baa3-2a3feb9bc3bc"
  const Uuid2: string := "1eb7a9e2-7af4-6dd0-8451-2a3feb9bc3bc"
  const TestRegistry: Registry := [(TestId, "2a3feb9bc3bc"), (Test2Id, "1ad5d00b1e11")]

  lemma TestUuidsValid()
    ensures IsValid(Uuid1) && IsValid(Uuid2)
  {
  }

  /** `from('bla')` throws `"bla" is not valid uuid.` */
  lemma FromRejectsBla()
    ensures From(TestId, [Str("bla")]) == Err(InvalidArgument("\"bla\" is not valid uuid."))
  {
    assert [Str("bla")][0] == Str("bla");
    assert !IsValid("bla");
    assert NotValidUuidMessage("bla") == "\"bla\" is not valid uuid.";
  }

  /** The first non-null candidate wins; the later ones are ignored. */
  lemma FromFirstPresentWins()
    ensures From(TestId, [Null, Null, Str(Uuid2), Str(Uuid1)]) == Ok(Identifier(TestId, Uuid2))
    ensures Try(TestId, [Null, Str(Uuid1)]) == Ok(Some(Identifier(TestId, Uuid1)))
  {
    TestUuidsValid();
    var c := [Null, Null, Str(Uuid2), Str(Uuid1)];
    assert c[2] == Str(Uuid2) && c[0].Null? && c[1].Null?;
    var d := [Null, Str(Uuid1)];
    assert d[1] == Str(Uuid1) && d[0].Null?;
  }

  /** `from(null)` throws; `try(null)` is null. */
  lemma OnlyNulls()
    ensures From(TestId, [Null]) == Err(InvalidArgument("Expect at least one non nullable value"))
    ensures Try(TestId, [Null]) == Ok(None)
  {
  }

  /** An identifier equals its own string but not a same-string identifier of
      another class. */
  lemma EqualsScenario()
    ensures Equals(Identifier(TestId, Uuid1), Str(Uuid1))
    ensures !Equals(Identifier(TestId, Uuid1), Id(Identifier(Test2Id, Uuid1)))
  {
  }

  /** Both test UUIDs end in TestId's node, so the column types read them back
      as TestId; a node nobody registered is a conversion error. */
  lemma ColumnScenario()
    ensures DoctrineIdentifierType.ConvertToPHPValue(TestRegistry, Some(Uuid1))
            == Ok(Some(Identifier(TestId, Uuid1)))
    ensures DoctrineIdentifierType.ConvertToPHPValue(TestRegistry, Some(Uuid2))
            == Ok(Some(Identifier(TestId, Uuid2)))
    ensures DoctrineIdentifierArrayType.ConvertToPHPValue(
              TestRegistry, Some(DoctrineIdentifierArrayType.StringList([Uuid2, Uuid1])))
            == Ok([Identifier(TestId, Uuid2), Identifier(TestId, Uuid1)])
    ensures DoctrineIdentifierType.ConvertToPHPValue(TestRegistry, Some(NilUuid))
            == Err(ConversionFailed(Str(NilUuid), "identifier"))
  {
    TestUuidsValid();
    assert NodeOf(Uuid1) == "2a3feb9bc3bc" && NodeOf(Uuid2) == "2a3feb9bc3bc";
    assert NodeOf(NilUuid) == "000000000000";
    assert Nodes(TestRegistry) == {"2a3feb9bc3bc", "1ad5d00b1e11"} by {
      assert TestRegistry[0].1 == "2a3feb9bc3bc" && TestRegistry[1].1 == "1ad5d00b1e11";
    }
    assert NodesDistinct(TestRegistry);
    ResolveRegistered(TestRegistry, TestId, Uuid1);
    ResolveRegistered(TestRegistry, TestId, Uuid2);
    var stored := [Uuid2, Uuid1];
    var r := DoctrineIdentifierArrayType.ConvertToPHPValue(
               TestRegistry, Some(DoctrineIdentifierArrayType.StringList(stored)));
    assert stored[0] == Uuid2 && stored[1] == Uuid1;
    assert r.Ok?;
    assert r.value == [Identifier(TestId, Uuid2), Identifier(TestId, Uuid1)];
  }
}
