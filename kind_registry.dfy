/** The registry the Doctrine column types read as `Identifier::$map`: each
    identifier class paired with a reserved 12-digit node string, and the
    reverse lookup performed on it (`array_flip`, then an index by the UUID's
    node suffix). `Identifier` declares no such property, so the registry is
    passed to the conversions as a parameter. */
module KindRegistry {
  import opened Wrappers
  import opened Uuid
  import opened Identifiers

  /** A PHP array cannot hold the same key twice. */
  predicate KindsDistinct(entries: seq<(Kind, string)>) {
    forall i, j | 0 <= i < j < |entries| :: entries[i].0 != entries[j].0
  }

  /** The PHP array `[class => node, ...]` in insertion order. */
  type Registry = entries: seq<(Kind, string)> | KindsDistinct(entries) witness []

  /** No two kinds share a node: the condition under which the reverse lookup
      recovers every registered kind. */
  predicate NodesDistinct(reg: Registry) {
    forall i, j | 0 <= i < j < |reg| :: reg[i].1 != reg[j].1
  }

  function Nodes(reg: Registry): set<string> {
    set i | 0 <= i < |reg| :: reg[i].1
  }

  /** `array_flip($map)`: entries are written in order, so on a shared node
      the later class wins. Every key of the result is a registered node, and
      it maps to a class registered with that node. */
  function Flip(reg: Registry): (m: map<string, Kind>)
    ensures m.Keys == Nodes(reg)
    ensures forall node | node in m :: (m[node], node) in reg
  {
    if reg == [] then map[]
    else
      var init := reg[..|reg| - 1];
      var last := reg[|reg| - 1];
      assert Nodes(reg) == Nodes(init) + {last.1} by {
        assert forall i | 0 <= i < |init| :: init[i] == reg[i];
      }
      assert forall e | e in init :: e in reg;
      Flip(init)[last.1 := last.0]
  }

  /** The entry that `array_flip` keeps for a node is its last occurrence. */
  lemma {:induction false} FlipLastWins(reg: Registry, j: int)
    requires 0 <= j < |reg|
    requires forall k | j < k < |reg| :: reg[k].1 != reg[j].1
    ensures reg[j].1 in Flip(reg) && Flip(reg)[reg[j].1] == reg[j].0
  {
    if j < |reg| - 1 {
      var init := reg[..|reg| - 1];
      FlipLastWins(init, j);
    }
  }

  /** With distinct nodes, every registered kind is found again from its node. */
  lemma FlipRecoversKind(reg: Registry, k: Kind, node: string)
    requires NodesDistinct(reg)
    requires (k, node) in reg
    ensures node in Flip(reg) && Flip(reg)[node] == k
  {
    var j :| 0 <= j < |reg| && reg[j] == (k, node);
    FlipLastWins(reg, j);
  }

  /** The kind whose node equals the string's suffix from index 24, if any. */
  function ResolveKind(reg: Registry, s: string): (r: Option<Kind>)
    ensures r.Some? <==> NodeOf(s) in Nodes(reg)
    ensures r.Some? ==> (r.value, NodeOf(s)) in reg
  {
    var flipped := Flip(reg);
    var node := NodeOf(s);
    if node in flipped then Some(flipped[node]) else None
  }

  /** Under distinct nodes, a string whose suffix is a kind's node resolves to
      that kind. */
  lemma ResolveRegistered(reg: Registry, k: Kind, s: string)
    requires NodesDistinct(reg)
    requires (k, NodeOf(s)) in reg
    ensures ResolveKind(reg, s) == Some(k)
  {
    FlipRecoversKind(reg, k, NodeOf(s));
  }

  /** A valid identifier stamped with its own kind's node: the condition under
      which the column types give back its kind. */
  predicate Stamped(reg: Registry, id: Identifier) {
    Valid(id) && (id.kind, NodeOf(id.uuid)) in reg
  }
}
