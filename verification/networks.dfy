/**
 The supported-network list and the `networks.find(n => n.id === id)` lookup
 that both the pools table and the navbar perform on it.
 */
module Networks {
  import opened Wrappers
  import ArrayFind

  datatype Network = Network(id: int, name: string)

  /** True iff `i` is the position of the first network whose id is `id`. */
  ghost predicate IsFirstWithId(networks: seq<Network>, id: int, i: int) {
    ArrayFind.IsFirst(networks, (n: Network) => n.id == id, i)
  }

  predicate HasId(networks: seq<Network>, id: int) {
    exists i :: 0 <= i < |networks| && networks[i].id == id
  }

  /** The first network whose id equals `id`, or None when no network has it. */
  function FindNetwork(networks: seq<Network>, id: int): (r: Option<Network>)
    ensures r.None? <==> !HasId(networks, id)
    ensures forall i :: IsFirstWithId(networks, id, i) ==> r == Some(networks[i])
  {
    match ArrayFind.FindIndex(networks, (n: Network) => n.id == id)
    case None => None
    case Some(i) => Some(networks[i])
  }
}
