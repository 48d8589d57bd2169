/** The record kept for one node while it is being fetched, and the status bits it carries. */
module FetchTypes {
  import opened NodeIds

  /** `NodeFetchStatus`: three independent bits, joined with `Union` and compared with `Includes`. */
  datatype FetchStatus = FetchStatus(node: bool, children: bool, inverse: bool) {
    function Union(other: FetchStatus): FetchStatus {
      FetchStatus(node || other.node, children || other.children, inverse || other.inverse)
    }

    predicate Includes(want: FetchStatus) {
      (want.node ==> node) && (want.children ==> children) && (want.inverse ==> inverse)
    }

    predicate IsEmpty() {
      this == NOTHING
    }

    /** The flags as the enumeration has them. */
    function Bits(): bv8 {
      (if node then 1 else 0) | (if children then 2 else 0) | (if inverse then 4 else 0)
    }
  }

  /** On the flags, joining is the bitwise or, covering the bitwise and, and no two statuses look alike. */
  lemma StatusBits(have: FetchStatus, want: FetchStatus)
    ensures have.Union(want).Bits() == have.Bits() | want.Bits()
    ensures have.Includes(want) <==> have.Bits() & want.Bits() == want.Bits()
    ensures have.IsEmpty() <==> have.Bits() == 0
    ensures have.Bits() == want.Bits() <==> have == want
  {
  }

  const NOTHING := FetchStatus(false, false, false)
  const NODE_ONLY := FetchStatus(true, false, false)

  datatype ReferenceDescription = ReferenceDescription(referenceType: NodeId, forward: bool, node: NodeId)

  datatype NodeClass =
    | Unspecified | Object | Variable | Method
    | ObjectType | VariableType | ReferenceType | DataType | View

  predicate IsTypeDefinition(c: NodeClass) {
    c.ObjectType? || c.VariableType? || c.ReferenceType? || c.DataType?
  }

  /** The decoded value of an attribute, as far as the fetcher distinguishes them. */
  datatype Variant =
    | ClassValue(nodeClass: NodeClass)
    | NameValue(name: string)
    | TextValue(text: string)
    | IdValue(id: NodeId)
    | OtherValue(payload: int)

  datatype NodeState = NodeState(
    nodeClass: NodeClass,
    typeDefinition: NodeId,
    parent: NodeId,
    referenceType: NodeId,
    supertype: NodeId,
    browseName: string,
    displayName: string,
    dataType: NodeId,
    value: Option<Variant>,
    references: seq<ReferenceDescription>)

  /** A node state with its own id, as it is reported and materialised. */
  datatype NodeRecord = NodeRecord(id: NodeId, state: NodeState)

  datatype Status = Good | Bad | BadWrongTypeId | BadOther(code: nat)

  /** `FetchingNode`. The pointers in `dependsOf` and `dependentNodes` address elements of the
      graph's map, so the model names each by its key. */
  datatype FetchingNode = FetchingNode(
    state: NodeState,
    pending: bool,
    pendingStatus: FetchStatus,
    pendingSequence: nat,
    fetchStarted: FetchStatus,
    requestId: nat,
    dependsOf: seq<NodeId>,
    dependentNodes: seq<NodeId>,
    attributesFetched: bool,
    referencesFetched: bool,
    status: Status,
    force: bool,
    isProperty: bool,
    isDeclaration: bool,
    cacheIteration: nat,
    cacheState: bool)
  {
    predicate Fetched() {
      attributesFetched && referencesFetched
    }
  }

  const EMPTY_STATE := NodeState(Unspecified, Null, Null, Null, Null, "", "", Null, None, [])

  /** What `try_emplace` default-constructs. */
  const NEW_NODE := FetchingNode(EMPTY_STATE, false, NOTHING, 0, NOTHING, 0, [], [],
                                 false, false, Good, false, false, false, 0, false)

  type Nodes = map<NodeId, FetchingNode>
}
