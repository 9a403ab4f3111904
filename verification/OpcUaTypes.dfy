/** Values shared by the client-side protocol engines. */
module OpcUaTypes {

  datatype Option<+T> = None | Some(value: T)

  /** The status codes the engines branch on; every other code is `BadOther`. */
  datatype StatusCode =
    | Success
    | BadCommunicationError
    | BadInvalidArgument
    | BadInvalidState
    | BadNodeIdExists
    | BadSecureChannelClosed
    | BadSessionClosed
    | BadTimeout
    | BadViewParameterMismatch
    | BadOther(code: nat)

  datatype Identifier = Numeric(number: nat) | Text(text: string)

  datatype NodeId = NodeId(namespaceIndex: nat, identifier: Identifier)

  datatype NodeClass =
    | ObjectClass | VariableClass | MethodClass | ObjectTypeClass
    | VariableTypeClass | ReferenceTypeClass | DataTypeClass | ViewClass
    | UnspecifiedClass

  /** A reference description as a Browse result carries it. */
  datatype Reference = Reference(typeId: NodeId, target: NodeId, isForward: bool, nodeClass: NodeClass)

  /** A continuation point in the hexadecimal form the client stores. */
  type ContinuationPoint = string

  ghost predicate Distinct<T>(s: seq<T>) {
    forall i, j :: 0 <= i < j < |s| ==> s[i] != s[j]
  }

  function Elements<T>(s: seq<T>): set<T> {
    set x | x in s
  }

  function Flatten<T>(pages: seq<seq<T>>): seq<T> {
    if pages == [] then [] else pages[0] + Flatten(pages[1..])
  }

  lemma {:induction false} FlattenSplit<T>(pages: seq<seq<T>>, k: nat)
    requires k <= |pages|
    ensures Flatten(pages) == Flatten(pages[..k]) + Flatten(pages[k..])
  {
    if k == 0 {
      assert pages[0..] == pages;
    } else {
      assert pages[..k][1..] == pages[1..][..k - 1];
      assert pages[k..] == pages[1..][k - 1..];
      FlattenSplit(pages[1..], k - 1);
    }
  }

  lemma FlattenSnoc<T>(pages: seq<seq<T>>, page: seq<T>)
    ensures Flatten(pages + [page]) == Flatten(pages) + page
  {
    FlattenSplit(pages + [page], |pages|);
    assert (pages + [page])[|pages|..] == [page];
    assert Flatten([page]) == page + Flatten([]);
  }
}
