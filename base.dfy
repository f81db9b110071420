/** Types shared by the traverser, the rank algorithm and the request layer. */
module Base {

  /** Vertex ids are opaque, comparable identifiers owned by the storage layer. */
  type VertexId = int

  /** Schema ids of vertex labels and edge labels. */
  type LabelId = int

  /** HugeTraverser.NO_LIMIT: the value that switches a degree, capacity or limit off. */
  const NO_LIMIT: int := -1

  datatype Direction = OUT | IN | BOTH {
    /** Directions.opposite(): OUT and IN swap, BOTH stays BOTH. */
    function Opposite(): (d: Direction)
      ensures this != BOTH ==> d != BOTH && d != this
      ensures this == BOTH ==> d == BOTH
    {
      match this
      case OUT => IN
      case IN => OUT
      case BOTH => BOTH
    }
  }

  /** The exceptions the modelled code raises. */
  datatype Error =
    | IllegalArgument(message: string)  // E.checkArgument / E.checkArgumentNotNull
    | NullPointer                      // a dereference of a null reference
    | IndexOutOfBounds                 // List.subList with an end past the list

  datatype Result<+T> = Ok(value: T) | Err(error: Error)

  datatype Option<+T> = None | Some(value: T)

  /** Java's (int) cast of a long: its low 32 bits read as a two's-complement int. */
  function IntCast(x: int): (r: int)
    ensures -0x8000_0000 <= r < 0x8000_0000
    ensures (x - r) % 0x1_0000_0000 == 0
    ensures -0x8000_0000 <= x < 0x8000_0000 ==> r == x
  {
    (x + 0x8000_0000) % 0x1_0000_0000 - 0x8000_0000
  }

  function Max(a: int, b: int): int
  {
    if a < b then b else a
  }

  /** A non-empty set has an element to pick. */
  lemma PickFrom(s: set<int>)
    requires s != {}
    ensures exists x :: x in s
  {
    if forall x :: x !in s {
      assert false;
    }
  }

  /** No element occurs twice. */
  ghost predicate NoRepeat<T>(s: seq<T>)
  {
    forall i, j :: 0 <= i < j < |s| ==> s[i] != s[j]
  }
}
