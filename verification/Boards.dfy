/** The curated NVIDIA board table (internal/index/nvidia.go). */
module Boards {
  import opened Prelude
  import Text
  import Sorting

  datatype NvidiaBoard = NvidiaBoard(
    productName: string,
    memoryMiB: nat,
    memoryBandwidthGBs: nat,
    computeTFLOPS: nat,
    smCount: nat,
    memorySlices: nat)

  datatype NvidiaBoards = NvidiaBoards(boards: map<string, NvidiaBoard>, version: string) {
    /** Every entry carries its own key as product name. */
    predicate Valid() {
      forall name :: name in boards ==> boards[name].productName == name
    }

    function ByProductName(name: string): Option<NvidiaBoard> {
      if name in boards then Some(boards[name]) else None
    }
  }

  type BoardTable = t: NvidiaBoards | t.Valid() witness NvidiaBoards(map[], "")

  /** Builds the table from the decoded document, whose entries carry no product
      name yet: each one is stamped with its key, in whatever order the map is
      walked, and nothing else about it changes. */
  method Load(decoded: map<string, NvidiaBoard>, version: string) returns (t: BoardTable)
    ensures t.version == version
    ensures t.boards.Keys == decoded.Keys
    ensures forall name :: name in decoded ==> t.boards[name] == decoded[name].(productName := name)
  {
    var boards := decoded;
    var todo := decoded.Keys;
    while todo != {}
      invariant todo <= decoded.Keys == boards.Keys
      invariant forall name :: name in todo ==> boards[name] == decoded[name]
      invariant forall name :: name in decoded && name !in todo ==> boards[name] == decoded[name].(productName := name)
      decreases todo
    {
      var name :| name in todo;
      boards := boards[name := boards[name].(productName := name)];
      todo := todo - {name};
    }
    t := NvidiaBoards(boards, version);
  }

  predicate BoardLess(a: NvidiaBoard, b: NvidiaBoard) {
    Text.Less(a.productName, b.productName)
  }

  /** `all` lists exactly the boards of `t`, each once, by ascending product name. */
  ghost predicate IsAll(t: BoardTable, all: seq<NvidiaBoard>) {
    && Sorting.StrictlySorted(all, BoardLess)
    && forall board :: board in all <==> (board.productName in t.boards && t.boards[board.productName] == board)
  }

  lemma BoardLessIsOrdering()
    ensures Sorting.Ordering(BoardLess)
  {
    Text.LessIsOrdering();
    assert Sorting.Ordering(Text.Less);
  }

  /** The listing is a function of the table's contents alone. */
  lemma AllIsUnique(t: BoardTable, a: seq<NvidiaBoard>, b: seq<NvidiaBoard>)
    requires IsAll(t, a) && IsAll(t, b)
    ensures a == b
  {
    BoardLessIsOrdering();
    Sorting.StrictlySortedUnique(a, b, BoardLess);
  }

  /** Walks the map in an arbitrary order, then sorts. */
  method All(t: BoardTable) returns (out: seq<NvidiaBoard>)
    ensures IsAll(t, out)
  {
    out := [];
    var todo := t.boards.Keys;
    while todo != {}
      invariant todo <= t.boards.Keys
      invariant forall board :: board in out <==>
        (board.productName in t.boards && board.productName !in todo && t.boards[board.productName] == board)
      invariant Sorting.Distinct(out)
      decreases todo
    {
      var name :| name in todo;
      out := out + [t.boards[name]];
      todo := todo - {name};
    }
    BoardLessIsOrdering();
    var unsorted := out;
    out := Sorting.Sort(unsorted, BoardLess);
    Sorting.SameElements(unsorted, out);
    forall i, j | 0 <= i < j < |out|
      ensures BoardLess(out[i], out[j])
    {
      assert out[i] in out && out[j] in out;
      Text.LessTotal(out[i].productName, out[j].productName);
    }
  }
}
