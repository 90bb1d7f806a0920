/** The static work partition of the MPI training driver. The root rank
    builds, for every rank i from size-1 down to 0, the block of realization
    numbers num_total*i+1 .. num_total*(i+1); it sends each block to its rank
    except its own, which it keeps. Every rank then trains the model folder
    k + start - 1 for each number k of its block. The message transport is
    left out: a send is recorded as a Message value. */
module WorkPartition {
  import opened Seqs
  import HpGrid

  /** Realizations per rank. */
  const NumTotal: nat := 20

  /** The first hyperparameter folder of the run. */
  const StartFolder: int := 1

  /** The block of rank i: entry j is j + num_total*i + 1. */
  function Block(numTotal: nat, i: nat): (r: seq<int>)
    ensures |r| == numTotal
    ensures forall j :: 0 <= j < numTotal ==> r[j] == j + numTotal * i + 1
  {
    Range(numTotal * i + 1, numTotal * (i + 1) + 1)
  }

  /** The inner loop: a list of num_total zeros, filled entry by entry. */
  method BuildBlock(numTotal: nat, i: nat) returns (realzId: seq<int>)
    ensures realzId == Block(numTotal, i)
  {
    realzId := seq(numTotal, _ => 0);
    for j := 0 to numTotal
      invariant |realzId| == numTotal
      invariant forall m :: 0 <= m < j ==> realzId[m] == m + numTotal * i + 1
    {
      realzId := realzId[j := j + numTotal * i + 1];
    }
  }

  /** A block handed from the root to another rank. */
  datatype Message = Message(dest: nat, block: seq<int>)

  /** The root's loop over i = size-1 down to 0: it builds block i every time
      and sends it only when i > 0, so the list it holds at the end is block 0. */
  method Dispatch(size: nat, numTotal: nat) returns (sends: seq<Message>, rootBlock: seq<int>)
    requires size >= 1
    ensures |sends| == size - 1
    ensures forall m :: 0 <= m < |sends| ==> sends[m] == Message(size - 1 - m, Block(numTotal, size - 1 - m))
    ensures forall m :: 0 <= m < |sends| ==> sends[m].dest > 0
    ensures forall r :: 0 < r < size ==> sends[size - 1 - r] == Message(r, Block(numTotal, r))
    ensures rootBlock == Block(numTotal, 0)
  {
    sends := [];
    rootBlock := [];
    var i: int := size - 1;
    while i >= 0
      invariant -1 <= i < size
      invariant |sends| == if i >= 0 then size - 1 - i else size - 1
      invariant forall m :: 0 <= m < |sends| ==> sends[m] == Message(size - 1 - m, Block(numTotal, size - 1 - m))
      invariant i < 0 ==> rootBlock == Block(numTotal, 0)
      decreases i
    {
      rootBlock := BuildBlock(numTotal, i);
      if i > 0 {
        sends := sends + [Message(i, rootBlock)];
      }
      i := i - 1;
    }
  }

  /** The realization numbers handed to ranks 0 .. size-1 together. */
  function Covered(numTotal: nat, size: nat): set<int>
  {
    if size == 0 then {} else Covered(numTotal, size - 1) + Elems(Block(numTotal, size - 1))
  }

  /** The elements of a block are exactly its range of realization numbers. */
  lemma BlockElems(numTotal: nat, i: nat)
    ensures Elems(Block(numTotal, i)) == Interval(numTotal * i + 1, numTotal * (i + 1) + 1)
  {
    var b := Block(numTotal, i);
    forall x | x in Interval(numTotal * i + 1, numTotal * (i + 1) + 1)
      ensures x in Elems(b)
    {
      assert b[x - numTotal * i - 1] == x;
    }
  }

  /** Blocks of distinct ranks share no realization number. */
  lemma BlocksDisjoint(numTotal: nat, i: nat, j: nat)
    requires i != j
    ensures Elems(Block(numTotal, i)) !! Elems(Block(numTotal, j))
  {
    BlockElems(numTotal, i);
    BlockElems(numTotal, j);
    if i < j {
      assert numTotal * (i + 1) <= numTotal * j by {
        MulLe(numTotal, i + 1, j);
      }
    } else {
      assert numTotal * (j + 1) <= numTotal * i by {
        MulLe(numTotal, j + 1, i);
      }
    }
  }

  lemma MulLe(a: nat, b: nat, c: nat)
    requires b <= c
    ensures a * b <= a * c
  {
  }

  /** Over ranks 0 .. size-1 the blocks cover exactly 1 .. size*num_total. */
  lemma {:induction false} BlocksCover(numTotal: nat, size: nat)
    ensures Covered(numTotal, size) == Interval(1, size * numTotal + 1)
  {
    if size > 0 {
      BlocksCover(numTotal, size - 1);
      BlockElems(numTotal, size - 1);
      assert numTotal * (size - 1) + 1 == (size - 1) * numTotal + 1;
      assert numTotal * size + 1 == size * numTotal + 1;
    }
  }

  /** The folder trained for realization number k (the counter of the trainer). */
  function FolderOf(k: int, start: int): (folder: int)
  {
    k + start - 1
  }

  /** The folders trained by ranks 0 .. size-1. */
  function TrainedFolders(numTotal: nat, size: nat, start: int): set<int>
  {
    set k | k in Covered(numTotal, size) :: FolderOf(k, start)
  }

  /** The run trains the consecutive folders start .. start + size*num_total - 1;
      with start = 1 each realization number is its own folder. */
  lemma TrainedRange(numTotal: nat, size: nat, start: int)
    ensures TrainedFolders(numTotal, size, start) == Interval(start, start + size * numTotal)
    ensures start == 1 ==> forall k :: FolderOf(k, start) == k
  {
    BlocksCover(numTotal, size);
    forall x | x in Interval(start, start + size * numTotal)
      ensures x in TrainedFolders(numTotal, size, start)
    {
      assert FolderOf(x - start + 1, start) == x;
    }
  }

  /** With the driver's constants every trained folder is one the grid
      generator wrote, as long as the ranks do not outnumber the folders. */
  lemma TrainedFoldersGenerated(size: nat)
    requires size * NumTotal <= HpGrid.NumDnnFolders
    ensures TrainedFolders(NumTotal, size, StartFolder) <= HpGrid.Folders()
  {
    TrainedRange(NumTotal, size, StartFolder);
  }
}
