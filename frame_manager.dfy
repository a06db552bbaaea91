/**
 * The command-buffer reservation table of the frame manager: for each frame
 * index, the command buffers that must retire before that frame's resources
 * are reused, plus the per-frame fences and the current frame index.
 *
 * Command buffers, fences and per-frame resources are GPU objects; here they
 * are opaque handles compared only for identity.
 */
module FrameTables {

  /** A handle to a recorded command buffer. */
  datatype CommandBuffer = CommandBuffer(id: nat)

  /** A handle to a GPU-completion fence. */
  datatype Fence = Fence(id: nat)

  /** A handle to a per-frame resource bundle. */
  datatype PerFrameResource = PerFrameResource(id: nat)

  /** Reserved command buffers per frame index (`FrameCommandBufferTable`). */
  type CommandBufferTable = map<nat, seq<CommandBuffer>>

  /** The list `operator[]` yields for frame `i`: the stored one, or an empty list when there is none. */
  function ReservedAt(table: CommandBufferTable, i: nat): seq<CommandBuffer> {
    if i in table then table[i] else []
  }

  /**
   * The table after `operator[]` on frame `i`: an empty list is stored for
   * `i` when it had none, and no frame's reserved buffers change.
   */
  function Touched(table: CommandBufferTable, i: nat): (r: CommandBufferTable)
    ensures r.Keys == table.Keys + {i}
    ensures forall j :: ReservedAt(r, j) == ReservedAt(table, j)
  {
    if i in table then table else table[i := []]
  }

  /**
   * The table after appending `buffers` to frame `i`'s list: that list is its
   * old contents (empty if absent) followed by `buffers`, and every other
   * frame's list is as it was.
   */
  function Appended(table: CommandBufferTable, i: nat, buffers: seq<CommandBuffer>): (r: CommandBufferTable)
    ensures r.Keys == table.Keys + {i}
    ensures ReservedAt(r, i) == ReservedAt(table, i) + buffers
    ensures forall j :: j != i ==> ReservedAt(r, j) == ReservedAt(table, j)
  {
    table[i := ReservedAt(table, i) + buffers]
  }

  /** `buffers` appended to frame `i` one at a time, after `operator[]` has made sure frame `i` has a list. */
  function AppendedOneByOne(table: CommandBufferTable, i: nat, buffers: seq<CommandBuffer>): CommandBufferTable {
    if |buffers| == 0 then Touched(table, i)
    else Appended(AppendedOneByOne(table, i, buffers[..|buffers| - 1]), i, [buffers[|buffers| - 1]])
  }

  /** Appending buffers one at a time is appending them as one list. */
  lemma {:induction false} OneByOneIsAppended(table: CommandBufferTable, i: nat, buffers: seq<CommandBuffer>)
    ensures AppendedOneByOne(table, i, buffers) == Appended(table, i, buffers)
  {
    if |buffers| == 0 {
      assert ReservedAt(table, i) + buffers == ReservedAt(table, i);
    } else {
      var init := buffers[..|buffers| - 1];
      OneByOneIsAppended(table, i, init);
      assert ReservedAt(table, i) + init + [buffers[|buffers| - 1]] == ReservedAt(table, i) + buffers;
    }
  }

  /**
   * The list overload as written leaves frame `i`'s list without the buffers
   * it was given, whenever it is given any: it is not an append.
   */
  lemma ListReservationDropsBuffers(table: CommandBufferTable, i: nat, buffers: seq<CommandBuffer>)
    requires |buffers| > 0
    ensures ReservedAt(Touched(table, i), i) != ReservedAt(Appended(table, i, buffers), i)
  {
    assert |ReservedAt(Appended(table, i, buffers), i)| == |ReservedAt(table, i)| + |buffers|;
  }

  /** The frame manager's inline state and its reservation operations. */
  class FrameManager {
    var frameResTable: map<nat, seq<PerFrameResource>>
    var frameFences: seq<Fence>
    var frameCommandBuffers: CommandBufferTable
    var currentFrameIndex: nat
    var maxFrameCount: nat

    /** The index of the frame being recorded. */
    function FrameIndex(): (index: nat)
      reads this
      ensures index == currentFrameIndex
    {
      currentFrameIndex
    }

    /** The fence guarding the current frame; the current index must name one of the fences. */
    function GetCurrentFrameFence(): (fence: Fence)
      reads this
      requires currentFrameIndex < |frameFences|
      ensures fence in frameFences && fence == frameFences[FrameIndex()]
    {
      frameFences[currentFrameIndex]
    }

    /** Appends `cmdBuffer` to the current frame's reserved list; nothing else changes. */
    method ReserveCommandBuffer(cmdBuffer: CommandBuffer)
      modifies this
      ensures frameCommandBuffers == Appended(old(frameCommandBuffers), currentFrameIndex, [cmdBuffer])
      ensures currentFrameIndex == old(currentFrameIndex) && maxFrameCount == old(maxFrameCount)
      ensures frameFences == old(frameFences) && frameResTable == old(frameResTable)
    {
      frameCommandBuffers := frameCommandBuffers[currentFrameIndex := ReservedAt(frameCommandBuffers, currentFrameIndex) + [cmdBuffer]];
    }

    /**
     * The list overload as written: it copies the current frame's list into a
     * local, appends `cmdBufferList` to the copy and drops it. The only effect
     * on the table is the empty list `operator[]` stores for a frame that had none.
     */
    method ReserveCommandBufferList(cmdBufferList: seq<CommandBuffer>)
      modifies this
      ensures frameCommandBuffers == Touched(old(frameCommandBuffers), currentFrameIndex)
      ensures currentFrameIndex == old(currentFrameIndex) && maxFrameCount == old(maxFrameCount)
      ensures frameFences == old(frameFences) && frameResTable == old(frameResTable)
    {
      frameCommandBuffers := Touched(frameCommandBuffers, currentFrameIndex);
      var list := frameCommandBuffers[currentFrameIndex];
      list := list + cmdBufferList;
    }

    /**
     * The list overload as intended: every buffer of `cmdBufferList` is
     * appended, in order, to the current frame's reserved list.
     */
    method AppendCommandBufferList(cmdBufferList: seq<CommandBuffer>)
      modifies this
      ensures frameCommandBuffers == Appended(old(frameCommandBuffers), currentFrameIndex, cmdBufferList)
      ensures currentFrameIndex == old(currentFrameIndex) && maxFrameCount == old(maxFrameCount)
      ensures frameFences == old(frameFences) && frameResTable == old(frameResTable)
    {
      frameCommandBuffers := Touched(frameCommandBuffers, currentFrameIndex);
      for k := 0 to |cmdBufferList|
        invariant frameCommandBuffers == AppendedOneByOne(old(frameCommandBuffers), currentFrameIndex, cmdBufferList[..k])
        invariant currentFrameIndex == old(currentFrameIndex) && maxFrameCount == old(maxFrameCount)
        invariant frameFences == old(frameFences) && frameResTable == old(frameResTable)
      {
        ReserveCommandBuffer(cmdBufferList[k]);
        assert cmdBufferList[..k + 1][..k] == cmdBufferList[..k];
      }
      assert cmdBufferList[..|cmdBufferList|] == cmdBufferList;
      OneByOneIsAppended(old(frameCommandBuffers), currentFrameIndex, cmdBufferList);
    }
  }
}
