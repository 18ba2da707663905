/**
 * The board: one slot per cell, in row-major order, each holding the
 * reference of the player that occupies it or nothing.
 */
module Cells {
  import opened Wrappers

  /** A player is identified by its object reference. */
  type PlayerRef = nat

  type Owner = Option<PlayerRef>

  function EmptyBoard(count: nat): (cells: seq<Owner>)
    ensures |cells| == count && forall k :: 0 <= k < count ==> cells[k] == None
  {
    seq(count, _ => None)
  }

  /** `_cells.allOccupied`: every cell has an owner. */
  predicate AllOccupied(cells: seq<Owner>)
    ensures AllOccupied(cells) <==> None !in cells
  {
    forall k :: 0 <= k < |cells| ==> cells[k].Some?
  }

  /** The number of cells still free. */
  function EmptyCount(cells: seq<Owner>): (r: nat)
    ensures r <= |cells|
  {
    if cells == [] then 0
    else (if cells[0].None? then 1 else 0) + EmptyCount(cells[1..])
  }

  /** The board is full exactly when no cell is free. */
  lemma {:induction false} AllOccupiedIffNoneEmpty(cells: seq<Owner>)
    ensures AllOccupied(cells) <==> EmptyCount(cells) == 0
  {
    if cells != [] {
      AllOccupiedIffNoneEmpty(cells[1..]);
      assert forall k :: 1 <= k < |cells| ==> cells[k] == cells[1..][k - 1];
    }
  }

  /** Occupying a free cell leaves one free cell fewer. */
  lemma {:induction false} OccupyDecrementsEmpty(cells: seq<Owner>, k: nat, p: PlayerRef)
    requires k < |cells| && cells[k].None?
    ensures EmptyCount(cells[k := Some(p)]) + 1 == EmptyCount(cells)
  {
    if k > 0 {
      assert cells[k := Some(p)][1..] == cells[1..][k - 1 := Some(p)];
      OccupyDecrementsEmpty(cells[1..], k - 1, p);
    } else {
      assert cells[k := Some(p)][1..] == cells[1..];
    }
  }

  /** The array of cells, with the operations of a single cell addressed by its number. */
  class Board {
    const owner: array<Owner>

    constructor (count: nat)
      ensures fresh(owner) && owner[..] == EmptyBoard(count)
    {
      owner := new Owner[count](_ => None);
    }

    /** `Cell.select`: fails on an occupied cell, otherwise records `p` as its owner. */
    method Select(k: nat, p: PlayerRef) returns (ok: bool)
      requires k < owner.Length
      modifies owner
      ensures ok <==> old(owner[k]).None?
      ensures owner[..] == if ok then old(owner[..])[k := Some(p)] else old(owner[..])
    {
      if owner[k].Some? {
        return false;
      }
      owner[k] := Some(p);
      return true;
    }

    /** `Cell.clear`: nothing to do on an empty cell, otherwise the owner is removed. */
    method Clear(k: nat)
      requires k < owner.Length
      modifies owner
      ensures old(owner[k]).None? ==> owner[..] == old(owner[..])
      ensures owner[..] == old(owner[..])[k := None]
    {
      if owner[k].None? {
        return;
      }
      owner[k] := None;
    }

    /** `_cells.clearAll`: clears every cell in turn. */
    method ClearAll()
      modifies owner
      ensures owner[..] == EmptyBoard(owner.Length)
    {
      var k := 0;
      while k < owner.Length
        invariant 0 <= k <= owner.Length
        invariant forall j :: 0 <= j < k ==> owner[j] == None
      {
        Clear(k);
        k := k + 1;
      }
    }
  }
}
