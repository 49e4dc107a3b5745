/**
 * One board cell (js/modules/Block.mjs): its kind and whether it shows the
 * snake's head. The DOM element, its CSS classes and `render` are display
 * only and are not modelled.
 */
module Blocks {

  /**
   * `Block.type`. `Head` is one of the values but is only ever used as a CSS
   * class; nothing sets a cell's kind to it.
   */
  datatype Kind = Empty | Food | Wall | Body | Head

  class Block {
    var kind: Kind
    var isHead: bool
    /** The cell's linear index, which `Grid` assigns right after creating the block. */
    const index: int

    /** `new Block(gameUI, blockWH, type = Empty)` followed by `setIndex(index)`. */
    constructor (index: int, kind: Kind := Empty)
      ensures this.index == index && this.kind == kind && !isHead
    {
      this.index := index;
      this.kind := kind;
      this.isHead := false;
    }

    /** `setType`: changes the kind only. */
    method SetType(t: Kind)
      modifies this
      ensures kind == t && isHead == old(isHead)
    {
      kind := t;
    }

    /** `setIsHead`: changes the head flag only. */
    method SetIsHead(state: bool)
      modifies this
      ensures isHead == state && kind == old(kind)
    {
      isHead := state;
    }

    /** `updateAsEmpty`: the cell becomes empty and keeps its head flag. */
    method UpdateAsEmpty()
      modifies this
      ensures kind == Empty && isHead == old(isHead)
    {
      SetType(Empty);
    }

    /** `updateAsBody`: the cell becomes body and keeps its head flag. */
    method UpdateAsBody()
      modifies this
      ensures kind == Body && isHead == old(isHead)
    {
      SetType(Body);
    }

    /** `updateAsFood`: the cell becomes food and keeps its head flag. */
    method UpdateAsFood()
      modifies this
      ensures kind == Food && isHead == old(isHead)
    {
      SetType(Food);
    }

    predicate IsBody()
      reads this
    {
      kind == Body
    }

    predicate IsWall()
      reads this
    {
      kind == Wall
    }
  }

  /** A cell is never body and wall at once. */
  lemma BodyExcludesWall(b: Block)
    ensures !(b.IsBody() && b.IsWall())
    ensures b.IsBody() <==> b.kind == Body
    ensures b.IsWall() <==> b.kind == Wall
  {
  }
}
