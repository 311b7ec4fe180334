/** The block data model: the two block types, a block value, and the
    half-extent of one block's cube. */
module Blocks {

  /** Half the edge length of a block's cube in world units. */
  const HalfBlockSize: real := 0.25

  /** A block is empty air or solid stone; equality is structural. */
  datatype BlockType = Air | Stone

  /** `isActive` is reserved gameplay state: nothing in generation or
      meshing reads it. */
  datatype Block = Block(isActive: bool, blockType: BlockType)

  /** The only property meshing asks of a block. */
  predicate IsSolid(b: Block) {
    b.blockType != Air
  }

  /** The default block: inactive stone. */
  function New(): (b: Block)
    ensures b.blockType == Stone && !b.isActive
    ensures IsSolid(b)
  {
    Block(false, Stone)
  }

  /** An inactive block of the given type. */
  function From(t: BlockType): (b: Block)
    ensures b.blockType == t && !b.isActive
    ensures IsSolid(b) <==> t == Stone
  {
    Block(false, t)
  }

  /** Blocks are distinguished by their two fields alone, and `New` is the
      stone instance of `From`. */
  lemma FromStoneIsNew(b: Block)
    ensures From(Stone) == New()
    ensures b == From(b.blockType) <==> !b.isActive
  {
  }

  /** Solidity depends on the type alone: flipping the activity flag never
      changes whether a block is solid. */
  lemma SolidIgnoresActivity(b: Block, active: bool)
    ensures IsSolid(b.(isActive := active)) == IsSolid(b)
    ensures IsSolid(b) <==> b.blockType == Stone
  {
  }
}
