/**
 * Blocks as they appear in a builder-step snapshot and as the dataset
 * stores them (gridworld/data/iglu_dataset.py: VOXELWORLD_GROUND_LEVEL,
 * block_colour_map and the conversion in IGLUDataset.parse_tasks).
 */
module BlockColours {

  const VoxelworldGroundLevel := 63

  /** Colour used for every voxelworld id the table does not know. */
  const FallbackColour := 5

  /** voxelworld's colour id : iglu colour id */
  const BlockColourMap: map<int, int> :=
    map[0 := 0, 57 := 1, 50 := 2, 59 := 3, 47 := 4, 56 := 5, 60 := 6]

  /** One entry of a snapshot's `worldEndingState.blocks`: world coordinates and a voxelworld id. */
  datatype RawBlock = RawBlock(x: int, y: int, z: int, bid: int)

  /** A stored block: agent-relative coordinates and an iglu colour id. */
  datatype Block = Block(x: int, y: int, z: int, colour: int)

  /** block_colour_map.get(bid, 5) */
  function ColourOf(bid: int): (c: int)
    ensures 0 <= c <= 6
    ensures c == 0 <==> bid == 0
    ensures bid !in BlockColourMap ==> c == FallbackColour
    ensures bid in BlockColourMap ==> BlockColourMap[bid] == c
  {
    if bid in BlockColourMap then BlockColourMap[bid] else FallbackColour
  }

  /** Different known ids get different colours: the table is injective. */
  lemma ColourMapInjective(b1: int, b2: int)
    requires b1 in BlockColourMap && b2 in BlockColourMap && b1 != b2
    ensures ColourOf(b1) != ColourOf(b2)
  {
  }

  /** Every colour 0..6 is the image of some id listed in the table. */
  lemma ColourMapCoversPalette(c: int)
    requires 0 <= c <= 6
    ensures exists bid :: bid in BlockColourMap && ColourOf(bid) == c
  {
    var ids := [0, 57, 50, 59, 47, 56, 60];
    assert ids[c] in BlockColourMap && ColourOf(ids[c]) == c;
  }

  /** The conversion of one snapshot entry (`y - VOXELWORLD_GROUND_LEVEL - 1` and the colour table). */
  function ConvertBlock(b: RawBlock): (r: Block)
    ensures r.x == b.x && r.z == b.z && r.y == b.y - 64
    ensures 0 <= r.colour <= 6 && r.colour == ColourOf(b.bid)
  {
    Block(b.x, b.y - VoxelworldGroundLevel - 1, b.z, ColourOf(b.bid))
  }

  /** A whole snapshot's block list, converted entry by entry in order. */
  function ConvertAll(bs: seq<RawBlock>): (r: seq<Block>)
    ensures |r| == |bs|
    ensures forall k :: 0 <= k < |bs| ==> r[k] == ConvertBlock(bs[k])
  {
    seq(|bs|, k requires 0 <= k < |bs| => ConvertBlock(bs[k]))
  }

  /** Every stored colour is in the iglu palette 0..6. */
  predicate ColoursInPalette(bs: seq<Block>)
  {
    forall k :: 0 <= k < |bs| ==> 0 <= bs[k].colour <= 6
  }

  lemma ConvertAllInPalette(bs: seq<RawBlock>)
    ensures ColoursInPalette(ConvertAll(bs))
  {
  }
}
