/** Cards and watched sequences shared by the deck generator and the game simulator. */
module Cards {

  /** A card is one of the two binary values. The generator deals the integers 0 and 1;
      the simulator compares the characters '0' and '1'. Both are this one type. */
  type Card = c: int | 0 <= c <= 1

  /** The eight length-3 sequences a player can watch for, in binary counting order. */
  function AllSequences(): (r: seq<seq<Card>>)
    ensures |r| == 8
    ensures forall i, j :: 0 <= i < j < |r| ==> r[i] != r[j]
    ensures forall s :: s in r ==> |s| == 3
  {
    [[0, 0, 0], [0, 0, 1], [0, 1, 0], [0, 1, 1],
     [1, 0, 0], [1, 0, 1], [1, 1, 0], [1, 1, 1]]
  }

  /** Every length-3 sequence of cards is one of the eight. */
  lemma ThreeCardSequenceListed(s: seq<Card>)
    requires |s| == 3
    ensures s in AllSequences()
  {
    assert s == [s[0], s[1], s[2]];
  }
}
