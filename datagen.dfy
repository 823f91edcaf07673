/** The deck generator and its in-memory deck store, src/datagen.py. */
module Datagen {
  import opened Cards

  /** Cards of each value in a standard deck. */
  const HALF_DECK_SIZE: nat := 26
  /** Cards in a standard deck. */
  const DECK_SIZE: nat := HALF_DECK_SIZE * 2
  /** The default batch size of the repository's runs. */
  const N_DECKS: nat := 250000

  /** n copies of card c: the list [c] * n. */
  function Repeat(c: Card, n: nat): (r: seq<Card>)
    ensures |r| == n
    ensures forall i :: 0 <= i < n ==> r[i] == c
    ensures multiset(r)[c] == n
  {
    if n == 0 then [] else Repeat(c, n - 1) + [c]
  }

  /** The unshuffled deck: half_deck_size zeros followed by half_deck_size ones. */
  function InitDeck(halfDeckSize: nat): seq<Card>
  {
    Repeat(0, halfDeckSize) + Repeat(1, halfDeckSize)
  }

  /** The unshuffled deck has 2 * h cards, the first h of them 0 and the rest 1, and
      so h of each value. */
  lemma InitDeckComposition(h: nat)
    ensures |InitDeck(h)| == 2 * h
    ensures forall i :: 0 <= i < 2 * h ==> InitDeck(h)[i] == (if i < h then 0 else 1)
    ensures multiset(InitDeck(h))[0] == h && multiset(InitDeck(h))[1] == h
  {
    var zeros, ones := Repeat(0, h), Repeat(1, h);
    assert multiset(InitDeck(h)) == multiset(zeros) + multiset(ones);
    assert multiset(ones)[0] == 0 by {
      assert 0 !in ones;
    }
    assert multiset(zeros)[1] == 0 by {
      assert 1 !in zeros;
    }
  }

  /** A shuffled deck: some reordering of the unshuffled deck. */
  ghost predicate IsShuffledDeck(deck: seq<Card>, halfDeckSize: nat)
  {
    multiset(deck) == multiset(InitDeck(halfDeckSize))
  }

  /** A deck is a reordering of the unshuffled deck exactly when it has 2 * h cards of
      which h are 0 and h are 1. */
  lemma ShuffledDeckComposition(deck: seq<Card>, h: nat)
    ensures IsShuffledDeck(deck, h) <==>
      |deck| == 2 * h && multiset(deck)[0] == h && multiset(deck)[1] == h
  {
    InitDeckComposition(h);
    var m, init := multiset(deck), multiset(InitDeck(h));
    if |deck| == 2 * h && m[0] == h && m[1] == h {
      forall c: Card
        ensures m[c] == init[c]
      {
      }
      assert forall x :: m[x] == init[x];
    }
  }

  /** The standard deck: 52 cards, 26 of each value. */
  lemma StandardDeck(deck: seq<Card>)
    requires IsShuffledDeck(deck, HALF_DECK_SIZE)
    ensures |deck| == DECK_SIZE == 52
    ensures multiset(deck)[0] == 26 && multiset(deck)[1] == 26
  {
    ShuffledDeckComposition(deck, HALF_DECK_SIZE);
  }

  /** The Decking object: a seeded random generator, a count of generation rounds,
      and the decks kept in its storage file. */
  class Decking {
    /** The seed the generator was created from. */
    const seed: int
    /** The numbers the generator seeded with seed produces, in the order drawn. */
    const generator: nat -> nat
    /** How many numbers have been drawn from the generator so far: its state. */
    var drawn: nat
    /** How many times gen_decks has run on this object. */
    var rounds: nat
    /** The decks in the storage file, oldest first. */
    var stored: seq<seq<Card>>

    /** A new Decking: seeded generator, no rounds yet, storage file as found on disk. */
    constructor (generator: nat -> nat, onDisk: seq<seq<Card>>, seed: int := 9903)
      ensures this.seed == seed && this.generator == generator
      ensures drawn == 0 && rounds == 0 && stored == onDisk
    {
      this.seed := seed;
      this.generator := generator;
      drawn := 0;
      rounds := 0;
      stored := onDisk;
    }

    /** Shuffles one deck in place with the generator (a Fisher-Yates pass): the deck
        ends as a reordering of itself. */
    method Permute(deck: array<Card>)
      modifies this`drawn, deck
      ensures multiset(deck[..]) == old(multiset(deck[..]))
      ensures drawn >= old(drawn)
    {
      var i := deck.Length;
      while i > 1
        invariant 0 <= i <= deck.Length
        invariant multiset(deck[..]) == old(multiset(deck[..]))
        invariant drawn >= old(drawn)
      {
        var k := generator(drawn) % i;
        drawn := drawn + 1;
        deck[i - 1], deck[k] := deck[k], deck[i - 1];
        i := i - 1;
      }
    }

    /** gen_decks: deal n_decks shuffled decks of 2 * half_deck_size cards. The first
        round discards what the storage held; later rounds append after it. Returns
        everything stored and counts the round. */
    method GenDecks(nDecks: nat, halfDeckSize: int := HALF_DECK_SIZE) returns (decks: seq<seq<Card>>)
      modifies this
      ensures rounds == old(rounds) + 1 && drawn >= old(drawn)
      ensures decks == stored
      ensures var kept := if old(rounds) == 0 then [] else old(stored);
        && |stored| == |kept| + nDecks
        && stored[..|kept|] == kept
        && forall i :: |kept| <= i < |stored| ==>
             IsShuffledDeck(stored[i], if halfDeckSize < 0 then 0 else halfDeckSize)
    {
      // [0] * h with a negative h is the empty list
      var h: nat := if halfDeckSize < 0 then 0 else halfDeckSize;
      var initDeck := InitDeck(h);
      var batch: seq<seq<Card>> := [];
      for n := 0 to nDecks
        invariant rounds == old(rounds) && stored == old(stored) && drawn >= old(drawn)
        invariant |batch| == n
        invariant forall i :: 0 <= i < n ==> IsShuffledDeck(batch[i], h)
      {
        var deck := new Card[|initDeck|](i requires 0 <= i < |initDeck| => initDeck[i]);
        assert deck[..] == initDeck;
        Permute(deck);
        batch := batch + [deck[..]];
      }
      if rounds == 0 {
        stored := [];
      }
      ghost var kept := stored;
      stored := stored + batch;
      assert stored[..|kept|] == kept;
      decks := stored;
      rounds := rounds + 1;
    }
  }
}
