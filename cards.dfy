/**
 * The card deck of Ninety-Nine: suits, ranks, the card order used for
 * sorting and comparing, and the constants of one hand of the game.
 */
module Cards {

  const NumCardsInBid: nat := 3
  const NumTricks: nat := 9
  const NumPlayers: nat := 3

  /** Suits, with the integer values that also serve as bid values. */
  datatype Suit = Diamonds | Spades | Hearts | Clubs {
    function Value(): (v: nat)
      ensures v < 4
    {
      match this
      case Diamonds => 0
      case Spades => 1
      case Hearts => 2
      case Clubs => 3
    }
  }

  /** Ranks from six (lowest) to ace (highest). */
  datatype Rank = Six | Seven | Eight | Nine | Ten | Jack | Queen | King | Ace {
    function Value(): (v: nat)
      ensures v < 9
    {
      match this
      case Six => 0
      case Seven => 1
      case Eight => 2
      case Nine => 3
      case Ten => 4
      case Jack => 5
      case Queen => 6
      case King => 7
      case Ace => 8
    }
  }

  /** The stage a player is in: bidding, playing cards, or out of cards. */
  datatype GameStage = Bidding | Playing | Done

  datatype Card = Card(rank: Rank, suit: Suit)

  const AllSuits: set<Suit> := {Diamonds, Spades, Hearts, Clubs}
  const AllRanks: set<Rank> := {Six, Seven, Eight, Nine, Ten, Jack, Queen, King, Ace}

  /** `Card.__lt__`: compare by suit, and by rank within one suit. */
  predicate Less(a: Card, b: Card) {
    if a.suit == b.suit then a.rank.Value() < b.rank.Value() else a.suit.Value() < b.suit.Value()
  }

  /** The position of a card in the (suit, rank) order. */
  function Key(c: Card): (k: nat)
    ensures k < 36
  {
    9 * c.suit.Value() + c.rank.Value()
  }

  lemma SuitValueInjective(s: Suit, t: Suit)
    ensures s.Value() == t.Value() ==> s == t
  {
  }

  lemma RankValueInjective(r: Rank, q: Rank)
    ensures r.Value() == q.Value() ==> r == q
  {
  }

  /** The order is lexicographic on (suit, rank): exactly the order of the keys. */
  lemma LessIsKeyOrder(a: Card, b: Card)
    ensures Less(a, b) <==> Key(a) < Key(b)
  {
    SuitValueInjective(a.suit, b.suit);
  }

  /** Different cards have different keys. */
  lemma KeyInjective(a: Card, b: Card)
    ensures Key(a) == Key(b) ==> a == b
  {
    if Key(a) == Key(b) {
      assert a.suit.Value() == b.suit.Value();
      SuitValueInjective(a.suit, b.suit);
      RankValueInjective(a.rank, b.rank);
    }
  }

  /** `Less` is a strict total order on cards. */
  lemma LessIsStrictTotalOrder(a: Card, b: Card, c: Card)
    ensures !Less(a, a)
    ensures Less(a, b) ==> !Less(b, a)
    ensures Less(a, b) && Less(b, c) ==> Less(a, c)
    ensures a != b ==> Less(a, b) || Less(b, a)
  {
    LessIsKeyOrder(a, b);
    LessIsKeyOrder(b, a);
    LessIsKeyOrder(b, c);
    LessIsKeyOrder(a, c);
    LessIsKeyOrder(a, a);
    KeyInjective(a, b);
  }

  /** `get_all_cards`: every combination of the given ranks and suits. */
  function AllCards(suits: set<Suit>, ranks: set<Rank>): (r: set<Card>)
    ensures forall c :: c in r <==> c.suit in suits && c.rank in ranks
  {
    set rank <- ranks, suit <- suits :: Card(rank, suit)
  }

  /** With the default arguments every card of the deck is produced. */
  lemma FullDeck(c: Card)
    ensures c in AllCards(AllSuits, AllRanks)
  {
    assert c.suit in AllSuits by {
      match c.suit
      case Diamonds =>
      case Spades =>
      case Hearts =>
      case Clubs =>
    }
    assert c.rank in AllRanks by {
      match c.rank
      case Six =>
      case Seven =>
      case Eight =>
      case Nine =>
      case Ten =>
      case Jack =>
      case Queen =>
      case King =>
      case Ace =>
    }
  }
}
