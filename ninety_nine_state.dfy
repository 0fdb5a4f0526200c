/**
 * The rules of one hand of Ninety-Nine for three players: bidding, following
 * suit, winning tricks with trumps, and the final score.
 *
 * A game state is a value: every operation that the game applies to a state
 * works on a copy and returns the new state, so the old one is never changed.
 * A player is an object whose hand, bid and stage change in place.
 */
module NinetyNineState {
  import opened Wrappers
  import opened Cards

  /** The exceptions raised by the game rules. */
  datatype Error = KeyError(msg: string) | ValueError(msg: string) | IndexError | EOFError

  /** The cards played so far in a trick, keyed by player number. */
  datatype Trick = Trick(cards: map<int, Card>, leadPlayer: Option<int>, winner: Option<int>)

  /** The value of a player: hand, bid, tricks won so far and stage. */
  datatype PlayerData = PlayerData(hand: set<Card>, bid: set<Card>, tricksWon: nat, stage: GameStage)

  function NewPlayer(hand: set<Card>): PlayerData {
    PlayerData(hand, {}, 0, Bidding)
  }

  /** `Player.make_bid`: the bid cards leave the hand and become the bid. */
  function BidMade(p: PlayerData, bidCards: set<Card>): PlayerData {
    p.(hand := p.hand - bidCards, bid := bidCards, stage := Playing)
  }

  /** A bid of three cards from a hand of twelve leaves nine cards, and no card is lost. */
  lemma BidMadeKeepsCards(p: PlayerData, bidCards: set<Card>)
    requires bidCards <= p.hand
    ensures BidMade(p, bidCards).hand + BidMade(p, bidCards).bid == p.hand
    ensures BidMade(p, bidCards).hand !! BidMade(p, bidCards).bid
    ensures |BidMade(p, bidCards).hand| == |p.hand| - |bidCards|
    ensures |p.hand| == 12 && |bidCards| == NumCardsInBid ==> |BidMade(p, bidCards).hand| == 9
    ensures BidMade(p, bidCards).stage == Playing && BidMade(p, bidCards).tricksWon == p.tricksWon
  {
    var q := BidMade(p, bidCards);
    assert p.hand == q.hand + bidCards;
  }

  /**
   * `Player.play_card`: the card leaves the hand, and the player is done once
   * the hand is empty; a card that is not in the hand raises KeyError.
   */
  function CardPlayed(p: PlayerData, c: Card): (r: Result<PlayerData, Error>)
    ensures r.Err? <==> c !in p.hand
    ensures r.Ok? ==> r.value.hand == p.hand - {c} && |r.value.hand| == |p.hand| - 1
    ensures r.Ok? ==> r.value.bid == p.bid && r.value.tricksWon == p.tricksWon
    ensures r.Ok? ==> r.value.stage == (if r.value.hand == {} then Done else p.stage)
  {
    if c !in p.hand then
      Err(KeyError("card must be an element of the player's hand"))
    else
      var hand := p.hand - {c};
      Ok(p.(hand := hand, stage := if |hand| < 1 then Done else p.stage))
  }

  /** A player at the table: the fields that make_bid and play_card update in place. */
  class Player {
    var hand: set<Card>
    var bid: set<Card>
    var tricksWon: nat
    var stage: GameStage

    function Data(): PlayerData
      reads this
    {
      PlayerData(hand, bid, tricksWon, stage)
    }

    constructor (handCards: set<Card>)
      ensures Data() == NewPlayer(handCards)
    {
      hand := handCards;
      bid := {};
      tricksWon := 0;
      stage := Bidding;
    }

    method MakeBid(bidCards: set<Card>)
      modifies this
      ensures Data() == BidMade(old(Data()), bidCards)
    {
      hand := hand - bidCards;
      bid := bidCards;
      stage := Playing;
    }

    /** Plays a card; on KeyError nothing changes. */
    method PlayCard(card: Card) returns (r: Result<(), Error>)
      modifies this
      ensures r.Err? <==> CardPlayed(old(Data()), card).Err?
      ensures r.Ok? ==> Data() == CardPlayed(old(Data()), card).value
      ensures r.Err? ==> Data() == old(Data())
    {
      if card !in hand {
        return Err(KeyError("card must be an element of the player's hand"));
      }
      hand := hand - {card};
      if |hand| < 1 {
        stage := Done;
      }
      r := Ok(());
    }

    method Copy() returns (q: Player)
      ensures fresh(q) && q.Data() == Data()
    {
      q := new Player(hand);
      q.bid := bid;
      q.tricksWon := tricksWon;
      q.stage := stage;
    }
  }

  /**
   * A state of the hand. Player numbers are the indices of `players`;
   * `None` for the lead or the next player means nobody (the trick is
   * full and waiting to be finished, or the hand is over).
   */
  datatype GameState = GameState(
    trump: Option<Suit>,
    currentLead: Option<int>,
    trick: Trick,
    players: seq<PlayerData>,
    history: seq<Trick>,
    nextToPlay: Option<int>,
    stage: GameStage)

  /** `start_new_game` after the shuffle, with the dealt hands and the drawn trump supplied. */
  function NewGame(eldest: set<Card>, middle: set<Card>, youngest: set<Card>, trump: Suit): (g: GameState)
    ensures |g.players| == 3
    ensures g.players[0].hand == eldest && g.players[1].hand == middle && g.players[2].hand == youngest
    ensures forall i :: 0 <= i < 3 ==> g.players[i].bid == {} && g.players[i].tricksWon == 0 && g.players[i].stage == Bidding
    ensures g.currentLead == Some(0) && g.nextToPlay == Some(0) && g.trump == Some(trump)
    ensures g.trick.cards == map[] && g.history == [] && g.stage == Bidding
  {
    GameState(Some(trump), Some(0), Trick(map[], Some(0), None),
              [NewPlayer(eldest), NewPlayer(middle), NewPlayer(youngest)], [], Some(0), Bidding)
  }

  /**
   * In a new game player 0 leads and may play any card of the hand, nobody
   * else may play, and the hand is over only when no card was dealt.
   */
  lemma NewGameOpening(eldest: set<Card>, middle: set<Card>, youngest: set<Card>, trump: Suit)
    ensures var g := NewGame(eldest, middle, youngest, trump);
      && LegalCardPlays(g, Some(0)) == Ok(eldest)
      && (forall q :: q != 0 ==> LegalCardPlays(g, Some(q)).Err?)
      && (forall c :: c in eldest ==> CardPlay(g, Some(0), c).Ok?)
      && (GameIsOver(g) <==> eldest == {} && middle == {} && youngest == {})
  {
    var g := NewGame(eldest, middle, youngest, trump);
    if eldest == {} && middle == {} && youngest == {} {
      assert forall i :: 0 <= i < 3 ==> |g.players[i].hand| == 0;
    }
  }

  predicate IsPlayer(g: GameState, p: Option<int>) {
    p.Some? && 0 <= p.value < |g.players|
  }

  /** `is_full`: players 0, 1 and 2 have all played to the trick. */
  predicate IsFull(t: Trick) {
    0 in t.cards && 1 in t.cards && 2 in t.cards
  }

  /**
   * A trick is full once it holds three cards from players 0, 1 and 2: when
   * only those players have played, full means exactly three cards.
   */
  lemma IsFullCount(t: Trick)
    requires forall q :: q in t.cards ==> 0 <= q < 3
    ensures IsFull(t) <==> |t.cards| == 3
  {
    var s0: set<int> := if 0 in t.cards then {0} else {};
    var s1: set<int> := if 1 in t.cards then {1} else {};
    var s2: set<int> := if 2 in t.cards then {2} else {};
    forall q | q in t.cards.Keys
      ensures q in s0 + s1 + s2
    {
      assert q == 0 || q == 1 || q == 2;
    }
    assert t.cards.Keys == s0 + s1 + s2;
    assert |s0 + s1| == |s0| + |s1|;
    assert |s0 + s1 + s2| == |s0 + s1| + |s2|;
    assert |t.cards| == |t.cards.Keys|;
  }

  /** `game_is_over`: the trick is empty and every hand is empty. */
  predicate GameIsOver(g: GameState) {
    |g.trick.cards| == 0 && forall i :: 0 <= i < |g.players| ==> |g.players[i].hand| == 0
  }

  /** The cards of the suit that was led. */
  function FollowingSuit(hand: set<Card>, led: Suit): set<Card> {
    set c | c in hand && c.suit == led
  }

  /**
   * `get_legal_card_plays`: the leader may play any card; any other player
   * must follow the led suit when the hand holds a card of it.
   */
  function LegalCardPlays(g: GameState, p: Option<int>): (r: Result<set<Card>, Error>)
    ensures r.Ok? <==> IsPlayer(g, p) && g.nextToPlay == p
                       && (g.currentLead == p || (g.currentLead.Some? && g.currentLead.value in g.trick.cards))
    ensures IsPlayer(g, p) && g.nextToPlay == p && g.currentLead == p ==> r == Ok(g.players[p.value].hand)
    ensures r.Ok? ==> r.value <= g.players[p.value].hand
    ensures r.Ok? && g.currentLead != p ==> g.currentLead.Some? && g.currentLead.value in g.trick.cards
    ensures r.Ok? && g.currentLead != p ==>
              var led := g.trick.cards[g.currentLead.value].suit;
              var hand := g.players[p.value].hand;
              FollowingSuit(hand, led) != {} ==> r.value == FollowingSuit(hand, led)
    ensures r.Ok? && g.currentLead != p ==>
              var led := g.trick.cards[g.currentLead.value].suit;
              var hand := g.players[p.value].hand;
              FollowingSuit(hand, led) == {} ==> r.value == hand
  {
    if !IsPlayer(g, p) then
      Err(KeyError("player must be 0, 1, or 2"))
    else if g.nextToPlay != p then
      Err(KeyError("it is not this player's turn"))
    else
      var hand := g.players[p.value].hand;
      if g.currentLead == p then
        Ok(hand)
      else if g.currentLead.None? || g.currentLead.value !in g.trick.cards then
        Err(KeyError("the lead player has not played"))
      else
        var inLedSuit := FollowingSuit(hand, g.trick.cards[g.currentLead.value].suit);
        if inLedSuit != {} then Ok(inLedSuit) else Ok(hand)
  }

  /** `make_card_play`: returns the state after the player plays the card. */
  function CardPlay(g: GameState, p: Option<int>, c: Card): (r: Result<GameState, Error>)
    ensures IsFull(g.trick) ==> r == Err(ValueError("this trick is full"))
    ensures r.Ok? <==> !IsFull(g.trick) && IsPlayer(g, p) && g.nextToPlay == p && c in g.players[p.value].hand
    ensures r.Ok? ==>
              var q := p.value;
              && |r.value.players| == |g.players|
              && r.value.players[q].hand == g.players[q].hand - {c}
              && r.value.players[q].tricksWon == g.players[q].tricksWon
              && r.value.players[q].bid == g.players[q].bid
              && r.value.players[q].stage == (if r.value.players[q].hand == {} then Done else g.players[q].stage)
              && (forall i :: 0 <= i < |g.players| && i != q ==> r.value.players[i] == g.players[i])
              && r.value.trick.cards == g.trick.cards[q := c]
              && r.value.trick.leadPlayer == g.trick.leadPlayer
              && r.value.nextToPlay == (if IsFull(r.value.trick) then None else Some((q + 1) % |g.players|))
              && r.value.history == g.history && r.value.currentLead == g.currentLead
              && r.value.trump == g.trump && r.value.stage == g.stage
  {
    if IsFull(g.trick) then
      Err(ValueError("this trick is full"))
    else if !IsPlayer(g, p) then
      Err(KeyError("player must be 0, 1, or 2"))
    else if g.nextToPlay != p then
      Err(KeyError("it is not this player's turn"))
    else
      var q := p.value;
      var player :- CardPlayed(g.players[q], c);
      var trick := g.trick.(cards := g.trick.cards[q := c]);
      var next := g.(players := g.players[q := player], trick := trick);
      Ok(next.(nextToPlay := if IsFull(trick) then None else Some((q + 1) % |g.players|)))
  }

  /** Every legal card can be played: make_card_play accepts it while the trick is not full. */
  lemma LegalCardIsPlayable(g: GameState, p: Option<int>, c: Card)
    requires LegalCardPlays(g, p).Ok? && c in LegalCardPlays(g, p).value
    requires !IsFull(g.trick)
    ensures CardPlay(g, p, c).Ok?
    ensures c in CardPlay(g, p, c).value.trick.cards.Values
  {
    var r := CardPlay(g, p, c).value;
    assert r.trick.cards[p.value] == c;
  }

  /** Some card of the trick belongs to the trump suit. */
  predicate Trumped(t: Trick, trump: Option<Suit>) {
    exists q :: q in t.cards && Some(t.cards[q].suit) == trump
  }

  /**
   * The player `w` wins the trick: if a trump was played, `w` played a
   * highest trump; otherwise `w` played a highest card of the led suit.
   */
  predicate IsTrickWinner(t: Trick, trump: Option<Suit>, w: int) {
    && t.leadPlayer.Some? && t.leadPlayer.value in t.cards
    && w in t.cards
    && if Trumped(t, trump) then
         && Some(t.cards[w].suit) == trump
         && forall q :: q in t.cards && Some(t.cards[q].suit) == trump ==>
                          t.cards[q].rank.Value() <= t.cards[w].rank.Value()
       else
         var led := t.cards[t.leadPlayer.value].suit;
         && t.cards[w].suit == led
         && forall q :: q in t.cards && t.cards[q].suit == led ==>
                          t.cards[q].rank.Value() <= t.cards[w].rank.Value()
  }

  /** When no two players played the same card, the trick has exactly one winner. */
  lemma TrickWinnerUnique(t: Trick, trump: Option<Suit>, v: int, w: int)
    requires forall a, b :: a in t.cards && b in t.cards && a != b ==> t.cards[a] != t.cards[b]
    requires IsTrickWinner(t, trump, v) && IsTrickWinner(t, trump, w)
    ensures v == w
  {
    assert t.cards[v].suit == t.cards[w].suit;
    assert t.cards[v].rank.Value() == t.cards[w].rank.Value();
    RankValueInjective(t.cards[v].rank, t.cards[w].rank);
  }

  /**
   * `get_trick_winner`. The cards are visited in the order the dictionary
   * yields them, which the model leaves open; a trump six counts as a trump
   * because the source compares the rank with `>=` six.
   */
  method TrickWinner(t: Trick, trump: Option<Suit>) returns (r: Result<int, Error>)
    ensures r.Err? <==> t.leadPlayer.None? || t.leadPlayer.value !in t.cards
    ensures r.Ok? ==> IsTrickWinner(t, trump, r.value)
  {
    if t.leadPlayer.None? || t.leadPlayer.value !in t.cards {
      return Err(KeyError("the lead player has not played"));
    }
    var lead := t.leadPlayer.value;
    var leadCard := t.cards[lead];
    var highestCardPlayer := lead;
    var highestLeadRank := leadCard.rank;
    var highestTrumpRank := Six;
    var leadTrumped := false;
    var order := ListOf(t.cards.Keys);
    for i := 0 to |order|
      invariant highestCardPlayer in t.cards
      invariant !leadTrumped ==> forall k :: 0 <= k < i ==> Some(t.cards[order[k]].suit) != trump
      invariant leadTrumped ==>
                  && Some(t.cards[highestCardPlayer].suit) == trump
                  && highestTrumpRank == t.cards[highestCardPlayer].rank
                  && forall k :: 0 <= k < i && Some(t.cards[order[k]].suit) == trump ==>
                                   t.cards[order[k]].rank.Value() <= highestTrumpRank.Value()
      invariant !leadTrumped ==>
                  && highestTrumpRank == Six
                  && t.cards[highestCardPlayer].suit == leadCard.suit
                  && highestLeadRank == t.cards[highestCardPlayer].rank
                  && forall k :: 0 <= k < i && t.cards[order[k]].suit == leadCard.suit ==>
                                   t.cards[order[k]].rank.Value() <= highestLeadRank.Value()
    {
      var player := order[i];
      var card := t.cards[player];
      if Some(card.suit) == trump && card.rank.Value() >= highestTrumpRank.Value() {
        leadTrumped := true;
        highestCardPlayer := player;
        highestTrumpRank := card.rank;
      }
      if !leadTrumped && card.suit == leadCard.suit && card.rank.Value() > highestLeadRank.Value() {
        highestCardPlayer := player;
        highestLeadRank := card.rank;
      }
    }
    assert forall q :: q in t.cards ==> exists k :: 0 <= k < |order| && order[k] == q;
    return Ok(highestCardPlayer);
  }

  /**
   * The state after a full trick won by `w`: the trick joins the history
   * with its winner, `w` gains a trick, and `w` leads the next trick unless
   * the hand is over.
   */
  function FinishedWith(g: GameState, w: int): GameState
    requires 0 <= w < |g.players|
  {
    var done := g.trick.(winner := Some(w));
    var winner := g.players[w];
    var next := g.(history := g.history + [done],
                   players := g.players[w := winner.(tricksWon := winner.tricksWon + 1)],
                   trick := Trick(map[], None, None));
    var lead := if GameIsOver(next) then None else Some(w);
    next.(currentLead := lead, nextToPlay := lead, trick := next.trick.(leadPlayer := lead))
  }

  /** What finishing a trick changes, and that the hand ends exactly when every hand is empty. */
  lemma FinishedWithState(g: GameState, w: int)
    requires 0 <= w < |g.players|
    ensures var r := FinishedWith(g, w);
      && |r.players| == |g.players|
      && r.players[w].tricksWon == g.players[w].tricksWon + 1
      && r.players[w] == g.players[w].(tricksWon := g.players[w].tricksWon + 1)
      && r.trump == g.trump
      && (forall i :: 0 <= i < |g.players| && i != w ==> r.players[i] == g.players[i])
      && (forall i :: 0 <= i < |g.players| ==> r.players[i].hand == g.players[i].hand)
      && r.history == g.history + [g.trick.(winner := Some(w))]
      && r.trick.cards == map[]
      && (GameIsOver(r) <==> forall i :: 0 <= i < |g.players| ==> g.players[i].hand == {})
      && r.currentLead == r.nextToPlay == r.trick.leadPlayer
      && r.currentLead == (if GameIsOver(r) then None else Some(w))
  {
    var r := FinishedWith(g, w);
    forall i | 0 <= i < |g.players|
      ensures r.players[i].hand == g.players[i].hand
    {
    }
  }

  /**
   * `finish_trick`: fails unless the trick is full; otherwise the winner of
   * the trick is credited as `FinishedWith` describes.
   */
  method FinishTrick(g: GameState) returns (r: Result<GameState, Error>)
    ensures !IsFull(g.trick) ==> r.Err?
    ensures IsFull(g.trick) && g.trick.leadPlayer.Some? && g.trick.leadPlayer.value in g.trick.cards
            && (forall q :: q in g.trick.cards ==> 0 <= q < |g.players|)
            ==> r.Ok?
    ensures r.Ok? ==> exists w :: 0 <= w < |g.players| && IsTrickWinner(g.trick, g.trump, w)
                                 && r.value == FinishedWith(g, w)
  {
    if !IsFull(g.trick) {
      return Err(KeyError("Some players still need to play"));
    }
    var w :- TrickWinner(g.trick, g.trump);
    if !(0 <= w < |g.players|) {
      return Err(KeyError("the trick winner is not a player"));
    }
    r := Ok(FinishedWith(g, w));
  }

  /** Where one suit's cards of a bid count toward the bid total. */
  function SuitCount(bid: set<Card>, s: Suit): nat {
    |set c | c in bid && c.suit == s|
  }

  /** The bid total: the sum of the suit values of the bid cards. */
  function SuitTotal(bid: set<Card>): nat {
    SuitCount(bid, Spades) + 2 * SuitCount(bid, Hearts) + 3 * SuitCount(bid, Clubs)
  }

  lemma SuitCountAdd(bid: set<Card>, c: Card, s: Suit)
    requires c !in bid
    ensures SuitCount(bid + {c}, s) == SuitCount(bid, s) + (if c.suit == s then 1 else 0)
  {
    var before := set x | x in bid && x.suit == s;
    var after := set x | x in bid + {c} && x.suit == s;
    if c.suit == s {
      assert after == before + {c};
    } else {
      assert after == before;
    }
  }

  /** A card adds its suit value to the bid total. */
  lemma SuitTotalAdd(bid: set<Card>, c: Card)
    requires c !in bid
    ensures SuitTotal(bid + {c}) == SuitTotal(bid) + c.suit.Value()
  {
    SuitCountAdd(bid, c, Spades);
    SuitCountAdd(bid, c, Hearts);
    SuitCountAdd(bid, c, Clubs);
  }

  /** `bid_value`: sums the suit values of the bid, in the set's iteration order. */
  method BidValue(bid: set<Card>) returns (v: nat)
    ensures v == SuitTotal(bid)
  {
    v := 0;
    var todo := bid;
    while todo != {}
      invariant todo <= bid
      invariant v == SuitTotal(bid - todo)
      decreases |todo|
    {
      var c :| c in todo;
      SuitTotalAdd(bid - todo, c);
      assert (bid - todo) + {c} == bid - (todo - {c});
      v := v + c.suit.Value();
      todo := todo - {c};
    }
    assert bid - todo == bid;
  }

  /** The six and the ace of clubs make a bid of six tricks. */
  lemma TwoClubsBidSix()
    ensures SuitTotal({Card(Six, Clubs), Card(Ace, Clubs)}) == 6
  {
    SuitTotalAdd({Card(Six, Clubs)}, Card(Ace, Clubs));
    SuitTotalAdd({}, Card(Six, Clubs));
    assert {Card(Six, Clubs)} + {Card(Ace, Clubs)} == {Card(Six, Clubs), Card(Ace, Clubs)};
  }

  /** A player makes the bid by winning exactly the bid total of tricks. */
  predicate MadeBid(p: PlayerData) {
    p.tricksWon == SuitTotal(p.bid)
  }

  /** The players making their bid, in player order. */
  function BidMakers(ps: seq<PlayerData>): (r: seq<PlayerData>)
    ensures forall x :: x in r <==> x in ps && MadeBid(x)
    ensures |r| <= |ps|
  {
    if ps == [] then [] else (if MadeBid(ps[0]) then [ps[0]] else []) + BidMakers(ps[1..])
  }

  /** The bonus shared by the players who made their bid. */
  function Bonus(makers: nat): nat {
    if makers == 1 then 30 else if makers == 2 then 20 else if makers == 3 then 10 else 0
  }

  /**
   * `get_scores`: each player scores the tricks won, plus the bonus for the
   * number of players who made their bid if that player made it.
   */
  function Scores(g: GameState): (r: Result<seq<int>, Error>)
    ensures r.Ok? <==> GameIsOver(g)
    ensures r.Ok? ==> |r.value| == |g.players|
    ensures r.Ok? ==> forall i :: 0 <= i < |g.players| ==>
              r.value[i] == g.players[i].tricksWon + (if MadeBid(g.players[i]) then Bonus(|BidMakers(g.players)|) else 0)
  {
    if !GameIsOver(g) then
      Err(KeyError("all cards should be played"))
    else if |g.trick.cards| > 0 then
      Err(KeyError("current trick should be finalized"))
    else
      var makers := BidMakers(g.players);
      var bonus := Bonus(|makers|);
      Ok(seq(|g.players|, i requires 0 <= i < |g.players| =>
               g.players[i].tricksWon + bonus * (if g.players[i] in makers then 1 else 0)))
  }

  /** The number of players among the first `n` who made their bid. */
  function CountMakers(ps: seq<PlayerData>): nat {
    if ps == [] then 0 else (if MadeBid(ps[0]) then 1 else 0) + CountMakers(ps[1..])
  }

  lemma {:induction false} BidMakersCount(ps: seq<PlayerData>)
    ensures |BidMakers(ps)| == CountMakers(ps)
  {
    if ps != [] {
      BidMakersCount(ps[1..]);
    }
  }

  /**
   * With three players the bonus is 30, 20 or 10 when one, two or three of
   * them make their bid; only those players get it, and nobody else scores
   * more than the tricks won.
   */
  lemma ScoresBonus(g: GameState, i: int)
    requires GameIsOver(g) && |g.players| == 3 && 0 <= i < 3
    ensures var s := Scores(g).value;
      var n := CountMakers(g.players);
      && n <= 3
      && (MadeBid(g.players[i]) ==> s[i] == g.players[i].tricksWon + [0, 30, 20, 10][n])
      && (!MadeBid(g.players[i]) ==> s[i] == g.players[i].tricksWon)
  {
    BidMakersCount(g.players);
    if MadeBid(g.players[i]) {
      assert CountMakers(g.players) >= 1 by {
        assert g.players[i] in BidMakers(g.players);
      }
    }
  }

  /** The cards a hand receives from a shuffled deck: every third card counted from the top. */
  function Dealt(cards: seq<Card>, j: nat): set<Card> {
    set i | 0 <= i < |cards| && (|cards| - 1 - i) % 3 == j :: cards[i]
  }

  /**
   * `get_three_shuffled_hands` after the shuffle (the shuffled deck is
   * supplied): deals one card to each hand in turn from the top of the deck;
   * a deck that runs out in the middle of a round raises IndexError.
   */
  method ThreeHands(cards: seq<Card>) returns (r: Result<(set<Card>, set<Card>, set<Card>), Error>)
    ensures r.Ok? <==> |cards| % 3 == 0
    ensures r.Ok? ==> r.value == (Dealt(cards, 0), Dealt(cards, 1), Dealt(cards, 2))
  {
    var first, second, third := {}, {}, {};
    var k := |cards|;
    while k > 0
      invariant 0 <= k <= |cards| && (|cards| - k) % 3 == 0
      invariant first == set i | k <= i < |cards| && (|cards| - 1 - i) % 3 == 0 :: cards[i]
      invariant second == set i | k <= i < |cards| && (|cards| - 1 - i) % 3 == 1 :: cards[i]
      invariant third == set i | k <= i < |cards| && (|cards| - 1 - i) % 3 == 2 :: cards[i]
      decreases k
    {
      first := first + {cards[k - 1]};
      if k < 2 {
        return Err(IndexError);
      }
      second := second + {cards[k - 2]};
      if k < 3 {
        return Err(IndexError);
      }
      third := third + {cards[k - 3]};
      k := k - 3;
    }
    return Ok((first, second, third));
  }

  /** Between them the three hands receive every card of the deck. */
  lemma DealtCoversDeck(cards: seq<Card>)
    ensures Dealt(cards, 0) + Dealt(cards, 1) + Dealt(cards, 2) == set i | 0 <= i < |cards| :: cards[i]
  {
    forall c | c in set i | 0 <= i < |cards| :: cards[i]
      ensures c in Dealt(cards, 0) + Dealt(cards, 1) + Dealt(cards, 2)
    {
      var i :| 0 <= i < |cards| && cards[i] == c;
      var j := (|cards| - 1 - i) % 3;
      assert c in Dealt(cards, j);
    }
  }

  /** From a deck without repeated cards no card reaches two hands. */
  lemma DealtDisjoint(cards: seq<Card>, j: nat, k: nat)
    requires Distinct(cards) && j != k
    ensures Dealt(cards, j) !! Dealt(cards, k)
  {
  }

  lemma DealtLastRound(s: seq<Card>, x: Card, y: Card, z: Card)
    ensures Dealt(s + [x, y, z], 0) == Dealt(s, 0) + {z}
    ensures Dealt(s + [x, y, z], 1) == Dealt(s, 1) + {y}
    ensures Dealt(s + [x, y, z], 2) == Dealt(s, 2) + {x}
  {
    var d := s + [x, y, z];
    forall j | 0 <= j < 3
      ensures Dealt(d, j) == Dealt(s, j) + {[z, y, x][j]}
    {
      forall c | c in Dealt(d, j) ensures c in Dealt(s, j) + {[z, y, x][j]} {
        var i :| 0 <= i < |d| && (|d| - 1 - i) % 3 == j && d[i] == c;
        if i < |s| {
          assert (|s| - 1 - i) % 3 == j;
          assert s[i] == c;
        }
      }
      forall c | c in Dealt(s, j) ensures c in Dealt(d, j) {
        var i :| 0 <= i < |s| && (|s| - 1 - i) % 3 == j && s[i] == c;
        assert d[i] == c && (|d| - 1 - i) % 3 == j;
      }
      assert d[|d| - 1 - j] == [z, y, x][j];
    }
    assert [z, y, x][0] == z && [z, y, x][1] == y && [z, y, x][2] == x;
  }

  /** The last round of a deck without repeated cards gives hand `j` one card it did not hold. */
  lemma DealtRound(cards: seq<Card>, j: nat) returns (c: Card)
    requires Distinct(cards) && |cards| >= 3 && j < 3
    ensures Dealt(cards, j) == Dealt(cards[..|cards| - 3], j) + {c}
    ensures c !in Dealt(cards[..|cards| - 3], j)
  {
    var n := |cards|;
    var s := cards[..n - 3];
    assert cards == s + [cards[n - 3], cards[n - 2], cards[n - 1]];
    DealtLastRound(s, cards[n - 3], cards[n - 2], cards[n - 1]);
    c := cards[n - 1 - j];
    assert [cards[n - 3], cards[n - 2], cards[n - 1]][2 - j] == c;
    forall i | 0 <= i < |s| ensures s[i] != c {
      assert s[i] == cards[i];
    }
  }

  /** A deck without repeated cards whose size is a multiple of three gives every hand a third of it. */
  lemma {:induction false} DealtSize(cards: seq<Card>, j: nat)
    requires Distinct(cards) && |cards| % 3 == 0 && j < 3
    ensures |Dealt(cards, j)| == |cards| / 3
    decreases |cards|
  {
    if |cards| == 0 {
      assert Dealt(cards, j) == {};
    } else {
      var s := cards[..|cards| - 3];
      var c := DealtRound(cards, j);
      DealtSize(s, j);
    }
  }

  /** Dealing the thirty-six card deck gives three hands of twelve cards. */
  lemma FullDeckDealsTwelve(cards: seq<Card>, j: nat)
    requires Distinct(cards) && |cards| == 36 && j < 3
    ensures |Dealt(cards, j)| == 12
  {
    DealtSize(cards, j);
  }
}
