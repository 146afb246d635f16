/** The player of models/game/player.go: a name, a hand kept as a counted deck, and a drawn flag. */
module GamePlayer {
  import opened Seqs
  import opened Cards
  import opened CountedDeck

  datatype Player = Player(name: string, hand: Deck, drawn: bool)

  /** A new player: the given name, no cards, counter zero, not yet drawn. */
  function NewPlayer(name: string): (p: Player)
    ensures p.name == name && NumberOfCards(p.hand) == 0 && Consistent(p.hand) && !p.drawn
  {
    Player(name, NewDeck(), false)
  }

  /** Adds the cards to the hand one by one: they land at the end in order; name and flag are kept. */
  function AddCards(p: Player, cards: seq<Card>): (r: Player)
    ensures r.name == p.name && r.drawn == p.drawn
    ensures r.hand.cards == p.hand.cards + cards
    ensures NumberOfCards(r.hand) == NumberOfCards(p.hand) + |cards|
    ensures Consistent(p.hand) ==> Consistent(r.hand)
    ensures cards == [] ==> r == p
  {
    Player(p.name, CountedDeck.AddCards(p.hand, cards), p.drawn)
  }

  /**
   * When `card` may follow `topCard`. On a wild or draw_4 the card must be a
   * coloured action of the top card's stored colour, have the chosen colour
   * `topColor`, or itself be wild or draw_4; on any other card it must share
   * the colour or the rank.
   */
  predicate PlayableOn(card: Card, topCard: Card, topColor: string) {
    if IsColorless(topCard) then
      (Type(card) == ACTION_CARD && card.color == topCard.color)
      || card.color == topColor
      || IsColorless(card)
    else
      card.color == topCard.color || card.rank == topCard.rank
  }

  /** Some card of the hand may follow `topCard`. */
  predicate AnyPlayable(hand: seq<Card>, topCard: Card, topColor: string) {
    exists card | card in hand :: PlayableOn(card, topCard, topColor)
  }

  /**
   * `HasPlayableCard`: scans the hand through Go's three-case switch. The
   * package-level `TopColor` it reads is the parameter `topColor`; the
   * player is a value, so hand and flag stay as they were.
   */
  method HasPlayableCard(p: Player, topCard: Card, topColor: string) returns (r: bool)
    ensures r <==> AnyPlayable(p.hand.cards, topCard, topColor)
  {
    var cards := p.hand.cards;
    var i := 0;
    while i < |cards|
      invariant 0 <= i <= |cards|
      invariant forall j | 0 <= j < i :: !PlayableOn(cards[j], topCard, topColor)
    {
      var card := cards[i];
      assert card in cards;
      if Type(card) == ACTION_CARD && card.color == topCard.color {
        return true;
      } else if Type(topCard) == ACTION_CARD_NO_COLOR {
        if card.color == topColor || Type(card) == ACTION_CARD_NO_COLOR {
          return true;
        }
      } else if card.color == topCard.color || card.rank == topCard.rank {
        return true;
      }
      i := i + 1;
    }
    return false;
  }

  /** An empty hand has nothing to play. */
  lemma EmptyHandHasNoPlay(topCard: Card, topColor: string)
    ensures !AnyPlayable([], topCard, topColor)
  {
  }

  /** On a card other than wild or draw_4, a hand can play exactly when some card shares its colour or rank. */
  lemma PlayableOnColoredTop(hand: seq<Card>, topCard: Card, topColor: string)
    requires !IsColorless(topCard)
    ensures AnyPlayable(hand, topCard, topColor)
      <==> exists card | card in hand :: IsSameColor(card, topCard) || IsSameRank(card, topCard)
  {
  }

  /** On a card other than wild or draw_4 the chosen colour plays no part. */
  lemma PlayableIgnoresTopColorOnColoredTop(hand: seq<Card>, topCard: Card, a: string, b: string)
    requires !IsColorless(topCard)
    ensures AnyPlayable(hand, topCard, a) == AnyPlayable(hand, topCard, b)
  {
  }

  /** The answer depends on which cards the hand holds, not on their order. */
  lemma PlayableIgnoresOrder(a: seq<Card>, b: seq<Card>, topCard: Card, topColor: string)
    requires multiset(a) == multiset(b)
    ensures AnyPlayable(a, topCard, topColor) == AnyPlayable(b, topCard, topColor)
  {
    forall card ensures card in a <==> card in b {
      assert card in a <==> card in multiset(a);
      assert card in b <==> card in multiset(b);
    }
  }

  /** A wild or draw_4 in hand is always playable on a wild or draw_4. */
  lemma ColorlessPlaysOnColorless(hand: seq<Card>, topCard: Card, topColor: string, card: Card)
    requires IsColorless(topCard) && card in hand && card.rank in Rank.ActionCardsNoColor
    ensures AnyPlayable(hand, topCard, topColor)
  {
  }
}
