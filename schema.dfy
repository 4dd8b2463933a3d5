/**
 * The two tables of the store and the rules their rows obey: serial ids, the
 * `decks` / `cards` relation through `deckId` with cascading delete, and the
 * timestamps set when a row is inserted. Times are values of a logical clock.
 */
module Schema {
  import opened Wrappers
  import opened Text

  /** A row of `decks`; `description` is the one nullable column. */
  datatype Deck = Deck(
    id: int,
    userId: string,
    name: string,
    description: Option<string>,
    createdAt: nat,
    updatedAt: nat)

  /** A row of `cards`; `position` is an integer column with no lower bound. */
  datatype Card = Card(
    id: int,
    deckId: int,
    front: string,
    back: string,
    position: int,
    createdAt: nat)

  /** A deck together with its related cards (the `cards: many(cards)` relation), in no particular order. */
  datatype DeckWithCards = DeckWithCards(deck: Deck, cards: set<Card>)

  /** A card together with its parent deck (the `deck: one(decks)` relation). */
  datatype CardWithDeck = CardWithDeck(card: Card, deck: Deck)

  /** The position a card gets from the column default when none is given. */
  const DefaultPosition := 0

  /** Longest deck name the deck actions accept, counted on the untrimmed input. */
  const MaxNameLength := 255

  /** The cards whose `deckId` is `deckId`. */
  function CardsOf(cards: map<int, Card>, deckId: int): set<Card> {
    set k | k in cards && cards[k].deckId == deckId :: cards[k]
  }

  /** The positions used in deck `deckId`. */
  function PositionsOf(cards: map<int, Card>, deckId: int): set<int> {
    set k | k in cards && cards[k].deckId == deckId :: cards[k].position
  }

  /** The decks owned by `userId`, each with its cards attached. */
  function DeckListing(decks: map<int, Deck>, cards: map<int, Card>, userId: string): set<DeckWithCards> {
    set k | k in decks && decks[k].userId == userId :: DeckWithCards(decks[k], CardsOf(cards, decks[k].id))
  }

  /** The `if (!userId)` test fails: a user id is present and is not the empty string. */
  predicate SignedIn(caller: Option<string>) {
    caller.Some? && caller.value != ""
  }

  /** `deckId` names a deck and `caller` is a signed-in user who owns it. */
  predicate OwnedBy(decks: map<int, Deck>, deckId: int, caller: Option<string>) {
    SignedIn(caller) && deckId in decks && decks[deckId].userId == caller.value
  }

  /** The cards table after the cascade of deleting deck `deckId` (`onDelete: 'cascade'`). */
  function WithoutDeck(cards: map<int, Card>, deckId: int): map<int, Card> {
    map k | k in cards && cards[k].deckId != deckId :: cards[k]
  }

  /** Every card refers to an existing deck (the foreign key on `deckId`). */
  ghost predicate ReferencesResolve(decks: map<int, Deck>, cards: map<int, Card>) {
    forall k :: k in cards ==> cards[k].deckId in decks
  }

  /**
   * What the storage guarantees: rows are stored under their serial id, every id was
   * handed out before (ids start at 1 and only grow), a deck's `updatedAt` is never
   * before its `createdAt`, no time lies in the future of the clock, and the foreign
   * key holds.
   */
  ghost predicate Consistent(decks: map<int, Deck>, cards: map<int, Card>, nextDeckId: int, nextCardId: int, clock: nat) {
    && 1 <= nextDeckId && 1 <= nextCardId
    && (forall k :: k in decks ==>
          decks[k].id == k && 1 <= k < nextDeckId && decks[k].createdAt <= decks[k].updatedAt <= clock)
    && (forall k :: k in cards ==>
          cards[k].id == k && 1 <= k < nextCardId && cards[k].createdAt <= clock)
    && ReferencesResolve(decks, cards)
  }

  /**
   * What the actions guarantee on top of the schema: no deck name is blank or longer
   * than the limit, and no card front or back is blank.
   */
  ghost predicate ContentValid(decks: map<int, Deck>, cards: map<int, Card>) {
    && (forall k :: k in decks ==> !IsBlank(decks[k].name) && |decks[k].name| <= MaxNameLength)
    && (forall k :: k in cards ==> !IsBlank(cards[k].front) && !IsBlank(cards[k].back))
  }

  /**
   * Deleting a deck with its cascade leaves no card of that deck, keeps every other
   * deck's cards as they were, and keeps every reference resolvable.
   */
  lemma CascadeDelete(decks: map<int, Deck>, cards: map<int, Card>, deckId: int)
    requires ReferencesResolve(decks, cards)
    ensures CardsOf(WithoutDeck(cards, deckId), deckId) == {}
    ensures forall d :: d != deckId ==> CardsOf(WithoutDeck(cards, deckId), d) == CardsOf(cards, d)
    ensures ReferencesResolve(decks - {deckId}, WithoutDeck(cards, deckId))
  {
    var rest := WithoutDeck(cards, deckId);
    forall d | d != deckId ensures CardsOf(rest, d) == CardsOf(cards, d) {
      forall c | c in CardsOf(cards, d) ensures c in CardsOf(rest, d) {
        var k :| k in cards && cards[k].deckId == d && cards[k] == c;
        assert k in rest;
      }
    }
  }
}
