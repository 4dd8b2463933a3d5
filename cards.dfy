/**
 * The card actions: create, fetch, update, delete and list the cards of a deck on
 * behalf of `caller`. A card is reached through its deck, and the deck's owner is the
 * only user allowed to touch it; every card write also moves the deck's `updatedAt`.
 * Each action runs its checks before any write, so a failed action changes nothing.
 */
module CardActions {
  import opened Wrappers
  import opened Text
  import opened Ordering
  import opened Schema
  import opened Errors
  import opened Db

  /**
   * The position `createCard` stores. An absent position and an explicit 0 both mean
   * "put it last": one past the highest position in the deck, or 0 in a deck with no
   * cards. Any other requested value is stored as given, negative ones included.
   */
  ghost function ResolvedPosition(requested: Option<int>, existing: set<int>): (p: int)
    ensures requested.GetOr(0) != 0 ==> p == requested.value
    ensures requested.GetOr(0) == 0 && existing == {} ==> p == 0
    ensures requested.GetOr(0) == 0 && existing != {} ==> p - 1 in existing && forall q :: q in existing ==> q < p
  {
    var p := requested.GetOr(DefaultPosition);
    if p != 0 then p
    else match Highest(existing)
      case None => 0
      case Some(top) => top + 1
  }

  /**
   * Asking for position 0 is the same as asking for none, and it yields 0 only in an
   * empty deck or when the highest position is -1; otherwise the card lands last.
   */
  lemma ZeroRequestIsAuto(existing: set<int>)
    ensures ResolvedPosition(Some(0), existing) == ResolvedPosition(None, existing)
    ensures ResolvedPosition(Some(0), existing) == 0 <==> existing == {} || Highest(existing) == Some(-1)
  {
    if existing != {} {
      var top := Highest(existing).value;
      assert ResolvedPosition(Some(0), existing) == top + 1;
    }
  }

  /** The position step of `createCard`: keep a non-zero request, else ask storage for the highest position. */
  method NextPosition(db: Database, deckId: int, requested: Option<int>) returns (p: int)
    ensures p == ResolvedPosition(requested, PositionsOf(db.cards, deckId))
  {
    p := requested.GetOr(DefaultPosition);
    if p == 0 {
      var top := db.HighestPosition(deckId);
      p := if top.Some? then top.value + 1 else 0;
    }
  }

  /** The guard of `createCard` and `getDeckCards`: a missing deck and another user's deck give one error. */
  function OwnedDeckError(decks: map<int, Deck>, caller: Option<string>, deckId: int): (r: Option<Error>)
    ensures !SignedIn(caller) ==> r == Some(Unauthorized)
    ensures SignedIn(caller) && !OwnedBy(decks, deckId, caller) ==> r == Some(DeckNotFoundOrUnauthorized)
    ensures r == None <==> OwnedBy(decks, deckId, caller)
  {
    if !SignedIn(caller) then Some(Unauthorized)
    else if !(deckId in decks && decks[deckId].userId == caller.value) then Some(DeckNotFoundOrUnauthorized)
    else None
  }

  /** The guard of `getCard`, `updateCard` and `deleteCard`: signed in, the card exists, its deck is the caller's. */
  function CardAccessError(decks: map<int, Deck>, cards: map<int, Card>, caller: Option<string>, cardId: int): (r: Option<Error>)
    requires ReferencesResolve(decks, cards)
    ensures !SignedIn(caller) ==> r == Some(Unauthorized)
    ensures SignedIn(caller) && cardId !in cards ==> r == Some(CardNotFound)
    ensures SignedIn(caller) && cardId in cards && decks[cards[cardId].deckId].userId != caller.value ==> r == Some(Unauthorized)
    ensures r == None <==> cardId in cards && OwnedBy(decks, cards[cardId].deckId, caller)
  {
    if !SignedIn(caller) then Some(Unauthorized)
    else if cardId !in cards then Some(CardNotFound)
    else if decks[cards[cardId].deckId].userId != caller.value then Some(Unauthorized)
    else None
  }

  /** The text rule of `createCard`: the front, then the back, must not be blank. */
  function CardTextError(front: string, back: string): (r: Option<Error>)
    ensures IsBlank(front) ==> r == Some(CardFrontRequired)
    ensures !IsBlank(front) && IsBlank(back) ==> r == Some(CardBackRequired)
    ensures r == None <==> !IsBlank(front) && !IsBlank(back)
  {
    if Trim(front) == [] then Some(CardFrontRequired)
    else if Trim(back) == [] then Some(CardBackRequired)
    else None
  }

  /** The text rule of `updateCard`: a front, then a back, that is given must not be blank. */
  function CardEditError(front: Option<string>, back: Option<string>): (r: Option<Error>)
    ensures front.Some? && IsBlank(front.value) ==> r == Some(CardFrontCannotBeEmpty)
    ensures (front.Some? ==> !IsBlank(front.value)) && back.Some? && IsBlank(back.value) ==> r == Some(CardBackCannotBeEmpty)
    ensures r == None <==> (front.Some? ==> !IsBlank(front.value)) && (back.Some? ==> !IsBlank(back.value))
  {
    if front.Some? && Trim(front.value) == [] then Some(CardFrontCannotBeEmpty)
    else if back.Some? && Trim(back.value) == [] then Some(CardBackCannotBeEmpty)
    else None
  }

  /** Every check of `createCard`, in order: sign-in, the deck, then the text. */
  function CreateCardError(decks: map<int, Deck>, caller: Option<string>, deckId: int, front: string, back: string): (r: Option<Error>)
    ensures !OwnedBy(decks, deckId, caller) ==> r == OwnedDeckError(decks, caller, deckId)
    ensures OwnedBy(decks, deckId, caller) ==> r == CardTextError(front, back)
    ensures r == None <==> OwnedBy(decks, deckId, caller) && !IsBlank(front) && !IsBlank(back)
  {
    var access := OwnedDeckError(decks, caller, deckId);
    if access.Some? then access else CardTextError(front, back)
  }

  /** Every check of `updateCard`, in order: sign-in, the card, its deck's owner, then the given text. */
  function UpdateCardError(decks: map<int, Deck>, cards: map<int, Card>, caller: Option<string>, cardId: int,
                           front: Option<string>, back: Option<string>): (r: Option<Error>)
    requires ReferencesResolve(decks, cards)
    ensures CardAccessError(decks, cards, caller, cardId).Some? ==> r == CardAccessError(decks, cards, caller, cardId)
    ensures CardAccessError(decks, cards, caller, cardId).None? ==> r == CardEditError(front, back)
    ensures r == None <==>
      && cardId in cards && OwnedBy(decks, cards[cardId].deckId, caller)
      && (front.Some? ==> !IsBlank(front.value)) && (back.Some? ==> !IsBlank(back.value))
  {
    var access := CardAccessError(decks, cards, caller, cardId);
    if access.Some? then access else CardEditError(front, back)
  }

  /**
   * `createCard`: a new card of the caller's deck, with trimmed text and the position
   * the position rule gives; the deck's `updatedAt` then moves to a fresh time.
   */
  method CreateCard(db: Database, caller: Option<string>, deckId: int, front: string, back: string, position: Option<int>)
    returns (r: Outcome<Card>)
    requires db.Valid()
    modifies db
    ensures db.Valid()
    ensures old(db.ContentValid()) ==> db.ContentValid()
    ensures r.Err? <==> CreateCardError(old(db.decks), caller, deckId, front, back).Some?
    ensures r.Err? ==> r.error == CreateCardError(old(db.decks), caller, deckId, front, back).value && unchanged(db)
    ensures r.Ok? ==>
      && r.value.id == old(db.nextCardId) && r.value.id !in old(db.cards)
      && r.value == Card(r.value.id, deckId, Trim(front), Trim(back),
                         ResolvedPosition(position, PositionsOf(old(db.cards), deckId)), old(db.clock) + 1)
      && db.cards == old(db.cards)[r.value.id := r.value]
      && db.clock == old(db.clock) + 2
      && db.nextCardId == old(db.nextCardId) + 1 && db.nextDeckId == old(db.nextDeckId)
      && db.decks == old(db.decks)[deckId := old(db.decks)[deckId].(updatedAt := db.clock)]
  {
    var problem := CreateCardError(db.decks, caller, deckId, front, back);
    if problem.Some? {
      return Err(problem.value);
    }
    TrimKeepsContent(front);
    TrimKeepsContent(back);
    var pos := NextPosition(db, deckId, position);
    var card := db.InsertCard(deckId, Trim(front), Trim(back), pos);
    db.TouchDeck(deckId);
    r := Ok(card);
  }

  /** `getCard`: a card of one of the caller's decks, with that deck. */
  method GetCard(db: Database, caller: Option<string>, cardId: int) returns (r: Outcome<CardWithDeck>)
    requires db.Valid()
    ensures r.Err? <==> CardAccessError(db.decks, db.cards, caller, cardId).Some?
    ensures r.Err? ==> r.error == CardAccessError(db.decks, db.cards, caller, cardId).value
    ensures r.Ok? ==> r.value == CardWithDeck(db.cards[cardId], db.decks[db.cards[cardId].deckId])
  {
    var problem := CardAccessError(db.decks, db.cards, caller, cardId);
    if problem.Some? {
      return Err(problem.value);
    }
    var card := db.cards[cardId];
    r := Ok(CardWithDeck(card, db.decks[card.deckId]));
  }

  /**
   * `updateCard`: a partial update of one card; a given front or back is trimmed, a given
   * position is stored as it is, no other card moves, and the parent deck's `updatedAt`
   * moves to a fresh time.
   */
  method UpdateCard(db: Database, caller: Option<string>, cardId: int,
                    front: Option<string>, back: Option<string>, position: Option<int>)
    returns (r: Outcome<Card>)
    requires db.Valid()
    modifies db
    ensures db.Valid()
    ensures old(db.ContentValid()) ==> db.ContentValid()
    ensures r.Err? <==> UpdateCardError(old(db.decks), old(db.cards), caller, cardId, front, back).Some?
    ensures r.Err? ==> r.error == UpdateCardError(old(db.decks), old(db.cards), caller, cardId, front, back).value && unchanged(db)
    ensures r.Ok? ==>
      var before := old(db.cards)[cardId];
      && r.value == before.(
                      front := if front.Some? then Trim(front.value) else before.front,
                      back := if back.Some? then Trim(back.value) else before.back,
                      position := position.GetOr(before.position))
      && db.cards == old(db.cards)[cardId := r.value]
      && db.nextDeckId == old(db.nextDeckId) && db.nextCardId == old(db.nextCardId)
      && db.clock == old(db.clock) + 1
      && db.decks == old(db.decks)[before.deckId := old(db.decks)[before.deckId].(updatedAt := db.clock)]
      && db.decks[before.deckId].updatedAt > old(db.decks)[before.deckId].updatedAt
  {
    var problem := UpdateCardError(db.decks, db.cards, caller, cardId, front, back);
    if problem.Some? {
      return Err(problem.value);
    }
    var before := db.cards[cardId];
    var deckId := before.deckId;
    var newFront, newBack := TrimOptional(front), TrimOptional(back);
    if front.Some? { TrimKeepsContent(front.value); }
    if back.Some? { TrimKeepsContent(back.value); }
    var updated := db.UpdateCardRow(cardId, newFront, newBack, position);
    db.TouchDeck(deckId);
    r := Ok(updated);
  }

  /** `deleteCard`: exactly that card goes; the others keep their positions. */
  method DeleteCard(db: Database, caller: Option<string>, cardId: int) returns (r: Outcome<()>)
    requires db.Valid()
    modifies db
    ensures db.Valid()
    ensures old(db.ContentValid()) ==> db.ContentValid()
    ensures r.Err? <==> CardAccessError(old(db.decks), old(db.cards), caller, cardId).Some?
    ensures r.Err? ==> r.error == CardAccessError(old(db.decks), old(db.cards), caller, cardId).value && unchanged(db)
    ensures r.Ok? ==>
      var deckId := old(db.cards)[cardId].deckId;
      && db.cards == old(db.cards) - {cardId}
      && db.nextDeckId == old(db.nextDeckId) && db.nextCardId == old(db.nextCardId)
      && db.clock == old(db.clock) + 1
      && db.decks == old(db.decks)[deckId := old(db.decks)[deckId].(updatedAt := db.clock)]
  {
    var problem := CardAccessError(db.decks, db.cards, caller, cardId);
    if problem.Some? {
      return Err(problem.value);
    }
    var deckId := db.cards[cardId].deckId;
    db.DeleteCardRow(cardId);
    db.TouchDeck(deckId);
    r := Ok(());
  }

  /** `getDeckCards`: the cards of one of the caller's decks, each once, by ascending position. */
  method GetDeckCards(db: Database, caller: Option<string>, deckId: int) returns (r: Outcome<seq<Card>>)
    ensures r.Err? <==> OwnedDeckError(db.decks, caller, deckId).Some?
    ensures r.Err? ==> r.error == OwnedDeckError(db.decks, caller, deckId).value
    ensures r.Ok? ==> multiset(r.value) == multiset(CardsOf(db.cards, deckId))
    ensures r.Ok? ==> forall i, j :: 0 <= i < j < |r.value| ==> r.value[i].position <= r.value[j].position
  {
    var problem := OwnedDeckError(db.decks, caller, deckId);
    if problem.Some? {
      return Err(problem.value);
    }
    var ordered := db.CardsByPosition(deckId);
    r := Ok(ordered);
  }
}
