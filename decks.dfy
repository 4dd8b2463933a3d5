/**
 * The deck actions: create, list, fetch, update and delete a deck on behalf of the
 * signed-in user, passed in as `caller` (`None` when nobody is signed in). Checks run
 * in the order sign-in, existence, ownership, then the name rule, and no check that
 * fails leaves a trace in the store.
 */
module DeckActions {
  import opened Wrappers
  import opened Text
  import opened Schema
  import opened Errors
  import opened Db

  /**
   * The name rule of create and update: a blank name fails with the action's own
   * `blank` error before the length is looked at, and the limit applies to the name as
   * given, before trimming.
   */
  function NameError(name: string, blank: Error): (r: Option<Error>)
    ensures IsBlank(name) ==> r == Some(blank)
    ensures !IsBlank(name) && |name| > MaxNameLength ==> r == Some(DeckNameTooLong)
    ensures r == None <==> !IsBlank(name) && |name| <= MaxNameLength
  {
    if Trim(name) == [] then Some(blank)
    else if |name| > MaxNameLength then Some(DeckNameTooLong)
    else None
  }

  /** The checks of `getDeck`, `updateDeck` and `deleteDeck`, in order: sign-in, existence, ownership. */
  function DeckAccessError(decks: map<int, Deck>, caller: Option<string>, deckId: int): (r: Option<Error>)
    ensures !SignedIn(caller) ==> r == Some(Unauthorized)
    ensures SignedIn(caller) && deckId !in decks ==> r == Some(DeckNotFound)
    ensures SignedIn(caller) && deckId in decks && decks[deckId].userId != caller.value ==> r == Some(Unauthorized)
    ensures r == None <==> OwnedBy(decks, deckId, caller)
  {
    if !SignedIn(caller) then Some(Unauthorized)
    else if deckId !in decks then Some(DeckNotFound)
    else if decks[deckId].userId != caller.value then Some(Unauthorized)
    else None
  }

  /** Every check of `createDeck`, in order: sign-in, then the name rule. */
  function CreateDeckError(caller: Option<string>, name: string): (r: Option<Error>)
    ensures !SignedIn(caller) ==> r == Some(Unauthorized)
    ensures SignedIn(caller) ==> r == NameError(name, DeckNameRequired)
    ensures r == None <==> SignedIn(caller) && !IsBlank(name) && |name| <= MaxNameLength
  {
    if !SignedIn(caller) then Some(Unauthorized) else NameError(name, DeckNameRequired)
  }

  /** Every check of `updateDeck`, in order: sign-in, existence, ownership, then the rule on a given name. */
  function UpdateDeckError(decks: map<int, Deck>, caller: Option<string>, deckId: int, name: Option<string>): (r: Option<Error>)
    ensures DeckAccessError(decks, caller, deckId).Some? ==> r == DeckAccessError(decks, caller, deckId)
    ensures DeckAccessError(decks, caller, deckId).None? && name.Some? ==> r == NameError(name.value, DeckNameCannotBeEmpty)
    ensures r == None <==> OwnedBy(decks, deckId, caller) && (name.Some? ==> !IsBlank(name.value) && |name.value| <= MaxNameLength)
  {
    var access := DeckAccessError(decks, caller, deckId);
    if access.Some? then access
    else if name.Some? then NameError(name.value, DeckNameCannotBeEmpty)
    else None
  }

  /** `createDeck`: a new deck of the caller's, with a trimmed name and description. */
  method CreateDeck(db: Database, caller: Option<string>, name: string, description: Option<string>)
    returns (r: Outcome<Deck>)
    requires db.Valid()
    modifies db
    ensures db.Valid()
    ensures old(db.ContentValid()) ==> db.ContentValid()
    ensures r.Err? <==> CreateDeckError(caller, name).Some?
    ensures r.Err? ==> r.error == CreateDeckError(caller, name).value && unchanged(db)
    ensures r.Ok? ==>
      && r.value.id == old(db.nextDeckId) && r.value.id !in old(db.decks)
      && r.value == Deck(r.value.id, caller.value, Trim(name), TrimOptional(description), db.clock, db.clock)
      && db.clock == old(db.clock) + 1
      && db.decks == old(db.decks)[r.value.id := r.value]
      && db.cards == old(db.cards)
      && db.nextDeckId == old(db.nextDeckId) + 1 && db.nextCardId == old(db.nextCardId)
  {
    var problem := CreateDeckError(caller, name);
    if problem.Some? {
      return Err(problem.value);
    }
    TrimKeepsContent(name);
    var deck := db.InsertDeck(caller.value, Trim(name), TrimOptional(description));
    r := Ok(deck);
  }

  /** `getUserDecks`: the caller's decks with their cards, each once, most recently updated first. */
  method GetUserDecks(db: Database, caller: Option<string>) returns (r: Outcome<seq<DeckWithCards>>)
    ensures !SignedIn(caller) ==> r == Err(Unauthorized)
    ensures SignedIn(caller) ==> r.Ok?
    ensures r.Ok? ==> multiset(r.value) == multiset(DeckListing(db.decks, db.cards, caller.value))
    ensures r.Ok? ==> forall i, j :: 0 <= i < j < |r.value| ==> r.value[i].deck.updatedAt >= r.value[j].deck.updatedAt
  {
    if !SignedIn(caller) {
      return Err(Unauthorized);
    }
    var listing := db.DecksByRecency(caller.value);
    r := Ok(listing);
  }

  /** `getDeck`: one deck of the caller's, with its cards. */
  method GetDeck(db: Database, caller: Option<string>, deckId: int) returns (r: Outcome<DeckWithCards>)
    ensures r.Err? <==> DeckAccessError(db.decks, caller, deckId).Some?
    ensures r.Err? ==> r.error == DeckAccessError(db.decks, caller, deckId).value
    ensures r.Ok? ==> r.value == DeckWithCards(db.decks[deckId], CardsOf(db.cards, deckId))
  {
    var problem := DeckAccessError(db.decks, caller, deckId);
    if problem.Some? {
      return Err(problem.value);
    }
    r := Ok(DeckWithCards(db.decks[deckId], CardsOf(db.cards, deckId)));
  }

  /**
   * `updateDeck`: a partial update; only the given name and description change, each
   * trimmed, and `updatedAt` moves to a fresh time whatever was given.
   */
  method UpdateDeck(db: Database, caller: Option<string>, deckId: int, name: Option<string>, description: Option<string>)
    returns (r: Outcome<Deck>)
    requires db.Valid()
    modifies db
    ensures db.Valid()
    ensures old(db.ContentValid()) ==> db.ContentValid()
    ensures r.Err? <==> UpdateDeckError(old(db.decks), caller, deckId, name).Some?
    ensures r.Err? ==> r.error == UpdateDeckError(old(db.decks), caller, deckId, name).value && unchanged(db)
    ensures r.Ok? ==>
      && r.value == old(db.decks)[deckId].(
                      name := if name.Some? then Trim(name.value) else old(db.decks)[deckId].name,
                      description := if description.Some? then Some(Trim(description.value)) else old(db.decks)[deckId].description,
                      updatedAt := db.clock)
      && r.value.updatedAt > old(db.decks)[deckId].updatedAt
      && db.clock == old(db.clock) + 1
      && db.decks == old(db.decks)[deckId := r.value]
      && db.cards == old(db.cards)
      && db.nextDeckId == old(db.nextDeckId) && db.nextCardId == old(db.nextCardId)
  {
    var problem := UpdateDeckError(db.decks, caller, deckId, name);
    if problem.Some? {
      return Err(problem.value);
    }
    if name.Some? {
      TrimKeepsContent(name.value);
    }
    var deck := db.UpdateDeckRow(deckId, TrimOptional(name), TrimOptional(description));
    r := Ok(deck);
  }

  /** `deleteDeck`: the deck goes, and with it every card of the deck. */
  method DeleteDeck(db: Database, caller: Option<string>, deckId: int) returns (r: Outcome<()>)
    requires db.Valid()
    modifies db
    ensures db.Valid()
    ensures old(db.ContentValid()) ==> db.ContentValid()
    ensures r.Err? <==> DeckAccessError(old(db.decks), caller, deckId).Some?
    ensures r.Err? ==> r.error == DeckAccessError(old(db.decks), caller, deckId).value && unchanged(db)
    ensures r.Ok? ==>
      && db.decks == old(db.decks) - {deckId}
      && db.cards == WithoutDeck(old(db.cards), deckId)
      && CardsOf(db.cards, deckId) == {}
      && (forall d :: d != deckId ==> CardsOf(db.cards, d) == CardsOf(old(db.cards), d))
      && db.clock == old(db.clock)
      && db.nextDeckId == old(db.nextDeckId) && db.nextCardId == old(db.nextCardId)
  {
    var problem := DeckAccessError(db.decks, caller, deckId);
    if problem.Some? {
      return Err(problem.value);
    }
    CascadeDelete(db.decks, db.cards, deckId);
    db.DeleteDeckRow(deckId);
    r := Ok(());
  }
}
