/**
 * Client code run against a fresh store, showing what the action contracts let a
 * caller conclude without looking inside them.
 */
module Scenarios {
  import opened Wrappers
  import opened Text
  import opened Schema
  import opened Errors
  import opened Db
  import DeckActions
  import CardActions

  /** In a new deck, the first card added without a position gets 0, the second gets 1. */
  method AutoPositionsStartAtZero() returns (first: int, second: int)
    ensures first == 0 && second == 1
  {
    ScenarioWordsNotBlank();
    var db := new Database();
    var deck := DeckActions.CreateDeck(db, Some("user"), "Spanish", None);
    var deckId := deck.value.id;
    assert OwnedBy(db.decks, deckId, Some("user"));
    assert PositionsOf(db.cards, deckId) == {};
    var one := CardActions.CreateCard(db, Some("user"), deckId, "hola", "hello", None);
    first := one.value.position;
    FirstTwoAutoPositions();
    assert OwnedBy(db.decks, deckId, Some("user"));
    SingleCardPositions(one.value);
    ghost var positions := PositionsOf(db.cards, deckId);
    assert positions == {0};
    var two := CardActions.CreateCard(db, Some("user"), deckId, "adiós", "goodbye", None);
    second := two.value.position;
  }

  /** The position rule on its own: 0 in an empty deck, then 1 once a card sits at 0. */
  lemma {:induction false} FirstTwoAutoPositions()
    ensures CardActions.ResolvedPosition(None, {}) == 0
    ensures CardActions.ResolvedPosition(None, {0}) == 1
  {
    var p := CardActions.ResolvedPosition(None, {0});
    assert p - 1 in {0};
  }

  /** A store holding one card has that card's position as the only one of its deck. */
  lemma SingleCardPositions(c: Card)
    ensures PositionsOf(map[c.id := c], c.deckId) == {c.position}
  {
    var m := map[c.id := c];
    assert c.id in m && m[c.id].deckId == c.deckId;
    assert c.position in PositionsOf(m, c.deckId);
  }

  /** After a deck is deleted, listing its cards fails and no card of it is left. */
  method DeletedDeckHasNoCards() returns (cardsLeft: set<Card>, listing: Outcome<seq<Card>>)
    ensures cardsLeft == {}
    ensures listing == Err(DeckNotFoundOrUnauthorized)
  {
    ScenarioWordsNotBlank();
    var db := new Database();
    var deck := DeckActions.CreateDeck(db, Some("user"), "Capitals", None);
    var deckId := deck.value.id;
    var card := CardActions.CreateCard(db, Some("user"), deckId, "France", "Paris", Some(3));
    var gone := DeckActions.DeleteDeck(db, Some("user"), deckId);
    cardsLeft := CardsOf(db.cards, deckId);
    listing := CardActions.GetDeckCards(db, Some("user"), deckId);
  }

  /** An empty user id fails the `!userId` test, so it is refused like a missing one. */
  lemma EmptyUserIdIsSignedOut()
    ensures DeckActions.CreateDeckError(Some(""), "Spanish") == Some(Unauthorized)
    ensures CardActions.OwnedDeckError(map[], Some(""), 1) == Some(Unauthorized)
  {
  }

  /** A name of exactly 255 characters passes the name rule; one of 256 does not. */
  lemma {:induction false} NameLengthBoundary()
    ensures DeckActions.NameError(seq(255, _ => 'x'), DeckNameRequired) == None
    ensures DeckActions.NameError(seq(256, _ => 'x'), DeckNameRequired) == Some(DeckNameTooLong)
  {
    var long := seq(256, _ => 'x');
    assert !IsWhitespace(long[0]) && !IsWhitespace(long[..255][0]);
    assert long[..255] == seq(255, _ => 'x');
  }

  /** Surrounding spaces are dropped: `"  hi  "` is stored as `"hi"`. */
  lemma {:induction false} TrimDropsSurroundingSpaces()
    ensures Trim("  hi  ") == "hi"
  {
    LeadingSpacesDropped();
    TrailingSpacesDropped();
  }

  /** The two leading spaces of `"  hi  "` go, one at a time. */
  lemma {:induction false} LeadingSpacesDropped()
    ensures TrimStart("  hi  ") == "hi  "
  {
    var s := "  hi  ";
    assert IsWhitespace(s[0]) && IsWhitespace(s[1]) && !IsWhitespace(s[2]);
    assert s[1..][1..] == s[2..] == "hi  ";
    assert TrimStart(s) == TrimStart(s[1..]);
    assert TrimStart(s[1..]) == TrimStart(s[1..][1..]);
  }

  /** The two trailing spaces of `"hi  "` go, one at a time. */
  lemma {:induction false} TrailingSpacesDropped()
    ensures TrimEnd("hi  ") == "hi"
  {
    var t := "hi  ";
    assert IsWhitespace(t[3]) && IsWhitespace(t[2]) && !IsWhitespace(t[1]);
    assert t[..3][..2] == t[..2] == "hi";
    assert TrimEnd(t) == TrimEnd(t[..3]);
    assert TrimEnd(t[..3]) == TrimEnd(t[..3][..2]);
  }

  /** The words the scenarios use are not blank. */
  lemma {:induction false} ScenarioWordsNotBlank()
    ensures !IsBlank("Spanish") && !IsBlank("hola") && !IsBlank("hello") && !IsBlank("adiós") && !IsBlank("goodbye")
    ensures !IsBlank("Capitals") && !IsBlank("France") && !IsBlank("Paris")
  {
    assert !IsWhitespace('S') && !IsWhitespace('h') && !IsWhitespace('a') && !IsWhitespace('g');
    assert !IsWhitespace('C') && !IsWhitespace('F') && !IsWhitespace('P');
    assert "Spanish"[0] == 'S' && "hola"[0] == 'h' && "hello"[0] == 'h' && "adiós"[0] == 'a' && "goodbye"[0] == 'g';
    assert "Capitals"[0] == 'C' && "France"[0] == 'F' && "Paris"[0] == 'P';
  }
}
