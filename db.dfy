/**
 * The store the actions run against: the `decks` and `cards` tables as maps from id to
 * row, the two serial sequences, and a logical clock that stands for the current time.
 * Each method is one statement the actions send to storage.
 */
module Db {
  import opened Wrappers
  import opened Ordering
  import opened Text
  import opened Schema

  /** Sort key of `ORDER BY position ASC`. */
  function ByPosition(c: Card): int {
    c.position
  }

  /** Sort key of `ORDER BY updatedAt DESC`: ascending in the negated time. */
  function ByRecency(e: DeckWithCards): int {
    0 - e.deck.updatedAt as int
  }

  class Database {
    var decks: map<int, Deck>
    var cards: map<int, Card>
    var nextDeckId: int
    var nextCardId: int
    var clock: nat

    /** The schema's guarantees hold. */
    ghost predicate Valid()
      reads this
    {
      Consistent(decks, cards, nextDeckId, nextCardId, clock)
    }

    /** The actions' field rules hold of every stored row. */
    ghost predicate ContentValid()
      reads this
    {
      Schema.ContentValid(decks, cards)
    }

    /** Empty tables; both serial sequences start at 1. */
    constructor ()
      ensures Valid() && ContentValid()
      ensures decks == map[] && cards == map[]
      ensures nextDeckId == 1 && nextCardId == 1 && clock == 0
    {
      decks, cards := map[], map[];
      nextDeckId, nextCardId := 1, 1;
      clock := 0;
    }

    /** The current time (`new Date()`, `defaultNow()`): later than every time read before. */
    method Now() returns (t: nat)
      requires Valid()
      modifies this`clock
      ensures Valid()
      ensures clock == old(clock) + 1 && t == clock
    {
      clock := clock + 1;
      t := clock;
    }

    /** `INSERT INTO decks ... RETURNING *`: a fresh serial id, both timestamps now. */
    method InsertDeck(userId: string, name: string, description: Option<string>) returns (d: Deck)
      requires Valid()
      modifies this`decks, this`nextDeckId, this`clock
      ensures Valid()
      ensures clock == old(clock) + 1
      ensures d == Deck(old(nextDeckId), userId, name, description, clock, clock)
      ensures d.id !in old(decks)
      ensures decks == old(decks)[d.id := d] && nextDeckId == old(nextDeckId) + 1
      ensures old(ContentValid()) && !IsBlank(name) && |name| <= MaxNameLength ==> ContentValid()
    {
      var t := Now();
      d := Deck(nextDeckId, userId, name, description, t, t);
      decks := decks[d.id := d];
      nextDeckId := nextDeckId + 1;
    }

    /**
     * `UPDATE decks SET ... updatedAt = now WHERE id = id RETURNING *`: only the given
     * name and description change, and `updatedAt` always does.
     */
    method UpdateDeckRow(id: int, name: Option<string>, description: Option<string>) returns (d: Deck)
      requires Valid() && id in decks
      modifies this`decks, this`clock
      ensures Valid()
      ensures clock == old(clock) + 1
      ensures d == old(decks)[id].(
                     name := name.GetOr(old(decks)[id].name),
                     description := if description.Some? then description else old(decks)[id].description,
                     updatedAt := clock)
      ensures decks == old(decks)[id := d]
      ensures old(ContentValid()) && (name.Some? ==> !IsBlank(name.value) && |name.value| <= MaxNameLength) ==> ContentValid()
    {
      var t := Now();
      d := decks[id].(
             name := name.GetOr(decks[id].name),
             description := if description.Some? then description else decks[id].description,
             updatedAt := t);
      decks := decks[id := d];
    }

    /** `UPDATE decks SET updatedAt = now WHERE id = id`; no row matches when the deck is gone. */
    method TouchDeck(id: int)
      requires Valid()
      modifies this`decks, this`clock
      ensures Valid()
      ensures clock == old(clock) + 1
      ensures decks == if id in old(decks) then old(decks)[id := old(decks)[id].(updatedAt := clock)] else old(decks)
      ensures old(ContentValid()) ==> ContentValid()
    {
      var t := Now();
      if id in decks {
        decks := decks[id := decks[id].(updatedAt := t)];
      }
    }

    /** `DELETE FROM decks WHERE id = id`, with the cascade to the deck's cards. */
    method DeleteDeckRow(id: int)
      requires Valid()
      modifies this`decks, this`cards
      ensures Valid()
      ensures decks == old(decks) - {id}
      ensures cards == WithoutDeck(old(cards), id)
      ensures old(ContentValid()) ==> ContentValid()
    {
      CascadeDelete(decks, cards, id);
      decks := decks - {id};
      cards := WithoutDeck(cards, id);
    }

    /** `INSERT INTO cards ... RETURNING *`: a fresh serial id, `createdAt` now. */
    method InsertCard(deckId: int, front: string, back: string, position: int) returns (c: Card)
      requires Valid() && deckId in decks
      modifies this`cards, this`nextCardId, this`clock
      ensures Valid()
      ensures clock == old(clock) + 1
      ensures c == Card(old(nextCardId), deckId, front, back, position, clock)
      ensures c.id !in old(cards)
      ensures cards == old(cards)[c.id := c] && nextCardId == old(nextCardId) + 1
      ensures old(ContentValid()) && !IsBlank(front) && !IsBlank(back) ==> ContentValid()
    {
      var t := Now();
      c := Card(nextCardId, deckId, front, back, position, t);
      cards := cards[c.id := c];
      nextCardId := nextCardId + 1;
    }

    /** `UPDATE cards SET ... WHERE id = id RETURNING *`: only the given fields change. */
    method UpdateCardRow(id: int, front: Option<string>, back: Option<string>, position: Option<int>) returns (c: Card)
      requires Valid() && id in cards
      modifies this`cards
      ensures Valid()
      ensures c == old(cards)[id].(
                     front := front.GetOr(old(cards)[id].front),
                     back := back.GetOr(old(cards)[id].back),
                     position := position.GetOr(old(cards)[id].position))
      ensures cards == old(cards)[id := c]
      ensures old(ContentValid()) && (front.Some? ==> !IsBlank(front.value)) && (back.Some? ==> !IsBlank(back.value)) ==> ContentValid()
    {
      c := cards[id].(
             front := front.GetOr(cards[id].front),
             back := back.GetOr(cards[id].back),
             position := position.GetOr(cards[id].position));
      cards := cards[id := c];
    }

    /** `DELETE FROM cards WHERE id = id`. */
    method DeleteCardRow(id: int)
      requires Valid()
      modifies this`cards
      ensures Valid()
      ensures cards == old(cards) - {id}
      ensures old(ContentValid()) ==> ContentValid()
    {
      cards := cards - {id};
    }

    /**
     * The position of the first row of `SELECT * FROM cards WHERE deckId = deckId ORDER BY
     * position DESC`: the largest position in the deck, `None` when it has no cards.
     */
    method HighestPosition(deckId: int) returns (top: Option<int>)
      ensures top == Highest(PositionsOf(cards, deckId))
    {
      top := None;
      var rest := cards.Keys;
      while rest != {}
        invariant rest <= cards.Keys
        invariant top.None? ==> forall k :: k in cards && k !in rest ==> cards[k].deckId != deckId
        invariant top.Some? ==> exists k :: k in cards && k !in rest && cards[k].deckId == deckId && cards[k].position == top.value
        invariant top.Some? ==> forall k :: k in cards && k !in rest && cards[k].deckId == deckId ==> cards[k].position <= top.value
        decreases rest
      {
        ghost var some := Member(rest);
        var k :| k in rest;
        if cards[k].deckId == deckId && (top.None? || top.value < cards[k].position) {
          top := Some(cards[k].position);
        }
        rest := rest - {k};
      }
      var positions := PositionsOf(cards, deckId);
      if top.Some? {
        assert top.value in positions;
      } else {
        assert positions == {};
      }
    }

    /** `SELECT * FROM cards WHERE deckId = deckId ORDER BY position ASC`: that deck's cards, each once, in order. */
    method CardsByPosition(deckId: int) returns (r: seq<Card>)
      ensures SortedBy(r, ByPosition)
      ensures multiset(r) == multiset(CardsOf(cards, deckId))
    {
      var all := CardsOf(cards, deckId);
      var rest := all;
      r := [];
      while rest != {}
        invariant rest <= all
        invariant SortedBy(r, ByPosition)
        invariant multiset(r) + multiset(rest) == multiset(all)
        decreases rest
      {
        ghost var some := Member(rest);
        var c :| c in rest;
        r := InsertBy(r, c, ByPosition);
        assert multiset(rest) == multiset(rest - {c}) + multiset{c};
        rest := rest - {c};
      }
    }

    /**
     * `SELECT * FROM decks WHERE userId = userId ORDER BY updatedAt DESC`, each deck with
     * its cards: that user's decks, each once, most recently updated first.
     */
    method DecksByRecency(userId: string) returns (r: seq<DeckWithCards>)
      ensures SortedBy(r, ByRecency)
      ensures multiset(r) == multiset(DeckListing(decks, cards, userId))
    {
      var all := DeckListing(decks, cards, userId);
      var rest := all;
      r := [];
      while rest != {}
        invariant rest <= all
        invariant SortedBy(r, ByRecency)
        invariant multiset(r) + multiset(rest) == multiset(all)
        decreases rest
      {
        ghost var some := Member(rest);
        var e :| e in rest;
        r := InsertBy(r, e, ByRecency);
        assert multiset(rest) == multiset(rest - {e}) + multiset{e};
        rest := rest - {e};
      }
    }
  }
}
