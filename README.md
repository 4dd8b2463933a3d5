# Flashcard data layer

This project models the data layer of a flashcard application. Signed-in users own
decks of cards. Each card has a front, a back and a position inside its deck.

The model covers three parts of the source:

- the deck server actions (`createDeck`, `getUserDecks`, `getDeck`, `updateDeck`, `deleteDeck`);
- the card server actions (`createCard`, `getCard`, `updateCard`, `deleteCard`, `getDeckCards`);
- the `decks` and `cards` tables they run against.

The store is a class `Db.Database`. It holds:

- the two tables, as maps from id to row;
- the two serial id sequences;
- a logical clock that stands in for the current time.

Each action is a method. The signed-in user's id is passed in as `caller: Option<string>`.
The source's `if (!userId)` test refuses both a missing id and the empty string, so
`Schema.SignedIn` holds only for `Some(u)` with `u` not empty. A thrown error becomes
`Err(e)` of an `Outcome`.

Every mutating action promises four things in its contract:

- it fails exactly when its guard function (`CreateCardError`, `UpdateDeckError`, ...) reports an error;
- the guard function states the order of the checks: sign-in, then existence and ownership, then the text rules;
- a failed action leaves the store unchanged;
- a successful action leaves the store in a state the contract spells out completely: both tables, the clock and both serial sequences.

Every action keeps `Db.Database.Valid()`. Every action also keeps `Db.Database.ContentValid()` whenever it held before the call; the actions work on any valid store, including one that already holds a blank row.

`Valid()` is what the schema guarantees:

- rows are stored under their serial id;
- every id was handed out before, so a new id is fresh;
- times never run ahead of the clock;
- every card refers to a deck that exists, which the cascading delete keeps true.

`ContentValid()` is what the actions guarantee on top of that:

- no stored deck name is blank or longer than 255;
- no stored card front or back is blank.

Module layout:

| file | module | contents |
|---|---|---|
| `wrappers.dfy` | `Wrappers` | `Option` and `Result` |
| `text.dfy` | `Text` | JavaScript `String.prototype.trim` over the ECMAScript whitespace and line-terminator characters |
| `ordering.dfy` | `Ordering` | sorted insertion by an integer key, the maximum of a set of integers |
| `schema.dfy` | `Schema` | rows, relations, the consistency predicates, the cascade |
| `errors.dfy` | `Errors` | one constructor per thrown message |
| `db.dfy` | `Db` | the store: one method per storage statement, and the ordered queries as loops |
| `decks.dfy` | `DeckActions` | the deck actions |
| `cards.dfy` | `CardActions` | the card actions |
| `scenarios.dfy` | `Scenarios` | client code that uses only the action contracts |

Notes on the source's behaviour that the model keeps as written:

- `getDeckCards` reports a missing deck and another user's deck with the same error, "Deck not found or unauthorized", just as `createCard` does (app/actions/cards.ts:146-149).
- A card position has no lower bound. A supplied negative position is stored as given (app/actions/cards.ts:33-34, lib/db/schema.ts:18).
- A deck name of exactly 255 characters is accepted, and the limit is checked on the untrimmed name (app/actions/decks.ts:17, 73). The error message still reads "must be less than 255 characters".
- In `createCard`, an explicit position 0 means "put it last", the same as giving no position (app/actions/cards.ts:33-34). `CardActions.ZeroRequestIsAuto` states the consequence: `createCard` places a card at 0 only in an empty deck, or when the highest position is -1. `updateCard` has no such rule and stores a given 0 as it is (app/actions/cards.ts:102), so an existing card can be moved to 0 in any deck.

## Model

| member | source | states |
|---|---|---|
| Text.Trim | app/actions/decks.ts:14-16 | `s.trim()` is a contiguous middle part of `s` with only whitespace cut from either end; it is empty exactly when `s` is blank, and otherwise neither starts nor ends with whitespace |
| Text.TrimIdempotent | app/actions/decks.ts:23 | trimming a stored (already trimmed) value again changes nothing |
| Text.TrimKeepsContent | app/actions/cards.ts:25-30 | a value that passes the "not blank after trim" check is stored as a non-blank trimmed value |
| Ordering.InsertBy | app/actions/cards.ts:153 | inserting into a sequence sorted by a key keeps it sorted and adds exactly that element (multiset) |
| Ordering.Highest | app/actions/cards.ts:35-39 | the largest element of a set of positions, `None` exactly when the set is empty |
| Schema.CascadeDelete | lib/db/schema.ts:15 | after the cascade, the deleted deck has no cards, every other deck's cards are as before, and every remaining card still refers to an existing deck |
| Db.Database.constructor | lib/db/schema.ts:4-20 | the store starts with empty tables, both serial sequences at 1, and satisfies both invariants |
| Db.Database.Now | app/actions/decks.ts:82 | reading the time yields a time strictly later than every time read before |
| Db.Database.InsertDeck | lib/db/schema.ts:4-11 | the new deck gets a fresh serial id not in the table and `createdAt == updatedAt ==` now; nothing else in the table changes; the content rules survive when the name obeys them |
| Db.Database.UpdateDeckRow | app/actions/decks.ts:78-85 | only the given name and description change, `updatedAt` is set to a fresh time, `id`, `userId` and `createdAt` stay; no other deck changes |
| Db.Database.TouchDeck | app/actions/cards.ts:50-52 | only that deck's `updatedAt` moves, to a fresh time; a missing deck matches no row |
| Db.Database.DeleteDeckRow | app/actions/decks.ts:103 | the deck is removed and the card table loses exactly that deck's cards; both invariants are kept |
| Db.Database.InsertCard | app/actions/cards.ts:42-47 | the new card gets a fresh serial id not in the table and `createdAt` now; no other card changes |
| Db.Database.UpdateCardRow | app/actions/cards.ts:98-105 | only the given front, back and position of that card change; `deckId` and every other card stay |
| Db.Database.DeleteCardRow | app/actions/cards.ts:129 | exactly that card is removed |
| Db.Database.HighestPosition | app/actions/cards.ts:35-39 | the first row of the descending-position query: the highest position in the deck, `None` when the deck has no cards |
| Db.Database.CardsByPosition | app/actions/cards.ts:151-154 | exactly the deck's cards, each once, in ascending position |
| Db.Database.DecksByRecency | app/actions/decks.ts:35-39 | exactly the user's decks, each with its cards, each once, with `updatedAt` non-increasing |
| DeckActions.NameError | app/actions/decks.ts:14-19 | a blank name gives the action's blank-name error before length is checked; a non-blank name over 255 raw characters gives the too-long error; otherwise no error |
| DeckActions.DeckAccessError | app/actions/decks.ts:42-52 | not signed in gives Unauthorized; then a missing deck gives "Deck not found"; then another user's deck gives Unauthorized; no error exactly when the caller owns the deck |
| DeckActions.CreateDeckError | app/actions/decks.ts:9-19 | sign-in is checked before the name; no error exactly when signed in with a non-blank name of at most 255 characters |
| DeckActions.UpdateDeckError | app/actions/decks.ts:57-76 | access errors come before the name rule, which applies only when a name is given; no error exactly when the caller owns the deck and any given name is valid |
| DeckActions.CreateDeck | app/actions/decks.ts:9-29 | fails exactly on a guard error and then changes nothing; otherwise inserts one deck owned by the caller with the trimmed name, trimmed or absent description, fresh id and equal timestamps, and changes nothing else |
| DeckActions.GetUserDecks | app/actions/decks.ts:31-40 | Unauthorized unless signed in (a missing or empty user id); otherwise exactly the caller's decks with their cards, each once, newest `updatedAt` first |
| DeckActions.GetDeck | app/actions/decks.ts:42-55 | fails exactly on an access error; otherwise the deck with exactly its cards |
| DeckActions.UpdateDeck | app/actions/decks.ts:57-90 | fails exactly on a guard error and then changes nothing; otherwise only the given fields change, trimmed, and `updatedAt` becomes strictly later; no other deck and no card changes |
| DeckActions.DeleteDeck | app/actions/decks.ts:92-107 | fails exactly on an access error and then changes nothing; otherwise the deck and exactly its cards are removed, and every other deck's cards are unchanged |
| CardActions.ResolvedPosition | app/actions/cards.ts:33-40 | a non-zero requested position is stored verbatim; an omitted or 0 request gives 0 in an empty deck and otherwise one more than the highest position, so strictly above every existing position |
| CardActions.ZeroRequestIsAuto | app/actions/cards.ts:33-34 | requesting 0 is the same as requesting nothing, and yields 0 only in an empty deck or when the highest position is -1 |
| CardActions.NextPosition | app/actions/cards.ts:33-40 | the position step computes the position rule over the deck's current positions |
| CardActions.OwnedDeckError | app/actions/cards.ts:15-22 | not signed in gives Unauthorized; a missing deck and another user's deck give the same error; no error exactly when the caller owns the deck |
| CardActions.CardAccessError | app/actions/cards.ts:79-88 | not signed in gives Unauthorized; then a missing card gives "Card not found"; then a card of another user's deck gives Unauthorized; no error exactly when the caller owns the card's deck |
| CardActions.CardTextError | app/actions/cards.ts:25-30 | a blank front fails before the back is looked at; no error exactly when both are non-blank |
| CardActions.CardEditError | app/actions/cards.ts:91-96 | only a given front or back is checked, the front first; no error exactly when every given one is non-blank |
| CardActions.CreateCardError | app/actions/cards.ts:15-30 | the deck check comes before the text rule; no error exactly when the caller owns the deck and front and back are non-blank |
| CardActions.UpdateCardError | app/actions/cards.ts:79-96 | the access check comes before the text rule; no error exactly when the caller owns the card's deck and every given text is non-blank |
| CardActions.CreateCard | app/actions/cards.ts:9-57 | fails exactly on a guard error and then changes nothing; otherwise adds one card with a fresh id, the given deck, trimmed text and the position rule's position, and refreshes only that deck's `updatedAt` |
| CardActions.GetCard | app/actions/cards.ts:59-72 | fails exactly on an access error; otherwise the card with its parent deck |
| CardActions.UpdateCard | app/actions/cards.ts:74-115 | fails exactly on a guard error and then changes nothing; otherwise only the given fields of that card change, the text trimmed and the position as given, no other card moves, and the parent deck's `updatedAt` becomes strictly later |
| CardActions.DeleteCard | app/actions/cards.ts:117-139 | fails exactly on an access error and then changes nothing; otherwise exactly that card goes, its siblings keep their positions, and the parent deck's `updatedAt` is refreshed |
| CardActions.GetDeckCards | app/actions/cards.ts:141-155 | fails exactly when the caller does not own the deck; otherwise exactly the deck's cards, each once, in ascending position |
| Scenarios.AutoPositionsStartAtZero | app/actions/cards.ts:33-40 | in a new deck, the first card added without a position gets 0 and the second gets 1 |
| Scenarios.FirstTwoAutoPositions | app/actions/cards.ts:39 | the position rule gives 0 for an empty deck and 1 for a deck whose only position is 0 |
| Scenarios.DeletedDeckHasNoCards | lib/db/schema.ts:15 | after a deck with a card is deleted, no card of it remains and listing its cards fails |
| Scenarios.EmptyUserIdIsSignedOut | app/actions/decks.ts:10-11 | an empty user id is refused with Unauthorized, as a missing one is |
| Scenarios.NameLengthBoundary | app/actions/decks.ts:17-19 | a 255-character name passes the name rule and a 256-character one is too long |
| Scenarios.TrimDropsSurroundingSpaces | app/actions/decks.ts:23 | surrounding spaces are dropped: `"  hi  "` trims to `"hi"` |

## Left out

- Sign-in via the auth provider is not modelled. The signed-in user id is the `caller` parameter.
- `revalidatePath` is left out. It invalidates a page cache and has no effect on the store.
- The query builder and the database engine are left out. The tables are maps, and each storage statement is one method of `Db.Database`.
- `Date` is modelled as a single logical clock. Each read of the current time advances the clock by one. Only the order of times is modelled.
- The source has two time sources. Inserted rows take the database's `now()` through `defaultNow()` (lib/db/schema.ts:9-10, 19). Updates take the application server's millisecond `new Date()` (app/actions/decks.ts:82, app/actions/cards.ts:51, 109, 133). Two updates in the same millisecond get equal times, and the two clocks may disagree. So the model's promises that `updatedAt` becomes strictly later (`DeckActions.UpdateDeck`, `CardActions.UpdateCard`) and that `createdAt <= updatedAt` (`Db.Database.Valid`) hold for the single clock only; the source guarantees neither.
- Races between concurrent requests are left out. So is the non-atomic pair "write the card, then touch the deck". The model is sequential and every method runs to completion.
- String length is the number of characters in the Dafny string. JavaScript counts UTF-16 code units, so a name containing characters outside the Basic Multilingual Plane is measured shorter here than in the source.
- Ids and positions are unbounded integers. The source receives JavaScript numbers, which could be fractional, and stores them in 32-bit `serial`/`integer` columns. Column overflow and non-integer input are not modelled.
- `CardActions.UpdateCard`: a call that gives none of front, back or position is modelled as an update that changes no field of the card. The query builder may instead reject an empty `SET` list, and that library behaviour is not modelled.
- The relation queries (`with: { cards: true }`) return related cards in no guaranteed order, so they are modelled as a `set`.
- Ties between equal positions or equal `updatedAt` values are ordered arbitrarily, as the queries leave them unspecified.
- The `.tsx` pages and components are not part of this model. They render data and repeat the server checks on the client.
- `Errors.Error.Message` maps each error to its message text. It carries no contract; it only records the exact strings.
