/** The errors the deck and card actions throw, one constructor per message. */
module Errors {
  import opened Wrappers

  datatype Error =
    | Unauthorized
    | DeckNotFound
    | DeckNotFoundOrUnauthorized
    | CardNotFound
    | DeckNameRequired
    | DeckNameCannotBeEmpty
    | DeckNameTooLong
    | CardFrontRequired
    | CardBackRequired
    | CardFrontCannotBeEmpty
    | CardBackCannotBeEmpty
  {
    /** The message the thrown `Error` carries. */
    function Message(): string {
      match this
      case Unauthorized => "Unauthorized"
      case DeckNotFound => "Deck not found"
      case DeckNotFoundOrUnauthorized => "Deck not found or unauthorized"
      case CardNotFound => "Card not found"
      case DeckNameRequired => "Deck name is required"
      case DeckNameCannotBeEmpty => "Deck name cannot be empty"
      case DeckNameTooLong => "Deck name must be less than 255 characters"
      case CardFrontRequired => "Card front is required"
      case CardBackRequired => "Card back is required"
      case CardFrontCannotBeEmpty => "Card front cannot be empty"
      case CardBackCannotBeEmpty => "Card back cannot be empty"
    }
  }

  /** What an action returns: its value, or the error it throws. */
  type Outcome<T> = Result<T, Error>
}
