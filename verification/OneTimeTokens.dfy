/** One-time tokens: the row and its two marks. */
module OneTimeTokens {
  import opened Text

  datatype Token = Token(user: int, expiresAt: int, consumedAt: Option<int>, deliveredAt: Option<int>) {
    predicate IsExpired(now: int) { expiresAt <= now }

    predicate IsConsumed() { consumedAt.Some? }

    predicate IsUsable(now: int) { !IsConsumed() && !IsExpired(now) }

    function Consume(now: int): Token { this.(consumedAt := Some(now)) }

    /** As issued: consumed from the start, and no mail sent yet. */
    predicate IsFresh(owner: int) { user == owner && IsConsumed() && deliveredAt.None? }
  }
}
