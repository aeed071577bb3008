/** The refresh_tokens table of auth.service.ts and the statements the service runs on it. */
module RefreshTokens {
  import opened Prelude

  /** A raw token. Hashing is taken to be injective, so a token names its row. */
  type Token = nat
  type User = nat
  type Family = nat

  datatype Row = Row(user: User, family: Family, consumedAt: Option<int>, expiresAt: int)

  type Table = map<Token, Row>

  /** What a token is signed with; `exp` is in whole seconds, as in section 4.1.4 of RFC 7519. */
  datatype Claims = Claims(sub: User, exp: int)

  /** Signature and expiry check: only tokens this service issued carry its signature. */
  predicate Verifies(issued: map<Token, Claims>, token: Token, now: int) {
    token in issued && now / 1000 < issued[token].exp
  }

  /** The signer truncates the clock to seconds before adding the lifetime. */
  function SignedExpiry(now: int, ttlMs: int): int {
    now / 1000 + ttlMs / 1000
  }

  /** A token that still verifies has a row the retention job must keep. */
  lemma SignedExpiryIsNotLater(now: int, ttlMs: int, later: int)
    ensures SignedExpiry(now, ttlMs) * 1000 <= now + ttlMs
    ensures later / 1000 < SignedExpiry(now, ttlMs) ==> later < now + ttlMs
  {
  }

  /** UPDATE ... WHERE id = :id AND consumed_at IS NULL, and whether it affected a row. */
  predicate Claimable(table: Table, token: Token) {
    token in table && table[token].consumedAt.None?
  }

  function Claim(table: Table, token: Token, now: int): Table
    requires Claimable(table, token)
  {
    table[token := table[token].(consumedAt := Some(now))]
  }

  function DeleteFamily(table: Table, family: Family): Table {
    map t | t in table && table[t].family != family :: table[t]
  }

  function DeleteUser(table: Table, user: User): Table {
    map t | t in table && table[t].user != user :: table[t]
  }

  /** The retention job: DELETE ... WHERE expires_at < now(). */
  function Purge(table: Table, now: int): Table {
    map t | t in table && table[t].expiresAt >= now :: table[t]
  }

  /** The grace rule: strictly younger than the window. A row that is gone counts as infinitely old. */
  predicate WithinGrace(table: Table, token: Token, now: int, graceMs: int) {
    token in table && table[token].consumedAt.Some? && now - table[token].consumedAt.value < graceMs
  }
}
