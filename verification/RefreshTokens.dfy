/** The refresh-token table: rotation, revocation and batch cleanup, and what
    cleanup can and cannot be noticed by. */
module RefreshTokens {
  import opened Text

  type TokenId = nat
  type Hash = string
  type Time = int

  datatype Token = Token(user: string, hash: Hash, expiresAt: Time, revokedAt: Option<Time>, createdAt: Time) {
    predicate IsActive(now: Time) {
      revokedAt.None? && now < expiresAt
    }
  }

  type Tokens = map<TokenId, Token>

  /** The hash column is unique. */
  ghost predicate UniqueHashes(tokens: Tokens) {
    forall a, b :: a in tokens && b in tokens && tokens[a].hash == tokens[b].hash ==> a == b
  }

  predicate HasHash(tokens: Tokens, id: TokenId, hash: Hash) {
    id in tokens && tokens[id].hash == hash
  }

  ghost function Find(tokens: Tokens, hash: Hash): (r: Option<TokenId>)
    ensures r.Some? ==> HasHash(tokens, r.value, hash)
    ensures r.None? ==> forall id :: !HasHash(tokens, id, hash)
  {
    if id :| HasHash(tokens, id, hash) then Some(id) else None
  }

  // ------------------------------------------------------------- statements

  /** The guard of the rotating UPDATE. */
  predicate CanRotate(tokens: Tokens, id: TokenId, now: Time) {
    id in tokens && tokens[id].revokedAt.None? && tokens[id].expiresAt > now
  }

  /** One transaction: the current token is revoked and its replacement inserted. */
  function Rotate(tokens: Tokens, id: TokenId, now: Time, newId: TokenId, replacement: Token): Tokens
    requires CanRotate(tokens, id, now)
  {
    tokens[id := tokens[id].(revokedAt := Some(now))][newId := replacement]
  }

  /** Every other token is as it was. */
  ghost predicate OthersKept(before: Tokens, after: Tokens, ids: set<TokenId>) {
    forall id :: id !in ids ==> (id in after <==> id in before) && (id in before ==> after[id] == before[id])
  }

  /** The old token is revoked now, the replacement is in the table and open. */
  ghost predicate HandsOver(before: Tokens, after: Tokens, id: TokenId, now: Time, newId: TokenId, replacement: Token) {
    && id in before && id in after && after[id] == before[id].(revokedAt := Some(now))
    && newId in after && after[newId] == replacement
    && OthersKept(before, after, {id, newId})
  }

  /** COALESCE keeps the first revocation. */
  function Revoke(tokens: Tokens, id: TokenId, at: Time): Tokens
    requires id in tokens
  {
    tokens[id := tokens[id].(revokedAt := if tokens[id].revokedAt.Some? then tokens[id].revokedAt else Some(at))]
  }

  predicate Stale(token: Token, before: Time) {
    token.expiresAt < before || (token.revokedAt.Some? && token.revokedAt.value < before)
  }

  /** Expired before the time, or revoked before it. */
  predicate Outdated(token: Token, before: Time) {
    match token.revokedAt
    case None => token.expiresAt < before
    case Some(at) => token.expiresAt < before || at < before
  }

  ghost function Candidates(tokens: Tokens, before: Time): set<TokenId> {
    set id | id in tokens && Stale(tokens[id], before)
  }

  /** A set the batch delete may pick: the oldest candidates, as many as the batch allows. */
  ghost predicate IsBatch(tokens: Tokens, before: Time, size: nat, batch: set<TokenId>) {
    && batch <= Candidates(tokens, before)
    && |batch| == Min(size, |Candidates(tokens, before)|)
    && (forall id, other :: id in batch && other in Candidates(tokens, before) - batch ==>
          tokens[id].createdAt <= tokens[other].createdAt)
  }

  function Clean(tokens: Tokens, batch: set<TokenId>): Tokens {
    tokens - batch
  }

  // ------------------------------------------------------- calls, one at a time

  datatype UserState = UserEnabled | UserDisabled | UserMissing

  datatype RefreshError = InvalidRefreshToken | DisabledUser

  /** What a caller of Refresh supplies and what is drawn for it. */
  datatype RefreshCall = RefreshCall(hash: Hash, now: Time, user: string -> UserState,
                                     newId: TokenId, newHash: Hash, newExpiry: Time, createdAt: Time)

  /** The replacement's owner and expiry are what the caller gets to see. */
  datatype Grant = Grant(user: string, hash: Hash, expiresAt: Time)

  /** The answer and the table after an undisturbed Refresh. */
  ghost function Refreshed(tokens: Tokens, call: RefreshCall): (Tokens, Result<Grant, RefreshError>) {
    var found := Find(tokens, call.hash);
    if found.None? || !tokens[found.value].IsActive(call.now) then (tokens, Err(InvalidRefreshToken))
    else
      var token := tokens[found.value];
      match call.user(token.user)
      case UserMissing => (tokens, Err(InvalidRefreshToken))
      case UserDisabled => (tokens, Err(DisabledUser))
      case UserEnabled =>
        (Rotate(tokens, found.value, call.now, call.newId,
                Token(token.user, call.newHash, call.newExpiry, None, call.createdAt)),
         Ok(Grant(token.user, call.newHash, call.newExpiry)))
  }

  ghost function LoggedOut(tokens: Tokens, hash: Hash, at: Time): (Tokens, bool) {
    var found := Find(tokens, hash);
    if found.None? then (tokens, false) else (Revoke(tokens, found.value, at), true)
  }

  class TokenRepository {
    var tokens: Tokens

    constructor ()
      ensures tokens == map[]
    {
      tokens := map[];
    }

    method GetByHash(hash: Hash) returns (r: Option<TokenId>)
      requires UniqueHashes(tokens)
      ensures r == Find(tokens, hash)
    {
      if id :| id in tokens && tokens[id].hash == hash {
        assert HasHash(tokens, id, hash);
        r := Some(id);
      } else {
        r := None;
      }
    }

    method RotateRefreshToken(id: TokenId, newId: TokenId, replacement: Token, now: Time) returns (ok: bool)
      modifies this
      ensures ok <==> id in old(tokens) && old(tokens)[id].revokedAt.None? && now < old(tokens)[id].expiresAt
      ensures tokens == if ok then Rotate(old(tokens), id, now, newId, replacement) else old(tokens)
      ensures ok && newId !in old(tokens) ==> HandsOver(old(tokens), tokens, id, now, newId, replacement)
    {
      ok := id in tokens && tokens[id].revokedAt.None? && tokens[id].expiresAt > now;
      if ok {
        tokens := tokens[id := tokens[id].(revokedAt := Some(now))];
        tokens := tokens[newId := replacement];
      }
    }

    method RevokeByHash(hash: Hash, at: Time) returns (ok: bool)
      requires UniqueHashes(tokens)
      modifies this
      ensures (tokens, ok) == LoggedOut(old(tokens), hash, at)
      ensures ok <==> exists id :: HasHash(old(tokens), id, hash)
      ensures forall id :: HasHash(old(tokens), id, hash) ==>
                && id in tokens && tokens[id].revokedAt.Some? && OthersKept(old(tokens), tokens, {id})
                && tokens[id] == old(tokens)[id].(revokedAt := tokens[id].revokedAt)
                && tokens[id].revokedAt.value == (if old(tokens)[id].revokedAt.Some? then old(tokens)[id].revokedAt.value else at)
    {
      var found := GetByHash(hash);
      ok := found.Some?;
      if ok {
        var token := tokens[found.value];
        if token.revokedAt.None? {
          tokens := tokens[found.value := token.(revokedAt := Some(at))];
        }
        assert tokens == Revoke(old(tokens), found.value, at);
      }
    }

    /** Refresh: hash the text presented, read the token, check it, rotate it. */
    method Refresh(raw: string, hashOf: string -> Hash, call: RefreshCall) returns (r: Result<Grant, RefreshError>)
      requires UniqueHashes(tokens) && call.newId !in tokens
      modifies this
      ensures (tokens, r) == if TrimSpace(raw) == "" || hashOf(TrimSpace(raw)) == ""
                             then (old(tokens), Err(InvalidRefreshToken))
                             else Refreshed(old(tokens), call.(hash := hashOf(TrimSpace(raw))))
    {
      var text := TrimSpace(raw);
      if text == "" {
        return Err(InvalidRefreshToken);
      }
      var hash := hashOf(text);
      if hash == "" {
        return Err(InvalidRefreshToken);
      }
      var found := GetByHash(hash);
      if found.None? {
        return Err(InvalidRefreshToken);
      }
      var token := tokens[found.value];
      if !token.IsActive(call.now) {
        return Err(InvalidRefreshToken);
      }
      var state := call.user(token.user);
      if state.UserMissing? {
        return Err(InvalidRefreshToken);
      }
      if state.UserDisabled? {
        return Err(DisabledUser);
      }
      var replacement := Token(token.user, call.newHash, call.newExpiry, None, call.createdAt);
      var ok := RotateRefreshToken(found.value, call.newId, replacement, call.now);
      if !ok {
        return Err(InvalidRefreshToken);
      }
      r := Ok(Grant(token.user, call.newHash, call.newExpiry));
    }

    method CleanupExpiredTokens(before: Time, size: nat) returns (deleted: nat, batch: set<TokenId>)
      modifies this
      ensures IsBatch(old(tokens), before, size, batch)
      ensures tokens == Clean(old(tokens), batch) && deleted == |batch| <= size
      ensures OthersKept(old(tokens), tokens, batch) && forall id :: id in batch ==> id in old(tokens) && id !in tokens
      ensures forall id :: id in batch ==> Outdated(old(tokens)[id], before)
      ensures deleted < size ==> forall id :: id in tokens ==> !Outdated(tokens[id], before)
    {
      batch := PickBatch(tokens, before, size);
      if |batch| < size { WholeSet(batch, Candidates(tokens, before)); }
      tokens := tokens - batch;
      deleted := |batch|;
    }
  }

  lemma WholeSet(part: set<TokenId>, whole: set<TokenId>)
    requires part <= whole && |part| == |whole|
    ensures part == whole
  {
    assert whole == part + (whole - part);
  }

  /** Candidates are split into those picked and the younger ones left. */
  ghost predicate Picking(tokens: Tokens, before: Time, batch: set<TokenId>, left: set<TokenId>) {
    && batch !! left && batch + left == Candidates(tokens, before)
    && (forall id, other :: id in batch && other in left ==> tokens[id].createdAt <= tokens[other].createdAt)
  }

  lemma PickOne(tokens: Tokens, before: Time, batch: set<TokenId>, left: set<TokenId>, id: TokenId)
    requires Picking(tokens, before, batch, left) && id in left
    requires forall other :: other in left ==> tokens[id].createdAt <= tokens[other].createdAt
    ensures Picking(tokens, before, batch + {id}, left - {id})
  {}

  lemma PickingComplete(tokens: Tokens, before: Time, size: nat, batch: set<TokenId>, left: set<TokenId>)
    requires Picking(tokens, before, batch, left)
    requires |batch| <= size && (|batch| == size || left == {})
    ensures IsBatch(tokens, before, size, batch)
  {}

  /** ORDER BY created_at LIMIT: the oldest candidates, one by one. */
  method PickBatch(tokens: Tokens, before: Time, size: nat) returns (batch: set<TokenId>)
    ensures IsBatch(tokens, before, size, batch)
  {
    var left := set id | id in tokens && Stale(tokens[id], before);
    batch := {};
    while |batch| < size && left != {}
      invariant Picking(tokens, before, batch, left) && |batch| <= size && left <= tokens.Keys
      decreases |left|
    {
      var id := Oldest(tokens, left);
      PickOne(tokens, before, batch, left, id);
      assert id !in batch;
      left := left - {id};
      batch := batch + {id};
    }
    PickingComplete(tokens, before, size, batch, left);
  }

  method Oldest(tokens: Tokens, ids: set<TokenId>) returns (oldest: TokenId)
    requires ids != {} && ids <= tokens.Keys
    ensures oldest in ids && forall id :: id in ids ==> tokens[oldest].createdAt <= tokens[id].createdAt
  {
    oldest :| oldest in ids;
    var left := ids - {oldest};
    while left != {}
      invariant left <= ids && oldest in ids
      invariant forall id :: id in ids - left ==> tokens[oldest].createdAt <= tokens[id].createdAt
      decreases |left|
    {
      var id :| id in left;
      if tokens[id].createdAt < tokens[oldest].createdAt {
        oldest := id;
      }
      left := left - {id};
    }
  }

  // ------------------------------------------------------------- one session

  /** The token with this hash would be accepted. */
  ghost predicate Accepts(tokens: Tokens, id: TokenId, call: RefreshCall) {
    && HasHash(tokens, id, call.hash) && tokens[id].revokedAt.None? && call.now < tokens[id].expiresAt
  }

  lemma FindUnique(tokens: Tokens, id: TokenId, hash: Hash)
    requires UniqueHashes(tokens) && HasHash(tokens, id, hash)
    ensures Find(tokens, hash) == Some(id)
  {
    assert HasHash(tokens, Find(tokens, hash).value, hash);
  }

  /** Refresh succeeds exactly for an unrevoked, unexpired token of an enabled user.
      Then that token is revoked, a token with what the answer grants is in the
      table, and nothing else changes; otherwise nothing changes at all. */
  lemma RefreshOutcome(tokens: Tokens, call: RefreshCall)
    requires UniqueHashes(tokens) && Fresh(tokens, call.newId, call.newHash)
    ensures var (tokens', answer) := Refreshed(tokens, call);
            && (answer.Ok? <==> exists id :: Accepts(tokens, id, call) && call.user(tokens[id].user).UserEnabled?)
            && (answer == Err(DisabledUser) <==>
                  exists id :: Accepts(tokens, id, call) && call.user(tokens[id].user).UserDisabled?)
            && (answer.Err? ==> tokens' == tokens)
            && (forall id :: answer.Ok? && HasHash(tokens, id, call.hash) ==>
                  && answer.value == Grant(tokens[id].user, call.newHash, call.newExpiry)
                  && HandsOver(tokens, tokens', id, call.now, call.newId,
                               Token(tokens[id].user, call.newHash, call.newExpiry, None, call.createdAt)))
  {
    var found := Find(tokens, call.hash);
    forall id: TokenId | HasHash(tokens, id, call.hash) ensures found == Some(id) {
      FindUnique(tokens, id, call.hash);
    }
    if found.Some? { assert HasHash(tokens, found.value, call.hash); }
  }

  /** The call comes before the grant expires, and its user is enabled. */
  predicate StillGood(call: RefreshCall, grant: Grant) {
    call.now < grant.expiresAt && call.user(grant.user).UserEnabled?
  }

  /** What a Refresh grants can be refreshed in its turn, once: the next call with
      the granted hash succeeds while the grant has not expired and the user is
      enabled, and another call with the old hash is refused. */
  lemma GrantWorksOnce(tokens: Tokens, call: RefreshCall, next: RefreshCall)
    requires UniqueHashes(tokens) && Fresh(tokens, call.newId, call.newHash) && Refreshed(tokens, call).1.Ok?
    requires Fresh(Refreshed(tokens, call).0, next.newId, next.newHash)
    ensures var (tokens', answer) := Refreshed(tokens, call);
            && UniqueHashes(tokens')
            && (next.hash == answer.value.hash && StillGood(next, answer.value) ==> Refreshed(tokens', next).1.Ok?)
            && (next.hash == call.hash ==> Refreshed(tokens', next).1 == Err(InvalidRefreshToken))
  {
    RefreshOutcome(tokens, call);
    var (tokens', answer) := Refreshed(tokens, call);
    var id :| Accepts(tokens, id, call) && call.user(tokens[id].user).UserEnabled?;
    assert HandsOver(tokens, tokens', id, call.now, call.newId,
                     Token(tokens[id].user, call.newHash, call.newExpiry, None, call.createdAt));
    hide Refreshed;
    HandOverKeepsUnique(tokens, tokens', id, call.now, call.newId,
                        Token(tokens[id].user, call.newHash, call.newExpiry, None, call.createdAt));
    RefreshOutcome(tokens', next);
    if next.hash == answer.value.hash { assert HasHash(tokens', call.newId, next.hash); }
    if next.hash == call.hash {
      assert HasHash(tokens', id, next.hash);
      FindUnique(tokens', id, next.hash);
    }
  }

  lemma HandOverKeepsUnique(before: Tokens, after: Tokens, id: TokenId, now: Time, newId: TokenId, replacement: Token)
    requires UniqueHashes(before) && Fresh(before, newId, replacement.hash)
    requires HandsOver(before, after, id, now, newId, replacement)
    ensures UniqueHashes(after)
  {
    forall a, b | a in after && b in after && after[a].hash == after[b].hash ensures a == b {
      assert a != newId ==> a in before && before[a].hash == after[a].hash;
      assert b != newId ==> b in before && before[b].hash == after[b].hash;
    }
  }

  /** Each call presents what the one before it granted, in time, for an enabled
      user, and draws what is new. */
  ghost predicate InTurn(tokens: Tokens, user: string, hash: Hash, expiry: Time, calls: seq<RefreshCall>)
    decreases |calls|
  {
    calls == [] ||
    (&& calls[0].hash == hash && calls[0].now < expiry && calls[0].user(user).UserEnabled?
     && Fresh(tokens, calls[0].newId, calls[0].newHash)
     && InTurn(Refreshed(tokens, calls[0]).0, user, calls[0].newHash, calls[0].newExpiry, calls[1..]))
  }

  ghost predicate AllGranted(tokens: Tokens, user: string, calls: seq<RefreshCall>)
    decreases |calls|
  {
    calls == [] ||
    (&& Refreshed(tokens, calls[0]).1 == Ok(Grant(user, calls[0].newHash, calls[0].newExpiry))
     && AllGranted(Refreshed(tokens, calls[0]).0, user, calls[1..]))
  }

  /** A session goes on for as long as its holder keeps refreshing in time: every
      one of the calls succeeds, and grants to the same user. */
  lemma {:induction false} SessionGoesOn(tokens: Tokens, id: TokenId, calls: seq<RefreshCall>)
    requires UniqueHashes(tokens) && id in tokens && tokens[id].revokedAt.None?
    requires InTurn(tokens, tokens[id].user, tokens[id].hash, tokens[id].expiresAt, calls)
    ensures AllGranted(tokens, tokens[id].user, calls)
    decreases |calls|
  {
    if calls != [] {
      hide Refreshed, HandsOver, UniqueHashes;
      var call := calls[0];
      var tokens' := Refreshed(tokens, call).0;
      var replacement := Token(tokens[id].user, call.newHash, call.newExpiry, None, call.createdAt);
      assert Accepts(tokens, id, call);
      RefreshOutcome(tokens, call);
      assert HandsOver(tokens, tokens', id, call.now, call.newId, replacement);
      HandOverKeepsUnique(tokens, tokens', id, call.now, call.newId, replacement);
      HandedOver(tokens, tokens', id, call.now, call.newId, replacement);
      SessionGoesOn(tokens', call.newId, calls[1..]);
    }
  }

  lemma HandedOver(before: Tokens, after: Tokens, id: TokenId, now: Time, newId: TokenId, replacement: Token)
    requires HandsOver(before, after, id, now, newId, replacement)
    ensures newId in after && after[newId] == replacement
  {}

  // ------------------------------------------------------ cleanup is invisible

  /** `cleaned` lacks some tokens of `full`, all of them useless from `clock` on. */
  ghost predicate Cleaned(full: Tokens, cleaned: Tokens, clock: Time) {
    && (forall id :: id in cleaned ==> id in full && cleaned[id] == full[id])
    && (forall id :: id in full && id !in cleaned ==> !full[id].IsActive(clock))
  }

  lemma CleanupGivesCleaned(tokens: Tokens, before: Time, size: nat, batch: set<TokenId>, clock: Time)
    requires IsBatch(tokens, before, size, batch) && before <= clock + 1
    ensures Cleaned(tokens, Clean(tokens, batch), clock)
  {}

  lemma FindInCleaned(full: Tokens, cleaned: Tokens, clock: Time, hash: Hash)
    requires UniqueHashes(full) && Cleaned(full, cleaned, clock)
    ensures UniqueHashes(cleaned)
    ensures Find(cleaned, hash).Some? ==> Find(full, hash) == Find(cleaned, hash)
    ensures Find(cleaned, hash).None? && Find(full, hash).Some? ==> !full[Find(full, hash).value].IsActive(clock)
  {
    var a, b := Find(full, hash), Find(cleaned, hash);
    if b.Some? { assert HasHash(full, b.value, hash); }
    if a.Some? && b.None? { assert !HasHash(cleaned, a.value, hash); }
  }

  /** What later calls draw is new. */
  predicate Fresh(tokens: Tokens, id: TokenId, hash: Hash) {
    id !in tokens && forall other :: other in tokens ==> tokens[other].hash != hash
  }

  lemma RotateKeepsCleaned(full: Tokens, cleaned: Tokens, clock: Time, id: TokenId, now: Time,
                           newId: TokenId, replacement: Token)
    requires Cleaned(full, cleaned, clock) && clock <= now
    requires CanRotate(full, id, now) && id in cleaned && newId !in full
    ensures CanRotate(cleaned, id, now)
    ensures Cleaned(Rotate(full, id, now, newId, replacement), Rotate(cleaned, id, now, newId, replacement), now)
  {}

  lemma RotateKeepsUnique(tokens: Tokens, id: TokenId, now: Time, newId: TokenId, replacement: Token)
    requires UniqueHashes(tokens) && CanRotate(tokens, id, now) && Fresh(tokens, newId, replacement.hash)
    ensures UniqueHashes(Rotate(tokens, id, now, newId, replacement))
  {}

  lemma CleanedLater(full: Tokens, cleaned: Tokens, clock: Time, now: Time)
    requires Cleaned(full, cleaned, clock) && clock <= now
    ensures Cleaned(full, cleaned, now)
  {}

  /** One Refresh, no earlier than the cleanup: same answer, and the tables stay in step. */
  lemma RefreshCannotTell(full: Tokens, cleaned: Tokens, clock: Time, call: RefreshCall)
    requires UniqueHashes(full) && Cleaned(full, cleaned, clock)
    requires clock <= call.now && Fresh(full, call.newId, call.newHash)
    ensures Refreshed(full, call).1 == Refreshed(cleaned, call).1
    ensures Cleaned(Refreshed(full, call).0, Refreshed(cleaned, call).0, call.now)
    ensures UniqueHashes(Refreshed(full, call).0)
  {
    FindInCleaned(full, cleaned, clock, call.hash);
    CleanedLater(full, cleaned, clock, call.now);
    var found := Find(full, call.hash);
    assert found.Some? && found.value in cleaned ==> cleaned[found.value] == full[found.value];
    hide Rotate, UniqueHashes, Cleaned, Fresh;
    if found.Some? && full[found.value].IsActive(call.now) && call.user(full[found.value].user).UserEnabled? {
      var replacement := Token(full[found.value].user, call.newHash, call.newExpiry, None, call.createdAt);
      FreshId(full, call.newId, call.newHash);
      RotateKeepsUnique(full, found.value, call.now, call.newId, replacement);
      RotateKeepsCleaned(full, cleaned, clock, found.value, call.now, call.newId, replacement);
    }
  }

  lemma FreshId(tokens: Tokens, id: TokenId, hash: Hash)
    requires Fresh(tokens, id, hash)
    ensures id !in tokens
  {}

  /** Later calls on the table. */
  datatype Later =
    | LaterRefresh(call: RefreshCall)
    | LaterLogin(id: TokenId, token: Token, at: Time)
    | LaterLogout(hash: Hash, at: Time)
  {
    function Now(): Time {
      match this
      case LaterRefresh(call) => call.now
      case LaterLogin(_, _, at) => at
      case LaterLogout(_, at) => at
    }
  }

  ghost function Table(tokens: Tokens, later: Later): Tokens {
    match later
    case LaterRefresh(call) => Refreshed(tokens, call).0
    case LaterLogin(id, token, _) => tokens[id := token]
    case LaterLogout(hash, at) => LoggedOut(tokens, hash, at).0
  }

  ghost predicate Draws(tokens: Tokens, later: Later) {
    match later
    case LaterRefresh(call) => Fresh(tokens, call.newId, call.newHash)
    case LaterLogin(id, token, _) => Fresh(tokens, id, token.hash)
    case LaterLogout(_, _) => true
  }

  /** A sequence of later calls under a clock that does not go back, each drawing new ids and hashes. */
  ghost predicate LaterRun(tokens: Tokens, clock: Time, run: seq<Later>)
    decreases |run|
  {
    run == [] ||
    (&& clock <= run[0].Now() && Draws(tokens, run[0])
     && LaterRun(Table(tokens, run[0]), run[0].Now(), run[1..]))
  }

  /** The answers that Refresh gives along a run. */
  ghost function Answers(tokens: Tokens, run: seq<Later>): seq<Result<Grant, RefreshError>>
    decreases |run|
  {
    if run == [] then [] else
    (if run[0].LaterRefresh? then [Refreshed(tokens, run[0].call).1] else [])
    + Answers(Table(tokens, run[0]), run[1..])
  }

  lemma LaterCannotTell(full: Tokens, cleaned: Tokens, clock: Time, later: Later)
    requires UniqueHashes(full) && Cleaned(full, cleaned, clock) && clock <= later.Now() && Draws(full, later)
    ensures Cleaned(Table(full, later), Table(cleaned, later), later.Now())
    ensures UniqueHashes(Table(full, later))
    ensures later.LaterRefresh? ==> Refreshed(full, later.call).1 == Refreshed(cleaned, later.call).1
  {
    match later
    case LaterRefresh(call) => RefreshCannotTell(full, cleaned, clock, call);
    case LaterLogin(_, _, _) =>
    case LaterLogout(hash, at) => LogoutKeepsCleaned(full, cleaned, clock, hash, at);
  }

  lemma LogoutKeepsCleaned(full: Tokens, cleaned: Tokens, clock: Time, hash: Hash, at: Time)
    requires UniqueHashes(full) && Cleaned(full, cleaned, clock) && clock <= at
    ensures Cleaned(LoggedOut(full, hash, at).0, LoggedOut(cleaned, hash, at).0, at)
    ensures UniqueHashes(LoggedOut(full, hash, at).0)
  {
    FindInCleaned(full, cleaned, clock, hash);
    var a, b := Find(full, hash), Find(cleaned, hash);
    if a.Some? && b.None? { assert !HasHash(cleaned, a.value, hash); }
  }

  lemma {:induction false} RunCannotTell(full: Tokens, cleaned: Tokens, clock: Time, run: seq<Later>)
    requires UniqueHashes(full) && Cleaned(full, cleaned, clock) && LaterRun(full, clock, run)
    ensures Answers(full, run) == Answers(cleaned, run)
    decreases |run|
  {
    hide Table, Refreshed, Cleaned, Draws;
    if run != [] {
      LaterCannotTell(full, cleaned, clock, run[0]);
      RunCannotTell(Table(full, run[0]), Table(cleaned, run[0]), run[0].Now(), run[1..]);
    }
  }

  /** Along every later run of refreshes, logins and logouts, Refresh answers on
      the cleaned table as on the uncleaned one. */
  ghost predicate Invisible(tokens: Tokens, batch: set<TokenId>, clock: Time) {
    forall run :: LaterRun(tokens, clock, run) ==> Answers(tokens, run) == Answers(Clean(tokens, batch), run)
  }

  ghost predicate AlwaysInvisible(before: Time, size: nat, clock: Time) {
    forall tokens, batch :: UniqueHashes(tokens) && IsBatch(tokens, before, size, batch) ==>
      Invisible(tokens, batch, clock)
  }

  lemma CleanupIsInvisible(tokens: Tokens, before: Time, size: nat, batch: set<TokenId>, clock: Time)
    requires UniqueHashes(tokens) && IsBatch(tokens, before, size, batch) && before <= clock + 1
    ensures Invisible(tokens, batch, clock)
  {
    CleanupGivesCleaned(tokens, before, size, batch, clock);
    forall run | LaterRun(tokens, clock, run) ensures Answers(tokens, run) == Answers(Clean(tokens, batch), run) {
      RunCannotTell(tokens, Clean(tokens, batch), clock, run);
    }
  }

  /** A cleanup job may name a time in the future; then it can delete a token that is still good. */
  lemma FutureCleanupIsSeen(before: Time, size: nat, clock: Time)
    requires before > clock + 1 && size >= 1
    ensures !AlwaysInvisible(before, size, clock)
  {
    var token := Token("u", "h", clock + 1, None, clock);
    var tokens: Tokens := map[0 := token];
    var batch := {0};
    assert Candidates(tokens, before) == {0};
    assert IsBatch(tokens, before, size, batch);
    var call := RefreshCall("h", clock, _ => UserEnabled, 1, "n", clock + 1, clock);
    var run := [LaterRefresh(call)];
    assert HasHash(tokens, 0, "h") && Find(tokens, "h") == Some(0);
    assert Clean(tokens, batch) == map[] && Find(map[], "h") == None;
    assert run[1..] == [];
    assert Fresh(tokens, 1, "n");
    assert LaterRun(tokens, clock, run);
    assert Answers(tokens, run)[0].Ok? && Answers(Clean(tokens, batch), run)[0].Err?;
    assert !Invisible(tokens, batch, clock);
  }

  /** Whatever the table, cleanup with a batch of at least one is invisible to
      Refresh exactly when its time is at most one tick past the clock. */
  lemma CleanupIsInvisibleIff(before: Time, size: nat, clock: Time)
    requires size >= 1
    ensures AlwaysInvisible(before, size, clock) <==> before <= clock + 1
  {
    if before <= clock + 1 {
      forall tokens, batch | UniqueHashes(tokens) && IsBatch(tokens, before, size, batch)
        ensures Invisible(tokens, batch, clock)
      {
        CleanupIsInvisible(tokens, before, size, batch, clock);
      }
    } else {
      FutureCleanupIsSeen(before, size, clock);
    }
  }

  /** Logout does notice: it answers differently exactly for the deleted tokens. */
  lemma LogoutSeesCleanup(tokens: Tokens, batch: set<TokenId>, hash: Hash, at: Time)
    requires UniqueHashes(tokens) && batch <= tokens.Keys
    ensures LoggedOut(tokens, hash, at).1 != LoggedOut(Clean(tokens, batch), hash, at).1
       <==> exists id :: id in batch && HasHash(tokens, id, hash)
  {
    var a, b := Find(tokens, hash), Find(Clean(tokens, batch), hash);
    if b.Some? { assert HasHash(tokens, b.value, hash); }
    if a.Some? && b.None? { assert !HasHash(Clean(tokens, batch), a.value, hash); }
  }
}
