/** Login, Refresh, Logout and cleanup on one token table, interleaved.

    A Refresh is three steps: it reads the token, later checks what it read
    against the clock and the user, and later still rotates the token in one
    transaction.  Between them anything may happen, and it may stop anywhere. */
module TokenProtocol {
  import opened Text
  import opened RefreshTokens

  type CallId = nat

  datatype Call =
    | Loaded(id: TokenId, token: Token)           // what the read returned
    | Checked(id: TokenId, user: string, now: Time)
    | Finished

  datatype System = System(
    tokens: Tokens,
    clock: Time,
    calls: map<CallId, Call>,
    ids: set<TokenId>,               // every token ever issued
    hashes: set<Hash>,               // ... and its hash
    family: map<TokenId, TokenId>,   // ... and the login it goes back to
    replaced: map<TokenId, TokenId>) // every rotation that took place

  const START := System(map[], 0, map[], {}, {}, map[], map[])

  datatype Step =
    | Tick(to: Time)
    | Login(id: TokenId, token: Token)
    | Read(call: CallId, id: TokenId)
    | Check(call: CallId, user: UserState)
    | RotateTx(call: CallId, newId: TokenId, newHash: Hash, newExpiry: Time, createdAt: Time, commits: bool)
    | Logout(id: TokenId)
    | Cleanup(before: Time, size: nat, batch: set<TokenId>)

  predicate Unused(s: System, id: TokenId, hash: Hash) {
    id !in s.ids && hash !in s.hashes
  }

  ghost predicate Enabled(s: System, step: Step) {
    match step
    case Tick(to) => s.clock <= to
    case Login(id, token) => Unused(s, id, token.hash) && token.revokedAt.None?
    case Read(call, id) => call !in s.calls && id in s.tokens
    case Check(call, _) => call in s.calls && s.calls[call].Loaded?
    case RotateTx(call, newId, newHash, _, _, _) => call in s.calls && s.calls[call].Checked? && Unused(s, newId, newHash)
    case Logout(id) => id in s.tokens
    case Cleanup(before, size, batch) => IsBatch(s.tokens, before, size, batch)
  }

  ghost function Apply(s: System, step: Step): System
    requires Enabled(s, step)
  {
    match step
    case Tick(to) => s.(clock := to)
    case Login(id, token) =>
      s.(tokens := s.tokens[id := token], ids := s.ids + {id}, hashes := s.hashes + {token.hash},
         family := s.family[id := id])
    case Read(call, id) => s.(calls := s.calls[call := Loaded(id, s.tokens[id])])
    case Check(call, user) =>
      var loaded := s.calls[call];
      s.(calls := s.calls[call := if loaded.token.IsActive(s.clock) && user.UserEnabled?
                                  then Checked(loaded.id, loaded.token.user, s.clock) else Finished])
    case RotateTx(call, newId, newHash, newExpiry, createdAt, commits) =>
      var checked := s.calls[call];
      if commits && Rotates(s, step)
      then
        s.(tokens := Rotate(s.tokens, checked.id, checked.now, newId,
                            Token(checked.user, newHash, newExpiry, None, createdAt)),
           calls := s.calls[call := Finished],
           ids := s.ids + {newId},
           hashes := s.hashes + {newHash},
           family := s.family[newId := if checked.id in s.family then s.family[checked.id] else newId],
           replaced := s.replaced[checked.id := newId])
      else s.(calls := s.calls[call := Finished])
    case Logout(id) => s.(tokens := Revoke(s.tokens, id, s.clock))
    case Cleanup(_, _, batch) => s.(tokens := Clean(s.tokens, batch))
  }

  /** The transaction finds its token still open. */
  predicate Rotates(s: System, step: Step)
    requires step.RotateTx? && step.call in s.calls && s.calls[step.call].Checked?
  {
    CanRotate(s.tokens, s.calls[step.call].id, s.calls[step.call].now)
  }

  // ------------------------------------------------------------ the invariant

  ghost predicate Known(s: System) {
    && (forall id :: id in s.tokens ==> id in s.family && s.tokens[id].hash in s.hashes)
    && UniqueHashes(s.tokens)
  }

  predicate Open(s: System, id: TokenId) {
    id in s.tokens && s.tokens[id].revokedAt.None?
  }

  ghost predicate OneOpenPerFamily(s: System) {
    forall a, b :: Open(s, a) && Open(s, b) && a in s.family && b in s.family && s.family[a] == s.family[b] ==> a == b
  }

  /** A token that has been replaced is no longer open. */
  ghost predicate ReplacedClosed(s: System) {
    forall id :: id in s.replaced ==> id in s.family && !Open(s, id)
  }

  /** A family goes back to a token that was issued; so a login starts a new one. */
  ghost predicate FamiliesKnown(s: System) {
    forall id :: id in s.family ==> id in s.ids && s.family[id] in s.ids
  }

  ghost predicate Inv(s: System) {
    Known(s) && OneOpenPerFamily(s) && ReplacedClosed(s) && FamiliesKnown(s)
  }

  lemma RotationKeepsKnown(s: System, step: Step)
    requires Inv(s) && Enabled(s, step) && step.RotateTx?
    ensures Known(Apply(s, step))
  {
    if Rotates(s, step) {
      var checked := s.calls[step.call];
      RotateKeepsUnique(s.tokens, checked.id, checked.now, step.newId,
                        Token(checked.user, step.newHash, step.newExpiry, None, step.createdAt));
    }
  }

  lemma StepKeepsKnown(s: System, step: Step)
    requires Inv(s) && Enabled(s, step)
    ensures Known(Apply(s, step))
  {
    if step.RotateTx? {
      hide Apply, Enabled;
      RotationKeepsKnown(s, step);
    }
  }

  lemma StepKeepsFamilies(s: System, step: Step)
    requires Inv(s) && Enabled(s, step)
    ensures FamiliesKnown(Apply(s, step))
  {}

  /** A token that is open after a step was open before, or has just been issued. */
  lemma OpenOrigin(s: System, step: Step, id: TokenId)
    requires Inv(s) && Enabled(s, step) && Open(Apply(s, step), id)
    ensures id in Apply(s, step).family
    ensures Open(s, id) ==> id in s.family && Apply(s, step).family[id] == s.family[id]
    ensures !Open(s, id) ==> Issues(s, step, id)
  {}

  predicate Issues(s: System, step: Step, id: TokenId) {
    || (step.Login? && step.id == id)
    || (&& step.RotateTx? && step.newId == id && step.commits
        && step.call in s.calls && s.calls[step.call].Checked? && Rotates(s, step))
  }

  /** A newly issued token is alone in its family. */
  lemma IssuedAlone(s: System, step: Step, a: TokenId, b: TokenId)
    requires Inv(s) && Enabled(s, step) && Issues(s, step, a) && Open(s, b) && Open(Apply(s, step), b)
    ensures a in Apply(s, step).family && b in Apply(s, step).family
    ensures Apply(s, step).family[a] != Apply(s, step).family[b]
  {}

  lemma StepKeepsOneOpen(s: System, step: Step)
    requires Inv(s) && Enabled(s, step)
    ensures OneOpenPerFamily(Apply(s, step))
  {
    hide Apply, Enabled;
    var s' := Apply(s, step);
    forall a, b | Open(s', a) && Open(s', b) && a in s'.family && b in s'.family && s'.family[a] == s'.family[b]
      ensures a == b
    {
      OpenOrigin(s, step, a);
      OpenOrigin(s, step, b);
      if !Open(s, a) && Open(s, b) { IssuedAlone(s, step, a, b); }
      if Open(s, a) && !Open(s, b) { IssuedAlone(s, step, b, a); }
    }
  }

  lemma StepKeepsReplaced(s: System, step: Step)
    requires Inv(s) && Enabled(s, step)
    ensures ReplacedClosed(Apply(s, step))
  {}

  lemma StepKeepsInv(s: System, step: Step)
    requires Inv(s) && Enabled(s, step)
    ensures Inv(Apply(s, step))
  {
    hide Apply, Enabled;
    StepKeepsKnown(s, step);
    StepKeepsFamilies(s, step);
    StepKeepsOneOpen(s, step);
    StepKeepsReplaced(s, step);
  }

  // -------------------------------------------------------------------- runs

  ghost predicate Legal(steps: seq<Step>)
    decreases |steps|, 0
  {
    steps == [] || (Legal(Init(steps)) && Enabled(After(Init(steps)), Last(steps)))
  }

  ghost function After(steps: seq<Step>): System
    requires Legal(steps)
    decreases |steps|, 1
  {
    if steps == [] then START else Apply(After(Init(steps)), Last(steps))
  }

  lemma {:induction false} ReachableInv(steps: seq<Step>)
    requires Legal(steps)
    ensures Inv(After(steps))
  {
    hide Apply, Enabled;
    if steps != [] {
      ReachableInv(Init(steps));
      StepKeepsInv(After(Init(steps)), Last(steps));
    }
  }

  /** In every interleaving, two unrevoked tokens never go back to the same login. */
  lemma AtMostOneOpenToken(steps: seq<Step>, a: TokenId, b: TokenId)
    requires Legal(steps) && Open(After(steps), a) && Open(After(steps), b)
    ensures a in After(steps).family && b in After(steps).family
    ensures After(steps).family[a] == After(steps).family[b] ==> a == b
  {
    ReachableInv(steps);
  }

  // ---------------------------------------------------- across moments of a run

  /** What stays true of a token from one moment to a later one. */
  ghost predicate TokenKept(s: System, s': System, id: TokenId) {
    && (id in s.tokens && id in s'.tokens ==>
          && s'.tokens[id].hash == s.tokens[id].hash
          && s'.tokens[id].expiresAt == s.tokens[id].expiresAt
          && (s.tokens[id].revokedAt.Some? ==> s'.tokens[id].revokedAt == s.tokens[id].revokedAt))
    && (id in s.ids ==> id in s'.ids)
    && (id in s.family ==> id in s'.family && s'.family[id] == s.family[id])
    && (id in s.family && id !in s.tokens ==> id !in s'.tokens)
    && (id in s.replaced ==> id in s'.replaced && s'.replaced[id] == s.replaced[id])
  }

  lemma StepKeepsToken(s: System, step: Step, id: TokenId)
    requires Inv(s) && Enabled(s, step)
    ensures TokenKept(s, Apply(s, step), id)
  {
    if step.RotateTx? && Rotates(s, step) {
      var current := s.calls[step.call].id;
      assert Open(s, current);
      assert current !in s.replaced;
    }
  }

  /** Between any two moments of a run: a revocation time never changes, a token
      is replaced at most once, deleted tokens do not come back, and a token keeps
      its family, hash and expiry. */
  lemma {:induction false} TokensKept(steps: seq<Step>, i: nat, id: TokenId)
    requires Legal(steps) && i <= |steps|
    ensures Legal(steps[..i])
    ensures TokenKept(After(steps[..i]), After(steps), id)
  {
    hide Apply, Enabled;
    if i < |steps| {
      TokensKept(Init(steps), i, id);
      assert steps[..i] == Init(steps)[..i];
      ReachableInv(Init(steps));
      ReachableInv(steps[..i]);
      StepKeepsToken(After(Init(steps)), Last(steps), id);
    } else {
      assert steps[..i] == steps;
    }
  }

  /** A login's family has no open token. */
  ghost predicate Dead(s: System, family: TokenId) {
    && family in s.ids
    && forall id :: Open(s, id) && id in s.family ==> s.family[id] != family
  }

  lemma StepKeepsDead(s: System, step: Step, family: TokenId)
    requires Inv(s) && Enabled(s, step) && Dead(s, family)
    ensures Dead(Apply(s, step), family)
  {}

  /** Once a login's last token is revoked or gone, nothing brings the login back:
      no Refresh in flight, however old, can issue another token for it. */
  lemma {:induction false} DeadFamiliesStayDead(steps: seq<Step>, i: nat, family: TokenId)
    requires Legal(steps) && i <= |steps| && Legal(steps[..i]) && Dead(After(steps[..i]), family)
    ensures Dead(After(steps), family)
  {
    hide Apply, Enabled, Dead;
    if i < |steps| {
      assert steps[..i] == Init(steps)[..i];
      DeadFamiliesStayDead(Init(steps), i, family);
      ReachableInv(Init(steps));
      StepKeepsDead(After(Init(steps)), Last(steps), family);
    } else {
      assert steps[..i] == steps;
    }
  }

  /** Logging out with a login's open token ends the login. */
  lemma LogoutEndsTheLogin(steps: seq<Step>, id: TokenId)
    requires Legal(steps) && Open(After(steps), id)
    ensures id in After(steps).family
    ensures Dead(Apply(After(steps), Logout(id)), After(steps).family[id])
  {
    ReachableInv(steps);
  }

  // -------------------------------------------------- what a login lives on by

  /** A call in flight knows its token's owner. */
  ghost predicate CallOk(s: System, call: Call) {
    match call
    case Loaded(id, token) => id in s.ids && (id in s.tokens ==> s.tokens[id].user == token.user)
    case Checked(id, user, now) => id in s.ids && now <= s.clock && (id in s.tokens ==> s.tokens[id].user == user)
    case Finished => true
  }

  ghost predicate CallsOk(s: System) {
    forall call :: call in s.calls ==> CallOk(s, s.calls[call])
  }

  lemma StepKeepsCallOk(s: System, step: Step, call: CallId)
    requires Inv(s) && Enabled(s, step) && CallsOk(s) && call in Apply(s, step).calls
    ensures CallOk(Apply(s, step), Apply(s, step).calls[call])
  {
    if call in s.calls { assert CallOk(s, s.calls[call]); }
  }

  lemma {:induction false} ReachableCallsOk(steps: seq<Step>)
    requires Legal(steps)
    ensures CallsOk(After(steps))
  {
    if steps != [] {
      hide Apply, Enabled, CallOk;
      ReachableCallsOk(Init(steps));
      ReachableInv(Init(steps));
      var s, step := After(Init(steps)), Last(steps);
      forall call | call in Apply(s, step).calls ensures CallOk(Apply(s, step), Apply(s, step).calls[call]) {
        StepKeepsCallOk(s, step, call);
      }
    }
  }

  /** A login starts a family with one open token, and touches no other. */
  lemma LoginStartsAFamily(steps: seq<Step>, id: TokenId, token: Token)
    requires Legal(steps) && Enabled(After(steps), Login(id, token))
    ensures var s, s' := After(steps), Apply(After(steps), Login(id, token));
            && Open(s', id) && s'.tokens[id] == token && s'.family[id] == id
            && OthersKept(s.tokens, s'.tokens, {id})
            && (forall other :: other in s.family ==> s'.family[other] == s.family[other] != id)
  {
    ReachableInv(steps);
  }

  /** A call passes its check exactly if the token it read was unrevoked and does not
      expire before the clock, and the user is enabled; nothing else changes. */
  lemma CheckDecides(steps: seq<Step>, call: CallId, user: UserState)
    requires Legal(steps) && Enabled(After(steps), Check(call, user))
    ensures var s, s' := After(steps), Apply(After(steps), Check(call, user));
            var read := s.calls[call];
            && s' == s.(calls := s'.calls) && call in s'.calls
            && (s'.calls[call].Checked? <==>
                  read.token.revokedAt.None? && s.clock < read.token.expiresAt && user == UserEnabled)
            && (s'.calls[call].Checked? ==> s'.calls[call] == Checked(read.id, read.token.user, s.clock))
            && forall other :: other in s.calls && other != call ==> s'.calls[other] == s.calls[other]
  {}

  /** A rotation that commits on an open token hands the login over to the new one:
      it is open, of the same family and user, and the old one is revoked at the
      time of the check.  A rotation that does not changes no token. */
  lemma RotationHandsOver(steps: seq<Step>, step: Step)
    requires Legal(steps) && Enabled(After(steps), step) && step.RotateTx?
    ensures var s, s' := After(steps), Apply(After(steps), step);
            var id, now := s.calls[step.call].id, s.calls[step.call].now;
            if step.commits && Open(s, id) && now < s.tokens[id].expiresAt then
              && HandsOver(s.tokens, s'.tokens, id, now, step.newId,
                           Token(s.tokens[id].user, step.newHash, step.newExpiry, None, step.createdAt))
              && Open(s', step.newId) && !Open(s', id) && now <= s.clock
              && id in s'.family && step.newId in s'.family && s'.family[step.newId] == s'.family[id]
              && id in s'.replaced && s'.replaced[id] == step.newId
            else s'.tokens == s.tokens && s'.replaced == s.replaced
  {
    ReachableInv(steps);
    ReachableCallsOk(steps);
    assert CallOk(After(steps), After(steps).calls[step.call]);
  }

  // ------------------------------------------------ an undisturbed Refresh

  lemma Extend(steps: seq<Step>, step: Step)
    requires Legal(steps) && Enabled(After(steps), step)
    ensures Legal(steps + [step]) && After(steps + [step]) == Apply(After(steps), step)
  {}

  /** A Refresh that nothing comes between is a run of the protocol that leaves
      the table as the one-call description says. */
  lemma RefreshIsARun(steps: seq<Step>, call: CallId, c: RefreshCall) returns (run: seq<Step>)
    requires Legal(steps) && call !in After(steps).calls && After(steps).clock == c.now
    requires Unused(After(steps), c.newId, c.newHash)
    ensures Legal(run) && steps <= run
    ensures After(run).tokens == Refreshed(After(steps).tokens, c).0
    ensures Refreshed(After(steps).tokens, c).1.Ok? ==>
              var id := Find(After(steps).tokens, c.hash).value;
              id in After(run).replaced && After(run).replaced[id] == c.newId
  {
    run := steps;
    var tokens := After(steps).tokens;
    var found := Find(tokens, c.hash);
    if found.Some? {
      var state := c.user(tokens[found.value].user);
      Extend(run, Read(call, found.value));
      run := run + [Read(call, found.value)];
      Extend(run, Check(call, state));
      run := run + [Check(call, state)];
      if After(run).calls[call].Checked? {
        run := RotateRun(run, call, c);
      }
    }
  }

  lemma RotateRun(steps: seq<Step>, call: CallId, c: RefreshCall) returns (run: seq<Step>)
    requires Legal(steps) && call in After(steps).calls && After(steps).calls[call].Checked?
    requires Unused(After(steps), c.newId, c.newHash)
    requires CanRotate(After(steps).tokens, After(steps).calls[call].id, After(steps).calls[call].now)
    ensures Legal(run) && steps <= run
    ensures var s, s' := After(steps), After(run);
            var checked := s.calls[call];
            && s'.tokens == Rotate(s.tokens, checked.id, checked.now, c.newId,
                                   Token(checked.user, c.newHash, c.newExpiry, None, c.createdAt))
            && checked.id in s'.replaced && s'.replaced[checked.id] == c.newId
  {
    var step := RotateTx(call, c.newId, c.newHash, c.newExpiry, c.createdAt, true);
    Extend(steps, step);
    run := steps + [step];
  }
}
