/**
 Tokens over whole runs: account use cases, sign-ins, refreshes and logouts interleaved on one advancing
 clock. A request that mints a token reads the account at one moment and signs at a later one, and a
 refresh decodes, looks up the blacklist and reads the account at three; anything may happen between.
 */
module Sessions {
  import opened AuthTypes
  import A = Accounts
  import opened Tokens
  import opened Redis
  import opened Revocation

  /** What the tables, the blacklist and the clock show at one moment of a run. */
  datatype Moment = Moment(at: nat, store: A.Store, keys: Keys)

  datatype Origin = ByLogin | ByRefresh(of: Claims, decoded: nat, checked: nat)

  /** A signed token, and the moments at which its account was read and it was signed. */
  datatype Issue = Issue(claims: Claims, read: nat, mint: nat, origin: Origin)

  /** What happened, what was signed here, and what was logged out. */
  datatype State = State(timeline: seq<Moment>, issued: seq<Issue>, loggedOut: seq<Claims>)

  datatype Step =
    | Tick(d: nat)
    | UseCase(command: A.Command)
    | LogIn(user: Id, read: nat, accessJti: string, refreshJti: string)
    | Refresh(given: Claims, decoded: nat, checked: nat, read: nat, accessJti: string)
    | LogOut(given: Claims, decoded: nat, measured: nat)

  function Initial(legacy: map<Id, Account>): State {
    State([Moment(0, A.Initial(legacy), map[])], [], [])
  }

  function Now(s: State): Moment
    requires s.timeline != []
  {
    s.timeline[|s.timeline| - 1]
  }

  predicate IsActive(m: Moment, user: Id) {
    user in m.store.users && m.store.users[user].state == Active
  }

  /** The account could sign in at this moment, with exactly this role. */
  predicate Held(m: Moment, user: Id, role: Role) {
    IsActive(m, user) && m.store.users[user].role == role
  }

  /** A fresh id occurs nowhere yet. */
  predicate NewJti(s: State, jti: string)
    requires s.timeline != []
  {
    && jti != ""
    && RevokedKey(jti) !in Now(s).keys
    && forall i :: 0 <= i < |s.issued| ==> s.issued[i].claims.jti != Some(jti)
  }

  /** Presented under a good signature, this service's or another holder's of the secret. */
  predicate Presented(s: State, given: Claims, decoded: nat) {
    decoded < |s.timeline| && Decode(Signed(given), REFRESH, s.timeline[decoded].at).Accepted?
  }

  predicate Enabled(s: State, step: Step)
    requires s.timeline != []
  {
    match step
    case Tick(_) => true
    case UseCase(c) => A.Fresh(Now(s).store, c)
    case LogIn(user, read, a, r) =>
      read < |s.timeline| && IsActive(s.timeline[read], user) && NewJti(s, a) && NewJti(s, r) && a != r
    case Refresh(given, decoded, checked, read, a) =>
      && Presented(s, given, decoded) && decoded <= checked <= read < |s.timeline|
      && given.sub.Some?
      && Passes(Signed(given), s.timeline[checked].keys, s.timeline[decoded].at, s.timeline[checked].at)
      && IsActive(s.timeline[read], given.sub.value) && NewJti(s, a)
    case LogOut(given, decoded, measured) =>
      && Presented(s, given, decoded) && decoded <= measured < |s.timeline|
      && Revocable(given)
  }

  function Then(s: State, m: Moment, issued: seq<Issue>): State {
    s.(timeline := s.timeline + [m], issued := s.issued + issued)
  }

  /** One step; a step that is not enabled changes nothing. */
  function Apply(s: State, step: Step): (s': State)
    requires s.timeline != []
    ensures s'.timeline != []
  {
    if !Enabled(s, step) then s
    else
      var now, mint := Now(s), |s.timeline|;
      match step
      case Tick(d) => Then(s, now.(at := now.at + d), [])
      case UseCase(c) => Then(s, now.(store := A.Execute(now.store, c).0), [])
      case LogIn(user, read, a, r) =>
        var role := s.timeline[read].store.users[user].role;
        Then(s, now, [Issue(AccessToken(user, role, a, now.at), read, mint, ByLogin),
                      Issue(RefreshToken(user, r, now.at), read, mint, ByLogin)])
      case Refresh(given, decoded, checked, read, a) =>
        var role := s.timeline[read].store.users[given.sub.value].role;
        Then(s, now, [Issue(AccessToken(given.sub.value, role, a, now.at), read, mint, ByRefresh(given, decoded, checked))])
      case LogOut(given, decoded, measured) =>
        var ttl := LogoutTtl(given.exp.value, s.timeline[measured].at);
        Then(s, now.(keys := SetKey(now.keys, RevokedKey(given.jti.value), ttl, now.at)), [])
          .(loggedOut := s.loggedOut + [given])
  }

  function Run(legacy: map<Id, Account>, steps: seq<Step>): (s: State)
    ensures s.timeline != []
  {
    if steps == [] then Initial(legacy) else Apply(Run(legacy, steps[..|steps| - 1]), steps[|steps| - 1])
  }

  // ---- the invariant -----------------------------------------------------

  ghost predicate ClockAdvances(timeline: seq<Moment>) {
    forall i, j :: 0 <= i <= j < |timeline| ==> timeline[i].at <= timeline[j].at
  }

  /** Blacklist keys are set again, never taken away. */
  ghost predicate KeysStay(timeline: seq<Moment>) {
    forall i, j :: 0 <= i <= j < |timeline| ==> timeline[i].keys.Keys <= timeline[j].keys.Keys
  }

  /** How a token in circulation came about. */
  ghost predicate Honest(timeline: seq<Moment>, t: Issue) {
    && t.read <= t.mint < |timeline|
    && t.claims.sub.Some? && t.claims.jti.Some? && t.claims.jti.value != ""
    && IsActive(timeline[t.read], t.claims.sub.value)
    && (t.claims == RefreshToken(t.claims.sub.value, t.claims.jti.value, timeline[t.mint].at)
        || t.claims == AccessToken(t.claims.sub.value, timeline[t.read].store.users[t.claims.sub.value].role,
                                   t.claims.jti.value, timeline[t.mint].at))
  }

  /** A token got by refreshing was got past a blacklist that did not hold the refresh token. */
  ghost predicate HonestRefresh(timeline: seq<Moment>, t: Issue) {
    t.origin.ByRefresh? ==>
      && t.origin.decoded <= t.origin.checked <= t.read < |timeline|
      && Passes(Signed(t.origin.of), timeline[t.origin.checked].keys, timeline[t.origin.decoded].at,
                timeline[t.origin.checked].at)
      && t.claims.sub == t.origin.of.sub
  }

  /** If the token is on the blacklist, its key lapses no whole second before it does. */
  ghost predicate LapsesLate(keys: Keys, claims: Claims) {
    claims.jti.Some? && claims.exp.Some? && RevokedKey(claims.jti.value) in keys ==>
      keys[RevokedKey(claims.jti.value)] + SECOND > claims.exp.value * SECOND
  }

  /** Whatever was logged out under this token's id expires when it does: nobody signed the id a second time
      with another expiry. */
  predicate OneExpiry(loggedOut: seq<Claims>, claims: Claims) {
    forall i :: 0 <= i < |loggedOut| && loggedOut[i].jti == claims.jti ==> loggedOut[i].exp == claims.exp
  }

  ghost predicate KeysLapseLate(s: State) {
    forall k, i :: 0 <= k < |s.timeline| && 0 <= i < |s.issued| && OneExpiry(s.loggedOut, s.issued[i].claims) ==>
      LapsesLate(s.timeline[k].keys, s.issued[i].claims)
  }

  ghost predicate DistinctJtis(issued: seq<Issue>) {
    forall i, j :: 0 <= i < j < |issued| ==> issued[i].claims.jti != issued[j].claims.jti
  }

  ghost predicate Inv(s: State) {
    && s.timeline != [] && ClockAdvances(s.timeline) && KeysStay(s.timeline)
    && (forall i :: 0 <= i < |s.issued| ==> Honest(s.timeline, s.issued[i]) && HonestRefresh(s.timeline, s.issued[i]))
    && DistinctJtis(s.issued) && KeysLapseLate(s)
  }

  lemma InitialInv(legacy: map<Id, Account>)
    ensures Inv(Initial(legacy))
  {}

  lemma TimelineGrows(timeline: seq<Moment>, m: Moment)
    requires timeline != [] && ClockAdvances(timeline) && KeysStay(timeline)
    requires timeline[|timeline| - 1].at <= m.at && timeline[|timeline| - 1].keys.Keys <= m.keys.Keys
    ensures ClockAdvances(timeline + [m]) && KeysStay(timeline + [m])
  {
    var last := |timeline| - 1;
    forall i | 0 <= i < |timeline|
      ensures timeline[i].at <= m.at && timeline[i].keys.Keys <= m.keys.Keys
    {
      assert timeline[i].at <= timeline[last].at && timeline[i].keys.Keys <= timeline[last].keys.Keys;
    }
  }

  lemma HonestStays(timeline: seq<Moment>, m: Moment, t: Issue)
    requires Honest(timeline, t) && HonestRefresh(timeline, t)
    ensures Honest(timeline + [m], t) && HonestRefresh(timeline + [m], t)
  {}

  /** What a step signs. */
  function NewTokens(s: State, step: Step): seq<Issue>
    requires s.timeline != []
  {
    Apply(s, step).issued[|s.issued|..]
  }

  lemma StepAppends(s: State, step: Step)
    requires s.timeline != [] && Enabled(s, step)
    ensures var s' := Apply(s, step);
      && s'.issued == s.issued + NewTokens(s, step)
      && s'.timeline == s.timeline + [Now(s')]
      && Now(s').at >= Now(s).at
      && (!step.LogOut? ==> Now(s').keys == Now(s).keys)
      && (step.LogOut? ==> NewTokens(s, step) == [] && Now(s').at == Now(s).at)
      && s'.loggedOut == s.loggedOut + if step.LogOut? then [step.given] else []
  {}

  lemma NewTokensAreHonest(s: State, step: Step)
    requires Inv(s) && Enabled(s, step)
    ensures forall i :: 0 <= i < |NewTokens(s, step)| ==>
      Honest(Apply(s, step).timeline, NewTokens(s, step)[i]) && HonestRefresh(Apply(s, step).timeline, NewTokens(s, step)[i])
  {}

  lemma NewTokensAreNew(s: State, step: Step)
    requires Inv(s) && Enabled(s, step)
    ensures DistinctJtis(Apply(s, step).issued)
    ensures forall i :: 0 <= i < |NewTokens(s, step)| ==>
      NewTokens(s, step)[i].claims.jti.Some? && RevokedKey(NewTokens(s, step)[i].claims.jti.value) !in Now(s).keys
  {}

  lemma OneExpiryBefore(loggedOut: seq<Claims>, more: seq<Claims>, claims: Claims)
    requires OneExpiry(loggedOut + more, claims)
    ensures OneExpiry(loggedOut, claims)
    ensures more != [] && more[0].jti == claims.jti ==> more[0].exp == claims.exp
  {
    var all := loggedOut + more;
    assert forall i :: 0 <= i < |loggedOut| ==> all[i] == loggedOut[i];
    assert more != [] ==> all[|loggedOut|] == more[0];
  }

  /** A logout's key lapses late, and it is no other token's key. */
  lemma LogOutLapsesLate(s: State, step: Step, i: nat)
    requires Inv(s) && Enabled(s, step) && step.LogOut? && i < |s.issued|
    requires OneExpiry(s.loggedOut + [step.given], s.issued[i].claims)
    ensures LapsesLate(Now(Apply(s, step)).keys, s.issued[i].claims)
  {
    var given, claims := step.given, s.issued[i].claims;
    var last := |s.timeline| - 1;
    OneExpiryBefore(s.loggedOut, [given], claims);
    assert s.timeline[step.measured].at <= s.timeline[last].at;
    LapseAgainstExpiry(given.exp.value, s.timeline[step.measured].at, Now(s).at);
    assert LapsesLate(s.timeline[last].keys, claims);
    if given.jti != claims.jti && claims.jti.Some? {
      KeysNeverCollide(claims.jti.value, given.jti.value);
    }
  }

  lemma StepLapsesLate(s: State, step: Step)
    requires Inv(s) && Enabled(s, step)
    ensures KeysLapseLate(Apply(s, step))
  {
    var s' := Apply(s, step);
    StepAppends(s, step);
    NewTokensAreNew(s, step);
    var last := |s.timeline| - 1;
    forall k, i | 0 <= k < |s'.timeline| && 0 <= i < |s'.issued| && OneExpiry(s'.loggedOut, s'.issued[i].claims)
      ensures LapsesLate(s'.timeline[k].keys, s'.issued[i].claims)
    {
      OneExpiryBefore(s.loggedOut, if step.LogOut? then [step.given] else [], s'.issued[i].claims);
      if i < |s.issued| {
        if k <= last {
          assert LapsesLate(s.timeline[k].keys, s.issued[i].claims);
        } else if step.LogOut? {
          LogOutLapsesLate(s, step, i);
        } else {
          assert LapsesLate(s.timeline[last].keys, s.issued[i].claims);
        }
      } else {
        assert s'.issued[i] == NewTokens(s, step)[i - |s.issued|];
        assert k <= last ==> s.timeline[k].keys.Keys <= s.timeline[last].keys.Keys;
      }
    }
  }

  lemma StepKeeps(s: State, step: Step)
    requires Inv(s)
    ensures Inv(Apply(s, step))
  {
    if Enabled(s, step) {
      var s' := Apply(s, step);
      StepAppends(s, step);
      TimelineGrows(s.timeline, Now(s'));
      NewTokensAreHonest(s, step);
      NewTokensAreNew(s, step);
      StepLapsesLate(s, step);
      forall i | 0 <= i < |s'.issued| ensures Honest(s'.timeline, s'.issued[i]) && HonestRefresh(s'.timeline, s'.issued[i]) {
        if i < |s.issued| {
          HonestStays(s.timeline, Now(s'), s.issued[i]);
        } else {
          assert s'.issued[i] == NewTokens(s, step)[i - |s.issued|];
        }
      }
    }
  }

  lemma {:induction false} RunKeeps(legacy: map<Id, Account>, steps: seq<Step>)
    ensures Inv(Run(legacy, steps))
  {
    if steps == [] {
      InitialInv(legacy);
    } else {
      RunKeeps(legacy, steps[..|steps| - 1]);
      StepKeeps(Run(legacy, steps[..|steps| - 1]), steps[|steps| - 1]);
    }
  }

  // ---- what follows ------------------------------------------------------

  /** Bounded staleness: a token accepted as an access token now was signed less than 15 minutes ago by
      a request that had found the account ACTIVE with exactly the role on the token. */
  lemma AcceptedTokensAreRecent(legacy: map<Id, Account>, steps: seq<Step>, s: State, i: nat)
    requires s == Run(legacy, steps) && i < |s.issued|
    requires Decode(Signed(s.issued[i].claims), ACCESS, Now(s).at).Accepted?
    ensures var t := s.issued[i];
      && t.read <= t.mint < |s.timeline|
      && Now(s).at < s.timeline[t.mint].at + ACCESS_TTL_SECONDS * SECOND
      && t.claims.sub.Some? && t.claims.role.Some?
      && Held(s.timeline[t.read], t.claims.sub.value, t.claims.role.value)
  {
    RunKeeps(legacy, steps);
    var t := s.issued[i];
    assert Honest(s.timeline, t);
    RefreshTokensGrantNothing(t.claims.sub.value, t.claims.jti.value, s.timeline[t.mint].at, Now(s).at);
    WholeSeconds(s.timeline[t.mint].at, ACCESS_TTL_SECONDS);
  }

  /** No request took longer than this from reading the account to signing. */
  ghost predicate SignedWithin(s: State, delay: nat) {
    forall i :: 0 <= i < |s.issued| && s.issued[i].read < |s.timeline| && s.issued[i].mint < |s.timeline| ==>
      s.timeline[s.issued[i].mint].at <= s.timeline[s.issued[i].read].at + delay
  }

  /** So an account that has been banned, or has held another role, since 15 minutes ago (and as long as
      a request takes) has no accepted token left that says otherwise. With use cases taken as atomic
      the delay is zero. */
  lemma OldFactsRunOut(legacy: map<Id, Account>, steps: seq<Step>, s: State, since: nat, delay: nat, user: Id, role: Role,
                       i: nat)
    requires s == Run(legacy, steps) && since < |s.timeline| && i < |s.issued|
    requires SignedWithin(s, delay)
    requires s.timeline[since].at + ACCESS_TTL_SECONDS * SECOND + delay <= Now(s).at
    requires forall k :: since <= k < |s.timeline| ==> !Held(s.timeline[k], user, role)
    requires s.issued[i].claims.sub == Some(user) && s.issued[i].claims.role == Some(role)
    ensures Decode(Signed(s.issued[i].claims), ACCESS, Now(s).at) == TokenError
  {
    RunKeeps(legacy, steps);
    var t := s.issued[i];
    assert Honest(s.timeline, t);
    assert t.read < since ==> s.timeline[t.read].at <= s.timeline[since].at;
    if Decode(Signed(t.claims), ACCESS, Now(s).at).Accepted? {
      AcceptedTokensAreRecent(legacy, steps, s, i);
    }
  }

  /** Logging out holds: a token minted by refreshing r, whose blacklist was read at a moment when r had
      been logged out -- once or many times -- was let through only because the key had lapsed, so in
      the last second before r expired or after; and if the key was to outlive r, only because r expired
      between being decoded and being looked up. Tokens signed elsewhere with the same secret may be presented
      too, as long as none that is logged out names r's id with another expiry. */
  lemma LoggedOutStaysOut(legacy: map<Id, Account>, steps: seq<Step>, s: State, r: nat, i: nat, k: nat)
    requires s == Run(legacy, steps) && r < |s.issued| && i < |s.issued|
    requires s.issued[i].origin.ByRefresh? && s.issued[i].origin.of == s.issued[r].claims
    requires s.issued[r].claims.jti.Some? && s.issued[r].claims.exp.Some? && OneExpiry(s.loggedOut, s.issued[r].claims)
    requires k <= s.issued[i].origin.checked < |s.timeline| && s.issued[i].origin.decoded < |s.timeline|
    requires RevokedKey(s.issued[r].claims.jti.value) in s.timeline[k].keys
    ensures var o := s.issued[i].origin;
      var key, end := RevokedKey(o.of.jti.value), o.of.exp.value * SECOND;
      && key in s.timeline[o.checked].keys
      && s.timeline[o.checked].keys[key] <= s.timeline[o.checked].at
      && s.timeline[o.checked].at + SECOND > end
      && (s.timeline[o.checked].keys[key] >= end ==> s.timeline[o.decoded].at < end <= s.timeline[o.checked].at)
  {
    RunKeeps(legacy, steps);
    var t := s.issued[i];
    assert Honest(s.timeline, s.issued[r]) && HonestRefresh(s.timeline, t);
    assert s.timeline[k].keys.Keys <= s.timeline[t.origin.checked].keys.Keys;
    assert LapsesLate(s.timeline[t.origin.checked].keys, s.issued[r].claims);
  }
}
