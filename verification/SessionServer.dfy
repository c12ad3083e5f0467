/**
 Sign-in, refresh and logout as they interleave: between any two readings of a request others go on, and
 each request that signs or revokes something is a step of the session system.
 */
module SessionServer {
  import opened AuthTypes
  import A = Accounts
  import AuthEntities
  import Text
  import opened Tokens
  import opened Redis
  import opened Revocation
  import opened Sessions
  import opened SessionUseCases
  import opened UserRepository

  // ---- what account use cases keep of the tables -------------------------

  lemma EffectKeepsUnique(s: A.Store, c: A.Command)
    requires A.KeyedById(s) && A.Fresh(s, c) && UniqueEmails(s.users)
    ensures var e := A.EffectOf(s, c);
      e.SavesUser? || e.SavesUserThenRequest? ==> !TakenByAnother(s.users, e.account)
  {}

  lemma SaveKeepsUnique(users: map<Id, Account>, account: Account)
    requires UniqueEmails(users) && !TakenByAnother(users, account)
    ensures UniqueEmails(users[account.id := account])
  {}

  lemma CommandKeepsUnique(s: A.Store, c: A.Command)
    requires A.KeyedById(s) && A.Fresh(s, c) && UniqueEmails(s.users)
    ensures UniqueEmails(A.Execute(s, c).0.users)
  {
    var e := A.EffectOf(s, c);
    EffectKeepsUnique(s, c);
    A.UsersAfter(s, e, c.eventId);
    if e.SavesUser? || e.SavesUserThenRequest? {
      SaveKeepsUnique(s.users, e.account);
    }
  }

  lemma StepKeepsTables(s: State, step: Step)
    requires s.timeline != [] && A.KeyedById(Now(s).store) && UniqueEmails(Now(s).store.users)
    ensures A.KeyedById(Now(Apply(s, step)).store) && UniqueEmails(Now(Apply(s, step)).store.users)
  {
    if Enabled(s, step) && step.UseCase? {
      A.CommandKeepsKeys(Now(s).store, step.command);
      CommandKeepsUnique(Now(s).store, step.command);
    }
  }

  lemma TimelineExtends(s: State, step: Step)
    requires s.timeline != []
    ensures s.timeline <= Apply(s, step).timeline && s.issued <= Apply(s, step).issued
    ensures Now(s).at <= Now(Apply(s, step)).at
  {}

  /** Both ids are new, and not the same. */
  predicate NewPair(s: State, a: string, r: string)
    requires s.timeline != []
  {
    NewJti(s, a) && NewJti(s, r) && a != r
  }

  /** The step was possible, was taken, and issued exactly these tokens. */
  ghost predicate Issues(s: State, step: Step, s': State, tokens: seq<Claims>) {
    && s.timeline != [] && Enabled(s, step) && s' == Apply(s, step)
    && |s'.issued| == |s.issued| + |tokens|
    && forall k :: 0 <= k < |tokens| ==> s'.issued[|s.issued| + k].claims == tokens[k]
  }

  lemma LogInIssues(s: State, user: Id, read: nat, a: string, r: string)
    requires s.timeline != [] && NewPair(s, a, r) && read < |s.timeline| && IsActive(s.timeline[read], user)
    ensures var step, role := Sessions.LogIn(user, read, a, r), s.timeline[read].store.users[user].role;
      Issues(s, step, Apply(s, step), [AccessToken(user, role, a, Now(s).at), RefreshToken(user, r, Now(s).at)])
  {}

  ghost predicate StepsTo(s: State, step: Step, s': State) {
    s.timeline != [] && s' == Apply(s, step)
  }

  /** These states were gone through. */
  ghost predicate Traced(legacy: map<Id, Account>, states: seq<State>, steps: seq<Step>) {
    && |states| == |steps| + 1 && states[0] == Initial(legacy)
    && forall k :: 0 <= k < |steps| ==> StepsTo(states[k], steps[k], states[k + 1])
  }

  lemma TracePush(legacy: map<Id, Account>, states: seq<State>, steps: seq<Step>, step: Step)
    requires Traced(legacy, states, steps) && states[|steps|].timeline != []
    ensures Traced(legacy, states + [Apply(states[|steps|], step)], steps + [step])
  {}

  lemma {:induction false} TraceIsRun(legacy: map<Id, Account>, states: seq<State>, steps: seq<Step>)
    requires Traced(legacy, states, steps)
    ensures states[|steps|] == Run(legacy, steps)
  {
    if steps != [] {
      var n := |steps| - 1;
      assert StepsTo(states[n], steps[n], states[n + 1]);
      forall k | 0 <= k < n ensures StepsTo(states[..n + 1][k], steps[..n][k], states[..n + 1][k + 1]) {
        assert StepsTo(states[k], steps[k], states[k + 1]);
      }
      TraceIsRun(legacy, states[..n + 1], steps[..n]);
    }
  }

  class Server {
    const legacy: map<Id, Account>
    const repo: Repository
    const client: Client
    var clock: nat
    /** All that has happened. */
    var state: State
    ghost var states: seq<State>
    ghost var steps: seq<Step>

    ghost predicate Valid()
      reads this, repo, client
    {
      && repo.Valid() && Traced(legacy, states, steps) && state == states[|steps|]
      && state.timeline != [] && Now(state) == Moment(clock, repo.Contents(), client.keys)
    }

    /** The server never leaves the session system. */
    lemma InSystem()
      requires Valid()
      ensures state == Run(legacy, steps) && Inv(state)
    {
      TraceIsRun(legacy, states, steps);
      RunKeeps(legacy, steps);
    }

    constructor (legacy: map<Id, Account>)
      requires UniqueEmails(legacy) && forall id :: id in legacy ==> legacy[id].id == id
      ensures Valid() && fresh(repo) && fresh(client) && steps == [] && this.legacy == legacy
    {
      this.legacy, clock, state, states, steps := legacy, 0, Initial(legacy), [Initial(legacy)], [];
      repo := new Repository(legacy);
      client := new Client();
    }

    /** The index of the present moment. */
    function Present(): nat
      requires state.timeline != []
      reads this
    {
      |state.timeline| - 1
    }

    /** Somebody else's step. */
    method Take(step: Step)
      requires Valid()
      modifies this`clock, this`state, this`states, this`steps, repo`users, repo`requests, repo`outbox, client
      ensures Valid() && steps == old(steps) + [step] && state == Apply(old(state), step)
      ensures old(state).timeline <= state.timeline && old(state).issued <= state.issued && old(clock) <= clock
    {
      StepKeepsTables(state, step);
      TimelineExtends(state, step);
      state := Apply(state, step);
      var m := Now(state);
      clock, client.keys := m.at, m.keys;
      repo.users, repo.requests, repo.outbox := m.store.users, m.store.requests, m.store.outbox;
      TracePush(legacy, states, steps, step);
      states, steps := states + [state], steps + [step];
    }

    /** Others go on while a request waits. */
    method Elapse(others: seq<Step>)
      requires Valid()
      modifies this`clock, this`state, this`states, this`steps, repo`users, repo`requests, repo`outbox, client
      ensures Valid()
      ensures old(state).timeline <= state.timeline && old(state).issued <= state.issued && old(clock) <= clock
    {
      for i := 0 to |others|
        invariant Valid()
        invariant old(state).timeline <= state.timeline && old(state).issued <= state.issued && old(clock) <= clock
      {
        Take(others[i]);
      }
    }

    /** Sign-in: the account is read, others go on while bcrypt runs and while the audit row is committed, and
        the tokens are signed with what was read. If their ids are new, that is a LogIn step. */
    method LogIn(login: LoginUseCase, email: string, password: string, ip: string, accessJti: string, refreshJti: string,
                 hashing: seq<Step>, auditing: seq<Step>) returns (outcome: LoginOutcome, ghost at: State)
      requires Valid() && login.repo == repo
      modifies this`clock, this`state, this`states, this`steps, repo, client
      ensures Valid() && old(state).timeline <= at.timeline
      ensures !A.EmailTaken(old(repo.Contents()), Text.NormalizeEmail(email)) ==> outcome == InvalidCredentials
      ensures forall id :: id in old(repo.users) && old(repo.users)[id].email == Text.NormalizeEmail(email) ==>
        outcome == login.Answer(old(repo.users)[id], password, accessJti, refreshJti, clock)
      ensures SignInMeans(old(repo.users), login.verify, email, password, outcome)
      ensures TokensAreOf(old(repo.users), email, outcome, accessJti, refreshJti, clock)
      ensures |repo.audit| == |old(repo.audit)| + 1 && repo.audit[|old(repo.audit)|].success == outcome.LoggedIn?
      ensures outcome.LoggedIn? ==> outcome.access.sub.Some?
      ensures outcome.LoggedIn? && NewPair(at, accessJti, refreshJti) ==>
        Issues(at, Sessions.LogIn(outcome.access.sub.value, |old(state).timeline| - 1, accessJti, refreshJti), state,
               [outcome.access, outcome.refresh])
      ensures !outcome.LoggedIn? ==> state == at
    {
      ghost var users := repo.users;
      var read := Present();
      var user := repo.GetByEmail(Text.NormalizeEmail(email));
      var matches := user != null && login.verify(password, user.passwordHash);
      Elapse(hashing);
      Elapse(auditing);
      at := state;
      outcome := SignIn(login, user, matches, ip, accessJti, refreshJti, read);
      login.AnswerMeans(users, user, email, password, accessJti, refreshJti, clock, outcome);
    }

    /** The audit row, and the tokens if there are to be any. */
    method SignIn(login: LoginUseCase, user: AuthEntities.User?, matches: bool, ip: string, accessJti: string,
                  refreshJti: string, read: nat) returns (outcome: LoginOutcome)
      requires Valid() && login.repo == repo && (matches ==> user != null) && read < |state.timeline|
      requires user != null ==>
        user.id in state.timeline[read].store.users && state.timeline[read].store.users[user.id] == user.Value()
      modifies this`clock, this`state, this`states, this`steps, repo, client
      ensures Valid() && clock == old(clock)
      ensures |repo.audit| == |old(repo.audit)| + 1 && repo.audit[|old(repo.audit)|].success == outcome.LoggedIn?
      ensures user == null ==> outcome == InvalidCredentials
      ensures user != null && matches ==> outcome == login.Welcome(user.Value(), accessJti, refreshJti, clock)
      ensures user != null && !matches ==> outcome == InvalidCredentials
      ensures outcome.LoggedIn? && NewPair(old(state), accessJti, refreshJti) ==>
        outcome.access.sub.Some? &&
        Issues(old(state), Sessions.LogIn(outcome.access.sub.value, read, accessJti, refreshJti), state,
               [outcome.access, outcome.refresh])
      ensures !outcome.LoggedIn? ==> state == old(state)
    {
      outcome := login.Conclude(user, matches, ip, accessJti, refreshJti, clock);
      if outcome.LoggedIn? && NewPair(state, accessJti, refreshJti) {
        LogInIssues(state, user.id, read, accessJti, refreshJti);
        Take(Sessions.LogIn(user.id, read, accessJti, refreshJti));
      }
    }

    /** Refresh: decoded at one moment, looked up at a later one, its account read at a later one still; the new
        token is signed at once. If its id is new, that is a Refresh step. */
    method Refresh(refresh: RefreshTokenUseCase, token: Token, jti: string, looking: seq<Step>, reading: seq<Step>)
      returns (outcome: RefreshOutcome, ghost at: State, ghost checked: nat)
      requires Valid() && refresh.repo == repo && refresh.blacklist.client == client
      modifies this`clock, this`state, this`states, this`steps, repo`users, repo`requests, repo`outbox, client
      ensures Valid() && old(state).timeline <= at.timeline
      ensures outcome.Minted? ==> token.Signed?
      ensures outcome.Minted? && NewJti(at, jti) ==>
        Issues(at, Sessions.Refresh(token.claims, |old(state).timeline| - 1, checked, |at.timeline| - 1, jti), state,
               [outcome.claims])
      ensures !outcome.Minted? ==> state == at
    {
      ghost var start := state;
      var decoded, decodedAt := Present(), clock;
      var admitted, looked := Look(refresh, token, decodedAt, looking);
      at, checked := state, looked;
      if !admitted {
        return Refused, at, checked;
      }
      outcome, at := ReadAndSign(refresh, token, jti, reading, start, decoded, looked);
    }

    /** The wait for the blacklist, and its answer. */
    method Look(refresh: RefreshTokenUseCase, token: Token, decodedAt: nat, looking: seq<Step>)
      returns (admitted: bool, looked: nat)
      requires Valid() && refresh.repo == repo && refresh.blacklist.client == client
      modifies this`clock, this`state, this`states, this`steps, repo`users, repo`requests, repo`outbox, client
      ensures Valid() && old(state).timeline <= state.timeline
      ensures looked == |state.timeline| - 1
      ensures admitted <==> Passes(token, Now(state).keys, decodedAt, Now(state).at)
    {
      Elapse(looking);
      looked := Present();
      admitted := refresh.Admit(token, decodedAt, clock);
    }

    /** The wait for the account, and the new token. */
    method ReadAndSign(refresh: RefreshTokenUseCase, token: Token, jti: string, reading: seq<Step>,
                       ghost start: State, decoded: nat, looked: nat)
      returns (outcome: RefreshOutcome, ghost at: State)
      requires Valid() && refresh.repo == repo && start.timeline != [] && token.Signed?
      requires start.timeline <= state.timeline && decoded == |start.timeline| - 1 && looked == |state.timeline| - 1
      requires Passes(token, Now(state).keys, Now(start).at, Now(state).at)
      modifies this`clock, this`state, this`states, this`steps, repo`users, repo`requests, repo`outbox, client
      ensures Valid() && old(state).timeline <= at.timeline
      ensures outcome.Minted? && NewJti(at, jti) ==>
        Issues(at, Sessions.Refresh(token.claims, decoded, looked, |at.timeline| - 1, jti), state, [outcome.claims])
      ensures !outcome.Minted? ==> state == at
    {
      ghost var seen := state.timeline[looked];
      Elapse(reading);
      assert state.timeline[looked] == seen;
      at := state;
      outcome := SignNow(refresh, token, jti, start, decoded, looked);
    }

    /** The account as it is now, and the new token. */
    method SignNow(refresh: RefreshTokenUseCase, token: Token, jti: string, ghost start: State, decoded: nat, looked: nat)
      returns (outcome: RefreshOutcome)
      requires Valid() && refresh.repo == repo && start.timeline != [] && token.Signed?
      requires start.timeline <= state.timeline && decoded == |start.timeline| - 1 <= looked < |state.timeline|
      requires Passes(token, state.timeline[looked].keys, Now(start).at, state.timeline[looked].at)
      modifies this`clock, this`state, this`states, this`steps, repo`users, repo`requests, repo`outbox, client
      ensures Valid()
      ensures outcome.Minted? && NewJti(old(state), jti) ==>
        Issues(old(state), Sessions.Refresh(token.claims, decoded, looked, |old(state).timeline| - 1, jti), state,
               [outcome.claims])
      ensures !outcome.Minted? ==> state == old(state)
    {
      outcome := refresh.MintFor(token.claims.sub, jti, clock);
      if outcome.Minted? && NewJti(state, jti) {
        RefreshIsEnabled(start, state, token, looked, jti);
        Take(Sessions.Refresh(token.claims, decoded, looked, Present(), jti));
      }
    }

    /** Logout: decoded and measured in one go, set in Redis when its turn comes: a LogOut step, if the token names
        an id to revoke and an expiry to measure by, and otherwise none. */
    method LogOut(logout: LogoutUseCase, token: Token, drift: nat, setting: seq<Step>)
      returns (ok: bool, ghost at: State)
      requires Valid() && logout.blacklist.client == client
      modifies this`clock, this`state, this`states, this`steps, repo`users, repo`requests, repo`outbox, client
      ensures Valid() && old(state).timeline <= at.timeline
      ensures ok <==> Decode(token, REFRESH, old(clock)).Accepted?
      ensures ok && Revocable(token.claims) ==>
        var step := Sessions.LogOut(token.claims, |old(state).timeline| - 1, |old(state).timeline|);
        Enabled(at, step) && state == Apply(at, step)
      ensures !ok || !Revocable(token.claims) ==> state == at
    {
      ghost var start := state;
      var decoded := Present();
      var decodedAt := clock;
      at := state;
      if Decode(token, REFRESH, decodedAt).TokenError? {
        return false, at;
      }
      Take(Tick(drift));
      var readAt := clock;
      Elapse(setting);
      at := state;
      ok := logout.Execute(token, decodedAt, readAt, clock);
      if Revocable(token.claims) {
        LogOutIsEnabled(start, state, token);
        Record(Sessions.LogOut(token.claims, decoded, decoded + 1));
      }
    }

    /** Note a step whose effect the client already shows. */
    method Record(step: Step)
      requires repo.Valid() && Traced(legacy, states, steps) && state == states[|steps|] && state.timeline != []
      requires Now(Apply(state, step)) == Moment(clock, repo.Contents(), client.keys)
      modifies this`state, this`states, this`steps
      ensures Valid() && state == Apply(old(state), step) && steps == old(steps) + [step]
    {
      state := Apply(state, step);
      TracePush(legacy, states, steps, step);
      states, steps := states + [state], steps + [step];
    }
  }

  lemma RefreshIsEnabled(start: State, s: State, token: Token, checked: nat, jti: string)
    requires start.timeline != [] && start.timeline <= s.timeline && token.Signed?
    requires |start.timeline| - 1 <= checked < |s.timeline|
    requires Passes(token, s.timeline[checked].keys, Now(start).at, s.timeline[checked].at)
    requires token.claims.sub.Some? && IsActive(Now(s), token.claims.sub.value) && NewJti(s, jti)
    ensures var step := Sessions.Refresh(token.claims, |start.timeline| - 1, checked, |s.timeline| - 1, jti);
      Issues(s, step, Apply(s, step),
             [AccessToken(token.claims.sub.value, Now(s).store.users[token.claims.sub.value].role, jti, Now(s).at)])
  {}

  lemma LogOutIsEnabled(start: State, s: State, token: Token)
    requires start.timeline != [] && start.timeline <= s.timeline && |start.timeline| < |s.timeline|
    requires token.Signed? && Revocable(token.claims) && Decode(token, REFRESH, Now(start).at).Accepted?
    ensures Enabled(s, Sessions.LogOut(token.claims, |start.timeline| - 1, |start.timeline|))
  {}
}
