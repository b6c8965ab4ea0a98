/** Refresh-token rotation over the allow-list. A rotation is two statements, a delete and an
    insert, and any number of calls may be between the two. */
module Tokens {
  import opened Model
  import opened Store

  /** A login and everything rotated from it. */
  type Session = nat
  type Call = nat

  /** tokens is the allow-list with the session each token descends from, inFlight the
      rotations that have deleted their token and not inserted the next. The other fields
      record history. */
  datatype State = State(tokens: map<Uuid, Session>, inFlight: map<Call, Session>,
                         issued: set<Uuid>, consumed: set<Uuid>,
                         logins: set<Session>, loggedOut: set<Session>, failed: set<Session>)

  datatype Action =
    | Login(session: Session, jti: Uuid)
    | Delete(call: Call, jti: Uuid)
    | DeleteLost(jti: Uuid)
    | Insert(call: Call, jti: Uuid)
    | InsertFails(call: Call)
    | Logout(jti: Uuid)
    | Banned(jti: Uuid)

  predicate Enabled(s: State, a: Action) {
    match a
    case Login(session, jti) => session !in s.logins && jti !in s.issued
    case Delete(call, jti) => jti in s.tokens && call !in s.inFlight
    case DeleteLost(jti) => jti in s.tokens
    case Insert(call, jti) => call in s.inFlight && jti !in s.issued
    case InsertFails(call) => call in s.inFlight
    case Logout(jti) => jti in s.tokens
    case Banned(jti) => jti !in s.tokens
  }

  function Do(s: State, a: Action): State
    requires Enabled(s, a)
  {
    match a
    case Login(session, jti) =>
      s.(tokens := s.tokens[jti := session], issued := s.issued + {jti}, logins := s.logins + {session})
    case Delete(call, jti) =>
      s.(tokens := s.tokens - {jti}, consumed := s.consumed + {jti}, inFlight := s.inFlight[call := s.tokens[jti]])
    // the row is gone although the call is told of an error
    case DeleteLost(jti) =>
      s.(tokens := s.tokens - {jti}, consumed := s.consumed + {jti}, failed := s.failed + {s.tokens[jti]})
    case Insert(call, jti) =>
      s.(tokens := s.tokens[jti := s.inFlight[call]], issued := s.issued + {jti}, inFlight := s.inFlight - {call})
    case InsertFails(call) =>
      s.(inFlight := s.inFlight - {call}, failed := s.failed + {s.inFlight[call]})
    case Logout(jti) =>
      s.(tokens := s.tokens - {jti}, consumed := s.consumed + {jti}, loggedOut := s.loggedOut + {s.tokens[jti]})
    case Banned(jti) => s
  }

  ghost predicate Init(s: State) {
    s == State(map[], map[], {}, {}, {}, {}, {})
  }

  ghost predicate Run(states: seq<State>, actions: seq<Action>) {
    && |states| == |actions| + 1
    && forall i | 0 <= i < |actions| :: Enabled(states[i], actions[i]) && states[i + 1] == Do(states[i], actions[i])
  }

  // ----- The invariant ---------------------------------------------------------------------

  ghost predicate Injective<K>(m: map<K, Session>) {
    forall j, k | j in m && k in m && m[j] == m[k] :: j == k
  }

  function Range<K>(m: map<K, Session>): set<Session> {
    set k | k in m :: m[k]
  }

  ghost predicate Inv(s: State) {
    && Injective(s.tokens) && Injective(s.inFlight)
    && Range(s.tokens) !! Range(s.inFlight) !! s.loggedOut !! s.failed
    && s.logins == Range(s.tokens) + Range(s.inFlight) + s.loggedOut + s.failed
    && s.tokens.Keys <= s.issued && s.consumed <= s.issued
    && s.tokens.Keys !! s.consumed
  }

  lemma RangeAdd<K>(m: map<K, Session>, k: K, x: Session)
    requires k !in m
    ensures Range(m[k := x]) == Range(m) + {x}
    ensures Injective(m) && x !in Range(m) ==> Injective(m[k := x])
  {
    var n := m[k := x];
    forall y ensures y in Range(n) <==> y in Range(m) + {x} {
      if y in Range(m) {
        var j :| j in m && m[j] == y;
        assert j in n && n[j] == y;
      }
      if y == x { assert k in n && n[k] == x; }
    }
  }

  lemma RangeRemove<K>(m: map<K, Session>, k: K)
    requires k in m && Injective(m)
    ensures Range(m - {k}) == Range(m) - {m[k]}
    ensures Injective(m - {k}) && m[k] in Range(m)
  {
    var n := m - {k};
    forall y | y in Range(m) - {m[k]} ensures y in Range(n) {
      var j :| j in m && m[j] == y;
      assert j in n && n[j] == y;
    }
  }

  lemma StepKeeps(s: State, a: Action)
    requires Inv(s) && Enabled(s, a)
    ensures Inv(Do(s, a))
  {
    match a
    case Login(session, jti) => RangeAdd(s.tokens, jti, session);
    case Delete(call, jti) =>
      RangeRemove(s.tokens, jti);
      RangeAdd(s.inFlight, call, s.tokens[jti]);
    case DeleteLost(jti) => RangeRemove(s.tokens, jti);
    case Insert(call, jti) =>
      RangeRemove(s.inFlight, call);
      RangeAdd(s.tokens, jti, s.inFlight[call]);
    case InsertFails(call) => RangeRemove(s.inFlight, call);
    case Logout(jti) => RangeRemove(s.tokens, jti);
    case Banned(jti) =>
  }

  lemma {:induction false} Reachable(states: seq<State>, actions: seq<Action>, n: nat)
    requires Run(states, actions) && Init(states[0]) && n <= |actions|
    ensures Inv(states[n])
    decreases n
  {
    if n > 0 {
      Reachable(states, actions, n - 1);
      StepKeeps(states[n - 1], actions[n - 1]);
    }
  }

  // ----- Properties of every interleaving --------------------------------------------------

  predicate Consumes(a: Action, jti: Uuid) {
    match a
    case Delete(_, j) => j == jti
    case DeleteLost(j) => j == jti
    case Logout(j) => j == jti
    case _ => false
  }

  lemma {:induction false} ConsumedStays(states: seq<State>, actions: seq<Action>, i: nat, n: nat, jti: Uuid)
    requires Run(states, actions) && i < n <= |actions| && Consumes(actions[i], jti)
    ensures jti in states[n].consumed
    decreases n
  {
    if i < n - 1 { ConsumedStays(states, actions, i, n - 1, jti); }
  }

  /** No interleaving consumes a refresh token twice, by rotation or by logout. */
  lemma ConsumedOnce(states: seq<State>, actions: seq<Action>, i: nat, j: nat, jti: Uuid)
    requires Run(states, actions) && Init(states[0])
    requires i < j < |actions| && Consumes(actions[i], jti)
    ensures !Consumes(actions[j], jti)
  {
    ConsumedStays(states, actions, i, j, jti);
    Reachable(states, actions, j);
  }

  /** A session is held by at most one live token or rotation in flight. */
  lemma OneHolder(states: seq<State>, actions: seq<Action>, n: nat)
    requires Run(states, actions) && Init(states[0]) && n <= |actions|
    ensures var s := states[n];
      && (forall j, k | j in s.tokens && k in s.tokens && s.tokens[j] == s.tokens[k] :: j == k)
      && (forall j, k | j in s.inFlight && k in s.inFlight && s.inFlight[j] == s.inFlight[k] :: j == k)
      && (forall j, k | j in s.tokens && k in s.inFlight :: s.tokens[j] != s.inFlight[k])
  {
    Reachable(states, actions, n);
    var s := states[n];
    forall j, k | j in s.tokens && k in s.inFlight ensures s.tokens[j] != s.inFlight[k] {
      assert s.tokens[j] in Range(s.tokens) && s.inFlight[k] in Range(s.inFlight);
    }
  }

  lemma {:induction false} EndedStays(states: seq<State>, actions: seq<Action>, i: nat, n: nat, session: Session)
    requires Run(states, actions) && i <= n <= |actions|
    requires session in states[i].loggedOut + states[i].failed
    ensures session in states[n].loggedOut + states[n].failed
    decreases n
  {
    if i < n { EndedStays(states, actions, i, n - 1, session); }
  }

  /** A session that was logged out, or lost in a failed rotation, never has a live token
      again. */
  lemma EndedForGood(states: seq<State>, actions: seq<Action>, i: nat, n: nat, session: Session)
    requires Run(states, actions) && Init(states[0]) && i <= n <= |actions|
    requires session in states[i].loggedOut + states[i].failed
    ensures forall j | j in states[n].tokens :: states[n].tokens[j] != session
    ensures forall c | c in states[n].inFlight :: states[n].inFlight[c] != session
  {
    EndedStays(states, actions, i, n, session);
    Reachable(states, actions, n);
    var s := states[n];
    forall j | j in s.tokens ensures s.tokens[j] != session {
      assert s.tokens[j] in Range(s.tokens);
    }
    forall c | c in s.inFlight ensures s.inFlight[c] != session {
      assert s.inFlight[c] in Range(s.inFlight);
    }
  }

  lemma {:induction false} RangeSize<K>(m: map<K, Session>)
    requires Injective(m)
    ensures |Range(m)| == |m|
    decreases |m|
  {
    if m.Keys != {} {
      var k :| k in m.Keys;
      RangeRemove(m, k);
      assert |m - {k}| == |m| - 1 by { assert (m - {k}).Keys == m.Keys - {k}; }
      RangeSize(m - {k});
    } else {
      assert Range(m) == {};
    }
  }

  lemma DisjointSizes(a: set<Session>, b: set<Session>, c: set<Session>, d: set<Session>)
    requires a !! b !! c !! d
    ensures |a + b + c + d| == |a| + |b| + |c| + |d|
  {
    assert |a + b| == |a| + |b|;
    assert |a + b + c| == |a + b| + |c|;
  }

  /** Every login is accounted for: live, in flight, logged out or failed. */
  lemma LoginsConserved(states: seq<State>, actions: seq<Action>, n: nat)
    requires Run(states, actions) && Init(states[0]) && n <= |actions|
    ensures var s := states[n];
      |s.logins| == |s.tokens| + |s.inFlight| + |s.loggedOut| + |s.failed|
  {
    Reachable(states, actions, n);
    var s := states[n];
    RangeSize(s.tokens);
    RangeSize(s.inFlight);
    DisjointSizes(Range(s.tokens), Range(s.inFlight), s.loggedOut, s.failed);
  }

  // ----- The code --------------------------------------------------------------------------

  datatype TokenRow = TokenRow(user: Uuid, expiresAt: Time)

  datatype AddResult = Added | AlreadyExists | AddError
  datatype DeleteResult = Hit | Miss | DeleteError

  class TokenRepository {
    var rows: map<Uuid, TokenRow>

    constructor ()
      ensures rows == map[]
    {
      rows := map[];
    }

    method AddToken(jti: Uuid, user: Uuid, expiresAt: Time, answer: Answer) returns (r: AddResult)
      modifies this
      ensures rows == if !answer.Refused? && jti !in old(rows) then old(rows)[jti := TokenRow(user, expiresAt)] else old(rows)
      ensures r.Added? <==> answer.Acked? && jti !in old(rows)
      ensures r.AlreadyExists? <==> answer.Acked? && jti in old(rows)
    {
      if answer.Refused? {
        return AddError;
      }
      if jti in rows {
        return if answer.Acked? then AlreadyExists else AddError;
      }
      rows := rows[jti := TokenRow(user, expiresAt)];
      return if answer.Acked? then Added else AddError;
    }

    method TryToDeleteToken(jti: Uuid, answer: Answer) returns (r: DeleteResult)
      modifies this
      ensures rows == if answer.Refused? then old(rows) else old(rows) - {jti}
      ensures r == if !answer.Acked? then DeleteError else if jti in old(rows) then Hit else Miss
    {
      if answer.Refused? {
        return DeleteError;
      }
      var cnt := if jti in rows then 1 else 0;
      rows := rows - {jti};
      if answer.Unacked? {
        return DeleteError;
      }
      return if cnt != 0 then Hit else Miss;
    }

    method DeleteAllUserTokens(user: Uuid, answer: Answer) returns (ok: bool)
      modifies this
      ensures ok <==> answer.Acked?
      ensures answer.Applied() ==>
        && (forall jti: Uuid :: jti in rows <==> jti in old(rows) && old(rows)[jti].user != user)
        && (forall jti | jti in rows :: rows[jti] == old(rows)[jti])
      ensures !answer.Applied() ==> rows == old(rows)
    {
      if answer.Applied() {
        rows := map jti | jti in rows && rows[jti].user != user :: rows[jti];
      }
      return answer.Acked?;
    }
  }

  datatype AuthResult = Signed(jti: Uuid) | TokenBanned | AuthError

  /** The actions are steps from s to t. */
  predicate Steps(s: State, actions: seq<Action>, t: State)
    decreases |actions|
  {
    if |actions| == 0 then s == t
    else Enabled(s, actions[0]) && Steps(Do(s, actions[0]), actions[1..], t)
  }

  lemma TwoSteps(s: State, a: Action, b: Action)
    requires Enabled(s, a) && Enabled(Do(s, a), b)
    ensures Steps(s, [a, b], Do(Do(s, a), b))
  {
    assert [a, b][1..] == [b] && [b][1..] == [];
  }

  /** What one rotation does to the history; `inserts` is whether the next token gets stored. */
  function RotateSteps(s: State, jti: Uuid, next: Uuid, deleted: Answer, inserts: bool, call: Call): seq<Action> {
    if deleted.Refused? || jti !in s.tokens then []
    else if deleted.Unacked? then [DeleteLost(jti)]
    else [Delete(call, jti), if inserts then Insert(call, next) else InsertFails(call)]
  }

  const REFRESH_LIFETIME := 30 * 24 * 3_600 * 1_000_000_000

  class AuthService {
    const tokenRepo: TokenRepository
    /** The history of the allow-list as a state of the step system. */
    ghost var history: State

    constructor (tokenRepo: TokenRepository)
      requires tokenRepo.rows == map[]
      ensures this.tokenRepo == tokenRepo && Init(history) && Valid()
    {
      this.tokenRepo := tokenRepo;
      this.history := State(map[], map[], {}, {}, {}, {}, {});
    }

    ghost predicate Valid()
      reads this, tokenRepo
    {
      tokenRepo.rows.Keys == history.tokens.Keys && Inv(history)
    }

    /** SignJWT at login: a fresh token starts a session. `signs` is whether both signatures
        succeed. */
    method SignJWT(user: Uuid, jti: Uuid, now: Time, signs: bool, answer: Answer, ghost session: Session) returns (r: AuthResult)
      requires Valid() && jti !in history.issued && session !in history.logins
      modifies this, tokenRepo
      ensures Valid()
      ensures Steps(old(history), if signs && answer.Applied() then [Login(session, jti)] else [], history)
      ensures r.Signed? <==> signs && answer.Acked?
      ensures tokenRepo.rows == if signs && !answer.Refused?
        then old(tokenRepo.rows)[jti := TokenRow(user, now + 2_592_000_000_000_000)] else old(tokenRepo.rows)
      ensures history.tokens == if signs && !answer.Refused? then old(history.tokens)[jti := session] else old(history.tokens)
      ensures history.inFlight == old(history.inFlight) && history.loggedOut == old(history.loggedOut) && history.failed == old(history.failed)
    {
      if !signs {
        return AuthError;
      }
      var added := tokenRepo.AddToken(jti, user, now + REFRESH_LIFETIME, answer);
      if answer.Applied() {
        StepKeeps(history, Login(session, jti));
        history := Do(history, Login(session, jti));
      }
      return if added.Added? then Signed(jti) else AuthError;
    }

    /** RotateJWT: consume the presented token, then sign the next one. A failure after the
        delete ends the session. */
    method RotateJWT(jti: Uuid, user: Uuid, next: Uuid, now: Time, deleted: Answer, signs: bool, added: Answer, ghost call: Call)
      returns (r: AuthResult)
      requires Valid() && next !in history.issued && call !in history.inFlight
      modifies this, tokenRepo
      ensures Valid()
      ensures Steps(old(history), RotateSteps(old(history), jti, next, deleted, signs && added.Applied(), call), history)
      ensures r.TokenBanned? <==> deleted.Acked? && jti !in old(tokenRepo.rows)
      ensures r.Signed? <==> deleted.Acked? && jti in old(tokenRepo.rows) && signs && added.Acked?
      ensures tokenRepo.rows ==
        var left := if deleted.Refused? then old(tokenRepo.rows) else old(tokenRepo.rows) - {jti};
        if deleted.Acked? && jti in old(tokenRepo.rows) && signs && !added.Refused?
        then left[next := TokenRow(user, now + 2_592_000_000_000_000)] else left
      ensures history.logins == old(history.logins) && history.loggedOut == old(history.loggedOut)
      ensures history.inFlight == old(history.inFlight)
      ensures deleted.Refused? || jti !in old(history.tokens) ==> history == old(history)
      ensures !deleted.Refused? && jti in old(history.tokens) ==>
        var session := old(history.tokens)[jti];
        if next in history.tokens then history.tokens[next] == session && history.failed == old(history.failed)
        else history.failed == old(history.failed) + {session}
    {
      var hit := tokenRepo.TryToDeleteToken(jti, deleted);
      if !hit.Hit? {
        if deleted.Unacked? && jti in history.tokens {
          StepKeeps(history, DeleteLost(jti));
          history := Do(history, DeleteLost(jti));
        }
        return if hit.Miss? then TokenBanned else AuthError;
      }
      ghost var start := history;
      StepKeeps(history, Delete(call, jti));
      history := Do(history, Delete(call, jti));
      var result := AddError;
      if signs {
        result := tokenRepo.AddToken(next, user, now + REFRESH_LIFETIME, added);
      }
      ghost var step := if signs && added.Applied() then Insert(call, next) else InsertFails(call);
      StepKeeps(history, step);
      history := Do(history, step);
      TwoSteps(start, Delete(call, jti), step);
      return if result.Added? then Signed(next) else AuthError;
    }

    /** LogoutByRefresh: consume the presented token and sign nothing. */
    method LogoutByRefresh(jti: Uuid, deleted: Answer) returns (r: DeleteResult)
      requires Valid()
      modifies this, tokenRepo
      ensures Valid()
      ensures Steps(old(history), if deleted.Applied() && jti in old(history.tokens) then [Logout(jti)] else [], history)
      ensures tokenRepo.rows == if deleted.Refused? then old(tokenRepo.rows) else old(tokenRepo.rows) - {jti}
      ensures history.loggedOut == if !deleted.Refused? && jti in old(history.tokens)
        then old(history.loggedOut) + {old(history.tokens)[jti]} else old(history.loggedOut)
      ensures history.failed == old(history.failed) && history.inFlight == old(history.inFlight)
      ensures r == if !deleted.Acked? then DeleteError else if jti in old(tokenRepo.rows) then Hit else Miss
    {
      r := tokenRepo.TryToDeleteToken(jti, deleted);
      if deleted.Applied() && jti in history.tokens {
        StepKeeps(history, Logout(jti));
        history := Do(history, Logout(jti));
      }
    }
  }
}
