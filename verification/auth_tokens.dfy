/** Refresh tokens and one-time codes (auth.service.ts), one handler at a time. A signed
    token and a code stand for the row they belong to; whether a password or token matches
    its hash is an argument. */
module AuthTokens {
  import opened Options

  type User = string

  const REFRESH_MS := 7 * 24 * 60 * 60 * 1000
  const OTP_MS := 10 * 60 * 1000

  datatype Kind = EmailVerify | PhoneVerify | PasswordReset

  /** A row of `refresh_tokens`. */
  datatype Token = Token(user: User, expiresAt: nat, revoked: bool)

  datatype Otp = Otp(user: User, code: string, kind: Kind, expiresAt: nat, used: bool)

  datatype UserRow = UserRow(verified: bool, active: bool)

  /** Rows stand in insertion order and their position stands for their id. The last three
      fields are history: `prev` says which token each token was exchanged for, `starts`
      counts logins and verifications that issued one, `consumed` lists the codes that
      were accepted. */
  datatype State = State(
    now: nat, users: map<User, UserRow>, tokens: seq<Token>, otps: seq<Otp>,
    prev: seq<Option<nat>>, starts: nat, consumed: seq<nat>)

  datatype Presented = Nothing | Undecodable | TokenId(id: nat)

  datatype Op =
    | Tick(ms: nat)
    | Register(user: User, code: string)
    | IssueOtp(user: User, kind: Kind, code: string)
    | Login(user: User, passwordOk: bool)
    | VerifyOtp(user: User, code: string, kind: Kind, row: Option<nat>)
    | Refresh(user: User, id: nat, matches: bool)
    | Logout(user: User, presented: Presented)
    | ResetPassword(user: User, code: string, row: Option<nat>)

  const INIT := State(0, map[], [], [], [], 0, [])

  // ---------------------------------------------------------------- what the handlers do

  function WithToken(s: State, user: User, prev: Option<nat>): State {
    s.(tokens := s.tokens + [Token(user, s.now + REFRESH_MS, false)], prev := s.prev + [prev])
  }

  function WithOtp(s: State, user: User, kind: Kind, code: string): State {
    s.(otps := s.otps + [Otp(user, code, kind, s.now + OTP_MS, false)])
  }

  function RevokeAll(tokens: seq<Token>, user: User): seq<Token> {
    seq(|tokens|, i requires 0 <= i < |tokens| => if tokens[i].user == user then tokens[i].(revoked := true) else tokens[i])
  }

  predicate Matches(o: Otp, user: User, code: string, kind: Kind) {
    o.user == user && o.code == code && o.kind == kind
  }

  /** `findOne` answers some matching row if there is one. */
  ghost predicate Found(s: State, row: Option<nat>, user: User, code: string, kind: Kind) {
    match row
    case Some(i) => i < |s.otps| && Matches(s.otps[i], user, code, kind)
    case None => forall i :: 0 <= i < |s.otps| ==> !Matches(s.otps[i], user, code, kind)
  }

  /** The code in that row is accepted. */
  predicate Accepted(s: State, row: Option<nat>) {
    row.Some? && row.value < |s.otps| && !s.otps[row.value].used && s.now <= s.otps[row.value].expiresAt
  }

  function Consume(s: State, i: nat): State
    requires i < |s.otps|
  {
    s.(otps := s.otps[i := s.otps[i].(used := true)], consumed := s.consumed + [i])
  }

  function LoggedIn(s: State, user: User, passwordOk: bool): State {
    if user in s.users && passwordOk && s.users[user].verified && s.users[user].active
    then WithToken(s, user, None).(starts := s.starts + 1) else s
  }

  function Verified(s: State, user: User, kind: Kind, row: Option<nat>): State {
    if !Accepted(s, row) then s
    else
      var used := Consume(s, row.value);
      if user !in s.users then used
      else
        var users := if kind == EmailVerify then s.users[user := s.users[user].(verified := true)] else s.users;
        WithToken(used.(users := users), user, None).(starts := s.starts + 1)
  }

  predicate Exchangeable(s: State, user: User, id: nat, matches: bool) {
    id < |s.tokens| && s.tokens[id].user == user && !s.tokens[id].revoked && s.now <= s.tokens[id].expiresAt && matches
  }

  function Refreshed(s: State, user: User, id: nat, matches: bool): State {
    if !Exchangeable(s, user, id, matches) then s
    else
      var revoked := s.(tokens := s.tokens[id := s.tokens[id].(revoked := true)]);
      if user !in s.users then revoked else WithToken(revoked, user, Some(id))
  }

  /** Without a token, the filter `revokedAt: undefined` is no condition at all: every
      token of the user is revoked, those already revoked once more. */
  function LoggedOut(s: State, user: User, presented: Presented): State {
    match presented
    case TokenId(id) =>
      if id < |s.tokens| && s.tokens[id].user == user then s.(tokens := s.tokens[id := s.tokens[id].(revoked := true)]) else s
    case Undecodable => s
    case Nothing => s.(tokens := RevokeAll(s.tokens, user))
  }

  function PasswordChanged(s: State, user: User, row: Option<nat>): State {
    if user !in s.users || !Accepted(s, row) then s
    else var used := Consume(s, row.value); used.(tokens := RevokeAll(s.tokens, user))
  }

  ghost predicate Enabled(s: State, op: Op) {
    match op
    case Register(user, _) => user !in s.users
    case VerifyOtp(user, code, kind, row) => Found(s, row, user, code, kind)
    case ResetPassword(user, code, row) => Found(s, row, user, code, PasswordReset)
    case _ => true
  }

  function Apply(s: State, op: Op): State {
    match op
    case Tick(ms) => s.(now := s.now + ms)
    case Register(user, code) => WithOtp(s.(users := s.users[user := UserRow(false, true)]), user, EmailVerify, code)
    case IssueOtp(user, kind, code) => if user in s.users then WithOtp(s, user, kind, code) else s
    case Login(user, passwordOk) => LoggedIn(s, user, passwordOk)
    case VerifyOtp(user, _, kind, row) => Verified(s, user, kind, row)
    case Refresh(user, id, matches) => Refreshed(s, user, id, matches)
    case Logout(user, presented) => LoggedOut(s, user, presented)
    case ResetPassword(user, _, row) => PasswordChanged(s, user, row)
  }

  ghost predicate Legal(ops: seq<Op>)
    decreases |ops|, 0
  {
    ops == [] || (Legal(ops[..|ops| - 1]) && Enabled(After(ops[..|ops| - 1]), ops[|ops| - 1]))
  }

  ghost function After(ops: seq<Op>): State
    requires Legal(ops)
    decreases |ops|, 1
  {
    if ops == [] then INIT else Apply(After(ops[..|ops| - 1]), ops[|ops| - 1])
  }

  // ---------------------------------------------------------------- chains

  ghost predicate Ordered(prev: seq<Option<nat>>) {
    forall i :: 0 <= i < |prev| && prev[i].Some? ==> prev[i].value < i
  }

  /** Predecessors are older, and no two tokens have the same one. */
  ghost predicate Chains(prev: seq<Option<nat>>) {
    && Ordered(prev)
    && (forall i, k :: 0 <= i < k < |prev| && prev[i].Some? ==> prev[k] != prev[i])
  }

  /** The first token of the chain. */
  function Root(prev: seq<Option<nat>>, i: nat): (r: nat)
    requires Ordered(prev) && i < |prev|
    ensures r <= i && prev[r].None?
  {
    if prev[i].None? then i else Root(prev, prev[i].value)
  }

  /** `k` was reached from `i` by exchanges. */
  ghost predicate LeadsTo(prev: seq<Option<nat>>, i: nat, k: nat)
    requires Ordered(prev) && k < |prev|
    decreases k
  {
    k == i || (prev[k].Some? && LeadsTo(prev, i, prev[k].value))
  }

  lemma {:induction false} FirstExchange(prev: seq<Option<nat>>, i: nat, k: nat) returns (c: nat)
    requires Ordered(prev) && k < |prev| && i != k && LeadsTo(prev, i, k)
    ensures i < c <= k && prev[c] == Some(i)
    decreases k
  {
    if prev[k].value == i {
      c := k;
    } else {
      c := FirstExchange(prev, i, prev[k].value);
    }
  }

  /** A chain does not fork: of two of its tokens the later one came from the earlier. */
  lemma {:induction false} ChainsDoNotFork(prev: seq<Option<nat>>, i: nat, k: nat)
    requires Chains(prev) && i < k < |prev| && Root(prev, i) == Root(prev, k)
    ensures LeadsTo(prev, i, k)
    decreases k
  {
    var p := prev[k].value;
    if i < p {
      ChainsDoNotFork(prev, i, p);
    } else if p < i {
      ChainsDoNotFork(prev, p, i);
      var c := FirstExchange(prev, p, i);
    }
  }

  predicate Usable(s: State, i: nat) {
    i < |s.tokens| && !s.tokens[i].revoked && s.now <= s.tokens[i].expiresAt
  }

  ghost function Roots(prev: seq<Option<nat>>): set<nat> {
    set i | 0 <= i < |prev| && prev[i].None?
  }

  /** An exchanged token is revoked and belongs to the user of its successor. */
  ghost predicate ExchangedOk(t: seq<Token>, prev: seq<Option<nat>>)
    requires Ordered(prev)
  {
    && |t| == |prev|
    && forall i :: 0 <= i < |prev| && prev[i].Some? ==> t[prev[i].value].revoked && t[prev[i].value].user == t[i].user
  }

  ghost predicate TokenInv(s: State) {
    Chains(s.prev) && ExchangedOk(s.tokens, s.prev) && |Roots(s.prev)| == s.starts
  }

  ghost predicate OtpInv(s: State) {
    && (forall i :: 0 <= i < |s.consumed| ==> s.consumed[i] < |s.otps| && s.otps[s.consumed[i]].used)
    && (forall i, k :: 0 <= i < k < |s.consumed| ==> s.consumed[i] != s.consumed[k])
  }

  /** Rows only grow in number, keep owner and expiry, and stay revoked. */
  ghost predicate Keeps(a: seq<Token>, b: seq<Token>) {
    |a| <= |b| && forall i :: 0 <= i < |a| ==>
      b[i].user == a[i].user && b[i].expiresAt == a[i].expiresAt && (a[i].revoked ==> b[i].revoked)
  }

  lemma ApplyKeeps(s: State, op: Op)
    ensures Keeps(s.tokens, Apply(s, op).tokens)
    ensures s.now <= Apply(s, op).now
  {
  }

  lemma RootsOfAppend(prev: seq<Option<nat>>, p: Option<nat>)
    ensures |Roots(prev + [p])| == |Roots(prev)| + (if p.None? then 1 else 0)
  {
    assert |prev| !in Roots(prev);
    assert Roots(prev + [p]) == Roots(prev) + (if p.None? then {|prev|} else {});
  }

  /** Issuing a token starts a chain, or carries on one whose last token was just revoked. */
  lemma WithTokenKeepsInv(s: State, user: User, p: Option<nat>)
    requires TokenInv(s)
    requires p.Some? ==> p.value < |s.tokens| && s.tokens[p.value].revoked && s.tokens[p.value].user == user
    requires p.Some? ==> forall i :: 0 <= i < |s.prev| ==> s.prev[i] != p
    ensures TokenInv(WithToken(s, user, p).(starts := s.starts + (if p.None? then 1 else 0)))
  {
    RootsOfAppend(s.prev, p);
  }

  lemma TokenInvStep(s: State, op: Op)
    requires TokenInv(s)
    ensures TokenInv(Apply(s, op))
  {
    match op
    case Login(user, _) => WithTokenKeepsInv(s, user, None);
    case VerifyOtp(user, _, _, _) => WithTokenKeepsInv(s, user, None);
    case Refresh(user, id, matches) =>
      if Exchangeable(s, user, id, matches) {
        WithTokenKeepsInv(s.(tokens := s.tokens[id := s.tokens[id].(revoked := true)]), user, Some(id));
      }
    case _ => ApplyKeeps(s, op);
  }

  lemma OtpInvStep(s: State, op: Op)
    requires OtpInv(s)
    ensures OtpInv(Apply(s, op))
  {
  }

  lemma {:induction false} InvRun(ops: seq<Op>)
    requires Legal(ops)
    ensures TokenInv(After(ops)) && OtpInv(After(ops))
    decreases |ops|
  {
    if ops != [] {
      InvRun(ops[..|ops| - 1]);
      TokenInvStep(After(ops[..|ops| - 1]), ops[|ops| - 1]);
      OtpInvStep(After(ops[..|ops| - 1]), ops[|ops| - 1]);
    } else {
      assert Roots([]) == {};
    }
  }

  /** In every run: chains do not fork, there are as many as there were logins and
      verifications, and each has at most one usable token. */
  lemma OneUsableTokenPerChain(ops: seq<Op>)
    requires Legal(ops)
    ensures var s := After(ops);
      && Chains(s.prev) && |s.prev| == |s.tokens| && |Roots(s.prev)| == s.starts
      && forall i, k :: 0 <= i < k < |s.tokens| && Root(s.prev, i) == Root(s.prev, k) ==> !(Usable(s, i) && Usable(s, k))
  {
    InvRun(ops);
    var s := After(ops);
    forall i, k | 0 <= i < k < |s.tokens| && Root(s.prev, i) == Root(s.prev, k)
      ensures !Usable(s, i)
    {
      ChainsDoNotFork(s.prev, i, k);
      var c := FirstExchange(s.prev, i, k);
    }
  }

  /** Once unusable, a token stays so, whatever follows. */
  lemma {:induction false} RevocationIsPermanent(ops: seq<Op>, n: nat, i: nat)
    requires Legal(ops) && n <= |ops| && Legal(ops[..n])
    requires i < |After(ops[..n]).tokens| && !Usable(After(ops[..n]), i)
    ensures i < |After(ops).tokens| && !Usable(After(ops), i)
    ensures After(ops[..n]).tokens[i].revoked ==> After(ops).tokens[i].revoked
    decreases |ops|
  {
    if n == |ops| {
      assert ops[..n] == ops;
    } else {
      var before := ops[..|ops| - 1];
      assert before[..n] == ops[..n];
      RevocationIsPermanent(before, n, i);
      ApplyKeeps(After(before), ops[|ops| - 1]);
    }
  }

  ghost predicate AllRevoked(s: State, user: User) {
    forall i | 0 <= i < |s.tokens| :: s.tokens[i].user == user ==> s.tokens[i].revoked
  }

  /** The operations that may start a chain for the user. */
  predicate MayStart(op: Op, user: User) {
    (op.Login? || op.VerifyOtp?) && op.user == user
  }

  lemma AllRevokedStep(s: State, op: Op, user: User)
    requires AllRevoked(s, user) && !MayStart(op, user)
    ensures AllRevoked(Apply(s, op), user)
  {
  }

  lemma ResetStep(s: State, user: User, row: Option<nat>)
    requires user in s.users && Accepted(s, row)
    ensures AllRevoked(PasswordChanged(s, user, row), user) && |PasswordChanged(s, user, row).tokens| == |s.tokens|
    ensures forall i | 0 <= i < |s.tokens| && s.tokens[i].user != user :: PasswordChanged(s, user, row).tokens[i] == s.tokens[i]
  {
  }

  /** From an accepted reset of the password on, and until the user next logs in or verifies
      a code, the user has no usable token, whatever else happens. */
  lemma {:induction false} ResetRevokesEverything(ops: seq<Op>, n: nat, user: User, code: string, row: Option<nat>)
    requires Legal(ops) && n < |ops| && Legal(ops[..n]) && ops[n] == ResetPassword(user, code, row)
    requires user in After(ops[..n]).users && Accepted(After(ops[..n]), row)
    requires forall k | n < k < |ops| :: !MayStart(ops[k], user)
    ensures AllRevoked(After(ops), user)
    ensures forall i | 0 <= i < |After(ops).tokens| && After(ops).tokens[i].user == user :: !Usable(After(ops), i)
    decreases |ops|
  {
    var before, op := ops[..|ops| - 1], ops[|ops| - 1];
    if n == |ops| - 1 {
      assert before == ops[..n];
      ResetStep(After(before), user, row);
    } else {
      assert before[..n] == ops[..n];
      ResetRevokesEverything(before, n, user, code, row);
      AllRevokedStep(After(before), op, user);
    }
  }

  /** No code row is accepted twice in a run. */
  lemma CodesAreUsedOnce(ops: seq<Op>, i: nat, k: nat)
    requires Legal(ops) && i < k < |After(ops).consumed|
    ensures After(ops).consumed[i] != After(ops).consumed[k]
  {
    InvRun(ops);
  }

  // ---------------------------------------------------------------- when a token can be used

  /** The moment at which the token was issued. */
  ghost function IssuedAt(ops: seq<Op>, i: nat): nat
    requires Legal(ops) && i < |After(ops).tokens|
    decreases |ops|
  {
    if ops == [] then 0
    else
      var before := ops[..|ops| - 1];
      if i < |After(before).tokens| then IssuedAt(before, i) else After(before).now
  }

  /** The operation is an accepted exchange of the token, a logout that meets it, or an
      accepted reset of its user's password. */
  predicate Withdraws(s: State, op: Op, i: nat)
    requires i < |s.tokens|
  {
    match op
    case Refresh(user, id, matches) =>
      id == i && matches && user == s.tokens[i].user && !s.tokens[i].revoked && s.now <= s.tokens[i].expiresAt
    case Logout(user, presented) =>
      user == s.tokens[i].user && (presented == Nothing || presented == TokenId(i))
    case ResetPassword(user, _, row) =>
      user == s.tokens[i].user && row.Some? && row.value < |s.otps| &&
      !s.otps[row.value].used && s.now <= s.otps[row.value].expiresAt
    case _ => false
  }

  ghost predicate Withdrawn(ops: seq<Op>, i: nat)
    requires Legal(ops)
    decreases |ops|
  {
    ops != [] &&
    (var s := After(ops[..|ops| - 1]);
     Withdrawn(ops[..|ops| - 1], i) || (i < |s.tokens| && Withdraws(s, ops[|ops| - 1], i)))
  }

  ghost predicate OwnersKnown(s: State) {
    forall i | 0 <= i < |s.tokens| :: s.tokens[i].user in s.users
  }

  /** Whatever the operation, it revokes the tokens it withdraws and no other. */
  lemma RevokesExactly(s: State, op: Op, i: nat)
    requires OwnersKnown(s) && i < |s.tokens|
    ensures var t := Apply(s, op).tokens;
      i < |t| && t[i] == s.tokens[i].(revoked := s.tokens[i].revoked || Withdraws(s, op, i))
  {
    assert s.tokens[i].user in s.users;
  }

  /** A token that an operation issues belongs to a known user and is good for seven days. */
  lemma IssuesForAWeek(s: State, op: Op, i: nat)
    requires OwnersKnown(s) && |s.tokens| <= i < |Apply(s, op).tokens|
    ensures op.Login? || op.VerifyOtp? || op.Refresh?
    ensures op.user in s.users && Apply(s, op).tokens[i] == Token(op.user, s.now + 604800000, false)
  {
  }

  lemma OwnersKnownStep(s: State, op: Op)
    requires OwnersKnown(s)
    ensures OwnersKnown(Apply(s, op))
  {
    var t := Apply(s, op);
    forall i | 0 <= i < |t.tokens| ensures t.tokens[i].user in t.users {
      if i < |s.tokens| {
        RevokesExactly(s, op, i);
        assert s.tokens[i].user in s.users;
      } else {
        IssuesForAWeek(s, op, i);
      }
    }
  }

  lemma {:induction false} TokenHistory(ops: seq<Op>)
    requires Legal(ops)
    ensures OwnersKnown(After(ops))
    decreases |ops|
  {
    if ops != [] {
      TokenHistory(ops[..|ops| - 1]);
      OwnersKnownStep(After(ops[..|ops| - 1]), ops[|ops| - 1]);
    }
  }

  lemma {:induction false} NotThereNotWithdrawn(ops: seq<Op>, i: nat)
    requires Legal(ops) && i >= |After(ops).tokens|
    ensures !Withdrawn(ops, i)
    decreases |ops|
  {
    if ops != [] {
      ApplyKeeps(After(ops[..|ops| - 1]), ops[|ops| - 1]);
      NotThereNotWithdrawn(ops[..|ops| - 1], i);
    }
  }

  lemma {:induction false} RowHistory(ops: seq<Op>, i: nat)
    requires Legal(ops) && i < |After(ops).tokens|
    ensures After(ops).tokens[i].expiresAt == IssuedAt(ops, i) + 604800000
    ensures After(ops).tokens[i].revoked <==> Withdrawn(ops, i)
    decreases |ops|
  {
    if ops != [] {
      var before, op := ops[..|ops| - 1], ops[|ops| - 1];
      TokenHistory(before);
      if i < |After(before).tokens| {
        RowHistory(before, i);
        RevokesExactly(After(before), op, i);
      } else {
        NotThereNotWithdrawn(before, i);
        IssuesForAWeek(After(before), op, i);
      }
    }
  }

  /** In every run a token is usable exactly when it was issued at most seven days ago and no
      accepted exchange, logout or reset has met it since. */
  lemma UsableExactlyWhen(ops: seq<Op>, i: nat)
    requires Legal(ops) && i < |After(ops).tokens|
    ensures Usable(After(ops), i) <==> After(ops).now <= IssuedAt(ops, i) + 604800000 && !Withdrawn(ops, i)
  {
    RowHistory(ops, i);
  }

  /** And its user, who presents it, gets a successor good for seven days if it is usable,
      and nothing otherwise. */
  lemma UsableIsExchanged(ops: seq<Op>, u: User, i: nat, after: seq<Token>)
    requires Legal(ops) && i < |After(ops).tokens| && u == After(ops).tokens[i].user
    requires after == Apply(After(ops), Refresh(u, i, true)).tokens
    ensures var s := After(ops);
      after == if Usable(s, i)
               then s.tokens[i := s.tokens[i].(revoked := true)] + [Token(u, s.now + 604800000, false)]
               else s.tokens
  {
    TokenHistory(ops);
  }

  // ---------------------------------------------------------------- the service

  datatype Outcome = Issued | Done | Unauthorized | BadRequest

  class AuthService {
    var now: nat
    var users: map<User, UserRow>
    var tokens: seq<Token>
    var otps: seq<Otp>
    ghost var prev: seq<Option<nat>>
    ghost var starts: nat
    ghost var consumed: seq<nat>

    ghost function Now(): State
      reads this
    {
      State(now, users, tokens, otps, prev, starts, consumed)
    }

    constructor ()
      ensures Now() == INIT
    {
      now, users, tokens, otps := 0, map[], [], [];
      prev, starts, consumed := [], 0, [];
    }

    method GenerateTokens(user: User, ghost from: Option<nat>)
      modifies `tokens, `prev
      ensures Now() == WithToken(old(Now()), user, from)
    {
      tokens := tokens + [Token(user, now + REFRESH_MS, false)];
      prev := prev + [from];
    }

    method GenerateAndSaveOtp(user: User, kind: Kind, code: string)
      modifies `otps
      ensures Now() == WithOtp(old(Now()), user, kind, code)
    {
      otps := otps + [Otp(user, code, kind, now + OTP_MS, false)];
    }

    /** `update({ userId, revokedAt: undefined }, { revokedAt })`. */
    method RevokeTokensOf(user: User)
      modifies `tokens
      ensures tokens == RevokeAll(old(tokens), user)
    {
      for i := 0 to |tokens|
        invariant tokens == RevokeAll(old(tokens)[..i], user) + old(tokens)[i..]
      {
        if tokens[i].user == user {
          tokens := tokens[i := tokens[i].(revoked := true)];
        }
      }
      assert old(tokens)[..|tokens|] == old(tokens);
    }

    /** `free` says whether e-mail, telephone number and user name are all unused. */
    method Register(user: User, code: string, free: bool) returns (registered: bool)
      requires user !in users
      modifies `users, `otps
      ensures registered == free
      ensures users == if free then old(users)[user := UserRow(false, true)] else old(users)
      ensures otps == old(otps) + if free then [Otp(user, code, EmailVerify, now + 600000, false)] else []
      ensures Now() == if free then Apply(old(Now()), Op.Register(user, code)) else old(Now())
    {
      if !free {
        return false;
      }
      users := users[user := UserRow(false, true)];
      GenerateAndSaveOtp(user, EmailVerify, code);
      registered := true;
    }

    /** Answers the same whether or not there is such a user. */
    method ForgotPassword(user: User, code: string)
      modifies `otps
      ensures otps == old(otps) + if user in users then [Otp(user, code, PasswordReset, now + 600000, false)] else []
      ensures Now() == Apply(old(Now()), IssueOtp(user, PasswordReset, code))
    {
      if user in users {
        GenerateAndSaveOtp(user, PasswordReset, code);
      }
    }

    method Login(user: User, passwordOk: bool) returns (outcome: Outcome)
      modifies `tokens, `prev, `starts
      ensures Now() == LoggedIn(old(Now()), user, passwordOk)
      ensures outcome == if user in users && passwordOk && users[user].verified && users[user].active then Issued else Unauthorized
      ensures tokens == old(tokens) + if outcome == Issued then [Token(user, now + 604800000, false)] else []
    {
      if user !in users || !passwordOk {
        return Unauthorized;
      }
      if !users[user].verified || !users[user].active {
        return Unauthorized;
      }
      GenerateTokens(user, None);
      starts := starts + 1;
      outcome := Issued;
    }

    /** `row` is the answer of the query for the code. */
    method VerifyOtp(user: User, code: string, kind: Kind, row: Option<nat>) returns (outcome: Outcome)
      requires Found(Now(), row, user, code, kind)
      modifies this
      ensures Now() == Verified(old(Now()), user, kind, row)
      ensures var good := row.Some? && !old(otps)[row.value].used && now <= old(otps)[row.value].expiresAt;
        && otps == (if good then old(otps)[row.value := old(otps)[row.value].(used := true)] else old(otps))
        && outcome == (if good && user in old(users) then Issued else BadRequest)
      ensures tokens == old(tokens) + if outcome == Issued then [Token(user, now + 604800000, false)] else []
      ensures users == if outcome == Issued && kind == EmailVerify
                       then old(users)[user := old(users)[user].(verified := true)] else old(users)
      ensures now == old(now)
    {
      if row.None? || otps[row.value].used || now > otps[row.value].expiresAt {
        return BadRequest;
      }
      otps := otps[row.value := otps[row.value].(used := true)];
      consumed := consumed + [row.value];
      if user !in users {
        return BadRequest;
      }
      if kind == EmailVerify {
        users := users[user := users[user].(verified := true)];
      }
      GenerateTokens(user, None);
      starts := starts + 1;
      outcome := Issued;
    }

    method RefreshTokens(user: User, id: nat, matches: bool) returns (outcome: Outcome)
      modifies `tokens, `prev
      ensures Now() == Refreshed(old(Now()), user, id, matches)
      ensures var good := id < |old(tokens)| && old(tokens)[id].user == user && !old(tokens)[id].revoked
                          && now <= old(tokens)[id].expiresAt && matches;
        && outcome == (if good && user in users then Issued else Unauthorized)
        && tokens == (if good then old(tokens)[id := old(tokens)[id].(revoked := true)] else old(tokens))
                     + if outcome == Issued then [Token(user, now + 604800000, false)] else []
    {
      if id >= |tokens| || tokens[id].user != user || tokens[id].revoked || now > tokens[id].expiresAt {
        return Unauthorized;
      }
      if !matches {
        return Unauthorized;
      }
      tokens := tokens[id := tokens[id].(revoked := true)];
      if user !in users {
        return Unauthorized;
      }
      GenerateTokens(user, Some(id));
      outcome := Issued;
    }

    method Logout(user: User, presented: Presented)
      modifies `tokens
      ensures Now() == LoggedOut(old(Now()), user, presented)
      ensures |tokens| == |old(tokens)|
      ensures forall i | 0 <= i < |tokens| :: tokens[i] == old(tokens)[i].(revoked := old(tokens)[i].revoked ||
        (old(tokens)[i].user == user && (presented == Nothing || presented == TokenId(i))))
    {
      if presented.Nothing? {
        RevokeTokensOf(user);
      } else if presented.TokenId? {
        if presented.id < |tokens| && tokens[presented.id].user == user {
          tokens := tokens[presented.id := tokens[presented.id].(revoked := true)];
        }
      }
    }

    method ResetPassword(user: User, code: string, row: Option<nat>) returns (outcome: Outcome)
      requires Found(Now(), row, user, code, PasswordReset)
      modifies `tokens, `otps, `consumed
      ensures Now() == PasswordChanged(old(Now()), user, row)
      ensures outcome == if user in users && row.Some? && !old(otps)[row.value].used && now <= old(otps)[row.value].expiresAt
                         then Done else BadRequest
      ensures otps == if outcome == Done then old(otps)[row.value := old(otps)[row.value].(used := true)] else old(otps)
      ensures |tokens| == |old(tokens)|
      ensures forall i | 0 <= i < |tokens| :: tokens[i] == old(tokens)[i].(revoked := old(tokens)[i].revoked ||
        (outcome == Done && old(tokens)[i].user == user))
    {
      if user !in users {
        return BadRequest;
      }
      if row.None? || otps[row.value].used || now > otps[row.value].expiresAt {
        return BadRequest;
      }
      otps := otps[row.value := otps[row.value].(used := true)];
      consumed := consumed + [row.value];
      RevokeTokensOf(user);
      outcome := Done;
    }
  }
}
