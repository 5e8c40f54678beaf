/**
  Token refresh among many processes: lock, reload, compare, spend, save.

  The server implements the refresh grant of RFC 6749, section 6: it may answer with a new refresh token, and
  a token it has replaced is spent.  The file is replaced atomically, so a reader sees a whole
  revision of it.
 */
module TokenRefresh {
  import opened Common

  type Token = nat
  type Pid = nat

  datatype LastRefresh = Missing | Unreadable | At(time: int)

  /** What is read from the credentials file: the refresh and access tokens (0 when absent), the account, the `exp`
      claim of RFC 7519, section 4.1.4, when it is readable and non-zero, and the time of the last refresh. */
  datatype Credentials = Credentials(refreshToken: Token, account: int, access: Token, exp: Option<int>,
                                     last: LastRefresh)

  const REFRESH_WINDOW := 5 * 60
  const STALE_AFTER := 8 * 24 * 60 * 60

  predicate ShouldRefresh(c: Credentials, now: int) {
    if c.refreshToken == 0 then false
    else
      match c.exp
      case Some(exp) => now + REFRESH_WINDOW >= exp
      case None =>
        match c.last
        case Missing => true
        case Unreadable => true
        case At(time) => now - time >= STALE_AFTER
  }

  /** Where a process stands in `refresh`. */
  datatype Phase =
    | Idle
    | Loaded(before: Credentials, force: bool)  // read the file, waits for the lock
    | Holding(before: Credentials, force: bool) // holds the lock, has not reloaded
    | Spending(current: Credentials)            // reloaded and compared: may send its token
    | Granted(current: Credentials, next: Token, access: Token, exp: Option<int>) // answered, nothing saved yet

  /** Why a call raised. */
  datatype Failure = NoRefreshToken | SwitchedAccount | NoAccessGranted | TokenRefused | Unreachable | Died

  datatype Request = Request(carried: Token, accepted: bool)

  datatype State = State(
    file: Credentials,
    valid: set<Token>,       // the refresh tokens the server accepts, one per login that still has one
    issued: Token,           // every token so far is at most this
    owner: map<Token, int>,  // the account each refresh token was issued to, as its login recorded it
    lock: Option<Pid>,
    procs: map<Pid, Phase>,
    answers: map<Pid, Result<Credentials, Failure>>, // what the last call of each process returned
    sent: seq<Request>,
    spent: seq<Token>)       // tokens replaced by the server, oldest first

  function PhaseOf(s: State, p: Pid): Phase {
    if p in s.procs then s.procs[p] else Idle
  }

  datatype Action =
    | Load(p: Pid, force: bool)
    | NoToken(p: Pid)                     // nothing to refresh with: raise
    | Acquire(p: Pid)
    | Adopt(p: Pid)                       // another process rotated: use theirs
    | AccountChanged(p: Pid)              // another account logged in: raise
    | StillFresh(p: Pid, now: int)        // unchanged token, not forced and not due: return
    | Proceed(p: Pid, now: int)           // unchanged token, due or forced
    | Grant(p: Pid, rotates: bool, access: Token, exp: Option<int>) // 200 with an access token
    | GrantWithoutAccess(p: Pid, rotates: bool) // 200 without one: raise
    | Transient(p: Pid, rotates: bool)    // network error, 5xx or 429, the answer being lost: retried
    | Rejected(p: Pid)                    // permanent refusal: raise
    | GiveUp(p: Pid)                      // retries exhausted: raise
    | Save(p: Pid, now: int)
    | Crash(p: Pid)                       // the process dies, or a call outside the protocol raises
    | Login(p: Pid, account: int, access: Token, exp: Option<int>, now: int) // from outside, without the lock

  predicate Critical(ph: Phase) {
    ph.Holding? || ph.Spending? || ph.Granted?
  }

  /** Reloaded and compared, and not saved yet. */
  predicate MidRefresh(ph: Phase) {
    ph.Spending? || ph.Granted?
  }

  function Answers(s: State, p: Pid, r: Result<Credentials, Failure>): State {
    s.(procs := s.procs[p := Idle], answers := s.answers[p := r])
  }

  /** The call ends: the lock is released. */
  function Ends(s: State, p: Pid, r: Result<Credentials, Failure>): State {
    Answers(s.(lock := None), p, r)
  }

  /** The server replaces the token it was sent, or keeps it. */
  function ServerAnswers(s: State, c: Credentials, rotates: bool): State {
    if rotates then
      var next := s.issued + 1;
      s.(valid := s.valid - {c.refreshToken} + {next}, issued := next, owner := s.owner[next := c.account],
         spent := s.spent + [c.refreshToken])
    else s
  }

  /** A request carrying `t`, whatever the answer. */
  function Sends(s: State, t: Token): State {
    s.(sent := s.sent + [Request(t, t in s.valid)])
  }

  predicate Enabled(s: State, a: Action) {
    var ph := PhaseOf(s, a.p);
    match a
    case Load(_, _) => ph.Idle?
    case NoToken(_) => ph.Loaded? && ph.before.refreshToken == 0
    case Acquire(_) => ph.Loaded? && ph.before.refreshToken != 0 && s.lock.None?
    case Adopt(_) =>
      && ph.Holding? && s.file.refreshToken != ph.before.refreshToken
      && (s.file.account == ph.before.account || ph.before.account == 0)
    case AccountChanged(_) =>
      && ph.Holding? && s.file.refreshToken != ph.before.refreshToken
      && s.file.account != ph.before.account && ph.before.account != 0
    case StillFresh(_, now) =>
      ph.Holding? && s.file.refreshToken == ph.before.refreshToken && !ph.force && !ShouldRefresh(s.file, now)
    case Proceed(_, now) =>
      ph.Holding? && s.file.refreshToken == ph.before.refreshToken && (ph.force || ShouldRefresh(s.file, now))
    // The server grants and replaces valid tokens only.
    case Grant(_, _, access, _) => ph.Spending? && ph.current.refreshToken in s.valid && access != 0
    case GrantWithoutAccess(_, _) => ph.Spending? && ph.current.refreshToken in s.valid
    case Transient(_, rotates) => ph.Spending? && (rotates ==> ph.current.refreshToken in s.valid)
    case Rejected(_) => ph.Spending?
    case GiveUp(_) => ph.Spending?
    case Save(_, _) => ph.Granted?
    case Crash(_) => !ph.Idle?
    case Login(_, _, _, _, _) => true
  }

  /** The merged credentials that are written. */
  function Saved(ph: Phase, now: int): Credentials
    requires ph.Granted?
  {
    ph.current.(refreshToken := ph.next, access := ph.access, exp := ph.exp, last := At(now))
  }

  function Next(s: State, a: Action): State
    requires Enabled(s, a)
  {
    var p, ph := a.p, PhaseOf(s, a.p);
    match a
    case Load(_, force) => s.(procs := s.procs[p := Loaded(s.file, force)])
    case NoToken(_) => Answers(s, p, Err(NoRefreshToken))
    case Acquire(_) => s.(lock := Some(p), procs := s.procs[p := Holding(ph.before, ph.force)])
    case Adopt(_) => Ends(s, p, Ok(s.file))
    case AccountChanged(_) => Ends(s, p, Err(SwitchedAccount))
    case StillFresh(_, _) => Ends(s, p, Ok(s.file))
    case Proceed(_, _) => s.(procs := s.procs[p := Spending(s.file)])
    case Grant(_, rotates, access, exp) =>
      var s' := ServerAnswers(Sends(s, ph.current.refreshToken), ph.current, rotates);
      s'.(procs := s'.procs[p := Granted(ph.current, if rotates then s'.issued else ph.current.refreshToken, access,
                                         exp)])
    case GrantWithoutAccess(_, rotates) =>
      Ends(ServerAnswers(Sends(s, ph.current.refreshToken), ph.current, rotates), p, Err(NoAccessGranted))
    case Transient(_, rotates) => ServerAnswers(Sends(s, ph.current.refreshToken), ph.current, rotates)
    case Rejected(_) => Ends(Sends(s, ph.current.refreshToken), p, Err(TokenRefused))
    case GiveUp(_) => Ends(s, p, Err(Unreachable))
    case Save(_, now) => Ends(s.(file := Saved(ph, now)), p, Ok(Saved(ph, now)))
    case Crash(_) => if Critical(ph) then Ends(s, p, Err(Died)) else Answers(s, p, Err(Died))
    case Login(_, account, access, exp, now) =>
      var token := s.issued + 1;
      s.(file := Credentials(token, account, access, exp, At(now)), valid := s.valid + {token}, issued := token,
         owner := s.owner[token := account])
  }

  // ---- safety -----------------------------------------------------------------------------

  /** The one process, if any, whose answer from the server is not saved yet. */
  ghost predicate Unsaved(s: State) {
    s.lock.Some? && PhaseOf(s, s.lock.value).Granted?
  }

  /** The file holds a valid token, or the process about to save one does. */
  ghost predicate FileFollowsServer(s: State) {
    if Unsaved(s) then
      var next := PhaseOf(s, s.lock.value).next;
      next in s.valid && (next == s.file.refreshToken || s.file.refreshToken !in s.valid)
    else s.file.refreshToken in s.valid
  }

  ghost predicate LockHeld(s: State) {
    && (forall p: Pid | Critical(PhaseOf(s, p)) :: s.lock == Some(p))
    && (s.lock.Some? ==> Critical(PhaseOf(s, s.lock.value)))
  }

  /** Who has reloaded has what the file holds, and waiters have something to refresh with. */
  ghost predicate PhasesFollowFile(s: State) {
    && (forall p: Pid | MidRefresh(PhaseOf(s, p)) ::
          PhaseOf(s, p).current == s.file && s.file.refreshToken != 0)
    && (forall p: Pid | PhaseOf(s, p).Holding? :: PhaseOf(s, p).before.refreshToken != 0)
  }

  ghost predicate TokensInOrder(s: State) {
    && s.file.refreshToken <= s.issued && (forall t | t in s.valid :: t <= s.issued)
    && (forall t | t in s.spent :: t !in s.valid && t <= s.issued)
    && (forall i, j | 0 <= i < j < |s.spent| :: s.spent[i] != s.spent[j])
    && (forall r | r in s.sent :: r.accepted)
  }

  ghost predicate Safe(s: State) {
    LockHeld(s) && PhasesFollowFile(s) && FileFollowsServer(s) && TokensInOrder(s)
  }

  /** The only ways to lose a rotated token: the process dies between the answer and the save, or an
      answer rotates the token but is lost on the way or carries no access token. */
  predicate LosesRotation(s: State, a: Action) {
    || ((a.GrantWithoutAccess? || a.Transient?) && a.rotates)
    || (a.Crash? && PhaseOf(s, a.p).Granted? && PhaseOf(s, a.p).next != s.file.refreshToken)
  }

  /** A login from outside while a refresh has compared and not saved yet. */
  ghost predicate LoginOverlaps(s: State, a: Action) {
    a.Login? && exists q: Pid :: MidRefresh(PhaseOf(s, q))
  }

  lemma OthersKeepPhase(s: State, a: Action)
    requires Enabled(s, a)
    ensures forall q: Pid | q != a.p || a.Login? :: PhaseOf(Next(s, a), q) == PhaseOf(s, q)
  {
  }

  lemma StepKeepsLock(s: State, a: Action)
    requires Safe(s) && Enabled(s, a)
    ensures LockHeld(Next(s, a))
  {
    OthersKeepPhase(s, a);
  }

  /** A request with a valid token, whatever the answer. */
  lemma AnswerKeepsTokens(s: State, c: Credentials, rotates: bool)
    requires TokensInOrder(s) && c.refreshToken in s.valid
    ensures TokensInOrder(ServerAnswers(Sends(s, c.refreshToken), c, rotates))
  {
  }

  lemma StepKeepsTokens(s: State, a: Action)
    requires Safe(s) && Enabled(s, a)
    ensures TokensInOrder(Next(s, a))
  {
    var ph := PhaseOf(s, a.p);
    if ph.Spending? {
      AnswerKeepsTokens(s, ph.current, false);
      AnswerKeepsTokens(s, ph.current, true);
    }
  }

  lemma StepKeepsFile(s: State, a: Action)
    requires Safe(s) && Enabled(s, a) && !LosesRotation(s, a) && !LoginOverlaps(s, a)
    ensures PhasesFollowFile(Next(s, a)) && FileFollowsServer(Next(s, a))
  {
    OthersKeepPhase(s, a);
  }

  lemma UnsafeStep(s: State, a: Action)
    requires Safe(s) && Enabled(s, a) && (LosesRotation(s, a) || LoginOverlaps(s, a))
    ensures !Safe(Next(s, a))
  {
    var t := Next(s, a);
    OthersKeepPhase(s, a);
    if LosesRotation(s, a) {
      assert !Unsaved(t) && t.file.refreshToken !in t.valid;
    } else {
      var q: Pid :| MidRefresh(PhaseOf(s, q));
      assert PhaseOf(t, q).current.refreshToken != t.file.refreshToken;
    }
  }

  /** Each step keeps the protocol safe exactly when it neither loses a rotation nor is a login that overlaps a
      refresh. */
  lemma StepSafeIff(s: State, a: Action)
    requires Safe(s) && Enabled(s, a)
    ensures Safe(Next(s, a)) <==> !LosesRotation(s, a) && !LoginOverlaps(s, a)
  {
    if LosesRotation(s, a) || LoginOverlaps(s, a) {
      UnsafeStep(s, a);
    } else {
      StepKeepsLock(s, a);
      StepKeepsTokens(s, a);
      StepKeepsFile(s, a);
    }
  }

  ghost predicate Run(s: State, actions: seq<Action>, t: State)
    decreases |actions|
  {
    if actions == [] then s == t
    else
      && Enabled(s, actions[0]) && !LosesRotation(s, actions[0]) && !LoginOverlaps(s, actions[0])
      && Run(Next(s, actions[0]), actions[1..], t)
  }

  /** Any run, safe or not. */
  ghost predicate Trace(s: State, actions: seq<Action>, t: State)
    decreases |actions|
  {
    if actions == [] then s == t else Enabled(s, actions[0]) && Trace(Next(s, actions[0]), actions[1..], t)
  }

  lemma {:induction false} RunIsTrace(s: State, actions: seq<Action>, t: State)
    requires Run(s, actions, t)
    ensures Trace(s, actions, t)
    decreases |actions|
  {
    if actions != [] { RunIsTrace(Next(s, actions[0]), actions[1..], t); }
  }

  lemma {:induction false} RunsAreSafe(s: State, actions: seq<Action>, t: State)
    requires Safe(s) && Run(s, actions, t)
    ensures Safe(t)
    decreases |actions|
  {
    if actions != [] {
      StepSafeIff(s, actions[0]);
      RunsAreSafe(Next(s, actions[0]), actions[1..], t);
    }
  }

  function Initial(file: Credentials): State {
    State(file, {file.refreshToken}, file.refreshToken, map[file.refreshToken := file.account], None, map[], map[], [],
          [])
  }

  /** Any number of processes in any interleaving, with logins from outside between refreshes: every request carries a
      token the server accepts, no spent token is ever sent, and a free lock means the file holds a valid token. */
  lemma EveryRequestIsLive(file: Credentials, actions: seq<Action>, t: State)
    requires Run(Initial(file), actions, t)
    ensures forall r | r in t.sent :: r.accepted
    ensures t.lock.None? ==> t.file.refreshToken in t.valid
    ensures forall p: Pid | PhaseOf(t, p).Spending? ::
              PhaseOf(t, p).current.refreshToken in t.valid && PhaseOf(t, p).current.refreshToken !in t.spent
  {
    RunsAreSafe(Initial(file), actions, t);
  }

  /** A process that waited while another rotated the token adopts the result or raises; it can
      neither keep nor spend its stale token. */
  lemma StaleProcessNeverSpends(s: State, p: Pid)
    requires Safe(s) && PhaseOf(s, p).Holding? && PhaseOf(s, p).before.refreshToken in s.spent
    ensures forall now :: !Enabled(s, Proceed(p, now)) && !Enabled(s, StillFresh(p, now))
    ensures Enabled(s, Adopt(p)) != Enabled(s, AccountChanged(p))
  {
    assert !Unsaved(s);
  }

  /** After a lost rotation the file keeps a spent token: the process that retries, or the next one to hold
      the lock, may send it. */
  lemma LostRotationIsSentAgain(s: State, a: Action, p: Pid)
    requires Safe(s) && Enabled(s, a) && LosesRotation(s, a)
    requires PhaseOf(Next(s, a), p).Idle?
    ensures var t := Next(s, a);
            if a.Transient? then PhaseOf(t, a.p).Spending? && PhaseOf(t, a.p).current.refreshToken in t.spent
            else
              && Enabled(t, Load(p, true))
              && Enabled(Next(t, Load(p, true)), Acquire(p))
              && Enabled(Next(Next(t, Load(p, true)), Acquire(p)), Proceed(p, 0))
              && var u := Next(Next(Next(t, Load(p, true)), Acquire(p)), Proceed(p, 0));
                 PhaseOf(u, p).Spending? && PhaseOf(u, p).current.refreshToken !in u.valid
  {
  }

  /** The file holds a token the server has replaced, and no process has a valid one at hand. */
  ghost predicate Dead(s: State) {
    && s.file.refreshToken !in s.valid && s.file.refreshToken <= s.issued
    && forall q: Pid | MidRefresh(PhaseOf(s, q)) ::
         PhaseOf(s, q).Spending? && PhaseOf(s, q).current.refreshToken !in s.valid
  }

  lemma LostIsDead(s: State, a: Action)
    requires Safe(s) && Enabled(s, a) && LosesRotation(s, a)
    ensures Dead(Next(s, a)) && Next(s, a).file == s.file
  {
    OthersKeepPhase(s, a);
  }

  lemma {:induction false} DeadStays(s: State, actions: seq<Action>, t: State)
    requires Dead(s) && Trace(s, actions, t) && forall a | a in actions :: !a.Login?
    ensures Dead(t) && t.file == s.file
    decreases |actions|
  {
    if actions != [] {
      assert actions[0] in actions && forall a | a in actions[1..] :: a in actions;
      OthersKeepPhase(s, actions[0]);
      DeadStays(Next(s, actions[0]), actions[1..], t);
    }
  }

  /** A lost rotation is final: until someone logs in, no request is granted and the file never changes. */
  lemma LostUntilLogin(s: State, lost: Action, actions: seq<Action>, t: State, a: Action)
    requires Safe(s) && Enabled(s, lost) && LosesRotation(s, lost)
    requires Trace(Next(s, lost), actions, t) && forall b | b in actions :: !b.Login?
    ensures t.file == s.file && (a.Grant? || a.GrantWithoutAccess? || a.Save? ==> !Enabled(t, a))
  {
    LostIsDead(s, lost);
    DeadStays(Next(s, lost), actions, t);
  }

  /** In a safe state a request can always be granted, and the save then completes the call: the file holds the new
      tokens for the same account, the refresh token valid, and is what the call returns. */
  lemma RefreshCompletes(s: State, p: Pid, rotates: bool, access: Token, exp: Option<int>, now: int)
    requires Safe(s) && PhaseOf(s, p).Spending?
    ensures Enabled(s, Grant(p, rotates, access, exp)) <==> access != 0
    ensures Enabled(s, GrantWithoutAccess(p, rotates)) && Enabled(s, Transient(p, rotates))
    ensures access != 0 ==>
              var t := Next(s, Grant(p, rotates, access, exp));
              && Enabled(t, Save(p, now))
              && var u := Next(t, Save(p, now));
                 && u.file == Credentials(u.file.refreshToken, s.file.account, access, exp, At(now))
                 && (u.file.refreshToken == s.file.refreshToken <==> !rotates) && u.file.refreshToken in u.valid
                 && u.answers[p] == Ok(u.file) && u.lock.None?
  {
  }

  /** What a call can return: the file as it is when it returns, after adopting, finding it fresh or saving; everything
      else raises. */
  lemma ReturnsTheFile(s: State, a: Action)
    requires Enabled(s, a) && !a.Login? && !PhaseOf(s, a.p).Idle? && PhaseOf(Next(s, a), a.p).Idle?
    ensures var t := Next(s, a);
            a.p in t.answers && (t.answers[a.p].Ok? <==> a.Adopt? || a.StillFresh? || a.Save?)
            && (t.answers[a.p].Ok? ==> t.answers[a.p].value == t.file)
  {
  }

  /** A waiter with nothing to refresh with raises; any other goes on once the lock is free. */
  lemma WaiterGoesOn(s: State, p: Pid)
    requires PhaseOf(s, p).Loaded?
    ensures Enabled(s, NoToken(p)) <==> PhaseOf(s, p).before.refreshToken == 0
    ensures Enabled(s, NoToken(p)) ==> Next(s, NoToken(p)).answers[p] == Err(NoRefreshToken)
    ensures Enabled(s, Acquire(p)) <==> s.lock.None? && PhaseOf(s, p).before.refreshToken != 0
  {
  }

  // ---- accounts ---------------------------------------------------------------------------------

  /** The credentials carry the account their token was issued to. */
  ghost predicate OwnAccount(s: State, token: Token, account: int) {
    token in s.owner && s.owner[token] == account
  }

  ghost predicate PhaseOwned(s: State, ph: Phase) {
    && (ph.Loaded? || ph.Holding? ==> OwnAccount(s, ph.before.refreshToken, ph.before.account))
    && (MidRefresh(ph) ==> OwnAccount(s, ph.current.refreshToken, ph.current.account))
    && (ph.Granted? ==> OwnAccount(s, ph.next, ph.current.account))
  }

  /** Every token in the file or in a process belongs to the account beside it. */
  ghost predicate Owned(s: State) {
    && OwnAccount(s, s.file.refreshToken, s.file.account)
    && (forall p: Pid :: PhaseOwned(s, PhaseOf(s, p)))
    && (forall t | t in s.owner :: t <= s.issued)
  }

  /** Whatever a step does, a login or a lost rotation included. */
  lemma StepKeepsOwners(s: State, a: Action)
    requires Owned(s) && Enabled(s, a)
    ensures Owned(Next(s, a))
  {
    var t := Next(s, a);
    OthersKeepPhase(s, a);
    assert forall token | token in s.owner :: token in t.owner && t.owner[token] == s.owner[token];
    forall q: Pid
      ensures PhaseOwned(t, PhaseOf(t, q))
    {
      assert PhaseOwned(s, PhaseOf(s, q)) && PhaseOwned(s, PhaseOf(s, a.p));
    }
  }

  lemma {:induction false} TracesKeepOwners(s: State, actions: seq<Action>, t: State)
    requires Owned(s) && Trace(s, actions, t)
    ensures Owned(t)
    decreases |actions|
  {
    if actions != [] {
      StepKeepsOwners(s, actions[0]);
      TracesKeepOwners(Next(s, actions[0]), actions[1..], t);
    }
  }

  /** A step the call of `p` takes itself. */
  predicate OwnStep(p: Pid, a: Action) {
    a.p == p && !a.Crash? && !a.Login?
  }

  /** What a call that holds the lock and found another token ends with, unless its process dies. */
  ghost predicate EndsWith(s: State, p: Pid, r: Result<Credentials, Failure>) {
    && (exists a :: OwnStep(p, a) && Enabled(s, a))
    && (forall a | OwnStep(p, a) && Enabled(s, a) ::
          p in Next(s, a).answers && Next(s, a).answers[p] == r && PhaseOf(Next(s, a), p).Idle?)
  }

  /** Over all runs, logins and lost rotations included: a waiter raises exactly when it had loaded a known account and
      the file now holds another one; if the file holds another token of the same account, or it knew no account, it
      adopts the file. */
  lemma WaiterRaisesIff(file: Credentials, actions: seq<Action>, t: State, p: Pid)
    requires Trace(Initial(file), actions, t) && PhaseOf(t, p).Holding?
    ensures var before := PhaseOf(t, p).before;
            var switched := before.account != 0 && t.file.account != before.account;
            && (Enabled(t, AccountChanged(p)) <==> switched)
            && (switched ==> EndsWith(t, p, Err(SwitchedAccount)))
            && (!switched && t.file.refreshToken != before.refreshToken ==> EndsWith(t, p, Ok(t.file)))
  {
    TracesKeepOwners(Initial(file), actions, t);
    var before := PhaseOf(t, p).before;
    assert PhaseOwned(t, PhaseOf(t, p));
    if Enabled(t, AccountChanged(p)) {
      assert OwnStep(p, AccountChanged(p));
    } else if t.file.refreshToken != before.refreshToken {
      assert OwnStep(p, Adopt(p)) && Enabled(t, Adopt(p));
    }
  }

  ghost predicate OneAccount(s: State, account: int) {
    && s.file.account == account
    && forall p: Pid ::
         && (PhaseOf(s, p).Loaded? || PhaseOf(s, p).Holding? ==> PhaseOf(s, p).before.account == account)
         && (MidRefresh(PhaseOf(s, p)) ==> PhaseOf(s, p).current.account == account)
  }

  lemma {:induction false} RefreshesKeepAccount(s: State, actions: seq<Action>, t: State, account: int)
    requires OneAccount(s, account) && Run(s, actions, t) && forall a | a in actions :: !a.Login?
    ensures OneAccount(t, account)
    decreases |actions|
  {
    if actions != [] {
      assert actions[0] in actions && forall a | a in actions[1..] :: a in actions;
      OthersKeepPhase(s, actions[0]);
      RefreshesKeepAccount(Next(s, actions[0]), actions[1..], t, account);
    }
  }

  /** While processes only refresh, none ever finds the account changed, and every waiter whose token was rotated
      adopts the new credentials of its own account. */
  lemma RefreshesNeverSwitch(file: Credentials, actions: seq<Action>, t: State, p: Pid)
    requires Run(Initial(file), actions, t) && forall a | a in actions :: !a.Login?
    ensures !Enabled(t, AccountChanged(p))
    ensures PhaseOf(t, p).Holding? && PhaseOf(t, p).before.refreshToken in t.spent ==>
              EndsWith(t, p, Ok(t.file)) && t.file.account == PhaseOf(t, p).before.account == file.account
  {
    RefreshesKeepAccount(Initial(file), actions, t, file.account);
    RunsAreSafe(Initial(file), actions, t);
    RunIsTrace(Initial(file), actions, t);
    if PhaseOf(t, p).Holding? {
      WaiterRaisesIff(file, actions, t, p);
      if PhaseOf(t, p).before.refreshToken in t.spent { StaleProcessNeverSpends(t, p); }
    }
  }

  /** A login that overlaps a refresh is lost: the save that follows puts the old account back, and the token of the
      login stays valid in no file. */
  lemma OverlappedLoginIsLost(s: State, p: Pid, login: Action, now: int)
    requires Safe(s) && PhaseOf(s, p).Granted? && login.Login?
    ensures var t := Next(s, login);
            && Enabled(t, Save(p, now))
            && var u := Next(t, Save(p, now));
               && u.file.account == s.file.account && u.answers[p] == Ok(u.file)
               && t.file.refreshToken in u.valid && u.file.refreshToken != t.file.refreshToken
  {
  }

  // ---- when a refresh is due ------------------------------------------------------------------

  /** Under the lock exactly one thing happens at any time. */
  lemma HolderDecides(s: State, p: Pid, now: int)
    requires PhaseOf(s, p).Holding?
    ensures var before := PhaseOf(s, p).before;
            && (Enabled(s, Adopt(p)) || Enabled(s, AccountChanged(p)) <==>
                  s.file.refreshToken != before.refreshToken)
            && !(Enabled(s, Adopt(p)) && Enabled(s, AccountChanged(p)))
            && (Enabled(s, StillFresh(p, now)) || Enabled(s, Proceed(p, now)) <==>
                  s.file.refreshToken == before.refreshToken)
            && !(Enabled(s, StillFresh(p, now)) && Enabled(s, Proceed(p, now)))
  {
  }

  /** A process that waited for the lock while another one refreshed and saved: it sends a request of its own
      exactly when the server reused the refresh token and the credentials just written are due, or it is forced. */
  lemma WaiterRefreshesIff(s: State, p: Pid, q: Pid, saved: int, now: int)
    requires Safe(s) && p != q && PhaseOf(s, p).Granted? && PhaseOf(s, q).Loaded?
    requires PhaseOf(s, q).before.refreshToken != 0
    ensures Enabled(s, Save(p, saved)) && Enabled(Next(s, Save(p, saved)), Acquire(q))
    ensures var ph, before := PhaseOf(s, p), PhaseOf(s, q);
            var u := Next(Next(s, Save(p, saved)), Acquire(q));
            Enabled(u, Proceed(q, now)) <==>
              && ph.next == before.before.refreshToken
              && (before.force
                  || (if ph.exp.Some? then ph.exp.value <= now + REFRESH_WINDOW else now >= saved + STALE_AFTER))
  {
    var t := Next(s, Save(p, saved));
    assert PhaseOf(t, q) == PhaseOf(s, q);
  }

  /** When a refresh falls due; `None` is always. */
  function DueAt(c: Credentials): Option<int> {
    match c.exp
    case Some(exp) => Some(exp - REFRESH_WINDOW)
    case None => if c.last.At? then Some(c.last.time + STALE_AFTER) else None
  }

  /** With a refresh token, a refresh is due from a moment that the credentials fix on; without one, never. */
  lemma DueIff(c: Credentials, now: int)
    ensures ShouldRefresh(c, now) <==> c.refreshToken != 0 && (DueAt(c).Some? ==> DueAt(c).value <= now)
  {
  }

  /** Once due, a refresh stays due until the credentials change. */
  lemma DueStaysDue(c: Credentials, now: int, later: int)
    requires now <= later && ShouldRefresh(c, now)
    ensures ShouldRefresh(c, later)
  {
  }

  datatype AuthError = NoAccessToken | Expired

  /** What `auth` answers from the credentials it ends up with. */
  function Served(c: Credentials, now: int): Result<(Token, int), AuthError> {
    if c.access == 0 then Err(NoAccessToken)
    else if c.exp.Some? && c.exp.value <= now then Err(Expired)
    else Ok((c.access, c.account))
  }

  /** Credentials judged fresh at one moment serve their access token for at least the refresh window: `auth` without
      a refresh never hands out a token that expires within it, and never reports one as expired. */
  lemma FreshCredentialsServe(c: Credentials, now: int, later: int)
    requires c.refreshToken != 0 && !ShouldRefresh(c, now) && now <= later <= now + REFRESH_WINDOW
    ensures Served(c, later).Ok? <==> c.access != 0
    ensures c.exp.Some? ==> c.exp.value > later
  {
  }

  /** What a refresh wrote is served exactly until the new token expires, with the account it was refreshed for. */
  lemma SavedCredentialsServeIff(s: State, p: Pid, saved: int, later: int)
    requires Safe(s) && PhaseOf(s, p).Granted? && PhaseOf(s, p).access != 0
    ensures var ph := PhaseOf(s, p);
            var c := Next(s, Save(p, saved)).file;
            && (Served(c, later).Ok? <==> ph.exp.None? || later < ph.exp.value)
            && (Served(c, later).Ok? ==> Served(c, later).value == (ph.access, s.file.account))
  {
  }
}
