/** Accounts, sessions and reset tokens behind the FIFO worker queue
    (src/Database/DatabaseManager.cpp) and the password handlers that use them
    (src/Core/Application.cpp). */
module AccountStore {
  import opened Basics

  type Uuid = string
  type Hash = string
  type Time = int   // seconds

  const SESSION_LIFETIME := 30 * 86_400

  datatype Account = Account(username: string, passwordHash: Hash, passwordSalt: string)
  datatype SessionRow = SessionRow(account: Uuid, tokenHash: Hash, expiresAt: Time)
  datatype ResetRow = ResetRow(account: Uuid, expiresAt: Time)

  datatype Db = Db(accounts: map<Uuid, Account>, sessions: map<string, SessionRow>, resets: map<Hash, ResetRow>)

  datatype AccountInfo = AccountInfo(uuid: Uuid, account: Account)

  datatype Task =
    | CreateAccount(uuid: Uuid, account: Account)
    | GetAccountByUsername(username: string)
    | CreateSession(sessionId: string, owner: Uuid, tokenHash: Hash)
    | GetSessionAndAccount(tokenHash: Hash)
    | RevokeSession(tokenHash: Hash)
    | RevokeAllSessions(owner: Uuid)
    | UpdateAccountPassword(owner: Uuid, passwordHash: Hash, passwordSalt: string)
    | CreatePasswordReset(owner: Uuid, tokenHash: Hash, expiresAt: Time)
    | ConsumePasswordReset(tokenHash: Hash)
    | StoreMessage

  // ---- One task on the tables ---------------------------------------------------------

  predicate NameTaken(db: Db, username: string) {
    exists u <- db.accounts :: db.accounts[u].username == username
  }

  /** Whether an INSERT or UPDATE succeeds: primary keys and usernames are unique, and an
      update must hit a row. */
  predicate Succeeds(db: Db, task: Task) {
    match task
    case CreateAccount(uuid, account) => uuid !in db.accounts && !NameTaken(db, account.username)
    case CreateSession(id, _, _) => id !in db.sessions
    case UpdateAccountPassword(owner, _, _) => owner in db.accounts
    case CreatePasswordReset(_, hash, _) => hash !in db.resets
    case _ => true
  }

  function Effect(db: Db, task: Task, now: Time): Db {
    if !Succeeds(db, task) then db
    else
      match task
      case CreateAccount(uuid, account) => db.(accounts := db.accounts[uuid := account])
      case CreateSession(id, owner, hash) =>
        db.(sessions := db.sessions[id := SessionRow(owner, hash, now + SESSION_LIFETIME)])
      case RevokeSession(hash) =>
        db.(sessions := map id | id in db.sessions && db.sessions[id].tokenHash != hash :: db.sessions[id])
      case RevokeAllSessions(owner) =>
        db.(sessions := map id | id in db.sessions && db.sessions[id].account != owner :: db.sessions[id])
      case UpdateAccountPassword(owner, hash, salt) =>
        db.(accounts := db.accounts[owner := db.accounts[owner].(passwordHash := hash, passwordSalt := salt)])
      case CreatePasswordReset(owner, hash, expiresAt) =>
        db.(resets := db.resets[hash := ResetRow(owner, expiresAt)])
      case ConsumePasswordReset(hash) => db.(resets := db.resets - {hash})
      case _ => db
  }

  /** The UNIQUE constraint on the account table. */
  predicate UniqueNames(db: Db) {
    forall u <- db.accounts, v <- db.accounts :: db.accounts[u].username == db.accounts[v].username ==> u == v
  }

  lemma NamesStayUnique(db: Db, task: Task, now: Time)
    requires UniqueNames(db)
    ensures UniqueNames(Effect(db, task, now))
  {}

  lemma {:induction false} NamesAlwaysUnique(db: Db, steps: seq<Step>)
    requires UniqueNames(db)
    ensures UniqueNames(Replay(db, steps))
  {
    if steps != [] {
      NamesAlwaysUnique(db, steps[..|steps| - 1]);
      NamesStayUnique(Replay(db, steps[..|steps| - 1]), steps[|steps| - 1].task, steps[|steps| - 1].now);
    }
  }

  /** A session row that signs its bearer in. */
  predicate ValidSession(db: Db, id: string, hash: Hash, now: Time) {
    && id in db.sessions && db.sessions[id].tokenHash == hash
    && db.sessions[id].account in db.accounts && db.sessions[id].expiresAt > now
  }

  predicate ValidReset(db: Db, hash: Hash, now: Time) {
    hash in db.resets && db.resets[hash].account in db.accounts && db.resets[hash].expiresAt >= now
  }

  datatype Reply = Flag(ok: bool) | Found(info: Option<AccountInfo>)

  /** What a queued call may answer; a lookup may return any matching row. */
  ghost predicate IsReply(db: Db, task: Task, now: Time, reply: Reply) {
    match task
    case GetAccountByUsername(username) =>
      && reply.Found?
      && (reply.info.None? <==> !NameTaken(db, username))
      && (reply.info.Some? ==> var i := reply.info.value;
            i.uuid in db.accounts && db.accounts[i.uuid] == i.account && i.account.username == username)
    case GetSessionAndAccount(hash) =>
      && reply.Found?
      && (reply.info.None? <==> forall id <- db.sessions :: !ValidSession(db, id, hash, now))
      && (reply.info.Some? ==> var i := reply.info.value;
            && i.uuid in db.accounts && db.accounts[i.uuid] == i.account
            && exists id <- db.sessions :: ValidSession(db, id, hash, now) && db.sessions[id].account == i.uuid)
    case ConsumePasswordReset(hash) =>
      && reply.Found?
      && (reply.info.Some? <==> ValidReset(db, hash, now))
      && (reply.info.Some? ==> var i := reply.info.value;
            i.uuid == db.resets[hash].account && i.account == db.accounts[i.uuid])
    case _ => reply == Flag(Succeeds(db, task))
  }

  // ---- Tasks in queue order -----------------------------------------------------------

  datatype Step = Step(task: Task, now: Time)

  function Replay(db: Db, steps: seq<Step>): Db {
    if steps == [] then db
    else Effect(Replay(db, steps[..|steps| - 1]), steps[|steps| - 1].task, steps[|steps| - 1].now)
  }

  /** Tasks the admin console may slip in between a handler's own. */
  predicate ConsoleTask(task: Task) {
    task.CreatePasswordReset? || task.GetAccountByUsername?
  }

  predicate OnlyConsole(steps: seq<Step>) {
    forall s <- steps :: ConsoleTask(s.task)
  }

  /** The session id and token hash were never used before. */
  predicate Unused(db: Db, id: string, hash: Hash) {
    id !in db.sessions && forall i <- db.sessions :: db.sessions[i].tokenHash != hash
  }

  predicate NotCreatedBy(steps: seq<Step>, id: string, hash: Hash) {
    forall s <- steps :: s.task.CreateSession? ==> s.task.sessionId != id && s.task.tokenHash != hash
  }

  lemma {:induction false} ConsoleTouchesNoSession(db: Db, steps: seq<Step>)
    requires OnlyConsole(steps)
    ensures Replay(db, steps).sessions == db.sessions && Replay(db, steps).accounts == db.accounts
  {
    if steps != [] {
      ConsoleTouchesNoSession(db, steps[..|steps| - 1]);
      assert ConsoleTask(steps[|steps| - 1].task);
    }
  }

  lemma {:induction false} StaysUnused(db: Db, steps: seq<Step>, id: string, hash: Hash)
    requires Unused(db, id, hash) && NotCreatedBy(steps, id, hash)
    ensures Unused(Replay(db, steps), id, hash)
  {
    if steps != [] {
      StaysUnused(db, steps[..|steps| - 1], id, hash);
      assert steps[|steps| - 1] in steps;
    }
  }

  lemma {:induction false} ReplayConcat(db: Db, a: seq<Step>, b: seq<Step>)
    ensures Replay(db, a + b) == Replay(Replay(db, a), b)
  {
    if b == [] {
      assert a + b == a;
    } else {
      ReplayConcat(db, a, b[..|b| - 1]);
      assert (a + b)[..|a + b| - 1] == a + b[..|b| - 1];
    }
  }

  /** The account's only session is the one with this token: no other token, old or new,
      signs anyone in to it. */
  ghost predicate OnlySession(db: Db, owner: Uuid, id: string, hash: Hash) {
    && id in db.sessions && db.sessions[id].account == owner && db.sessions[id].tokenHash == hash
    && (forall i <- db.sessions :: (db.sessions[i].account == owner || db.sessions[i].tokenHash == hash) ==> i == id)
  }

  function SessionsOfOthers(db: Db, owner: Uuid): map<string, SessionRow> {
    map id | id in db.sessions && db.sessions[id].account != owner :: db.sessions[id]
  }

  /** Every other account and every session of another account is as it was. */
  ghost predicate OthersUntouched(before: Db, after: Db, owner: Uuid) {
    && after.accounts - {owner} == before.accounts - {owner}
    && SessionsOfOthers(after, owner) == SessionsOfOthers(before, owner)
  }

  lemma RevokeThenCreate(db: Db, owner: Uuid, revokedAt: Time, id: string, hash: Hash, createdAt: Time,
                         between: seq<Step>)
    requires Unused(db, id, hash) && OnlyConsole(between)
    ensures var db1 := Effect(db, RevokeAllSessions(owner), revokedAt);
            var db2 := Effect(Replay(db1, between), CreateSession(id, owner, hash), createdAt);
            OnlySession(db2, owner, id, hash) && OthersUntouched(db, db2, owner)
  {
    ConsoleTouchesNoSession(Effect(db, RevokeAllSessions(owner), revokedAt), between);
  }

  /** Queue order is what makes a password change safe: revocation is only queued, but it
      runs before the new session's row is inserted, whatever the queue already held and
      whatever the console adds in between or afterwards. */
  lemma NewSessionIsTheOnlyOne(db: Db, before: seq<Step>, revoke: Step, between: seq<Step>, create: Step,
                               after: seq<Step>)
    requires revoke.task.RevokeAllSessions? && create.task.CreateSession? && revoke.task.owner == create.task.owner
    requires OnlyConsole(between) && OnlyConsole(after)
    requires Unused(db, create.task.sessionId, create.task.tokenHash)
    requires NotCreatedBy(before, create.task.sessionId, create.task.tokenHash)
    ensures OnlySession(Replay(db, before + [revoke] + between + [create] + after),
                        create.task.owner, create.task.sessionId, create.task.tokenHash)
  {
    var start := Replay(db, before);
    StaysUnused(db, before, create.task.sessionId, create.task.tokenHash);
    RevokeThenCreate(start, create.task.owner, revoke.now, create.task.sessionId, create.task.tokenHash, create.now,
                     between);
    ReplayConcat(db, before, [revoke]);
    ReplayConcat(db, before + [revoke], between);
    ReplayConcat(db, before + [revoke] + between, [create]);
    ReplayConcat(db, before + [revoke] + between + [create], after);
    ReplayOne(start, revoke);
    ReplayOne(Replay(db, before + [revoke] + between), create);
    ConsoleTouchesNoSession(Replay(db, before + [revoke] + between + [create]), after);
  }

  lemma ReplayOne(db: Db, step: Step)
    ensures Replay(db, [step]) == Effect(db, step.task, step.now)
  {
    assert [step][..0] == [];
  }

  /** What OnlySession means to a client presenting a token. */
  lemma OnlyItsTokenSignsIn(db: Db, owner: Uuid, id: string, hash: Hash, presented: Hash, now: Time, reply: Reply)
    requires OnlySession(db, owner, id, hash) && owner in db.accounts
    requires IsReply(db, GetSessionAndAccount(presented), now, reply)
    ensures reply.info.Some? && reply.info.value.uuid == owner <==>
            presented == hash && db.sessions[id].expiresAt > now
  {
    if presented == hash && db.sessions[id].expiresAt > now {
      assert ValidSession(db, id, hash, now);
    }
  }

  // ---- What was stored is found, what was revoked is not ------------------------------

  predicate CreatesNone(steps: seq<Step>, hash: Hash) {
    forall s <- steps :: !(s.task.CreateSession? && s.task.tokenHash == hash)
  }

  predicate NoSessionFor(db: Db, hash: Hash) {
    forall id <- db.sessions :: db.sessions[id].tokenHash != hash
  }

  lemma {:induction false} NoSessionComes(db: Db, steps: seq<Step>, hash: Hash)
    requires NoSessionFor(db, hash) && CreatesNone(steps, hash)
    ensures NoSessionFor(Replay(db, steps), hash)
  {
    if steps != [] {
      NoSessionComes(db, steps[..|steps| - 1], hash);
      assert steps[|steps| - 1] in steps;
    }
  }

  /** A token that was signed out signs nobody in again, whatever else happens. */
  lemma RevokedTokenFindsNobody(db: Db, hash: Hash, revokedAt: Time, steps: seq<Step>, now: Time, reply: Reply)
    requires CreatesNone(steps, hash)
    requires IsReply(Replay(Effect(db, RevokeSession(hash), revokedAt), steps), GetSessionAndAccount(hash), now, reply)
    ensures reply == Found(None)
  {
    NoSessionComes(Effect(db, RevokeSession(hash), revokedAt), steps, hash);
  }

  /** Signing one token out changes no answer about another. */
  lemma RevocationSparesOthers(db: Db, hash: Hash, revokedAt: Time, other: Hash, now: Time, reply: Reply)
    requires other != hash
    ensures IsReply(Effect(db, RevokeSession(hash), revokedAt), GetSessionAndAccount(other), now, reply) <==>
            IsReply(db, GetSessionAndAccount(other), now, reply)
  {
    var after := Effect(db, RevokeSession(hash), revokedAt);
    assert forall id :: ValidSession(after, id, other, now) <==> ValidSession(db, id, other, now);
    assert (exists id <- db.sessions :: ValidSession(db, id, other, now)) <==>
           (exists id <- after.sessions :: ValidSession(after, id, other, now));
  }

  /** The only session with this token is the given one. */
  predicate SoleSession(db: Db, id: string, row: SessionRow) {
    && id in db.sessions && db.sessions[id] == row
    && (forall i <- db.sessions :: db.sessions[i].tokenHash == row.tokenHash ==> i == id)
    && row.account in db.accounts
  }

  predicate KeepsSession(s: Step, row: SessionRow) {
    && s.task != RevokeSession(row.tokenHash) && s.task != RevokeAllSessions(row.account)
    && !(s.task.CreateSession? && s.task.tokenHash == row.tokenHash)
  }

  lemma {:induction false} SessionStays(db: Db, id: string, row: SessionRow, steps: seq<Step>)
    requires SoleSession(db, id, row) && forall s <- steps :: KeepsSession(s, row)
    ensures SoleSession(Replay(db, steps), id, row)
  {
    if steps != [] {
      SessionStays(db, id, row, steps[..|steps| - 1]);
      assert steps[|steps| - 1] in steps;
    }
  }

  lemma SoleSessionReply(db: Db, id: string, row: SessionRow, now: Time, reply: Reply)
    requires SoleSession(db, id, row) && IsReply(db, GetSessionAndAccount(row.tokenHash), now, reply)
    ensures reply.Found? && (reply.info.Some? <==> now < row.expiresAt)
    ensures reply.info.Some? ==> reply.info.value == AccountInfo(row.account, db.accounts[row.account])
  {
    assert ValidSession(db, id, row.tokenHash, now) <==> now < row.expiresAt;
  }

  /** A new session signs its account in for 30 days, to the second, unless it is revoked. */
  lemma SessionLasts30Days(db: Db, id: string, owner: Uuid, hash: Hash, at: Time, steps: seq<Step>, now: Time,
                           reply: Reply)
    requires Unused(db, id, hash) && owner in db.accounts
    requires forall s <- steps :: KeepsSession(s, SessionRow(owner, hash, at + 30 * 86_400))
    requires IsReply(Replay(Effect(db, CreateSession(id, owner, hash), at), steps), GetSessionAndAccount(hash),
                     now, reply)
    ensures reply.Found? && (reply.info.Some? <==> now < at + 30 * 86_400)
    ensures reply.info.Some? ==> reply.info.value.uuid == owner
  {
    var row := SessionRow(owner, hash, at + 30 * 86_400);
    SessionStays(Effect(db, CreateSession(id, owner, hash), at), id, row, steps);
    SoleSessionReply(Replay(Effect(db, CreateSession(id, owner, hash), at), steps), id, row, now, reply);
  }

  lemma {:induction false} AccountStays(db: Db, uuid: Uuid, account: Account, steps: seq<Step>)
    requires uuid in db.accounts && db.accounts[uuid] == account
    requires forall s <- steps :: !(s.task.UpdateAccountPassword? && s.task.owner == uuid)
    ensures uuid in Replay(db, steps).accounts && Replay(db, steps).accounts[uuid] == account
  {
    if steps != [] {
      AccountStays(db, uuid, account, steps[..|steps| - 1]);
      assert steps[|steps| - 1] in steps;
    }
  }

  /** A registered account is found by its name, with the password it was given, until that is
      changed; a name that is taken is not registered again. */
  lemma RegisteredAccountIsFound(db: Db, uuid: Uuid, account: Account, at: Time, steps: seq<Step>, now: Time,
                                 reply: Reply)
    requires UniqueNames(db) && uuid !in db.accounts
    requires forall s <- steps :: !(s.task.UpdateAccountPassword? && s.task.owner == uuid)
    requires IsReply(Replay(Effect(db, CreateAccount(uuid, account), at), steps),
                     GetAccountByUsername(account.username), now, reply)
    ensures IsReply(db, CreateAccount(uuid, account), at, Flag(true)) <==> !NameTaken(db, account.username)
    ensures !NameTaken(db, account.username) ==> reply == Found(Some(AccountInfo(uuid, account)))
    ensures NameTaken(db, account.username) ==> Effect(db, CreateAccount(uuid, account), at) == db
  {
    if !NameTaken(db, account.username) {
      var created := Effect(db, CreateAccount(uuid, account), at);
      NamesStayUnique(db, CreateAccount(uuid, account), at);
      AccountStays(created, uuid, account, steps);
      NamesAlwaysUnique(created, steps);
    }
  }

  /** What a key conflict or a missing row refuses changes nothing. */
  lemma RefusedTasksChangeNothing(db: Db, task: Task, now: Time, reply: Reply)
    requires IsReply(db, task, now, reply)
    requires || (task.CreateSession? && task.sessionId in db.sessions)
             || (task.CreatePasswordReset? && task.tokenHash in db.resets)
             || (task.CreateAccount? && task.uuid in db.accounts)
             || (task.UpdateAccountPassword? && task.owner !in db.accounts)
    ensures reply == Flag(false) && Effect(db, task, now) == db
  {}

  lemma {:induction false} ResetStays(db: Db, hash: Hash, row: ResetRow, steps: seq<Step>)
    requires hash in db.resets && db.resets[hash] == row && row.account in db.accounts
    requires forall s <- steps :: s.task != ConsumePasswordReset(hash)
    ensures var after := Replay(db, steps);
            hash in after.resets && after.resets[hash] == row && row.account in after.accounts
  {
    if steps != [] {
      ResetStays(db, hash, row, steps[..|steps| - 1]);
      assert steps[|steps| - 1] in steps;
    }
  }

  /** A reset token that was issued redeems for its account up to the second it expires. */
  lemma IssuedTokenRedeems(db: Db, owner: Uuid, hash: Hash, expiresAt: Time, at: Time, steps: seq<Step>, now: Time,
                           reply: Reply)
    requires hash !in db.resets && owner in db.accounts
    requires forall s <- steps :: s.task != ConsumePasswordReset(hash)
    requires IsReply(Replay(Effect(db, CreatePasswordReset(owner, hash, expiresAt), at), steps),
                     ConsumePasswordReset(hash), now, reply)
    ensures reply.Found? && (reply.info.Some? <==> now <= expiresAt)
    ensures reply.info.Some? ==> reply.info.value.uuid == owner
  {
    ResetStays(Effect(db, CreatePasswordReset(owner, hash, expiresAt), at), hash, ResetRow(owner, expiresAt), steps);
  }

  // ---- Reset tokens -------------------------------------------------------------------

  function Issues(db: Db, steps: seq<Step>, hash: Hash): nat {
    if steps == [] then 0
    else
      var before, last := steps[..|steps| - 1], steps[|steps| - 1].task;
      Issues(db, before, hash)
      + (if last.CreatePasswordReset? && last.tokenHash == hash && Succeeds(Replay(db, before), last) then 1 else 0)
  }

  /** Redemptions that succeed, counting those the handler then rejects because the token
      belongs to another user. */
  function Redemptions(db: Db, steps: seq<Step>, hash: Hash): nat {
    if steps == [] then 0
    else
      var before, last := steps[..|steps| - 1], steps[|steps| - 1];
      Redemptions(db, before, hash)
      + (if last.task == ConsumePasswordReset(hash) && ValidReset(Replay(db, before), hash, last.now) then 1 else 0)
  }

  function Held(db: Db, hash: Hash): nat { if hash in db.resets then 1 else 0 }

  /** A token is redeemed at most once for each time it was issued. */
  lemma {:induction false} TokenRedeemedAtMostOncePerIssue(db: Db, steps: seq<Step>, hash: Hash)
    ensures Redemptions(db, steps, hash) + Held(Replay(db, steps), hash) <= Issues(db, steps, hash) + Held(db, hash)
  {
    if steps != [] {
      TokenRedeemedAtMostOncePerIssue(db, steps[..|steps| - 1], hash);
    }
  }

  /** The first attempt uses the token up, even one that comes too late or is rejected
      afterwards: until it is issued again every further attempt fails. */
  lemma {:induction false} AnyAttemptUsesTheToken(db: Db, hash: Hash, attemptAt: Time, steps: seq<Step>, now: Time,
                                                  reply: Reply)
    requires forall s <- steps :: !(s.task.CreatePasswordReset? && s.task.tokenHash == hash)
    requires IsReply(Replay(Effect(db, ConsumePasswordReset(hash), attemptAt), steps), ConsumePasswordReset(hash),
                     now, reply)
    ensures reply == Found(None)
  {
    NeverReissued(Effect(db, ConsumePasswordReset(hash), attemptAt), steps, hash);
  }

  lemma {:induction false} NeverReissued(db: Db, steps: seq<Step>, hash: Hash)
    requires hash !in db.resets
    requires forall s <- steps :: !(s.task.CreatePasswordReset? && s.task.tokenHash == hash)
    ensures hash !in Replay(db, steps).resets
  {
    if steps != [] {
      NeverReissued(db, steps[..|steps| - 1], hash);
      assert steps[|steps| - 1] in steps;
    }
  }

  // ---- The worker queue ---------------------------------------------------------------

  class DatabaseManager {
    var db: Db
    var taskQueue: seq<Task>
    ghost var executed: seq<Step>
    ghost var initial: Db

    /** The tables are what the executed tasks, in queue order, make them. */
    ghost predicate Valid()
      reads this
    {
      db == Replay(initial, executed) && UniqueNames(db)
    }

    constructor (db: Db)
      requires UniqueNames(db)
      ensures Valid() && this.db == db && initial == db && taskQueue == [] && executed == []
    {
      this.db, initial, taskQueue, executed := db, db, [], [];
    }

    /** Fire and forget. */
    method Enqueue(task: Task)
      requires Valid()
      modifies this`taskQueue
      ensures Valid() && taskQueue == old(taskQueue) + [task]
    {
      taskQueue := taskQueue + [task];
    }

    method FindAccount(username: string) returns (info: Option<AccountInfo>)
      ensures IsReply(db, GetAccountByUsername(username), 0, Found(info))
    {
      info := None;
      var pending := db.accounts.Keys;
      while pending != {}
        invariant pending <= db.accounts.Keys && info == None
        invariant forall u <- db.accounts.Keys - pending :: db.accounts[u].username != username
        decreases pending
      {
        var u :| u in pending;
        if db.accounts[u].username == username {
          return Some(AccountInfo(u, db.accounts[u]));
        }
        pending := pending - {u};
      }
    }

    method FindSession(hash: Hash, now: Time) returns (info: Option<AccountInfo>)
      ensures IsReply(db, GetSessionAndAccount(hash), now, Found(info))
    {
      info := None;
      var pending := db.sessions.Keys;
      while pending != {}
        invariant pending <= db.sessions.Keys && info == None
        invariant forall id <- db.sessions.Keys - pending :: !ValidSession(db, id, hash, now)
        decreases pending
      {
        var id :| id in pending;
        var row := db.sessions[id];
        if row.tokenHash == hash && row.account in db.accounts && row.expiresAt > now {
          assert ValidSession(db, id, hash, now);
          return Some(AccountInfo(row.account, db.accounts[row.account]));
        }
        pending := pending - {id};
      }
    }

    /** The lambda of one queued call, on the worker thread. */
    method Execute(task: Task, now: Time) returns (reply: Reply)
      requires Valid()
      modifies this`db, this`executed
      ensures Valid() && db == Effect(old(db), task, now) && executed == old(executed) + [Step(task, now)]
      ensures IsReply(old(db), task, now, reply)
    {
      match task {
        case GetAccountByUsername(username) =>
          var info := FindAccount(username);
          reply := Found(info);
        case GetSessionAndAccount(hash) =>
          var info := FindSession(hash, now);
          reply := Found(info);
        case ConsumePasswordReset(hash) =>
          reply := Found(if ValidReset(db, hash, now)
                         then Some(AccountInfo(db.resets[hash].account, db.accounts[db.resets[hash].account]))
                         else None);
        case _ =>
          reply := Flag(Succeeds(db, task));
      }
      NamesStayUnique(db, task, now);
      db := Effect(db, task, now);
      executed := executed + [Step(task, now)];
      assert executed[..|executed| - 1] == old(executed);
    }

    /** One round of the worker loop. */
    method WorkerStep(now: Time) returns (reply: Reply)
      requires Valid() && taskQueue != []
      modifies this
      ensures Valid() && initial == old(initial) && taskQueue == old(taskQueue)[1..]
      ensures db == Effect(old(db), old(taskQueue)[0], now)
      ensures executed == old(executed) + [Step(old(taskQueue)[0], now)]
      ensures IsReply(old(db), old(taskQueue)[0], now, reply)
    {
      var task := taskQueue[0];
      taskQueue := taskQueue[1..];
      reply := Execute(task, now);
    }

    /** A task whose caller waits for its promise: whatever was queued before runs first. */
    method Await(task: Task, now: Time) returns (reply: Reply)
      requires Valid()
      modifies this
      ensures Valid() && taskQueue == [] && initial == old(initial)
      ensures executed == old(executed) + At(old(taskQueue), now) + [Step(task, now)]
      ensures db == Effect(Replay(initial, old(executed) + At(old(taskQueue), now)), task, now)
      ensures IsReply(Replay(initial, old(executed) + At(old(taskQueue), now)), task, now, reply)
    {
      ghost var queued := taskQueue;
      taskQueue := taskQueue + [task];
      ghost var n := 0;
      while |taskQueue| > 1
        invariant Valid() && initial == old(initial)
        invariant 0 <= n <= |queued| && taskQueue == queued[n..] + [task]
        invariant executed == old(executed) + At(queued[..n], now)
        decreases |taskQueue|
      {
        var _ := WorkerStep(now);
        assert At(queued[..n + 1], now) == At(queued[..n], now) + [Step(queued[n], now)];
        n := n + 1;
      }
      assert queued[..n] == queued && taskQueue == [task];
      reply := WorkerStep(now);
    }
  }

  function At(tasks: seq<Task>, now: Time): (steps: seq<Step>)
    ensures |steps| == |tasks| && forall i :: 0 <= i < |tasks| ==> steps[i] == Step(tasks[i], now)
  {
    seq(|tasks|, i requires 0 <= i < |tasks| => Step(tasks[i], now))
  }

  // ---- The password handlers ------------------------------------------------------------

  predicate ConsoleTasks(tasks: seq<Task>) {
    forall t <- tasks :: ConsoleTask(t)
  }

  /** A new session id and token nobody has used or is about to use. */
  ghost predicate Fresh(m: DatabaseManager, id: string, hash: Hash)
    reads m
  {
    Unused(m.db, id, hash) && NotCreatedBy(At(m.taskQueue, 0), id, hash)
  }

  /** The common end of both handlers: new password, every session revoked, one created.
      `noise` is what the console queues before each of the two waits. */
  method ReplacePassword(m: DatabaseManager, owner: Uuid, passwordHash: Hash, passwordSalt: string,
                         sessionId: string, tokenHash: Hash, now: Time, noise: (seq<Task>, seq<Task>))
    returns (ok: bool)
    requires m.Valid() && m.taskQueue == [] && Unused(m.db, sessionId, tokenHash)
    requires ConsoleTasks(noise.0) && ConsoleTasks(noise.1)
    modifies m
    ensures m.Valid() && m.initial == old(m.initial) && m.taskQueue == []
    ensures ok <==> owner in old(m.db).accounts
    ensures ok ==> OnlySession(m.db, owner, sessionId, tokenHash) && OthersUntouched(old(m.db), m.db, owner)
    ensures ok ==> && owner in m.db.accounts
                   && m.db.accounts[owner] == Account(old(m.db).accounts[owner].username, passwordHash, passwordSalt)
  {
    ghost var start := m.db;
    m.taskQueue := noise.0;
    ConsoleTouchesNoSession(start, At(noise.0, now));
    ReplayConcat(m.initial, m.executed, At(noise.0, now));
    var updated := m.Await(UpdateAccountPassword(owner, passwordHash, passwordSalt), now);
    ok := updated.ok;
    if ok {
      ReplaceSessions(m, owner, sessionId, tokenHash, now, noise.1);
    }
  }

  /** The tables once the queued revocation, the console's tasks and the creation ran. */
  lemma RevocationThenCreation(initial: Db, executed: seq<Step>, owner: Uuid, noise: seq<Task>, now: Time,
                               id: string, hash: Hash)
    requires Unused(Replay(initial, executed), id, hash) && ConsoleTasks(noise)
    ensures var queued := Replay(initial, executed + At([RevokeAllSessions(owner)] + noise, now));
            var db := Effect(queued, CreateSession(id, owner, hash), now);
            && OnlySession(db, owner, id, hash) && db.accounts == Replay(initial, executed).accounts
            && OthersUntouched(Replay(initial, executed), db, owner)
  {
    var start, revoke, between := Replay(initial, executed), Step(RevokeAllSessions(owner), now), At(noise, now);
    assert At([RevokeAllSessions(owner)] + noise, now) == [revoke] + between;
    ReplayConcat(initial, executed, [revoke] + between);
    ReplayConcat(start, [revoke], between);
    ReplayOne(start, revoke);
    RevokeThenCreate(start, owner, now, id, hash, now, between);
    ConsoleTouchesNoSession(Effect(start, revoke.task, now), between);
  }

  /** Revocation is queued, creation is waited for. */
  method ReplaceSessions(m: DatabaseManager, owner: Uuid, sessionId: string, tokenHash: Hash, now: Time,
                         noise: seq<Task>)
    requires m.Valid() && m.taskQueue == [] && Unused(m.db, sessionId, tokenHash) && ConsoleTasks(noise)
    modifies m
    ensures m.Valid() && m.initial == old(m.initial) && m.taskQueue == []
    ensures OnlySession(m.db, owner, sessionId, tokenHash) && m.db.accounts == old(m.db).accounts
    ensures OthersUntouched(old(m.db), m.db, owner)
  {
    RevocationThenCreation(m.initial, m.executed, owner, noise, now, sessionId, tokenHash);
    m.Enqueue(RevokeAllSessions(owner));
    m.taskQueue := m.taskQueue + noise;
    assert m.taskQueue == [RevokeAllSessions(owner)] + noise;
    var _ := m.Await(CreateSession(sessionId, owner, tokenHash), now);
  }

  /** RESET_PASSWORD from the token on. Success means the new password is in place and the
      returned session is the only one, with other accounts untouched. A token that is
      refused, even one that is valid for another user, is gone, and nothing else. */
  method ResetPassword(m: DatabaseManager, username: string, resetTokenHash: Hash, passwordHash: Hash,
                       passwordSalt: string, sessionId: string, tokenHash: Hash, now: Time,
                       noise: (seq<Task>, seq<Task>, seq<Task>))
    returns (account: Option<Uuid>)
    requires m.Valid() && Fresh(m, sessionId, tokenHash)
    requires ConsoleTasks(noise.0) && ConsoleTasks(noise.1) && ConsoleTasks(noise.2)
    modifies m
    ensures m.Valid()
    ensures account.Some? ==>
              && OnlySession(m.db, account.value, sessionId, tokenHash)
              && account.value in m.db.accounts
              && m.db.accounts[account.value] == Account(username, passwordHash, passwordSalt)
    ensures var found := Replay(old(m.db), At(old(m.taskQueue) + noise.0, now));
            account.Some? <==>
              && ValidReset(found, resetTokenHash, now)
              && found.accounts[found.resets[resetTokenHash].account].username == username
    ensures var found := Replay(old(m.db), At(old(m.taskQueue) + noise.0, now));
            && (account.Some? ==> OthersUntouched(found, m.db, account.value))
            && (account.None? ==> m.db == found.(resets := found.resets - {resetTokenHash}))
  {
    m.taskQueue := m.taskQueue + noise.0;
    ghost var found := Replay(m.db, At(m.taskQueue, now));
    ReplayConcat(m.initial, m.executed, At(m.taskQueue, now));
    QueueKeepsFresh(m.db, old(m.taskQueue), noise.0, sessionId, tokenHash, now);
    var reply := m.Await(ConsumePasswordReset(resetTokenHash), now);
    if reply.info.None? || reply.info.value.account.username != username {
      return None;
    }
    var owner := reply.info.value.uuid;
    var ok := ReplacePassword(m, owner, passwordHash, passwordSalt, sessionId, tokenHash, now, (noise.1, noise.2));
    account := if ok then Some(owner) else None;
  }

  lemma QueueKeepsFresh(db: Db, queue: seq<Task>, noise: seq<Task>, id: string, hash: Hash, now: Time)
    requires Unused(db, id, hash) && NotCreatedBy(At(queue, 0), id, hash) && ConsoleTasks(noise)
    ensures Unused(Replay(db, At(queue + noise, now)), id, hash)
  {
    forall s <- At(queue + noise, now)
      ensures s.task.CreateSession? ==> s.task.sessionId != id && s.task.tokenHash != hash
    {
      var i :| 0 <= i < |queue + noise| && At(queue + noise, now)[i] == s;
      if i < |queue| {
        assert At(queue, 0)[i].task == s.task && At(queue, 0)[i] in At(queue, 0);
      } else {
        assert s.task in noise;
      }
    }
    StaysUnused(db, At(queue + noise, now), id, hash);
  }

  predicate PasswordMatches(a: Account, username: string, hashPassword: string -> Hash) {
    a.username == username && hashPassword(a.passwordSalt) == a.passwordHash
  }

  /** CHANGE_PASSWORD for the signed-in user: it succeeds exactly when there is an account
      of that name whose current password matches. */
  method ChangePassword(m: DatabaseManager, username: string, hashPassword: string -> Hash, passwordHash: Hash,
                        passwordSalt: string, sessionId: string, tokenHash: Hash, now: Time,
                        noise: (seq<Task>, seq<Task>, seq<Task>))
    returns (account: Option<Uuid>)
    requires m.Valid() && Fresh(m, sessionId, tokenHash)
    requires ConsoleTasks(noise.0) && ConsoleTasks(noise.1) && ConsoleTasks(noise.2)
    modifies m
    ensures m.Valid()
    ensures account.Some? ==>
              && OnlySession(m.db, account.value, sessionId, tokenHash)
              && account.value in m.db.accounts
              && m.db.accounts[account.value] == Account(username, passwordHash, passwordSalt)
    ensures var found := Replay(old(m.db), At(old(m.taskQueue) + noise.0, now));
            && (account.Some? <==>
                  exists u <- found.accounts :: PasswordMatches(found.accounts[u], username, hashPassword))
            && (account.Some? ==>
                  account.value in found.accounts
                  && PasswordMatches(found.accounts[account.value], username, hashPassword))
    ensures var found := Replay(old(m.db), At(old(m.taskQueue) + noise.0, now));
            && (account.Some? ==> OthersUntouched(found, m.db, account.value))
            && (account.None? ==> m.db == found)
  {
    m.taskQueue := m.taskQueue + noise.0;
    ReplayConcat(m.initial, m.executed, At(m.taskQueue, now));
    QueueKeepsFresh(m.db, old(m.taskQueue), noise.0, sessionId, tokenHash, now);
    ghost var found := Replay(m.db, At(m.taskQueue, now));
    NamesAlwaysUnique(m.db, At(m.taskQueue, now));
    var reply := m.Await(GetAccountByUsername(username), now);
    if reply.info.None? {
      return None;
    }
    var info := reply.info.value;
    if hashPassword(info.account.passwordSalt) != info.account.passwordHash {
      return None;
    }
    var ok := ReplacePassword(m, info.uuid, passwordHash, passwordSalt, sessionId, tokenHash, now, (noise.1, noise.2));
    account := if ok then Some(info.uuid) else None;
  }
}
