/**
 * `GenerateRefreshTokenProvider`: replaces a user's refresh sessions by a single new one
 * that lives for thirty days.
 */
module RefreshTokenProvider {
  import opened Store

  /** `dayjs().add(30, "days")`, in seconds; calendar days are taken as 86400 seconds. */
  const SessionLifetime: nat := 30 * 24 * 60 * 60

  /** `dayjs().add(30, "days").unix()` at Unix millisecond `nowMs`. */
  function SessionExpiry(nowMs: nat): int {
    nowMs / 1000 + SessionLifetime
  }

  /** The ids of the sessions `userId` owns. */
  function SessionsOf(rows: map<string, RefreshToken>, userId: nat): set<string> {
    set id | id in rows && rows[id].userId == userId
  }

  /** The sessions of everyone except `userId`: what `deleteMany({ where: { userId } })` keeps. */
  function WithoutUser(rows: map<string, RefreshToken>, userId: nat): (kept: map<string, RefreshToken>)
    ensures SessionsOf(kept, userId) == {}
  {
    map id | id in rows && rows[id].userId != userId :: rows[id]
  }

  /** The table after the user's sessions were deleted and `created` was inserted. */
  function ReplaceSessions(rows: map<string, RefreshToken>, userId: nat, created: RefreshToken): map<string, RefreshToken> {
    WithoutUser(rows, userId)[created.id := created]
  }

  /** After a replacement the user owns exactly the fresh session. */
  lemma ReplaceLeavesOneSession(rows: map<string, RefreshToken>, userId: nat, created: RefreshToken)
    requires created.userId == userId
    ensures SessionsOf(ReplaceSessions(rows, userId, created), userId) == {created.id}
  {
    var after := ReplaceSessions(rows, userId, created);
    forall id | id in after && id != created.id ensures after[id].userId != userId {
      assert id in WithoutUser(rows, userId);
    }
  }

  /** Nobody else's sessions are touched, and nothing but the fresh session is added. */
  lemma ReplaceKeepsOthers(rows: map<string, RefreshToken>, userId: nat, created: RefreshToken, id: string)
    requires created.id !in rows
    ensures id in rows && rows[id].userId != userId ==>
      id in ReplaceSessions(rows, userId, created) && ReplaceSessions(rows, userId, created)[id] == rows[id]
    ensures id in ReplaceSessions(rows, userId, created) && id != created.id ==>
      id in rows && rows[id].userId != userId
  {
  }

  /** Logging in twice leaves only the second session: the first id is gone. */
  lemma ReplaceTwice(rows: map<string, RefreshToken>, userId: nat, first: RefreshToken, second: RefreshToken)
    requires first.userId == userId && second.userId == userId && first.id != second.id
    ensures SessionsOf(ReplaceSessions(ReplaceSessions(rows, userId, first), userId, second), userId) == {second.id}
    ensures first.id !in ReplaceSessions(ReplaceSessions(rows, userId, first), userId, second)
  {
    var once := ReplaceSessions(rows, userId, first);
    assert first.id in once && once[first.id].userId == userId;
    ReplaceLeavesOneSession(once, userId, second);
  }

  ghost function MaxLength(keys: set<string>): (m: nat)
    ensures forall k :: k in keys ==> |k| <= m
    decreases keys
  {
    if keys == {} then 0
    else
      var k :| k in keys;
      var rest := MaxLength(keys - {k});
      if |k| > rest then |k| else rest
  }

  /** There is always a non-empty id no session uses yet: the database's generated uuid. */
  lemma UnusedIdExists(keys: set<string>)
    ensures exists id :: id !in keys && id != ""
  {
    var longer := seq(MaxLength(keys) + 1, _ => 'a');
    assert longer !in keys;
  }

  /**
   * `execute(userId)` at Unix millisecond `nowMs`: deletes the user's sessions, then inserts
   * one under a non-empty id no session had (a uuid), expiring thirty days from now.
   */
  method Execute(sessions: RefreshTokenTable, userId: nat, nowMs: nat) returns (row: RefreshToken)
    requires sessions.Valid()
    modifies sessions
    ensures sessions.Valid()
    ensures row.userId == userId && row.expiresIn == SessionExpiry(nowMs)
    ensures row.id !in old(sessions.rows) && row.id != ""
    ensures sessions.rows == ReplaceSessions(old(sessions.rows), userId, row)
  {
    var before := sessions.rows;
    sessions.rows := WithoutUser(sessions.rows, userId);
    UnusedIdExists(before.Keys);
    var id :| id !in before && id != "";
    row := RefreshToken(id, userId, SessionExpiry(nowMs));
    sessions.rows := sessions.rows[id := row];
  }
}
