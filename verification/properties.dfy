/**
  What the lifecycle engine guarantees across calls: the three outcomes of
  settling, the read-back of a created match, the guarded setters keeping the
  object and its live row in step, the `is_history` latch, and the listing
  returning exactly a participant's live matches.
 */
module MatchProperties {
  import opened Wrappers
  import opened MatchStore
  import opened Matches

  /** The account lookup gives `a` back for its own id. */
  predicate Resolved(accounts: map<int, Account>, a: Account) {
    a.id in accounts && accounts[a.id] == a
  }

  /** What reading a settled match back from `match_history` gives. */
  function AsArchived(m: MatchRecord): MatchRecord {
    m.(active := true, accepted := true, isHistory := true)
  }

  // ---------------------------------------------------------------------------
  // The is_history latch

  /** Assigning true twice is the same as assigning it once. */
  lemma LatchTwiceIsOnce(current: bool)
    ensures Latch(Latch(current, true), true) == Latch(current, true) == true
  {
  }

  // ---------------------------------------------------------------------------
  // Settlement

  /** Reading back the archived row gives the settled match, closed and flagged as history. */
  lemma ArchivedRowReadsBack(t: Tables, accounts: map<int, Account>, m: MatchRecord)
    requires m.winner.Some? && WinnerValid(m)
    requires Resolved(accounts, m.challenger) && Resolved(accounts, m.recipient)
    ensures ReadMatch(WithHistoryRow(t, ArchivedRow(m)), accounts, false, true, m.id, true) == Some(AsArchived(m))
  {
  }

  /** A failed archive insert (or a missing winner) leaves both tables exactly as they were. */
  lemma ArchiveWriteFailureChangesNothing(t: Tables, m: MatchRecord, deleteOk: bool)
    ensures Settle(t, m, false, deleteOk).tables == t
    ensures Settle(t, m, false, deleteOk).outcome == Fail(if m.winner.None? then NoWinner else UnableToWrite)
  {
  }

  /** A match with no winner cannot be settled, and the attempt changes nothing. */
  lemma SettleWithoutWinnerChangesNothing(t: Tables, m: MatchRecord, insertOk: bool, deleteOk: bool)
    requires m.winner.None?
    ensures Settle(t, m, insertOk, deleteOk) == Settlement(Fail(NoWinner), t)
  {
  }

  /**
    A clean settle: the match reads back from the archive and is gone from the live
    table.
   */
  lemma SettledMatchMovesToHistory(t: Tables, accounts: map<int, Account>, isDm: bool, readOk: bool,
                                   m: MatchRecord, insertOk: bool, deleteOk: bool)
    requires Settle(t, m, insertOk, deleteOk).outcome == Pass
    requires WinnerValid(m) && Resolved(accounts, m.challenger) && Resolved(accounts, m.recipient)
    ensures insertOk && deleteOk && m.winner.Some?
    ensures ReadMatch(Settle(t, m, insertOk, deleteOk).tables, accounts, false, true, m.id, true) == Some(AsArchived(m))
    ensures ReadMatch(Settle(t, m, insertOk, deleteOk).tables, accounts, isDm, readOk, m.id, false) == None
  {
  }

  /**
    Archive insert succeeded, delete failed: reported as `UnableToDelete`, the live
    row is untouched and the archived row exists beside it.
   */
  lemma DeleteFailureLeavesBothRows(t: Tables, accounts: map<int, Account>, isDm: bool, readOk: bool, m: MatchRecord)
    requires m.winner.Some? && WinnerValid(m)
    requires Resolved(accounts, m.challenger) && Resolved(accounts, m.recipient)
    ensures Settle(t, m, true, false).outcome == Fail(UnableToDelete)
    ensures Settle(t, m, true, false).tables.live == t.live
    ensures m.id in t.live ==> !Disjoint(Settle(t, m, true, false).tables)
    ensures ReadMatch(Settle(t, m, true, false).tables, accounts, isDm, readOk, m.id, false)
         == ReadMatch(t, accounts, isDm, readOk, m.id, false)
    ensures ReadMatch(Settle(t, m, true, false).tables, accounts, false, true, m.id, true) == Some(AsArchived(m))
  {
  }

  /** Settling one match leaves every other match, live or archived, reading back as before. */
  lemma SettleLeavesOtherMatches(t: Tables, accounts: map<int, Account>, isDm: bool, readOk: bool, m: MatchRecord,
                                 insertOk: bool, deleteOk: bool, other: int, fromHistory: bool)
    requires other != m.id
    ensures ReadMatch(Settle(t, m, insertOk, deleteOk).tables, accounts, isDm, readOk, other, fromHistory)
         == ReadMatch(t, accounts, isDm, readOk, other, fromHistory)
  {
  }

  /** A clean settle keeps rows under their own ids and keeps the two tables apart. */
  lemma SettlePreservesTableInvariants(t: Tables, m: MatchRecord, insertOk: bool, deleteOk: bool)
    requires Keyed(t) && Disjoint(t)
    ensures Keyed(Settle(t, m, insertOk, deleteOk).tables)
    ensures Settle(t, m, insertOk, deleteOk).outcome == Pass ==> Disjoint(Settle(t, m, insertOk, deleteOk).tables)
  {
  }

  // ---------------------------------------------------------------------------
  // Guarded setters and the store

  /**
    After a confirmed `active` write the live row reads back with the new flag, so an
    object that agreed with its row before `SetActive` still agrees with it after.
   */
  lemma ActiveWriteKeepsObjectAndRowInStep(t: Tables, accounts: map<int, Account>, isDm: bool, readOk: bool, id: int,
                                           s: MatchRecord, activity: bool)
    requires ReadMatch(t, accounts, isDm, readOk, id, false) == Some(s)
    ensures ReadMatch(WithActivity(t, id, activity), accounts, isDm, readOk, id, false) == Some(s.(active := activity))
  {
  }

  /** The same for a confirmed `accepted` write. */
  lemma AcceptedWriteKeepsObjectAndRowInStep(t: Tables, accounts: map<int, Account>, isDm: bool, readOk: bool, id: int,
                                             s: MatchRecord, accepted: bool)
    requires ReadMatch(t, accounts, isDm, readOk, id, false) == Some(s)
    ensures ReadMatch(WithAccepted(t, id, accepted), accounts, isDm, readOk, id, false) == Some(s.(accepted := accepted))
  {
  }

  // ---------------------------------------------------------------------------
  // Creation

  /**
    The row `create_match` inserts reads back as the requested match: the given
    amount, participants and activity, not accepted, no winner, not history. Outside
    a direct-message channel this is what `CreateMatch` returns.
   */
  lemma CreatedMatchReadsBack(t: Tables, accounts: map<int, Account>, amount: int,
                              challenger: Account, recipient: Account, active: bool, issuedId: int)
    requires Resolved(accounts, challenger) && Resolved(accounts, recipient)
    ensures ReadMatch(WithLiveRow(t, LiveRow(issuedId, amount, active, challenger.id, recipient.id, false)),
                      accounts, false, true, issuedId, false)
         == Some(MatchRecord(issuedId, amount, active, challenger, recipient, false, None, None, false))
  {
  }

  /**
    In a direct-message channel, or when the store read fails, the read-back finds
    nothing, so `create_match` raises although the row was inserted.
   */
  lemma CreatedMatchLostWhenReadBackFails(t: Tables, accounts: map<int, Account>, isDm: bool, readOk: bool,
                                          row: LiveRow)
    requires isDm || !readOk
    ensures row.id in WithLiveRow(t, row).live
    ensures ReadMatch(WithLiveRow(t, row), accounts, isDm, readOk, row.id, false) == None
  {
  }

  // ---------------------------------------------------------------------------
  // Listing

  predicate Involves(row: LiveRow, userId: int) {
    row.challengerId == userId || row.recipientId == userId
  }

  /** The ids of the live matches in which `userId` takes part. */
  ghost function ParticipantMatchIds(t: Tables, userId: int): set<int> {
    set id | id in t.live && Involves(t.live[id], userId)
  }

  /** The ids of a list of rows. */
  ghost function RowIds(rows: seq<LiveRow>): set<int> {
    set i | 0 <= i < |rows| :: rows[i].id
  }

  /** No two rows carry the same id. */
  ghost predicate DistinctIds(rows: seq<LiveRow>) {
    forall i, j :: 0 <= i < j < |rows| ==> rows[i].id != rows[j].id
  }

  /**
    `rows` is an answer of the store to "the live matches of `userId`": each of them
    once, in any order.
   */
  ghost predicate RowsOfParticipant(t: Tables, userId: int, rows: seq<LiveRow>) {
    && (forall i :: 0 <= i < |rows| ==> rows[i].id in t.live && t.live[rows[i].id] == rows[i])
    && DistinctIds(rows)
    && RowIds(rows) == ParticipantMatchIds(t, userId)
  }

  /** Rows with pairwise distinct ids have as many ids as rows. */
  lemma {:induction false} DistinctIdsCount(rows: seq<LiveRow>)
    requires DistinctIds(rows)
    ensures |RowIds(rows)| == |rows|
  {
    if rows != [] {
      var tail := rows[1..];
      assert DistinctIds(tail) by {
        forall i, j | 0 <= i < j < |tail|
          ensures tail[i].id != tail[j].id
        {
          assert tail[i] == rows[i + 1] && tail[j] == rows[j + 1];
        }
      }
      DistinctIdsCount(tail);
      assert RowIds(rows) == {rows[0].id} + RowIds(tail) by {
        forall id | id in RowIds(rows)
          ensures id in {rows[0].id} + RowIds(tail)
        {
          var i :| 0 <= i < |rows| && rows[i].id == id;
          if i > 0 {
            assert tail[i - 1] == rows[i];
          }
        }
        forall id | id in RowIds(tail)
          ensures id in RowIds(rows)
        {
          var i :| 0 <= i < |tail| && tail[i].id == id;
          assert rows[i + 1] == tail[i];
        }
      }
      assert rows[0].id !in RowIds(tail) by {
        forall i | 0 <= i < |tail|
          ensures tail[i].id != rows[0].id
        {
          assert tail[i] == rows[i + 1];
        }
      }
    }
  }

  /**
    When the listing succeeds it holds exactly the user's live matches, whatever order
    the store returned them in, each one a live (not history) match.
   */
  lemma ListingIsExactlyParticipantMatches(t: Tables, userId: int, rows: seq<LiveRow>, accounts: map<int, Account>)
    requires RowsOfParticipant(t, userId, rows)
    requires BuildAll(rows, accounts).Some?
    ensures var ms := BuildAll(rows, accounts).value;
            (set i | 0 <= i < |ms| :: ms[i].id) == ParticipantMatchIds(t, userId)
    ensures |BuildAll(rows, accounts).value| == |ParticipantMatchIds(t, userId)|
    ensures var ms := BuildAll(rows, accounts).value;
            forall i :: 0 <= i < |ms| ==> !ms[i].isHistory && ms[i].id in t.live && Involves(t.live[ms[i].id], userId)
  {
    var ms := BuildAll(rows, accounts).value;
    var listed := set i | 0 <= i < |ms| :: ms[i].id;
    forall id | id in listed
      ensures id in RowIds(rows)
    {
      var i :| 0 <= i < |ms| && ms[i].id == id;
      assert ms[i].id == rows[i].id;
    }
    forall id | id in RowIds(rows)
      ensures id in listed
    {
      var i :| 0 <= i < |rows| && rows[i].id == id;
      assert ms[i].id == id;
    }
    forall i | 0 <= i < |ms|
      ensures Involves(t.live[ms[i].id], userId)
    {
      assert ms[i].id == rows[i].id && rows[i].id in RowIds(rows);
    }
    DistinctIdsCount(rows);
  }

  /** With every participant resolvable, the listing is empty-handed only when the user has no live match. */
  lemma ListingFailsOnlyWithoutMatches(t: Tables, userId: int, rows: seq<LiveRow>, accounts: map<int, Account>)
    requires RowsOfParticipant(t, userId, rows)
    requires forall id :: id in t.live ==> LiveRowResolves(t.live[id], accounts)
    ensures BuildAll(rows, accounts).None? <==> ParticipantMatchIds(t, userId) == {}
  {
    if rows != [] {
      assert rows[0].id in RowIds(rows);
    } else {
      assert RowIds(rows) == {};
    }
  }

  // ---------------------------------------------------------------------------
  // A whole lifecycle

  /** The values held by an optional match object. */
  function SnapshotOf(r: Option<Match>): Option<MatchRecord>
    reads if r.Some? then {r.value} else {}
  {
    if r.Some? then Some(r.value.Snapshot()) else None
  }

  /**
    Create match 7 for 50 between two accounts, accept it, close it, name the
    challenger winner, stamp it and settle it: it then reads back from the archive
    with those values and no longer from the live table.
   */
  method SettleScenario() returns (outcome: Outcome, archived: Option<MatchRecord>, stillLive: Option<MatchRecord>)
    ensures outcome == Pass
    ensures archived == Some(MatchRecord(7, 50, true, Account(1, "ada"), Account(2, "bo"), true,
                                         Some(Account(1, "ada")), Some(Time(1000)), true))
    ensures stillLive == None
  {
    var ada, bo := Account(1, "ada"), Account(2, "bo");
    var accounts := map[1 := ada, 2 := bo];
    var db := new Store();
    CreatedMatchReadsBack(db.State(), accounts, 50, ada, bo, false, 7);
    var created := CreateMatch(db, accounts, false, 7, true, 50, ada, bo);
    assert created.Ok?;
    var m := created.value;
    var accepted := m.SetAccepted(db, true, true);
    var closed := m.SetActive(db, false, true);
    m.SetWinner(ada);
    m.SetMatchTime(Some(Time(1000)));
    assert m.Snapshot() == MatchRecord(7, 50, false, ada, bo, true, Some(ada), Some(Time(1000)), false);
    ghost var beforeSettle := db.State();
    outcome := m.CreateHistory(db, true, true);
    SettledMatchMovesToHistory(beforeSettle, accounts, false, true, m.Snapshot(), true, true);
    var fromHistory := GetMatch(db, accounts, false, true, 7, fromHistory := true);
    var fromLive := GetMatch(db, accounts, false, true, 7);
    archived := SnapshotOf(fromHistory);
    stillLive := SnapshotOf(fromLive);
  }
}
