/**
  The match lifecycle engine: the `Match` entity with its guarded setters, the
  settle transition that moves a match from `matches` to `match_history`, and the
  free operations that create, reconstruct and list matches.

  External collaborators appear as inputs: the store as a `Store` whose writes take
  a success oracle, the account lookup as a partial map from account id to
  `Account`, and "the command came from a direct-message channel" as a boolean.
 */
module Matches {
  import opened Wrappers
  import opened MatchStore

  /** A participant as the account lookup returns it; the engine only compares accounts and reads their ids. */
  datatype Account = Account(id: int, name: string)

  /** The values held by a `Match` object, field for field. */
  datatype MatchRecord = MatchRecord(
    id: int,
    amount: int,
    active: bool,
    challenger: Account,
    recipient: Account,
    accepted: bool,
    winner: Option<Account>,
    matchTime: Option<Time>,
    isHistory: bool)

  /** The exceptions the engine raises. */
  datatype Error =
    | UnableToWrite
    | UnableToDelete
      /** `create_history` dereferences the winner's id; with no winner set Python raises before any store call. */
    | NoWinner

  /** Outcome of a call that either returns normally or raises. */
  datatype Outcome = Pass | Fail(error: Error)

  /** Outcome of a call that either returns a value or raises. */
  datatype Result<T> = Ok(value: T) | Err(error: Error)

  /** The winner, if any, is one of the two participants. */
  predicate WinnerValid(m: MatchRecord) {
    m.winner.Some? ==> m.winner.value == m.challenger || m.winner.value == m.recipient
  }

  /** The `is_history` flag after assigning `newValue` to a flag that was `current`. */
  function Latch(current: bool, newValue: bool): (r: bool)
    ensures r <==> current || newValue
  {
    if current then current else newValue
  }

  // ---------------------------------------------------------------------------
  // Reconstruction from store rows

  predicate LiveRowResolves(row: LiveRow, accounts: map<int, Account>) {
    row.challengerId in accounts && row.recipientId in accounts
  }

  predicate HistoryRowResolves(row: HistoryRow, accounts: map<int, Account>) {
    row.challengerId in accounts && row.recipientId in accounts && row.winnerId in accounts
  }

  /** The live row whose columns hold `m`. */
  function LiveRowOf(m: MatchRecord): LiveRow {
    LiveRow(m.id, m.amount, m.active, m.challenger.id, m.recipient.id, m.accepted)
  }

  /**
    The match built from a live row: active from column 2, accepted from column 5, no
    winner, no time. When the lookup returns each account under its own id, nothing
    in the row is lost.
   */
  function FromLiveRow(row: LiveRow, accounts: map<int, Account>): (r: MatchRecord)
    requires LiveRowResolves(row, accounts)
    ensures !r.isHistory && r.winner.None? && r.matchTime.None?
    ensures accounts[row.challengerId].id == row.challengerId && accounts[row.recipientId].id == row.recipientId
            ==> LiveRowOf(r) == row
  {
    MatchRecord(row.id, row.amount, row.active, accounts[row.challengerId], accounts[row.recipientId],
                row.accepted, None, None, false)
  }

  /**
    The match built from an archived row: active and accepted both set, flagged as
    history. When the lookup returns each account under its own id, archiving the
    result writes back the same row.
   */
  function FromHistoryRow(row: HistoryRow, accounts: map<int, Account>): (r: MatchRecord)
    requires HistoryRowResolves(row, accounts)
    ensures r.isHistory && r.active && r.accepted && r.winner.Some?
    ensures && accounts[row.challengerId].id == row.challengerId
            && accounts[row.recipientId].id == row.recipientId
            && accounts[row.winnerId].id == row.winnerId
            ==> ArchivedRow(r) == row
  {
    MatchRecord(row.id, row.amount, true, accounts[row.challengerId], accounts[row.recipientId],
                true, Some(accounts[row.winnerId]), row.matchTime, true)
  }

  /**
    What `get_match` yields: nothing in a direct-message channel, when the read of the
    requested table fails (`readOk` false) or finds no row for `id`, or when a
    participant (or, for history, the winner) does not resolve; otherwise the
    reconstructed match, flagged by the table it came from.
   */
  function ReadMatch(t: Tables, accounts: map<int, Account>, isDm: bool, readOk: bool, id: int, fromHistory: bool)
    : (r: Option<MatchRecord>)
    ensures r.Some? <==> !isDm && readOk && if fromHistory
                                  then id in t.history && HistoryRowResolves(t.history[id], accounts)
                                  else id in t.live && LiveRowResolves(t.live[id], accounts)
    ensures r.Some? ==> r.value.isHistory == fromHistory
    ensures r.Some? && fromHistory ==> r.value.winner.Some? && r.value.active && r.value.accepted
    ensures r.Some? && !fromHistory ==> r.value.winner.None? && r.value.matchTime.None?
  {
    if isDm then None
    else if fromHistory then
      match MatchHistoryInfo(t, id, readOk)
      case None => None
      case Some(row) => if HistoryRowResolves(row, accounts) then Some(FromHistoryRow(row, accounts)) else None
    else
      match MatchInfoById(t, id, readOk)
      case None => None
      case Some(row) => if LiveRowResolves(row, accounts) then Some(FromLiveRow(row, accounts)) else None
  }

  /** One reconstructed match per row, in row order, or nothing as soon as one row does not resolve. */
  function BuildRows(rows: seq<LiveRow>, accounts: map<int, Account>): (r: Option<seq<MatchRecord>>)
    ensures r.Some? <==> forall i :: 0 <= i < |rows| ==> LiveRowResolves(rows[i], accounts)
    ensures r.Some? ==> |r.value| == |rows|
    ensures r.Some? ==> forall i :: 0 <= i < |rows| ==> r.value[i] == FromLiveRow(rows[i], accounts)
  {
    if rows == [] then Some([])
    else if !LiveRowResolves(rows[0], accounts) then None
    else
      match BuildRows(rows[1..], accounts)
      case None => None
      case Some(rest) => Some([FromLiveRow(rows[0], accounts)] + rest)
  }

  /**
    What `get_matches_all` yields for the rows the store returned: nothing when there
    are no rows or when any participant fails to resolve, never a partial list.
   */
  function BuildAll(rows: seq<LiveRow>, accounts: map<int, Account>): (r: Option<seq<MatchRecord>>)
    ensures r.Some? <==> rows != [] && forall i :: 0 <= i < |rows| ==> LiveRowResolves(rows[i], accounts)
    ensures r.Some? ==> |r.value| == |rows|
    ensures r.Some? ==> forall i :: 0 <= i < |rows| ==> r.value[i] == FromLiveRow(rows[i], accounts) && !r.value[i].isHistory
  {
    if rows == [] then None else BuildRows(rows, accounts)
  }

  // ---------------------------------------------------------------------------
  // Settlement

  /** The archived row `create_history` writes for a match with a winner. */
  function ArchivedRow(m: MatchRecord): (r: HistoryRow)
    requires m.winner.Some?
    ensures WinnerValid(m) ==> r.winnerId == r.challengerId || r.winnerId == r.recipientId
  {
    HistoryRow(m.id, m.amount, m.challenger.id, m.recipient.id, m.winner.value.id, m.matchTime)
  }

  datatype Settlement = Settlement(outcome: Outcome, tables: Tables)

  /**
    The settle transition on the tables: insert the archived row, and only if that
    succeeded delete the live row; each failure is reported as its own error.
   */
  function Settle(t: Tables, m: MatchRecord, insertOk: bool, deleteOk: bool): (r: Settlement)
    ensures r.outcome == Pass <==> m.winner.Some? && insertOk && deleteOk
    ensures r.outcome == Fail(UnableToDelete) <==> m.winner.Some? && insertOk && !deleteOk
    ensures r.outcome != Pass ==> r.tables.live == t.live
    ensures r.outcome == Pass ==> r.tables.live == t.live - {m.id}
    ensures r.outcome == Pass || r.outcome == Fail(UnableToDelete)
            ==> m.id in r.tables.history && r.tables.history[m.id] == ArchivedRow(m)
    ensures r.outcome != Pass && r.outcome != Fail(UnableToDelete) ==> r.tables == t
    ensures r.tables.history - {m.id} == t.history - {m.id}
  {
    if m.winner.None? then Settlement(Fail(NoWinner), t)
    else if !insertOk then Settlement(Fail(UnableToWrite), t)
    else
      var archived := WithHistoryRow(t, ArchivedRow(m));
      if !deleteOk then Settlement(Fail(UnableToDelete), archived)
      else Settlement(Pass, WithoutLiveRow(archived, m.id))
  }

  // ---------------------------------------------------------------------------
  // The Match entity

  class Match {
    const id: int
    const amount: int
    var active: bool
    const challenger: Account
    const recipient: Account
    var accepted: bool
    var winner: Option<Account>
    var matchTime: Option<Time>
    var isHistory: bool

    function Snapshot(): MatchRecord
      reads this
    {
      MatchRecord(id, amount, active, challenger, recipient, accepted, winner, matchTime, isHistory)
    }

    constructor (id: int, amount: int, active: bool, challenger: Account, recipient: Account, accepted: bool,
                 winner: Option<Account> := None, matchTime: Option<Time> := None, isHistory: bool := false)
      ensures Snapshot() == MatchRecord(id, amount, active, challenger, recipient, accepted, winner, matchTime, isHistory)
    {
      this.id := id;
      this.amount := amount;
      this.active := active;
      this.challenger := challenger;
      this.recipient := recipient;
      this.accepted := accepted;
      this.winner := winner;
      this.matchTime := matchTime;
      this.isHistory := isHistory;
    }

    /** The `active` setter: persist first, and change the field only if the store confirmed the write. */
    method SetActive(db: Store, activity: bool, writeOk: bool) returns (r: Outcome)
      modifies this, db
      ensures r == if writeOk then Pass else Fail(UnableToWrite)
      ensures db.State() == if writeOk then WithActivity(old(db.State()), id, activity) else old(db.State())
      ensures Snapshot() == if writeOk then old(Snapshot()).(active := activity) else old(Snapshot())
    {
      var written := db.UpdateMatchActivity(id, activity, writeOk);
      if written {
        active := activity;
        r := Pass;
      } else {
        r := Fail(UnableToWrite);
      }
    }

    /** The `accepted` setter: persist first, and change the field only if the store confirmed the write. */
    method SetAccepted(db: Store, accepted: bool, writeOk: bool) returns (r: Outcome)
      modifies this, db
      ensures r == if writeOk then Pass else Fail(UnableToWrite)
      ensures db.State() == if writeOk then WithAccepted(old(db.State()), id, accepted) else old(db.State())
      ensures Snapshot() == if writeOk then old(Snapshot()).(accepted := accepted) else old(Snapshot())
    {
      var written := db.UpdateMatchAccepted(id, accepted, writeOk);
      if written {
        this.accepted := accepted;
        r := Pass;
      } else {
        r := Fail(UnableToWrite);
      }
    }

    /** The `winner` setter: takes a participant, silently ignores anyone else, never touches the store. */
    method SetWinner(candidate: Account)
      modifies this
      ensures winner == if candidate == challenger || candidate == recipient then Some(candidate) else old(winner)
      ensures Snapshot() == old(Snapshot()).(winner := winner)
      ensures WinnerValid(old(Snapshot())) ==> WinnerValid(Snapshot())
    {
      if candidate == challenger || candidate == recipient {
        winner := Some(candidate);
      }
    }

    /** The `is_history` setter: a latch that ignores every assignment once it is set. */
    method SetIsHistory(history: bool)
      modifies this
      ensures isHistory == Latch(old(isHistory), history)
      ensures old(isHistory) ==> isHistory
      ensures Snapshot() == old(Snapshot()).(isHistory := isHistory)
    {
      if isHistory {
        return;
      }
      isHistory := history;
    }

    /** The `match_time` setter: unconditional, in memory only. */
    method SetMatchTime(time: Option<Time>)
      modifies this
      ensures Snapshot() == old(Snapshot()).(matchTime := time)
    {
      matchTime := time;
    }

    /**
      `create_history`: archive, then delete the live row. The object itself is not
      changed, so its `isHistory` flag stays as it was whatever the outcome.
     */
    method CreateHistory(db: Store, insertOk: bool, deleteOk: bool) returns (r: Outcome)
      modifies db
      ensures Settlement(r, db.State()) == Settle(old(db.State()), Snapshot(), insertOk, deleteOk)
    {
      if winner.None? {
        return Fail(NoWinner);
      }
      var wrote := db.CreateMatchHistory(id, amount, challenger.id, recipient.id, winner.value.id, matchTime, insertOk);
      if wrote {
        var deleted := db.DeleteMatch(id, deleteOk);
        if !deleted {
          return Fail(UnableToDelete);
        }
        return Pass;
      } else {
        return Fail(UnableToWrite);
      }
    }
  }

  /** The snapshots of `ms` are `recs`, one for one. */
  ghost predicate Reconstructs(ms: seq<Match>, recs: seq<MatchRecord>)
    reads ms
  {
    |ms| == |recs| && forall i :: 0 <= i < |ms| ==> ms[i].Snapshot() == recs[i]
  }

  // ---------------------------------------------------------------------------
  // Lifecycle operations

  /**
    `get_match`: read one row from the live or the archive table and resolve its
    participants. `isDm` stands for the command arriving in a direct-message channel;
    `readOk` says whether the store read succeeds.
   */
  method GetMatch(db: Store, accounts: map<int, Account>, isDm: bool, readOk: bool, matchId: int,
                  fromHistory: bool := false)
    returns (r: Option<Match>)
    ensures r.Some? <==> ReadMatch(db.State(), accounts, isDm, readOk, matchId, fromHistory).Some?
    ensures r.Some? ==> fresh(r.value) && r.value.Snapshot() == ReadMatch(db.State(), accounts, isDm, readOk, matchId, fromHistory).value
  {
    if isDm {
      return None;
    }
    if fromHistory {
      var found := MatchHistoryInfo(db.State(), matchId, readOk);
      if found.None? {
        return None;
      }
      var info := found.value;
      if info.challengerId !in accounts {
        return None;
      }
      var challenger := accounts[info.challengerId];
      if info.recipientId !in accounts {
        return None;
      }
      var recipient := accounts[info.recipientId];
      if info.winnerId !in accounts {
        return None;
      }
      var winner := accounts[info.winnerId];
      var m := new Match(info.id, info.amount, true, challenger, recipient, true, Some(winner), info.matchTime, true);
      return Some(m);
    } else {
      var found := MatchInfoById(db.State(), matchId, readOk);
      if found.None? {
        return None;
      }
      var info := found.value;
      if info.challengerId !in accounts {
        return None;
      }
      var challenger := accounts[info.challengerId];
      if info.recipientId !in accounts {
        return None;
      }
      var recipient := accounts[info.recipientId];
      var m := new Match(info.id, info.amount, info.active, challenger, recipient, info.accepted, None, None, false);
      return Some(m);
    }
  }

  /**
    `create_match`: insert a live row (the store answers with the new id, `issuedId`,
    0 meaning failure), then reconstruct the match from the store (`readOk` says
    whether that read succeeds). The `accepted` argument is accepted and never written.
   */
  method CreateMatch(db: Store, accounts: map<int, Account>, isDm: bool, issuedId: int, readOk: bool,
                     amount: int, challenger: Account, recipient: Account,
                     active: bool := false, accepted: bool := false)
    returns (r: Result<Match>)
    modifies db
    ensures db.State() == if issuedId != 0
                          then WithLiveRow(old(db.State()), LiveRow(issuedId, amount, active, challenger.id, recipient.id, false))
                          else old(db.State())
    ensures r.Err? ==> r.error == UnableToWrite
    ensures r.Ok? <==> issuedId != 0 && ReadMatch(db.State(), accounts, isDm, readOk, issuedId, false).Some?
    ensures r.Ok? ==> fresh(r.value) && r.value.Snapshot() == ReadMatch(db.State(), accounts, isDm, readOk, issuedId, false).value
  {
    var matchId := db.CreateMatch(amount, active, challenger.id, recipient.id, issuedId);
    if matchId == 0 {
      return Err(UnableToWrite);
    }
    var m := GetMatch(db, accounts, isDm, readOk, matchId);
    if m.None? {
      return Err(UnableToWrite);
    }
    return Ok(m.value);
  }

  /**
    `get_matches_all`: `rows` is what the store returned for the user's live matches.
    Builds one match per row in order and gives up with nothing on the first
    participant that does not resolve.
   */
  method GetMatchesAll(rows: seq<LiveRow>, accounts: map<int, Account>) returns (r: Option<seq<Match>>)
    ensures r.Some? <==> BuildAll(rows, accounts).Some?
    ensures r.Some? ==> Reconstructs(r.value, BuildAll(rows, accounts).value)
    ensures r.Some? ==> forall i :: 0 <= i < |r.value| ==> fresh(r.value[i])
  {
    if |rows| == 0 {
      return None;
    }
    var matchList: seq<Match> := [];
    for i := 0 to |rows|
      invariant |matchList| == i
      invariant forall k :: 0 <= k < i ==> LiveRowResolves(rows[k], accounts)
      invariant forall k :: 0 <= k < i ==> fresh(matchList[k]) && matchList[k].Snapshot() == FromLiveRow(rows[k], accounts)
    {
      var row := rows[i];
      if row.challengerId !in accounts {
        return None;
      }
      var challenger := accounts[row.challengerId];
      if row.recipientId !in accounts {
        return None;
      }
      var recipient := accounts[row.recipientId];
      var m := new Match(row.id, row.amount, row.active, challenger, recipient, row.accepted, None, None, false);
      matchList := matchList + [m];
    }
    return Some(matchList);
  }

  /** `get_matches`: the listing for a user, passed through unchanged. */
  method GetMatches(rows: seq<LiveRow>, accounts: map<int, Account>) returns (r: Option<seq<Match>>)
    ensures r.Some? <==> BuildAll(rows, accounts).Some?
    ensures r.Some? ==> Reconstructs(r.value, BuildAll(rows, accounts).value)
    ensures r.Some? ==> forall i :: 0 <= i < |r.value| ==> fresh(r.value[i])
  {
    var matchList := GetMatchesAll(rows, accounts);
    if matchList.None? {
      return None;
    }
    return matchList;
  }
}
