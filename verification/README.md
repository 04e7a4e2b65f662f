# Marble match lifecycle — a Dafny model

This project models the match engine of the marble-match bot
(`marble_match/utils/matches.py`). A match is a wagered challenge between a
challenger and a recipient. It lives in the `matches` table while it is open and
is archived into `match_history` once it is settled. The model covers:

- the `Match` record and its guarded setters. `active` and `accepted` write to the
  store first and change the object only if the store confirmed the write.
  `winner` accepts only a participant. `is_history` is a latch. `match_time` is
  in memory only;
- `create_history`, the settle transition. It inserts the archived row, then
  deletes the live row, and reports each failure as its own exception;
- `create_match`: insert, reject the "no id" answer, then read the match back;
- `get_match`: rebuild a match from one live or one archived row;
- `get_matches_all` / `get_matches`: list a user's live matches, all or nothing.

Files:

- `wrappers.dfy` holds `Option`.
- `store.dfy` holds the two tables (`Tables`), the two single-row reads, the effect
  of each store write and the `Store` class. Every store call takes an oracle: the
  success flag the store reports, or, for the insert, the id it hands back (0
  means failure). A read whose flag is false finds nothing.
- `matches.dfy` holds the engine: the `Match` class, the specification functions
  `ReadMatch`, `BuildRows`, `BuildAll` and `Settle`, and the lifecycle methods.
  Each method is proved against those functions.
- `properties.dfy` holds the lemmas that relate several calls, plus one whole
  lifecycle (`SettleScenario`).

The foreign pieces are inputs:

- the database writes are `Store` methods driven by oracles. The single-row reads
  `get_match_info_by_id` and `get_match_history_info` are the functions
  `MatchInfoById` and `MatchHistoryInfo`, which take a success flag (`readOk` in
  `GetMatch` and `CreateMatch`) and yield nothing when it is false;
- the account lookup (`acc.get_account_from_db`) is a partial map from account id
  to `Account`;
- `isinstance(ctx.channel, DMChannel)` is the boolean `isDm`;
- the rows that `get_match_info_all` returns are a parameter, and
  `RowsOfParticipant` says what a correct answer looks like. A failed read of that
  call is the empty `rows`, which the source treats the same way.

Behaviour the model keeps exactly as the code has it:

- A match read back from `match_history` is built with `active = True` and
  `accepted = True` (`matches.py:257`), not as "not active".
- `create_history` does not set `is_history` on the object. `CreateHistory` has
  no `modifies this`, so the flag is provably untouched.
- `create_match` never writes its `accepted` argument. The `matches` table has an
  accepted column (read at `matches.py:184` and `:283`), but the insert call
  (`matches.py:122-123`) passes no value for it.
- The default arguments are kept: `active` and `accepted` of `create_match`
  default to false, `history` of `get_match` defaults to false, and a `Match`
  is constructed without winner, without time and not flagged as history unless
  those are given.
- With no winner set, `create_history` evaluates `self._winner.id` on `None`, and
  Python raises before any store call. The model reports this as
  `Error.NoWinner` and leaves the store unchanged.

## Model

| member | source | states |
|---|---|---|
| `MatchStore.MatchInfoById` | marble_match/utils/matches.py:222 | `get_match_info_by_id` finds a row exactly when the read succeeds and the id is live; the row found is the one stored under that id, and in a keyed table it carries that id |
| `MatchStore.MatchHistoryInfo` | marble_match/utils/matches.py:220 | `get_match_history_info` finds a row exactly when the read succeeds and the id is archived; the row found is the one stored under that id, and in a keyed table it carries that id |
| `MatchStore.Store.UpdateMatchActivity` | marble_match/utils/matches.py:38 | returns the store's success flag; on success the live row's active column takes the new value; otherwise no table changes |
| `MatchStore.Store.UpdateMatchAccepted` | marble_match/utils/matches.py:54 | same contract as `UpdateMatchActivity`, for the accepted column |
| `MatchStore.Store.CreateMatch` | marble_match/utils/matches.py:122-123 | returns the id the store issued; when it is non-zero, a live row with that id, the amount, the active flag and both participant ids (not accepted) is inserted; when it is 0, nothing changes |
| `MatchStore.Store.CreateMatchHistory` | marble_match/utils/matches.py:103-104 | returns the store's success flag; on success the archived row (id, amount, challenger, recipient, winner, time) is inserted; otherwise nothing changes |
| `MatchStore.Store.DeleteMatch` | marble_match/utils/matches.py:107 | returns the store's success flag; on success the live row is removed; otherwise nothing changes |
| `Matches.Latch` | marble_match/utils/matches.py:84-89 | the new flag is true exactly when the current flag or the assigned value is; a set flag is never cleared |
| `Matches.FromLiveRow` | marble_match/utils/matches.py:283 | a match built from a live row is not history and has no winner and no time; when the lookup returns each participant under its own id, the match's live columns give back exactly the row |
| `Matches.FromHistoryRow` | marble_match/utils/matches.py:257 | a match built from an archived row is active, accepted, flagged as history and has a winner; when the lookup returns each account under its own id, archiving it again writes exactly the same row |
| `Matches.ArchivedRow` | marble_match/utils/matches.py:103-104 | when the winner is a participant, the archived row's winner id is the challenger's or the recipient's id |
| `Matches.Settle` | marble_match/utils/matches.py:100-114 | the outcome is success exactly when there is a winner and both writes succeed, and `UnableToDelete` exactly when there is a winner, the insert succeeds and the delete fails; the live table loses only this id and only on success; the archived row for this id is present after success or `UnableToDelete`; on `NoWinner` or `UnableToWrite` no table changes; no other archived row ever changes |
| `Matches.ReadMatch` | marble_match/utils/matches.py:198-291 | `get_match` yields a match exactly when the channel is not a DM, the read succeeds, the requested table has the row, and every referenced account resolves; a match read from history is flagged as history, is active and accepted, and has a winner; a live match has no winner and no time |
| `Matches.BuildRows` | marble_match/utils/matches.py:164-187 | the loop produces a list exactly when every row's challenger and recipient resolve; the list then has one match per row, in row order, each built from its own row |
| `Matches.BuildAll` | marble_match/utils/matches.py:155-195 | `get_matches_all` yields a list exactly when the store returned rows and all of them resolve, never a partial list; each listed match is live (not history) |
| `Matches.Match.constructor` | marble_match/utils/matches.py:17-27 | the object holds exactly the given field values; winner and time default to none and the history flag to false |
| `Matches.Match.SetActive` | marble_match/utils/matches.py:33-43 | on a confirmed write, the live row and the object's active flag both take the new value; on a failed write, `UnableToWrite` is raised and the object and the store are unchanged |
| `Matches.Match.SetAccepted` | marble_match/utils/matches.py:49-59 | same succeed-or-unchanged contract for the acceptance flag; no other field changes |
| `Matches.Match.SetWinner` | marble_match/utils/matches.py:65-73 | the winner changes only to the challenger or the recipient; any other candidate is silently ignored; no other field changes; the store is not touched; "winner is a participant" is preserved |
| `Matches.Match.SetIsHistory` | marble_match/utils/matches.py:79-89 | the flag becomes `Latch(old, assigned)`: it never goes from true to false, and from false it takes the assigned value; no other field changes |
| `Matches.Match.SetMatchTime` | marble_match/utils/matches.py:95-98 | only the match time changes, to the given value |
| `Matches.Match.CreateHistory` | marble_match/utils/matches.py:100-114 | the outcome and the new tables are those of `Settle` on the object's current values; the object itself, including `isHistory`, is not modified |
| `Matches.GetMatch` | marble_match/utils/matches.py:198-291 | returns a fresh match exactly when `ReadMatch` yields one, holding exactly `ReadMatch`'s values; reads the live table unless history is asked for |
| `Matches.CreateMatch` | marble_match/utils/matches.py:117-138 | inserts the live row when the store issued a non-zero id; raises `UnableToWrite` when the id is 0 or the read-back finds nothing; otherwise returns a fresh object equal to the live read-back of the new id; `active` and `accepted` default to false, and `accepted` is not written |
| `Matches.GetMatchesAll` | marble_match/utils/matches.py:141-195 | returns fresh objects exactly when `BuildAll` yields a list, one per row and equal to it element by element; otherwise returns nothing |
| `Matches.GetMatches` | marble_match/utils/matches.py:294-305 | passes `get_matches_all`'s result through unchanged |
| `MatchProperties.LatchTwiceIsOnce` | marble_match/utils/matches.py:84-89 | assigning true twice is the same as assigning it once, and the result is true |
| `MatchProperties.ArchivedRowReadsBack` | marble_match/utils/matches.py:231-265 | the row `create_history` inserts reads back as the same match, active, accepted and flagged as history |
| `MatchProperties.ArchiveWriteFailureChangesNothing` | marble_match/utils/matches.py:112-114 | if the history insert fails, the outcome is `UnableToWrite` (or `NoWinner` without a winner), the delete is never attempted, and both tables are unchanged |
| `MatchProperties.SettleWithoutWinnerChangesNothing` | marble_match/utils/matches.py:103-104 | a match with no winner cannot be archived, and the attempt changes no table |
| `MatchProperties.SettledMatchMovesToHistory` | marble_match/utils/matches.py:100-111 | a clean settle required both writes to succeed; afterwards the match reads back from history and no longer from the live table |
| `MatchProperties.DeleteFailureLeavesBothRows` | marble_match/utils/matches.py:105-109 | insert succeeded and delete failed: `UnableToDelete`, the live table is unchanged, the archived row is present and reads back as the settled match; the live read-back is unchanged, so when the id was live before, it is in both tables and reads back from both |
| `MatchProperties.SettleLeavesOtherMatches` | marble_match/utils/matches.py:100-114 | settling one match leaves every other id reading back exactly as before, live or archived |
| `MatchProperties.SettlePreservesTableInvariants` | marble_match/utils/matches.py:100-114 | every outcome keeps rows under their own ids; a clean settle keeps the live and archive tables disjoint |
| `MatchProperties.ActiveWriteKeepsObjectAndRowInStep` | marble_match/utils/matches.py:38-39 | after a confirmed active write, the live row reads back with the new flag, so object and row still agree |
| `MatchProperties.AcceptedWriteKeepsObjectAndRowInStep` | marble_match/utils/matches.py:54-55 | the same for the acceptance flag |
| `MatchProperties.CreatedMatchReadsBack` | marble_match/utils/matches.py:122-138 | when both participants resolve to themselves, the inserted row reads back as the requested match: given amount, participants and activity; not accepted; no winner; not history |
| `MatchProperties.CreatedMatchLostWhenReadBackFails` | marble_match/utils/matches.py:210-230 | in a DM channel, or when the store read fails, the read-back finds nothing although the row was inserted, so `create_match` raises and leaves the row behind |
| `MatchProperties.ListingIsExactlyParticipantMatches` | marble_match/utils/matches.py:155-195 | when the listing succeeds, its ids are exactly the user's live matches, whatever the row order, and it has exactly as many entries as the user has live matches, so none is listed twice; each one is live and involves the user |
| `MatchProperties.ListingFailsOnlyWithoutMatches` | marble_match/utils/matches.py:159-162 | when every participant resolves, the listing comes back empty-handed exactly when the user has no live match |
| `MatchProperties.SettleScenario` | marble_match/utils/matches.py:33-138 | create a 50-marble match, accept it, close it, name the challenger winner, stamp it and settle it: the outcome is success, the match reads back from history with those values, and it is gone from the live table |

## Left out

- The SQL behind `database_operation.*` is left out: each write is a `Store` method whose reported success (or issued id) is an oracle, and each single-row read takes a success flag. A store read error cannot be told apart from a missing row, as in the source.
- `Store.CreateMatchHistory`: the tables hold one row per id, so a successful insert under an id that is already archived replaces the earlier archived row. The real table's key constraint is not part of this model: the store might reject such an insert or append a second row, but it never rewrites one. So in the model, retrying a settle after `UnableToDelete` ends in `Pass` with the newer winner and time, where the source would attempt a duplicate archive insert.
- `Store.CreateMatch`: in the same way, an insert whose issued id is already live replaces that live row. The store's id allocation is the oracle `issuedId`, and the model does not constrain it to fresh ids.
- `Store.CreateMatch`: the insert passes no acceptance value, and the model fixes the new row's `accepted` column to false. What the real table defaults it to is not part of this model.
- The global connection `DbHandler.db_cnc` is left out: the store is passed explicitly.
- Logging calls are left out.
- The Discord context is left out. It is reduced to one boolean, "the channel is a DM", and to the account map that stands for the lookup through `utils/account.py`. That file is not part of this model: accounts are compared as values.
- `datetime` is left out: a match time is an opaque `Time`.
- The `match_id` argument of `create_match` is left out. It only goes to the store, whose answer (`issuedId`) is the oracle.
- `get_match_info_all` is left out: its answer is the `rows` parameter. `RowsOfParticipant` states what a correct answer is (each of the user's live rows once); a failed read is the empty answer.
- The `user2` and `history` arguments of `get_matches_all` are left out because the source ignores them.
- The `isinstance(match, int)` checks after constructing a `Match` and the final empty-list check in `get_matches_all` are left out. Neither can fire.
- The store returns integer columns for `active`/`accepted`; the model uses booleans.
- The ordering methods that `@dataclass(order=True)` generates are left out.
- `marble_match/cogs/stats.py` (win-rate reporting with floating point and message formatting) and `marble_match/cogs/debug.py` (debug commands over raw store calls) are not modelled.
- The rule "a match id is in one table only" is not enforced by the source for objects, and the model does not claim it. `SettlePreservesTableInvariants` proves it for the tables after a clean settle. `DeleteFailureLeavesBothRows` shows the state in which it is broken.
