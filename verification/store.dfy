/**
  The persistent store behind the match engine: the live `matches` table and the
  archived `match_history` table. The SQL behind each call is not part of this
  model; every write instead takes an oracle saying whether the store reported
  success, and on success has the effect on the two tables stated here.
 */
module MatchStore {
  import opened Wrappers

  /** An opaque timestamp; the engine only stores it and reads it back. */
  datatype Time = Time(stamp: int)

  /** A row of `matches`, columns 0 to 5: id, amount, active, challenger id, recipient id, accepted. */
  datatype LiveRow = LiveRow(id: int, amount: int, active: bool, challengerId: int, recipientId: int, accepted: bool)

  /** A row of `match_history`, columns 0 to 5: id, amount, challenger id, recipient id, winner id, match time. */
  datatype HistoryRow = HistoryRow(id: int, amount: int, challengerId: int, recipientId: int, winnerId: int, matchTime: Option<Time>)

  /** Both tables, keyed by match id. */
  datatype Tables = Tables(live: map<int, LiveRow>, history: map<int, HistoryRow>)

  /** Every row sits under its own id. */
  ghost predicate Keyed(t: Tables) {
    && (forall k :: k in t.live ==> t.live[k].id == k)
    && (forall k :: k in t.history ==> t.history[k].id == k)
  }

  /** No match id is both live and archived. */
  ghost predicate Disjoint(t: Tables) {
    t.live.Keys !! t.history.Keys
  }

  /**
    `get_match_info_by_id`: the live row for `id`, or nothing when there is none or
    when the read itself fails (`ok` false).
   */
  function MatchInfoById(t: Tables, id: int, ok: bool): (r: Option<LiveRow>)
    ensures r.Some? <==> ok && id in t.live
    ensures r.Some? ==> t.live[id] == r.value
    ensures Keyed(t) && r.Some? ==> r.value.id == id
  {
    if ok && id in t.live then Some(t.live[id]) else None
  }

  /** `get_match_history_info`: the archived row for `id`, or nothing when there is none or the read fails. */
  function MatchHistoryInfo(t: Tables, id: int, ok: bool): (r: Option<HistoryRow>)
    ensures r.Some? <==> ok && id in t.history
    ensures r.Some? ==> t.history[id] == r.value
    ensures Keyed(t) && r.Some? ==> r.value.id == id
  {
    if ok && id in t.history then Some(t.history[id]) else None
  }

  /** Effect of a successful `update_match_activity`: an UPDATE that touches no row when `id` is not live. */
  function WithActivity(t: Tables, id: int, activity: bool): Tables {
    if id in t.live then t.(live := t.live[id := t.live[id].(active := activity)]) else t
  }

  /** Effect of a successful `update_match_accepted`. */
  function WithAccepted(t: Tables, id: int, accepted: bool): Tables {
    if id in t.live then t.(live := t.live[id := t.live[id].(accepted := accepted)]) else t
  }

  /** Effect of a successful `create_match` insert. */
  function WithLiveRow(t: Tables, row: LiveRow): Tables {
    t.(live := t.live[row.id := row])
  }

  /** Effect of a successful `create_match_history` insert. */
  function WithHistoryRow(t: Tables, row: HistoryRow): Tables {
    t.(history := t.history[row.id := row])
  }

  /** Effect of a successful `delete_match`. */
  function WithoutLiveRow(t: Tables, id: int): Tables {
    t.(live := t.live - {id})
  }

  /** The connection the source keeps as a global handle, passed explicitly here. */
  class Store {
    var live: map<int, LiveRow>
    var history: map<int, HistoryRow>

    function State(): Tables
      reads this
    {
      Tables(live, history)
    }

    constructor ()
      ensures State() == Tables(map[], map[])
    {
      live := map[];
      history := map[];
    }

    /** `update_match_activity`: reports `ok`, and writes only when it reports success. */
    method UpdateMatchActivity(id: int, activity: bool, ok: bool) returns (success: bool)
      modifies this
      ensures success == ok
      ensures State() == if ok then WithActivity(old(State()), id, activity) else old(State())
    {
      success := ok;
      if ok {
        live := WithActivity(State(), id, activity).live;
      }
    }

    /** `update_match_accepted`: reports `ok`, and writes only when it reports success. */
    method UpdateMatchAccepted(id: int, accepted: bool, ok: bool) returns (success: bool)
      modifies this
      ensures success == ok
      ensures State() == if ok then WithAccepted(old(State()), id, accepted) else old(State())
    {
      success := ok;
      if ok {
        live := WithAccepted(State(), id, accepted).live;
      }
    }

    /**
      `create_match`: the store answers with the id it issued, `issuedId`, where 0
      means the insert failed. The call passes no acceptance flag; the new row's
      `accepted` column is taken to be false.
     */
    method CreateMatch(amount: int, active: bool, challengerId: int, recipientId: int, issuedId: int)
      returns (id: int)
      modifies this
      ensures id == issuedId
      ensures State() == if issuedId != 0
                         then WithLiveRow(old(State()), LiveRow(issuedId, amount, active, challengerId, recipientId, false))
                         else old(State())
    {
      id := issuedId;
      if id != 0 {
        live := live[id := LiveRow(id, amount, active, challengerId, recipientId, false)];
      }
    }

    /** `create_match_history`: reports `ok`, and inserts the archived row only when it reports success. */
    method CreateMatchHistory(id: int, amount: int, challengerId: int, recipientId: int, winnerId: int,
                              matchTime: Option<Time>, ok: bool)
      returns (success: bool)
      modifies this
      ensures success == ok
      ensures State() == if ok
                         then WithHistoryRow(old(State()), HistoryRow(id, amount, challengerId, recipientId, winnerId, matchTime))
                         else old(State())
    {
      success := ok;
      if ok {
        history := history[id := HistoryRow(id, amount, challengerId, recipientId, winnerId, matchTime)];
      }
    }

    /** `delete_match`: reports `ok`, and removes the live row only when it reports success. */
    method DeleteMatch(id: int, ok: bool) returns (success: bool)
      modifies this
      ensures success == ok
      ensures State() == if ok then WithoutLiveRow(old(State()), id) else old(State())
    {
      success := ok;
      if ok {
        live := live - {id};
      }
    }
  }
}
