/**
 * The state log seen as per-vehicle histories, and the point-in-time query
 * over it: the latest entry of a vehicle at or before a given time.
 */
module StateHistory {
  import opened Wrappers
  import opened Entities

  /** The entries of one vehicle, in insertion order: the vehicle's `stateLogs`. */
  function History(log: seq<StateLog>, vid: int): (h: seq<StateLog>)
    ensures |h| <= |log|
  {
    if log == [] then []
    else
      History(log[..|log| - 1], vid)
      + (if log[|log| - 1].vehicleId == vid then [log[|log| - 1]] else [])
  }

  /** A vehicle's history holds exactly the log's entries for that vehicle. */
  lemma {:induction false} HistoryMember(log: seq<StateLog>, vid: int, e: StateLog)
    ensures e in History(log, vid) <==> e in log && e.vehicleId == vid
  {
    if log != [] {
      var prefix := log[..|log| - 1];
      assert log == prefix + [log[|log| - 1]];
      HistoryMember(prefix, vid, e);
    }
  }

  /** A vehicle with no entry in the log has an empty history. */
  lemma {:induction false} HistoryEmpty(log: seq<StateLog>, vid: int)
    requires forall e | e in log :: e.vehicleId != vid
    ensures History(log, vid) == []
  {
    if log != [] {
      var prefix := log[..|log| - 1];
      assert forall e | e in prefix :: e in log;
      HistoryEmpty(prefix, vid);
    }
  }

  /** Appending an entry extends the history of its own vehicle and of no other. */
  lemma {:induction false} HistoryAppend(log: seq<StateLog>, e: StateLog, vid: int)
    ensures History(log + [e], vid) == History(log, vid) + (if e.vehicleId == vid then [e] else [])
  {
    assert (log + [e])[..|log|] == log;
  }

  /** Timestamps never decrease in insertion order. */
  predicate TimeOrdered(log: seq<StateLog>)
  {
    forall i, j | 0 <= i < j < |log| :: log[i].timestamp <= log[j].timestamp
  }

  /** A vehicle's history inherits the order of the log. */
  lemma {:induction false} HistoryOrdered(log: seq<StateLog>, vid: int)
    requires TimeOrdered(log)
    ensures TimeOrdered(History(log, vid))
  {
    if log != [] {
      var n := |log|;
      var prefix := log[..n - 1];
      var last := log[n - 1];
      assert TimeOrdered(prefix) by {
        forall i, j | 0 <= i < j < |prefix| ensures prefix[i].timestamp <= prefix[j].timestamp {
          assert prefix[i] == log[i] && prefix[j] == log[j];
        }
      }
      HistoryOrdered(prefix, vid);
      var hp := History(prefix, vid);
      if last.vehicleId == vid {
        var h := hp + [last];
        forall i, j | 0 <= i < j < |h| ensures h[i].timestamp <= h[j].timestamp {
          if j < |hp| {
            assert h[i] == hp[i] && h[j] == hp[j];
          } else {
            assert h[i] == hp[i] && hp[i] in hp;
            HistoryMember(prefix, vid, hp[i]);
            var k :| 0 <= k < |prefix| && prefix[k] == hp[i];
            assert log[k] == hp[i] && log[n - 1] == h[j];
          }
        }
      }
    }
  }

  /**
   * `e` is an answer of the query: an entry of vehicle `vid` recorded at or
   * before `t` with no such entry recorded later.
   */
  predicate IsLatestAt(log: seq<StateLog>, e: StateLog, vid: int, t: nat)
  {
    && e in log && e.vehicleId == vid && e.timestamp <= t
    && forall f | f in log && f.vehicleId == vid && f.timestamp <= t :: f.timestamp <= e.timestamp
  }

  /**
   * The query `stateLog.timestamp <= t ORDER BY stateLog.timestamp DESC LIMIT 1`
   * over one vehicle's entries. Among entries that share the greatest such
   * timestamp it picks the one appended last; the query itself leaves that
   * choice open, and the service promises only IsLatestAt.
   */
  function LatestAt(log: seq<StateLog>, vid: int, t: nat): (r: Option<StateLog>)
    ensures r.Some? ==> IsLatestAt(log, r.value, vid, t)
    ensures r.None? <==> forall e | e in log :: !(e.vehicleId == vid && e.timestamp <= t)
  {
    if log == [] then None
    else
      var prefix := log[..|log| - 1];
      var last := log[|log| - 1];
      assert log == prefix + [last];
      var best := LatestAt(prefix, vid, t);
      if last.vehicleId == vid && last.timestamp <= t
         && (best.None? || best.value.timestamp <= last.timestamp)
      then Some(last)
      else best
  }

  /** Before a vehicle's first entry the query finds nothing: the vehicle did not exist yet. */
  lemma {:induction false} LatestAtBeforeFirst(log: seq<StateLog>, vid: int, t: nat)
    requires TimeOrdered(log)
    requires History(log, vid) != [] && t < History(log, vid)[0].timestamp
    ensures LatestAt(log, vid, t) == None
  {
    var h := History(log, vid);
    HistoryOrdered(log, vid);
    forall e | e in log && e.vehicleId == vid ensures t < e.timestamp {
      HistoryMember(log, vid, e);
      var k :| 0 <= k < |h| && h[k] == e;
      assert h[0].timestamp <= h[k].timestamp;
    }
  }

  /**
   * When the vehicle's last entry is at or before `t` and strictly later than
   * the one before it, every answer of the query is that last entry, whatever
   * other vehicles recorded after it.
   */
  lemma {:induction false} LatestAtAfterLast(log: seq<StateLog>, vid: int, t: nat, e: StateLog)
    requires TimeOrdered(log)
    requires var h := History(log, vid);
      h != [] && h[|h| - 1].timestamp <= t
      && (|h| == 1 || h[|h| - 2].timestamp < h[|h| - 1].timestamp)
    requires IsLatestAt(log, e, vid, t)
    ensures var h := History(log, vid); e == h[|h| - 1]
  {
    var h := History(log, vid);
    var m := |h|;
    HistoryOrdered(log, vid);
    var last := h[m - 1];
    assert last in h;
    HistoryMember(log, vid, last);
    assert last in log && last.vehicleId == vid && last.timestamp <= t;
    assert last.timestamp <= e.timestamp;
    forall k | 0 <= k < m - 1 ensures h[k].timestamp < last.timestamp {
      assert h[k].timestamp <= h[m - 2].timestamp;
    }
    HistoryMember(log, vid, e);
    var k :| 0 <= k < m && h[k] == e;
    assert k == m - 1;
  }
}
