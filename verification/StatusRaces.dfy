/** Two status changes of one session at the same time. A change reads the old status, writes the new one to the
    registry and records both in the metrics, under a lock of its own each time (crates/core/src/session/manager.rs). */
module StatusRaces {
  import opened Common
  import opened Session
  import opened Manager
  import R = Registry
  import X = Metrics

  /** The record of one change, by the status it has read. */
  function Record(x: X.MetricsState, from: SessionStatus, to: SessionStatus): X.MetricsState {
    X.RecordConnection(X.RecordStatusChange(x, from, to), from, to)
  }

  /** Both have read the status `from`; the records come in this order. */
  function BothRead(x: X.MetricsState, from: SessionStatus, first: SessionStatus, second: SessionStatus)
    : X.MetricsState
  {
    Record(Record(x, from, first), from, second)
  }

  /** The second change has read what the first one has written, but records before it. */
  function RecordsSwapped(x: X.MetricsState, from: SessionStatus, first: SessionStatus, second: SessionStatus)
    : X.MetricsState
  {
    Record(Record(x, first, second), from, first)
  }

  lemma CountsAfterWrite(sessions: R.Sessions, id: SessionId, to: SessionStatus, now: Time)
    requires id in sessions
    ensures var from, after := sessions[id].status, sessions[id := sessions[id].SetStatus(to, now)];
            && Count(sessions, from) > 0
            && Count(after, Active) == Count(sessions, Active) - CountIf(from == Active) + CountIf(to == Active)
            && Count(after, Idle) == Count(sessions, Idle) - CountIf(from == Idle) + CountIf(to == Idle)
            && Count(after, Failed) == Count(sessions, Failed) - CountIf(from == Failed) + CountIf(to == Failed)
  {
    var m := sessions[id].SetStatus(to, now);
    assert id in WithStatus(sessions, sessions[id].status);
    CountsAfterPut(sessions, id, m, Active);
    CountsAfterPut(sessions, id, m, Idle);
    CountsAfterPut(sessions, id, m, Failed);
  }

  lemma LastRecordsLast(x: X.MetricsState, sessions: R.Sessions, id: SessionId, last: SessionStatus,
                        lost: SessionStatus,
                        now: Time)
    requires GaugesExact(x, sessions) && id in sessions
    ensures var from := sessions[id].status;
            GaugesExact(BothRead(x, from, lost, last), sessions[id := sessions[id].SetStatus(last, now)]) <==>
            lost == from || (!Tracked(lost) && (!Tracked(from) || Count(sessions, from) == 1))
  {
    var from := sessions[id].status;
    CountsAfterWrite(sessions, id, last, now);
    StatusChangeMovesGauges(x, from, lost);
    StatusChangeMovesGauges(Record(x, from, lost), from, last);
  }

  lemma LastRecordsFirst(x: X.MetricsState, sessions: R.Sessions, id: SessionId, last: SessionStatus,
                         lost: SessionStatus,
                         now: Time)
    requires GaugesExact(x, sessions) && id in sessions
    ensures var from := sessions[id].status;
            GaugesExact(BothRead(x, from, last, lost), sessions[id := sessions[id].SetStatus(last, now)]) <==>
            if lost == from then !Tracked(from) || last == from || Count(sessions, from) > 1
            else !Tracked(lost) && (!Tracked(from) || (Count(sessions, from) == 1 && last != from))
  {
    var from := sessions[id].status;
    CountsAfterWrite(sessions, id, last, now);
    StatusChangeMovesGauges(x, from, last);
    StatusChangeMovesGauges(Record(x, from, last), from, lost);
  }

  /** Main result: two changes that both read before either wrote. `last` is the status written last, `lost` the one it
      overwrote. If the lost change changed nothing, the gauges are exact unless its record comes second, when the gauge
      it lowers first may be empty. Otherwise they are exact exactly if it went to an untracked status and the gauge
      that is lowered twice is none or is empty the second time. */
  lemma BothReadIff(x: X.MetricsState, sessions: R.Sessions, id: SessionId, last: SessionStatus, lost: SessionStatus,
                    lastRecordsFirst: bool, now: Time)
    requires GaugesExact(x, sessions) && id in sessions
    ensures var from := sessions[id].status;
            var y := if lastRecordsFirst then BothRead(x, from, last, lost) else BothRead(x, from, lost, last);
            GaugesExact(y, sessions[id := sessions[id].SetStatus(last, now)]) <==>
            if lost == from then
              !lastRecordsFirst || !Tracked(from) || last == from || Count(sessions, from) > 1
            else
              && !Tracked(lost)
              && (!Tracked(from) || (Count(sessions, from) == 1 && !(last == from && lastRecordsFirst)))
  {
    if lastRecordsFirst {
      LastRecordsFirst(x, sessions, id, last, lost, now);
    } else {
      LastRecordsLast(x, sessions, id, last, lost, now);
    }
  }

  /** Main result: if the second change reads what the first one has written, the gauges are exact when the records come
      in the same order; when they are swapped, exactly if the early decrement finds a gauge to lower. */
  lemma OneAfterTheOtherIff(x: X.MetricsState, sessions: R.Sessions, id: SessionId, first: SessionStatus,
                            second: SessionStatus, now: Time)
    requires GaugesExact(x, sessions) && id in sessions
    ensures var from := sessions[id].status;
            var after := sessions[id := sessions[id].SetStatus(second, now)];
            && GaugesExact(Record(Record(x, from, first), first, second), after)
            && (GaugesExact(RecordsSwapped(x, from, first, second), after) <==>
                (|| !Tracked(first)
                 || (if first == from then second == from || Count(sessions, from) > 1
                     else Count(sessions, first) > 0)))
  {
    var from := sessions[id].status;
    InOrder(x, sessions, id, first, second, now);
    CountsAfterWrite(sessions, id, second, now);
    StatusChangeMovesGauges(x, first, second);
    StatusChangeMovesGauges(Record(x, first, second), from, first);
  }

  lemma InOrder(x: X.MetricsState, sessions: R.Sessions, id: SessionId, first: SessionStatus, second: SessionStatus,
                now: Time)
    requires GaugesExact(x, sessions) && id in sessions
    ensures GaugesExact(Record(Record(x, sessions[id].status, first), first, second),
                        sessions[id := sessions[id].SetStatus(second, now)])
  {
    var from := sessions[id].status;
    CountsAfterWrite(sessions, id, second, now);
    StatusChangeMovesGauges(x, from, first);
    StatusChangeMovesGauges(Record(x, from, first), first, second);
  }
}
