/** The event log of one target: what an observation adds to it. */
module Events {
  const EVENT_ACK: int := 2
  const EVENT_DELETE: int := 16
  const EVENT_MODIFY: int := 32
  const EVENT_OPEN: int := 64
  const EVENT_FAIL: int := 128

  /** One bit each: 1, 4, 5, 6 and 7. */
  lemma Masks()
    ensures EVENT_ACK == 0x02 && EVENT_DELETE == 0x10 && EVENT_MODIFY == 0x20
    ensures EVENT_OPEN == 0x40 && EVENT_FAIL == 0x80
  {
  }

  /** The fields of struct stat that are compared, and everything else in one. */
  datatype Stat = Stat(dev: int, ino: int, mode: int, atime: int, mtime: int, size: int, others: int)

  const ZERO_STAT := Stat(0, 0, 0, 0, 0, 0, 0)

  datatype StatResult = Found(st: Stat) | NoEntry | NoAccess | OtherError {
    /** The struct stat afterwards: a failed call leaves the zeroes it was initialised with. */
    function Seen(): Stat {
      if Found? then st else ZERO_STAT
    }
  }

  datatype Event = Event(mask: int, at: nat, st: Stat)

  /** One observation: what lstat said, when, and whether there was memory to log it. */
  datatype Obs = Obs(result: StatResult, at: nat, stored: bool) {
    function Seen(): Stat {
      result.Seen()
    }
  }

  // ----- comparing -----

  datatype Cmp = EQ | LT | GT

  function Compare(a: int, b: int): Cmp {
    if a < b then LT else if a > b then GT else EQ
  }

  predicate SameFields(a: Stat, b: Stat) {
    a.dev == b.dev && a.ino == b.ino && a.mode == b.mode && a.atime == b.atime && a.mtime == b.mtime && a.size == b.size
  }

  predicate SameButAccessTime(a: Stat, b: Stat) {
    SameFields(a, b.(atime := a.atime))
  }

  function CmpStat(a: Stat, b: Stat): (mask: int)
    ensures mask == 0 <==> SameFields(a, b)
  {
    if !SameButAccessTime(a, b) then EVENT_MODIFY else if a.atime != b.atime then EVENT_OPEN else 0
  }

  /** The table scan of cmp_stat, from the last entry down to the first. */
  method ScanStat(a: Stat, b: Stat) returns (mask: int)
    ensures mask == CmpStat(a, b)
    ensures var same := a.dev == b.dev && a.ino == b.ino && a.mode == b.mode && a.mtime == b.mtime && a.size == b.size;
            mask == if !same then EVENT_MODIFY else if a.atime != b.atime then EVENT_OPEN else 0
  {
    var diffs := [
      (Compare(a.atime, b.atime), EVENT_OPEN),
      (Compare(a.dev, b.dev), EVENT_MODIFY),
      (Compare(a.ino, b.ino), EVENT_MODIFY),
      (Compare(a.mode, b.mode), EVENT_MODIFY),
      (Compare(a.mtime, b.mtime), EVENT_MODIFY),
      (Compare(a.size, b.size), EVENT_MODIFY)];
    var i := 6;
    while i > 0
      invariant 0 <= i <= 6
      invariant forall k :: i <= k < 6 ==> diffs[k].0 == EQ
    {
      i := i - 1;
      if diffs[i].0 != EQ {
        assert i == 0 ==> diffs[1].0 == diffs[2].0 == diffs[3].0 == diffs[4].0 == diffs[5].0 == EQ;
        return diffs[i].1;
      }
    }
    assert diffs[0].0 == diffs[1].0 == diffs[2].0 == diffs[3].0 == diffs[4].0 == diffs[5].0 == EQ;
    return 0;
  }

  // ----- one observation -----

  function FailureMask(r: StatResult): int {
    if r.NoAccess? then EVENT_FAIL else EVENT_DELETE
  }

  /** What target_event_detect pushes, if anything: it compares with the last entry of the log. */
  function Detect(latest: Stat, o: Obs): (mask: int)
    ensures mask == 0 <==> o.result.Found? && SameFields(o.result.st, latest)
  {
    if o.result.Found? then CmpStat(o.result.st, latest) else FailureMask(o.result)
  }

  function Track(log: seq<Event>, o: Obs): (r: seq<Event>)
    requires log != []
    ensures log <= r
  {
    var mask := Detect(log[|log| - 1].st, o);
    if mask != 0 && o.stored then log + [Event(mask, o.at, o.Seen())] else log
  }

  // ----- whole histories -----

  /** The log after a history of observations, the first being the acknowledgement. */
  function Log(ack: Event, history: seq<Obs>): (log: seq<Event>)
    ensures log != [] && log[0] == ack
    decreases history
  {
    if history == [] then [ack] else Track(Log(ack, history[..|history| - 1]), history[|history| - 1])
  }

  function Last(ack: Event, history: seq<Obs>): Stat {
    if history == [] then ack.st else history[|history| - 1].Seen()
  }

  // Reference definition: an observation counts if it failed, or differs from the observation just before it in one of
  // six fields; a failure counts as an all-zero stat.

  function Looked(o: Obs): Stat {
    match o.result
    case Found(st) => st
    case _ => Stat(0, 0, 0, 0, 0, 0, 0)
  }

  predicate Significant(previous: Stat, o: Obs) {
    match o.result
    case Found(st) =>
      || st.dev != previous.dev || st.ino != previous.ino || st.mode != previous.mode
      || st.atime != previous.atime || st.mtime != previous.mtime || st.size != previous.size
    case _ => true
  }

  function Describe(previous: Stat, o: Obs): Event {
    Event(match o.result
          case NoAccess => EVENT_FAIL
          case NoEntry => EVENT_DELETE
          case OtherError => EVENT_DELETE
          case Found(st) =>
            if st.dev != previous.dev || st.ino != previous.ino || st.mode != previous.mode
               || st.mtime != previous.mtime || st.size != previous.size then EVENT_MODIFY else EVENT_OPEN,
          o.at, Looked(o))
  }

  function Destutter(previous: Stat, history: seq<Obs>): seq<Event>
    decreases history
  {
    if history == [] then []
    else (if Significant(previous, history[0]) then [Describe(previous, history[0])] else [])
         + Destutter(Looked(history[0]), history[1..])
  }

  predicate AllStored(history: seq<Obs>) {
    forall i :: 0 <= i < |history| ==> history[i].stored
  }

  /** The latest entry always agrees with the latest observation on the six fields. */
  lemma LatestAgrees(ack: Event, history: seq<Obs>)
    requires AllStored(history)
    ensures var log := Log(ack, history); SameFields(log[|log| - 1].st, Last(ack, history))
  {
  }

  lemma {:induction false} DestutterSnoc(previous: Stat, history: seq<Obs>, o: Obs)
    ensures var last := if history == [] then previous else Looked(history[|history| - 1]);
            Destutter(previous, history + [o])
            == Destutter(previous, history) + if Significant(last, o) then [Describe(last, o)] else []
    decreases history
  {
    if history == [] {
      assert history + [o] == [o];
    } else {
      DestutterSnoc(Looked(history[0]), history[1..], o);
      assert (history + [o])[1..] == history[1..] + [o];
    }
  }

  /** Comparing with the latest entry comes to the same as comparing with the observation before. */
  lemma TrackIsDescribed(log: seq<Event>, last: Stat, o: Obs)
    requires log != [] && SameFields(log[|log| - 1].st, last) && o.stored
    ensures Track(log, o) == log + if Significant(last, o) then [Describe(last, o)] else []
  {
  }

  /** The log is the observation history with the stutters removed. */
  lemma {:induction false} LogIsDestutteredHistory(ack: Event, history: seq<Obs>)
    requires AllStored(history)
    ensures Log(ack, history) == [ack] + Destutter(ack.st, history)
    decreases history
  {
    hide Track, Significant, Describe, SameFields;
    if history != [] {
      var n := |history| - 1;
      var front, o := history[..n], history[n];
      assert history == front + [o];
      assert o.stored;
      LogIsDestutteredHistory(ack, front);
      DestutterSnoc(ack.st, front, o);
      LatestAgrees(ack, front);
      TrackIsDescribed(Log(ack, front), Last(ack, front), o);
    }
  }

  /** Only the first entry acknowledges; every other one is a change, an access or a failure. */
  lemma {:induction false} OnlyFirstAcknowledges(ack: Event, history: seq<Obs>, i: nat)
    requires 0 < i < |Log(ack, history)|
    ensures Log(ack, history)[i].mask in {EVENT_MODIFY, EVENT_OPEN, EVENT_FAIL, EVENT_DELETE}
    ensures Log(ack, history)[i].mask in {EVENT_FAIL, EVENT_DELETE} ==> Log(ack, history)[i].st == ZERO_STAT
    decreases history
  {
    var n := |history| - 1;
    if i < |Log(ack, history[..n])| {
      OnlyFirstAcknowledges(ack, history[..n], i);
    }
  }

  /** Observing an unchanged target again logs nothing; a failure is logged every time. */
  lemma RepeatedObservation(ack: Event, history: seq<Obs>, o: Obs)
    requires AllStored(history) && o.stored
    ensures var once := history + [o];
            |Log(ack, once + [o])| == |Log(ack, once)| + if o.result.Found? then 0 else 1
  {
  }

  /** When pushes fail the log misses entries, and never has more than one entry an observation. */
  lemma {:induction false} LogGrowsByAtMostOne(ack: Event, history: seq<Obs>)
    ensures |Log(ack, history)| <= 1 + |history|
    decreases history
  {
    if history != [] {
      LogGrowsByAtMostOne(ack, history[..|history| - 1]);
    }
  }
}
