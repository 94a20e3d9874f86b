// Properties of whole runs of the storage service, by the clock.
module StorageRuns {
  import opened Names
  import opened MemoryStorage

  function Final(st: Store, events: seq<Event>): Store {
    if events == [] then st else After(Final(st, events[..|events| - 1]), events[|events| - 1])
  }

  predicate IsReap(e: Event) {
    e.Reap? || e.Cleanup?
  }

  // deleteString says whether a record was there, expired or not; a reap may have taken it, so that
  // one answer is not part of what callers are promised.
  function Promised(st: Store, e: Event): Result {
    if e.Delete? then Done else Answer(st, e)
  }

  // What callers hear over a run, reaping passes apart.
  function Heard(st: Store, events: seq<Event>): seq<Result>
    decreases events
  {
    if events == [] then []
    else
      var rest := Heard(After(st, events[0]), events[1..]);
      if IsReap(events[0]) then rest else [Promised(st, events[0])] + rest
  }

  function WithoutReaps(events: seq<Event>): seq<Event> {
    if events == [] then []
    else if IsReap(events[0]) then WithoutReaps(events[1..])
    else [events[0]] + WithoutReaps(events[1..])
  }

  // The clock never goes back; only a reaping pass may go by an earlier time, one it read before it got
  // the lock.
  ghost predicate Monotone(events: seq<Event>, now: int) {
    && (forall i :: 0 <= i < |events| && !IsReap(events[i]) ==> now <= events[i].time)
    && (forall i, j :: 0 <= i < j < |events| && !IsReap(events[j]) ==> events[i].time <= events[j].time)
  }

  // From `now` on, nobody can tell the two stores apart.
  ghost predicate Same(a: Store, b: Store, now: int) {
    forall c, k :: Live(a, c, k, now) == Live(b, c, k, now)
  }

  lemma SameLater(a: Store, b: Store, now: int, later: int)
    requires Same(a, b, now) && now <= later
    ensures Same(a, b, later)
  {
    forall c, k ensures Live(a, c, k, later) == Live(b, c, k, later) {
      assert Live(a, c, k, now) == Live(b, c, k, now);
    }
  }

  // One operation on stores that look the same is answered the same and leaves them looking the same.
  lemma SameStep(a: Store, b: Store, e: Event)
    requires Same(a, b, e.time)
    ensures Same(After(a, e), After(b, e), e.time)
    ensures Promised(a, e) == Promised(b, e)
  {
    forall c, k ensures Live(After(a, e), c, k, e.time) == Live(After(b, e), c, k, e.time) {
      assert Live(a, c, k, e.time) == Live(b, c, k, e.time);
      LiveAfter(a, e, c, k);
      LiveAfter(b, e, c, k);
    }
    match e {
      case Create(t, c, k, v, x) => assert Live(a, c, k, t) == Live(b, c, k, t);
      case Read(t, c, k, version) => assert Live(a, c, k, t) == Live(b, c, k, t);
      case Update(t, c, k, data, x, version) => assert Live(a, c, k, t) == Live(b, c, k, t);
      case _ =>
    }
  }

  // What an operation does to one record, in terms of live records alone.
  function LiveEffect(r: Option<Record>, e: Event, c: string, k: string): Option<Record> {
    match e
    case Create(t, c', k', v, x) => if (c', k') == (c, k) && r.None? && t < x then Some(Record(v, x, 1)) else r
    case Update(t, c', k', data, x, version) =>
      if (c', k') == (c, k) && r.Some? && (version <= 0 || version == r.value.version) then
        if t < Written(r.value, data, x).expiration then Some(Written(r.value, data, x)) else None
      else r
    case Delete(_, c', k') => if (c', k') == (c, k) then None else r
    case UpdateContext(t, c', x) =>
      if c' == c && r.Some? then if t < x then Some(r.value.(expiration := x)) else None else r
    case DeleteContext(_, c') => if c' == c then None else r
    case _ => r
  }

  lemma LiveAfter(st: Store, e: Event, c: string, k: string)
    ensures Live(After(st, e), c, k, e.time) == LiveEffect(Live(st, c, k, e.time), e, c, k)
  {
  }

  // It takes away just the records of its context, or of all of them, that have expired.
  lemma ReapsExactly(st: Store, e: Event, c: string, k: string)
    requires IsReap(e)
    ensures k in At(After(st, e), c) <==> k in At(st, c) && (e.Cleanup? || e.context == c ==> e.time < At(st, c)[k].expiration)
    ensures k in At(After(st, e), c) ==> At(After(st, e), c)[k] == At(st, c)[k]
  {
  }

  // A reaping pass changes nothing anyone can see.
  lemma ReapInvisible(a: Store, e: Event)
    requires IsReap(e)
    ensures Same(After(a, e), a, e.time)
  {
    forall c, k ensures Live(After(a, e), c, k, e.time) == Live(a, c, k, e.time) {
      LiveAfter(a, e, c, k);
    }
  }

  // Reaping refines lazy expiry: under a clock that never goes back, passes of the reaper or of the
  // cleanup thread put in anywhere change no answer of the rest of the run.
  lemma {:induction false} ReapingIsInvisible(a: Store, b: Store, events: seq<Event>, now: int)
    requires Same(a, b, now) && Monotone(events, now)
    ensures Heard(a, events) == Heard(b, WithoutReaps(events))
    decreases events
  {
    if events == [] {
    } else {
      var e := events[0];
      if IsReap(e) {
        var later := if now < e.time then e.time else now;
        ReapInvisible(a, e);
        SameLater(After(a, e), a, e.time, later);
        SameLater(a, b, now, later);
        ReapingIsInvisible(After(a, e), b, events[1..], later);
      } else {
        SameLater(a, b, now, e.time);
        SameStep(a, b, e);
        ReapingIsInvisible(After(a, e), After(b, e), events[1..], e.time);
        assert (([e] + WithoutReaps(events[1..]))[1..]) == WithoutReaps(events[1..]);
      }
    }
  }

  // An expired record is never brought back: whatever happens at its key, it stays as it is, goes, or
  // makes room for a new record.
  lemma NoRevival(st: Store, e: Event, c: string, k: string)
    requires k in At(st, c) && At(st, c)[k].expiration <= e.time
    ensures k !in At(After(st, e), c) || At(After(st, e), c)[k] == At(st, c)[k]
            || (e.Create? && (e.context, e.key) == (c, k) && At(After(st, e), c)[k] == Record(e.value, e.expiration, 1))
  {
  }

  // A successful create of this record.
  predicate Creates(st: Store, e: Event, c: string, k: string) {
    e.Create? && (e.context, e.key) == (c, k) && Answer(st, e) == Created(true)
  }

  predicate Recreated(st: Store, events: seq<Event>, c: string, k: string) {
    events != []
    && (Recreated(st, events[..|events| - 1], c, k) || Creates(Final(st, events[..|events| - 1]), events[|events| - 1], c, k))
  }

  // Over a whole run: what has expired, or was never there, stays dead until it is successfully created.
  lemma {:induction false} DeadUntilCreated(st: Store, events: seq<Event>, c: string, k: string, now: int, later: int)
    requires Monotone(events, now) && Live(st, c, k, now).None? && !Recreated(st, events, c, k)
    requires now <= later && forall i :: 0 <= i < |events| ==> events[i].time <= later
    ensures Live(Final(st, events), c, k, later).None?
  {
    hide After, Answer;
    if events == [] {
      DeadLater(st, c, k, now, later);
    } else {
      var init, e := events[..|events| - 1], events[|events| - 1];
      var before := Final(st, init);
      if IsReap(e) {
        DeadUntilCreated(st, init, c, k, now, later);
        ReapInvisible(before, e);
        SameLater(After(before, e), before, e.time, later);
        assert Live(After(before, e), c, k, later) == Live(before, c, k, later);
      } else {
        DeadUntilCreated(st, init, c, k, now, e.time);
        StillDead(before, e, c, k);
        DeadLater(After(before, e), c, k, e.time, later);
      }
    }
  }

  lemma DeadLater(st: Store, c: string, k: string, now: int, later: int)
    requires Live(st, c, k, now).None? && now <= later
    ensures Live(st, c, k, later).None?
  {
  }

  lemma StillDead(st: Store, e: Event, c: string, k: string)
    requires Live(st, c, k, e.time).None? && !Creates(st, e, c, k)
    ensures Live(After(st, e), c, k, e.time).None?
  {
    LiveAfter(st, e, c, k);
  }

  // What was created or written is what is read, with the version the writer was told, until it expires;
  // what was deleted is not.
  lemma ReadsBack(st: Store, write: Event, read: Event)
    requires write.Create? || (write.Update? && write.data.Some?) || write.Delete?
    requires read.Read? && (read.context, read.key) == (write.context, write.key) && write.time <= read.time
    ensures write.Create? && Answer(st, write) == Created(true) ==>
              Answer(After(st, write), read) == if read.time >= write.expiration then Got(0, None, None)
                else Got(1, Some(write.expiration), if read.version == 1 then None else Some(write.value))
    ensures write.Update? && Answer(st, write).code > 0 ==>
              var told := Answer(st, write).code;
              var until := if write.expiration != 0 then write.expiration else At(st, write.context)[write.key].expiration;
              Answer(After(st, write), read) == if read.time >= until then Got(0, None, None)
                else Got(told, Some(until), if read.version == told then None else Some(write.data.value))
    ensures write.Delete? ==> Answer(After(st, write), read) == Got(0, None, None)
  {
  }

  // ---------------------------------------------------------------- versions

  // The record at the key is still the one it was: nobody deleted or recreated it.
  predicate Survives(st: Store, e: Event, c: string, k: string) {
    && k in At(st, c) && k in At(After(st, e), c)
    && !(e.Create? && (e.context, e.key) == (c, k) && Live(st, c, k, e.time).None?)
  }

  predicate SurvivesAll(st: Store, events: seq<Event>, c: string, k: string) {
    if events == [] then k in At(st, c)
    else SurvivesAll(st, events[..|events| - 1], c, k)
         && Survives(Final(st, events[..|events| - 1]), events[|events| - 1], c, k)
  }

  // The event writes new data into the record.
  predicate Writes(st: Store, e: Event, c: string, k: string) {
    && e.Update? && (e.context, e.key) == (c, k) && e.data.Some?
    && Answer(st, e) != Updated(0) && Answer(st, e) != Updated(-1)
  }

  function Writings(st: Store, events: seq<Event>, c: string, k: string): nat {
    if events == [] then 0
    else Writings(st, events[..|events| - 1], c, k)
         + if Writes(Final(st, events[..|events| - 1]), events[|events| - 1], c, k) then 1 else 0
  }

  ghost predicate Versioned(st: Store) {
    forall c, k :: c in st && k in st[c] ==> st[c][k].version >= 1
  }

  lemma VersionedStep(st: Store, e: Event)
    requires Versioned(st) == true
    ensures Versioned(After(st, e)) == true
  {
  }

  // In every store that can be reached versions start at 1.
  lemma {:induction false} ReachableVersioned(events: seq<Event>)
    ensures Versioned(Final(map[], events))
  {
    hide After, Versioned;
    if events == [] {
      NoneVersioned();
    } else {
      ReachableVersioned(events[..|events| - 1]);
      VersionedStep(Final(map[], events[..|events| - 1]), events[|events| - 1]);
    }
  }

  lemma NoneVersioned()
    ensures Versioned(map[])
  {
  }

  // While it lives, a record's version counts the writes to its data and nothing else moves it.
  lemma {:induction false} VersionCountsWrites(st: Store, events: seq<Event>, c: string, k: string)
    requires SurvivesAll(st, events, c, k)
    ensures k in At(st, c) && k in At(Final(st, events), c)
    ensures At(Final(st, events), c)[k].version == At(st, c)[k].version + Writings(st, events, c, k)
    ensures Writings(st, events, c, k) == 0 ==> At(Final(st, events), c)[k].data == At(st, c)[k].data
  {
    hide After, Survives, Writes;
    if events == [] {
    } else {
      VersionCountsWrites(st, events[..|events| - 1], c, k);
      SurvivingStep(Final(st, events[..|events| - 1]), events[|events| - 1], c, k);
    }
  }

  lemma SurvivingStep(st: Store, e: Event, c: string, k: string)
    requires Survives(st, e, c, k) == true
    ensures k in At(st, c) && k in At(After(st, e), c)
    ensures At(After(st, e), c)[k].version == At(st, c)[k].version + if Writes(st, e, c, k) then 1 else 0
    ensures !Writes(st, e, c, k) ==> At(After(st, e), c)[k].data == At(st, c)[k].data
  {
  }

  // Within one lifetime a read that only echoes the caller's version means the caller's data is current.
  lemma EchoMeansCurrent(st: Store, events: seq<Event>, c: string, k: string, read: Event)
    requires SurvivesAll(st, events, c, k) && read.Read? && (read.context, read.key) == (c, k)
    requires k in At(st, c) && read.version == At(st, c)[k].version
    requires Answer(Final(st, events), read).code == read.version && Answer(Final(st, events), read).found == None
    requires Live(Final(st, events), c, k, read.time).Some?
    ensures At(Final(st, events), c)[k].data == At(st, c)[k].data
  {
    VersionCountsWrites(st, events, c, k);
  }

  // Across lifetimes it does not: delete and create again, and the echo hides other data.
  lemma EchoAcrossLifetimes()
    ensures exists st, events, read: Event :: read.Read?
              && read.key in At(st, read.context) && read.version == At(st, read.context)[read.key].version
              && Answer(Final(st, events), read) == Got(read.version, Some(100), None)
              && read.key in At(Final(st, events), read.context)
              && At(Final(st, events), read.context)[read.key].data != At(st, read.context)[read.key].data
  {
    var st: Store := map["c" := map["k" := Record("old", 100, 1)]];
    var events := [Delete(0, "c", "k"), Create(1, "c", "k", "new", 100)];
    var read := Read(2, "c", "k", 1);
    assert events[..1] == [events[0]] && events[..1][..0] == [];
    assert Final(st, events[..1]) == After(st, events[0]);
    assert At(Final(st, events), "c")["k"] == Record("new", 100, 1);
  }

  // What updateString answers and does, from the live record alone: 0 without one, -1 if a positive version
  // names another, and otherwise the version the record then has, one more if there was data.
  lemma UpdateExactly(st: Store, e: Event)
    requires Versioned(st) && e.Update?
    ensures var r, code := Live(st, e.context, e.key, e.time), Answer(st, e).code;
            && (code == 0 <==> r.None?)
            && (code == -1 <==> r.Some? && e.version > 0 && e.version != r.value.version)
            && (code == 0 || code == -1 ==> At(After(st, e), e.context) == At(st, e.context))
            && (code != 0 && code != -1 ==>
                  && code == (if e.data.Some? then r.value.version + 1 else r.value.version)
                  && e.key in At(After(st, e), e.context)
                  && At(After(st, e), e.context)[e.key] ==
                       Record(if e.data.Some? then e.data.value else r.value.data,
                              if e.expiration != 0 then e.expiration else r.value.expiration, code))
    ensures Others(st, After(st, e), e.context, e.key)
  {
  }

  // Everything but the record at this key is as it was.
  ghost predicate Others(a: Store, b: Store, c: string, k: string) {
    forall c', k' :: (c', k') != (c, k) ==> (k' in At(a, c') <==> k' in At(b, c')) && (k' in At(a, c') ==> At(b, c')[k'] == At(a, c')[k'])
  }

  // deleteString says whether there was a record, expired or not; then there is none, so that a second time
  // it says no.
  lemma DeleteExactly(st: Store, e: Event, again: Event)
    requires e.Delete? && again.Delete? && (again.context, again.key) == (e.context, e.key)
    ensures Answer(st, e) == Deleted(e.key in At(st, e.context)) && e.key !in At(After(st, e), e.context)
    ensures Answer(After(st, e), again) == Deleted(false) && Others(st, After(st, e), e.context, e.key)
  {
  }

  // A conditional update takes effect only on the version it names, and is told the next one.
  lemma ConditionalUpdate(st: Store, e: Event)
    requires Versioned(st) && e.Update? && e.version > 0
    ensures Answer(st, e).code > 0 <==>
              Live(st, e.context, e.key, e.time).Some? && Live(st, e.context, e.key, e.time).value.version == e.version
    ensures Answer(st, e).code > 0 ==>
              e.key in At(After(st, e), e.context)
              && At(After(st, e), e.context)[e.key].version == Answer(st, e).code
              && Answer(st, e).code == if e.data.Some? then e.version + 1 else e.version
    ensures Answer(st, e).code <= 0 ==> At(After(st, e), e.context) == At(st, e.context)
  {
  }
}
