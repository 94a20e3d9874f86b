// The replay detector on top of the storage service.
module ReplayDetection {
  import opened Names
  import opened MemoryStorage

  // The storage service's limits on context labels and keys.
  const MAX_SIZE := 0x4000

  // Values too long for a key are stored under their hash.
  function KeyOf(s: string, hash: string -> string): string {
    if |s| > MAX_SIZE then hash(s) else s
  }

  // One turn at the store: a check, reading and then possibly creating a little later, or a reaping pass.
  datatype Turn = Check(context: string, s: string, expires: int, reading: int, creating: int)
                | Reaping(context: string, reading: int)
                | Cleaning(reading: int)

  function Ends(t: Turn): int {
    if t.Check? then t.creating else t.reading
  }

  function Verdict(st: Store, t: Turn, hash: string -> string): bool {
    t.Check? && |t.context| <= MAX_SIZE && Live(st, t.context, KeyOf(t.s, hash), t.reading).None?
  }

  function Played(st: Store, t: Turn, hash: string -> string): Store {
    match t
    case Check(c, s, x, r, w) =>
      if |c| > MAX_SIZE then st
      else
        var st1 := After(st, Read(r, c, KeyOf(s, hash), 0));
        if Verdict(st, t, hash) then After(st1, Create(w, c, KeyOf(s, hash), "x", x)) else st1
    case Reaping(c, r) => After(st, Reap(r, c))
    case Cleaning(r) => After(st, Cleanup(r))
  }

  class ReplayCache {
    const storage: MemoryStore
    const hash: string -> string

    constructor (storage: MemoryStore, hash: string -> string)
      ensures this.storage == storage && this.hash == hash
    {
      this.storage, this.hash := storage, hash;
    }

    method Check(context: string, s: string, expires: int, reading: int, creating: int) returns (fresh': bool)
      requires reading <= creating && Positive(storage.contexts)
      modifies storage
      ensures fresh' == Verdict(old(storage.contexts), Turn.Check(context, s, expires, reading, creating), hash)
      ensures storage.contexts == Played(old(storage.contexts), Turn.Check(context, s, expires, reading, creating), hash)
      ensures fresh' <==> |context| <= MAX_SIZE &&
                          Live(old(storage.contexts), context, if |s| <= MAX_SIZE then s else hash(s), reading).None?
      ensures fresh' ==> var key := if |s| <= MAX_SIZE then s else hash(s);
                         key in At(storage.contexts, context) && At(storage.contexts, context)[key] == Record("x", expires, 1)
      ensures Positive(storage.contexts)
    {
      if |context| > MAX_SIZE {
        return false;
      } else if |s| > MAX_SIZE {
        var h := hash(s);
        var code, _, _ := storage.ReadString(context, h, 0, reading);
        if code != 0 {
          return false;
        }
        var _ := storage.CreateString(context, h, "x", expires, creating);
        return true;
      }
      var code, _, _ := storage.ReadString(context, s, 0, reading);
      if code != 0 {
        return false;
      }
      var _ := storage.CreateString(context, s, "x", expires, creating);
      return true;
    }
  }

  // Versions start at 1, so a version of 0 can only mean that no record is live.
  ghost predicate Positive(st: Store) {
    forall c, k :: c in st && k in st[c] ==> st[c][k].version >= 1
  }

  // ---------------------------------------------------------------- whole runs

  function PlayedAll(st: Store, turns: seq<Turn>, hash: string -> string): Store {
    if turns == [] then st else Played(PlayedAll(st, turns[..|turns| - 1], hash), turns[|turns| - 1], hash)
  }

  // Turns do not overlap and the clock never goes back; only a reaping pass may go by an earlier time.
  ghost predicate InOrder(turns: seq<Turn>) {
    && (forall i :: 0 <= i < |turns| ==> turns[i].reading <= Ends(turns[i]))
    && (forall i, j :: 0 <= i < j < |turns| && turns[j].Check? ==> Ends(turns[i]) <= turns[j].reading)
  }

  // Turn i of the run was a check of this context and key that found nothing and was good until after t.
  ghost predicate Accepted(turns: seq<Turn>, i: nat, c: string, key: string, t: int, hash: string -> string) {
    && i < |turns| && turns[i].Check? && turns[i].context == c && KeyOf(turns[i].s, hash) == key
    && t < turns[i].expires && Verdict(PlayedAll(map[], turns[..i], hash), turns[i], hash)
  }

  ghost predicate SomeAccepted(turns: seq<Turn>, c: string, key: string, t: int, hash: string -> string) {
    exists i :: Accepted(turns, i, c, key, t, hash)
  }

  lemma AcceptedSplit(init: seq<Turn>, last: Turn, c: string, key: string, t: int, hash: string -> string)
    ensures SomeAccepted(init + [last], c, key, t, hash) <==>
              SomeAccepted(init, c, key, t, hash)
              || (Verdict(PlayedAll(map[], init, hash), last, hash)
                  && last.context == c && KeyOf(last.s, hash) == key && t < last.expires)
  {
    hide PlayedAll, Verdict, KeyOf;
    var all := init + [last];
    assert all[..|init|] == init;
    forall i: nat | i < |init| ensures Accepted(all, i, c, key, t, hash) <==> Accepted(init, i, c, key, t, hash) {
      assert all[..i] == init[..i];
    }
    if SomeAccepted(init, c, key, t, hash) {
      var i :| Accepted(init, i, c, key, t, hash);
      assert Accepted(all, i, c, key, t, hash);
    }
    VerdictOfCheck(PlayedAll(map[], init, hash), last, hash);
    assert Accepted(all, |init|, c, key, t, hash) <==>
      last.Check? && last.context == c && KeyOf(last.s, hash) == key && t < last.expires
      && Verdict(PlayedAll(map[], init, hash), last, hash);
  }

  lemma VerdictOfCheck(st: Store, t: Turn, hash: string -> string)
    ensures Verdict(st, t, hash) ==> t.Check?
  {
  }

  // The store remembers exactly the accepted values that have not expired.
  lemma {:induction false} RemembersAccepted(turns: seq<Turn>, c: string, key: string, t: int, hash: string -> string)
    requires InOrder(turns) && forall i :: 0 <= i < |turns| ==> Ends(turns[i]) <= t
    ensures Live(PlayedAll(map[], turns, hash), c, key, t).Some? <==> SomeAccepted(turns, c, key, t, hash)
  {
    if turns == [] {
    } else {
      var n := |turns| - 1;
      RemembersAccepted(turns[..n], c, key, t, hash);
      LiveAfterTurn(PlayedAll(map[], turns[..n], hash), turns[n], c, key, t, hash);
      AcceptedSplit(turns[..n], turns[n], c, key, t, hash);
      assert turns == turns[..n] + [turns[n]];
    }
  }

  lemma LiveAfterTurn(st: Store, turn: Turn, c: string, key: string, t: int, hash: string -> string)
    requires turn.reading <= Ends(turn) <= t
    ensures Live(Played(st, turn, hash), c, key, t).Some? <==>
              (Live(st, c, key, t).Some?
               || (Verdict(st, turn, hash) && turn.context == c && KeyOf(turn.s, hash) == key && t < turn.expires))
  {
  }

  lemma FreshByKey(turns: seq<Turn>, check: Turn, hash: string -> string)
    requires InOrder(turns + [check]) && check.Check?
    ensures Verdict(PlayedAll(map[], turns, hash), check, hash) <==>
              |check.context| <= MAX_SIZE
              && !SomeAccepted(turns, check.context, KeyOf(check.s, hash), check.reading, hash)
  {
    var all := turns + [check];
    forall i | 0 <= i < |turns| ensures Ends(turns[i]) <= check.reading && turns[i].reading <= Ends(turns[i]) {
      assert all[i] == turns[i] && all[|turns|] == check;
    }
    forall i, j | 0 <= i < j < |turns| && turns[j].Check? ensures Ends(turns[i]) <= turns[j].reading {
      assert all[i] == turns[i] && all[j] == turns[j];
    }
    RemembersAccepted(turns, check.context, KeyOf(check.s, hash), check.reading, hash);
  }

  // Turn i of the run was a check in this context that said so, and is still good at t.
  ghost predicate StillGood(turns: seq<Turn>, i: nat, c: string, t: int, hash: string -> string) {
    && i < |turns| && turns[i].Check? && turns[i].context == c && t < turns[i].expires
    && Verdict(PlayedAll(map[], turns[..i], hash), turns[i], hash)
  }

  // Replay detection is exact over whole runs, by value: a check says "fresh" exactly when its context label
  // fits and no check accepted earlier in that context is still good and was of the same value, or of a longer
  // one whose hash is that value; and likewise with the value's own hash if it is too long itself.
  lemma FreshExactly(turns: seq<Turn>, check: Turn, hash: string -> string)
    requires InOrder(turns + [check]) && check.Check?
    ensures |check.s| <= MAX_SIZE ==>
              (Verdict(PlayedAll(map[], turns, hash), check, hash) <==>
                 |check.context| <= MAX_SIZE
                 && forall i: nat :: StillGood(turns, i, check.context, check.reading, hash) ==>
                      turns[i].s != check.s && (|turns[i].s| > MAX_SIZE ==> hash(turns[i].s) != check.s))
    ensures |check.s| > MAX_SIZE ==>
              (Verdict(PlayedAll(map[], turns, hash), check, hash) <==>
                 |check.context| <= MAX_SIZE
                 && forall i: nat :: StillGood(turns, i, check.context, check.reading, hash) ==>
                      if |turns[i].s| > MAX_SIZE then hash(turns[i].s) != hash(check.s) else turns[i].s != hash(check.s))
  {
    FreshByKey(turns, check, hash);
    hide Verdict, PlayedAll;
    var key := KeyOf(check.s, hash);
    forall i: nat ensures Accepted(turns, i, check.context, key, check.reading, hash) <==>
                            StillGood(turns, i, check.context, check.reading, hash) && KeyOf(turns[i].s, hash) == key {
    }
  }

  // Replay safety: once a check of a value succeeded, a later check of the same value in the same
  // context fails as long as the first is good.
  lemma ReplaySafety(turns: seq<Turn>, i: nat, check: Turn, hash: string -> string)
    requires InOrder(turns + [check]) && check.Check? && i < |turns| && turns[i].Check?
    requires turns[i].context == check.context && turns[i].s == check.s && check.reading < turns[i].expires
    requires Verdict(PlayedAll(map[], turns[..i], hash), turns[i], hash)
    ensures !Verdict(PlayedAll(map[], turns, hash), check, hash)
  {
    assert StillGood(turns, i, check.context, check.reading, hash);
    FreshExactly(turns, check, hash);
  }
}
