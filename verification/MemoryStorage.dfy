// The in-memory storage service: versioned records that expire lazily and are reaped eagerly.
module MemoryStorage {
  import opened Names

  datatype Record = Record(data: string, expiration: int, version: nat)

  type Context = map<string, Record>
  type Store = map<string, Context>

  // ---------------------------------------------------------------- one operation, as a function

  // What a caller can ask for; `time` is what the clock says while the operation holds its lock.
  datatype Event =
    | Create(time: int, context: string, key: string, value: string, expiration: int)
    | Read(time: int, context: string, key: string, version: int)
    | Update(time: int, context: string, key: string, data: Option<string>, expiration: int, version: int)
    | Delete(time: int, context: string, key: string)
    | UpdateContext(time: int, context: string, expiration: int)
    | DeleteContext(time: int, context: string)
    | Reap(time: int, context: string)
    | Cleanup(time: int)

  // readString gives the expiration of a live record, and its data unless the caller has that version.
  datatype Result = Created(ok: bool) | Got(code: int, expires: Option<int>, found: Option<string>)
                  | Updated(code: int) | Deleted(existed: bool) | Done

  // The context, made on demand.
  function At(st: Store, context: string): Context {
    if context in st then st[context] else map[]
  }

  // The record as long as it has not expired.
  function Live(st: Store, context: string, key: string, now: int): Option<Record> {
    if key in At(st, context) && now < At(st, context)[key].expiration then Some(At(st, context)[key]) else None
  }

  function Unexpired(ctx: Context, now: int): Context {
    map k | k in ctx && now < ctx[k].expiration :: ctx[k]
  }

  function Extended(ctx: Context, now: int, expiration: int): Context {
    map k | k in ctx :: if now < ctx[k].expiration then ctx[k].(expiration := expiration) else ctx[k]
  }

  function Written(r: Record, data: Option<string>, expiration: int): Record {
    var r1 := if data.Some? then r.(data := data.value, version := r.version + 1) else r;
    if expiration != 0 then r1.(expiration := expiration) else r1
  }

  function After(st: Store, e: Event): Store {
    match e
    case Create(t, c, k, v, x) =>
      if Live(st, c, k, t).Some? then st[c := At(st, c)] else st[c := At(st, c)[k := Record(v, x, 1)]]
    case Read(_, c, _, _) => st[c := At(st, c)]
    case Update(t, c, k, data, x, version) =>
      if Live(st, c, k, t).None? || (version > 0 && version != At(st, c)[k].version) then st[c := At(st, c)]
      else st[c := At(st, c)[k := Written(At(st, c)[k], data, x)]]
    case Delete(_, c, k) => st[c := At(st, c) - {k}]
    case UpdateContext(t, c, x) => st[c := Extended(At(st, c), t, x)]
    case DeleteContext(_, c) => st - {c}
    case Reap(t, c) => st[c := Unexpired(At(st, c), t)]
    case Cleanup(t) => map c | c in st :: Unexpired(st[c], t)
  }

  function Answer(st: Store, e: Event): Result {
    match e
    case Create(t, c, k, _, _) => Created(Live(st, c, k, t).None?)
    case Read(t, c, k, version) =>
      (match Live(st, c, k, t)
       case None => Got(0, None, None)
       case Some(r) => Got(r.version, Some(r.expiration), if r.version == version then None else Some(r.data)))
    case Update(t, c, k, data, _, version) =>
      (match Live(st, c, k, t)
       case None => Updated(0)
       case Some(r) => if version > 0 && version != r.version then Updated(-1)
                       else Updated(if data.Some? then r.version + 1 else r.version))
    case Delete(_, c, k) => Deleted(k in At(st, c))
    case UpdateContext(_, _, _) => Done
    case DeleteContext(_, _) => Done
    case Reap(_, _) => Done
    case Cleanup(_) => Done
  }

  // ---------------------------------------------------------------- the service

  class MemoryStore {
    var contexts: Store

    constructor ()
      ensures contexts == map[]
    {
      contexts := map[];
    }

    // writeContext: the context is made if it is missing.
    method WriteContext(context: string)
      modifies this
      ensures contexts == old(contexts)[context := At(old(contexts), context)]
    {
      if context !in contexts {
        contexts := contexts[context := map[]];
      }
    }

    method CreateString(context: string, key: string, value: string, expiration: int, now: int) returns (ok: bool)
      modifies this
      ensures contexts == After(old(contexts), Create(now, context, key, value, expiration))
      ensures Created(ok) == Answer(old(contexts), Create(now, context, key, value, expiration))
    {
      WriteContext(context);
      if key in contexts[context] {
        if now < contexts[context][key].expiration {
          return false;
        }
        contexts := contexts[context := contexts[context] - {key}];
      }
      contexts := contexts[context := contexts[context][key := Record(value, expiration, 1)]];
      assert (At(old(contexts), context) - {key})[key := Record(value, expiration, 1)]
        == At(old(contexts), context)[key := Record(value, expiration, 1)];
      return true;
    }

    method ReadString(context: string, key: string, version: int, now: int)
      returns (code: int, expires: Option<int>, found: Option<string>)
      modifies this
      ensures contexts == After(old(contexts), Read(now, context, key, version))
      ensures Got(code, expires, found) == Answer(old(contexts), Read(now, context, key, version))
    {
      WriteContext(context);
      if key !in contexts[context] {
        return 0, None, None;
      } else if now >= contexts[context][key].expiration {
        return 0, None, None;
      }
      var record := contexts[context][key];
      expires := Some(record.expiration);
      if record.version == version {
        return version, expires, None;
      }
      return record.version, expires, Some(record.data);
    }

    method UpdateString(context: string, key: string, data: Option<string>, expiration: int, version: int, now: int)
      returns (code: int)
      modifies this
      ensures contexts == After(old(contexts), Update(now, context, key, data, expiration, version))
      ensures Updated(code) == Answer(old(contexts), Update(now, context, key, data, expiration, version))
    {
      WriteContext(context);
      if key !in contexts[context] {
        return 0;
      } else if now >= contexts[context][key].expiration {
        return 0;
      }
      var record := contexts[context][key];
      if version > 0 && version != record.version {
        return -1;
      }
      if data.Some? {
        record := record.(data := data.value);
        record := record.(version := record.version + 1);
      }
      if expiration != 0 && expiration != record.expiration {
        record := record.(expiration := expiration);
      }
      contexts := contexts[context := contexts[context][key := record]];
      return record.version;
    }

    method DeleteString(context: string, key: string, now: int) returns (existed: bool)
      modifies this
      ensures contexts == After(old(contexts), Delete(now, context, key))
      ensures Deleted(existed) == Answer(old(contexts), Delete(now, context, key))
    {
      WriteContext(context);
      existed := key in contexts[context];
      if existed {
        contexts := contexts[context := contexts[context] - {key}];
      } else {
        assert contexts[context] - {key} == contexts[context];
      }
    }

    // updateContext: every record that has not expired gets the new expiration.
    method ExtendContext(context: string, expiration: int, now: int)
      modifies this
      ensures contexts == After(old(contexts), UpdateContext(now, context, expiration))
    {
      WriteContext(context);
      ghost var before := contexts[context];
      var todo := contexts[context].Keys;
      while todo != {}
        invariant todo <= before.Keys && contexts.Keys == old(contexts).Keys + {context}
        invariant contexts[context].Keys == before.Keys
        invariant forall k :: k in before ==>
                    contexts[context][k] == if k in todo then before[k] else Extended(before, now, expiration)[k]
        invariant contexts == old(contexts)[context := contexts[context]]
        decreases todo
      {
        var k :| k in todo;
        if now < contexts[context][k].expiration {
          contexts := contexts[context := contexts[context][k := contexts[context][k].(expiration := expiration)]];
        }
        todo := todo - {k};
      }
      assert contexts[context] == Extended(before, now, expiration);
    }

    method DropContext(context: string, now: int)
      modifies this
      ensures contexts == After(old(contexts), DeleteContext(now, context))
    {
      contexts := contexts - {context};
    }

    // Context::reap, over one context that exists.
    method ReapRecords(context: string, now: int) returns (count: nat)
      requires context in contexts
      modifies this
      ensures contexts == old(contexts)[context := Unexpired(old(contexts)[context], now)]
      ensures count == |old(contexts)[context]| - |contexts[context]|
    {
      ghost var before := contexts[context];
      var todo := contexts[context].Keys;
      count := 0;
      while todo != {}
        invariant todo <= before.Keys && context in contexts
        invariant contexts[context] == map k | k in before && (k in todo || now < before[k].expiration) :: before[k]
        invariant contexts == old(contexts)[context := contexts[context]]
        invariant count == |before| - |contexts[context]|
        decreases todo
      {
        var k :| k in todo;
        if contexts[context][k].expiration <= now {
          ghost var ctx := contexts[context];
          contexts := contexts[context := contexts[context] - {k}];
          assert ctx.Keys == contexts[context].Keys + {k};
          count := count + 1;
        }
        todo := todo - {k};
      }
      assert contexts[context] == Unexpired(before, now);
    }

    method ReapContext(context: string, now: int)
      modifies this
      ensures contexts == After(old(contexts), Reap(now, context))
    {
      WriteContext(context);
      var count := ReapRecords(context, now);
    }

    // The body of the cleanup thread.
    method CleanupAll(now: int)
      modifies this
      ensures contexts == After(old(contexts), Cleanup(now))
    {
      var count := 0;
      var todo := contexts.Keys;
      while todo != {}
        invariant todo <= contexts.Keys == old(contexts).Keys
        invariant forall c :: c in contexts ==>
                    contexts[c] == if c in todo then old(contexts)[c] else Unexpired(old(contexts)[c], now)
        decreases todo
      {
        var c :| c in todo;
        var n := ReapRecords(c, now);
        count := count + n;
        todo := todo - {c};
      }
    }
  }
}
