// The pool of parsers: checkout, checkin, and the schema locations parsers are told.
module ParserPools {
  import opened Names

  class Parser {
    var handler: bool           // an error handler on somebody's stack is installed
    var locations: set<string>  // the namespaces it may look up
    var released: bool

    constructor (locations: set<string>)
      ensures !handler && !released && this.locations == locations
    {
      handler, released, this.locations := false, false, locations;
    }

    method Release()
      requires !released
      modifies this`released
      ensures released
    {
      released := true;
    }
  }

  // How a parse ends.  The first three give the parser back through code; anything the catch clauses do
  // not name leaves it to the janitor.
  datatype Exit = Parsed | Rejected | Thrown | Unforeseen

  ghost predicate Distinct(s: seq<Parser>) {
    forall i, j :: 0 <= i < j < |s| ==> s[i] != s[j]
  }

  class ParserPool {
    const schemaAware: bool
    var pool: seq<Parser>             // a stack, top last
    var schemas: map<string, string>  // namespace to file
    var locations: set<string>        // the namespaces in the hint given to parsers
    ghost var held: set<Parser>       // checked out
    ghost var destroyed: set<Parser>
    ghost var created: set<Parser>    // every parser ever made

    // Every parser ever made is in the pool, held, or destroyed, and in one of these only.
    ghost predicate Valid()
      reads this, pool, held, destroyed
    {
      && created == Pooled() + held + destroyed
      && Distinct(pool) && (forall p :: p in pool ==> p !in held && p !in destroyed) && held !! destroyed
      && (forall p :: p in pool ==> !p.handler && !p.released)
      && (forall p :: p in held ==> !p.released) && (forall p :: p in destroyed ==> p.released)
      && locations == schemas.Keys
    }

    ghost function Pooled(): (r: set<Parser>)
      reads this`pool
      ensures (forall p :: p in r ==> p in pool) && forall p :: p in pool ==> p in r
    {
      set p | p in pool
    }

    constructor (schemaAware: bool)
      ensures Valid() && pool == [] && held == {} && destroyed == {} && created == {} && schemas == map[]
      ensures this.schemaAware == schemaAware
    {
      this.schemaAware := schemaAware;
      pool, schemas, locations, held, destroyed, created := [], map[], {}, {}, {}, {};
    }

    // Under the lock: the top of the stack, told the current locations, or a new parser.
    method CheckoutBuilder() returns (p: Parser)
      requires Valid()
      modifies this`pool, this`held, this`created, Pooled()`locations
      ensures created == old(created) + {p} && (p in old(created) <==> old(pool) != [])
      ensures Valid() && p in held && held == old(held) + {p} && p !in old(held) && p !in destroyed
      ensures if old(pool) == [] then fresh(p) && pool == [] else p in old(pool) && old(pool) == pool + [p]
      ensures !p.handler && (schemaAware ==> p.locations == locations) && (!schemaAware && old(pool) == [] ==> p.locations == {})
      ensures !schemaAware && old(pool) != [] ==> unchanged(p)
      ensures forall q :: q in old(pool) && q != p ==> unchanged(q)
    {
      if pool == [] {
        p := new Parser(if schemaAware then locations else {});
        held, created := held + {p}, created + {p};
        return;
      }
      p := pool[|pool| - 1];
      pool := pool[..|pool| - 1];
      if schemaAware {
        p.locations := locations;
      }
      held := held + {p};
    }

    method CheckinBuilder(p: Parser)
      requires Valid() && p in held && !p.handler
      modifies this`pool, this`held
      ensures Valid() && pool == old(pool) + [p] && held == old(held) - {p}
    {
      pool := pool + [p];
      held := held - {p};
    }

    // parse, up to the parser's own work.
    method BeginParse() returns (p: Parser)
      requires Valid()
      modifies this`pool, this`held, this`created, Pooled()`locations, Pooled()`handler
      ensures created == old(created) + {p}
      ensures Valid() && held == old(held) + {p} && p !in old(held) && p.handler
      ensures fresh(p) || p in old(pool)
      ensures forall q :: q in pool ==> q in old(pool)
      ensures schemaAware ==> p.locations == locations
    {
      p := CheckoutBuilder();
      p.handler := true;
    }

    // parse, from where the parser came back.  Whatever the exit, the parser is given up once: back to
    // the pool without its handler, or destroyed.
    method EndParse(p: Parser, exit: Exit)
      requires Valid() && p in held
      modifies this`pool, this`held, this`destroyed, p`handler, p`released
      ensures Valid() && held == old(held) - {p}
      ensures exit != Unforeseen ==> pool == old(pool) + [p] && destroyed == old(destroyed) && !p.handler
      ensures exit == Unforeseen ==> pool == old(pool) && destroyed == old(destroyed) + {p} && p.released
    {
      match exit {
        case Parsed =>
          p.handler := false;
          CheckinBuilder(p);
        case Rejected =>  // errors were reported: an exception of this library, caught below
          p.handler := false;
          CheckinBuilder(p);
        case Thrown =>
          p.handler := false;
          CheckinBuilder(p);
        case Unforeseen =>
          p.Release();
          held, destroyed := held - {p}, destroyed + {p};
      }
    }

    // loadSchema, once the file is known to exist or not.
    method LoadSchema(namespaceUri: string, path: string, exists': bool) returns (ok: bool)
      requires Valid()
      modifies this`schemas, this`locations
      ensures Valid() && ok == exists'
      ensures schemas == if ok then old(schemas)[namespaceUri := path] else old(schemas)
    {
      if !exists' {
        return false;
      }
      schemas := schemas[namespaceUri := path];
      locations := schemas.Keys;
      return true;
    }

    // loadCatalog, once the document is parsed: its root's name and its mappings, in order, later ones over
    // earlier ones.  Nothing comes of a document that does not parse or has another root.
    method LoadCatalog(catalog: Option<(bool, seq<(string, string)>)>) returns (ok: bool)
      requires Valid()
      modifies this`schemas, this`locations
      ensures Valid() && (ok <==> catalog.Some? && catalog.value.0)
      ensures schemas == if ok then Overwritten(old(schemas), catalog.value.1) else old(schemas)
    {
      if catalog.None? {
        return false;
      }
      var (isCatalog, mappings) := catalog.value;
      if !isCatalog {
        return false;
      }
      var i := 0;
      while i < |mappings|
        invariant 0 <= i <= |mappings| && schemas == Overwritten(old(schemas), mappings[..i]) && locations == old(locations)
      {
        schemas := schemas[mappings[i].0 := mappings[i].1];
        assert mappings[..i + 1][..i] == mappings[..i];
        i := i + 1;
      }
      assert mappings[..i] == mappings;
      locations := schemas.Keys;
      return true;
    }

    // The destructor: with no parse at work, every parser ever made has been released, once.
    method Destroy()
      requires Valid()
      modifies this`pool, this`destroyed, Pooled()`released
      ensures Valid() && pool == [] && held == old(held) && destroyed == old(destroyed) + (set p | p in old(pool))
      ensures created == old(created) && (held == {} ==> forall p :: p in created ==> p.released)
    {
      while pool != []
        invariant Valid() && held == old(held) && pool <= old(pool)
        invariant destroyed == old(destroyed) + set p | p in old(pool)[|pool|..]
        decreases |pool|
      {
        ghost var n := |pool|;
        var p := pool[|pool| - 1];
        assert old(pool)[n - 1..] == [p] + old(pool)[n..];
        p.Release();
        pool := pool[..|pool| - 1];
        destroyed := destroyed + {p};
      }
    }
  }

  // ---------------------------------------------------------------- parses on several threads

  // A thread begins a parse, or its parse ends.
  datatype Turn = Begins(thread: nat) | Ends(thread: nat, exit: Exit)

  // The parsers held are just those of the parses at work, each held by one of them.
  ghost predicate OnePerParse(held: set<Parser>, busy: map<nat, Parser>) {
    held == busy.Values && forall s, t :: s in busy && t in busy && busy[s] == busy[t] ==> s == t
  }

  lemma OneMoreBusy(held: set<Parser>, busy: map<nat, Parser>, t: nat, p: Parser)
    requires OnePerParse(held, busy) && t !in busy && p !in held
    ensures OnePerParse(held + {p}, busy[t := p])
  {
    assert forall s :: s in busy ==> busy[s] in busy.Values;
    assert busy[t := p].Values == busy.Values + {p} by {
      forall q | q in busy.Values ensures q in busy[t := p].Values {
        var s :| s in busy && busy[s] == q;
        assert busy[t := p][s] == q;
      }
      assert busy[t := p][t] == p;
    }
  }

  lemma OneLessBusy(held: set<Parser>, busy: map<nat, Parser>, t: nat)
    requires OnePerParse(held, busy) && t in busy
    ensures busy[t] in held && OnePerParse(held - {busy[t]}, busy - {t})
  {
    forall q | q in held - {busy[t]} ensures q in (busy - {t}).Values {
      var s :| s in busy && busy[s] == q;
      assert (busy - {t})[s] == q;
    }
  }

  // The threads at work on a parse after these turns.
  function Working(turns: seq<Turn>): set<nat> {
    if turns == [] then {}
    else
      match turns[|turns| - 1]
      case Begins(t) => Working(turns[..|turns| - 1]) + {t}
      case Ends(t, _) => Working(turns[..|turns| - 1]) - {t}
  }

  // The threads' turns in any order; a turn a thread cannot take is skipped.
  method Interleave(pool: ParserPool, turns: seq<Turn>) returns (busy: map<nat, Parser>)
    requires pool.Valid() && pool.pool == [] && pool.held == {}
    modifies pool
    ensures pool.Valid() && OnePerParse(pool.held, busy) && busy.Keys == Working(turns)
    ensures old(pool.created) <= pool.created == pool.Pooled() + busy.Values + pool.destroyed
  {
    hide OnePerParse;
    busy := map[];
    NoneBusy();
    var i := 0;
    while i < |turns|
      invariant 0 <= i <= |turns| && pool.Valid() && OnePerParse(pool.held, busy) == true && old(pool.created) <= pool.created
      invariant busy.Keys == Working(turns[..i])
      invariant (forall p :: p in pool.pool ==> fresh(p)) && (forall p :: p in pool.held ==> fresh(p))
    {
      assert turns[..i + 1][..i] == turns[..i];
      match turns[i] {
        case Begins(t) =>
          if t !in busy {
            ghost var held := pool.held;
            var p := pool.BeginParse();
            OneMoreBusy(held, busy, t, p);
            busy := busy[t := p];
          }
        case Ends(t, exit) =>
          if t in busy {
            OneLessBusy(pool.held, busy, t);
            pool.EndParse(busy[t], exit);
            busy := busy - {t};
          }
      }
      i := i + 1;
    }
    assert turns[..i] == turns;
    HeldByParses(pool.held, busy);
  }

  lemma HeldByParses(held: set<Parser>, busy: map<nat, Parser>)
    requires OnePerParse(held, busy) == true
    ensures held == busy.Values
  {
  }

  lemma NoneBusy()
    ensures OnePerParse({}, map[]) == true
  {
  }
}
