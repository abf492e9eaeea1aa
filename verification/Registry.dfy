/** The registry that hands out one shared table per (factory, instance), holding it only weakly. */
module Registry {
  import opened Options

  type TableId = nat
  type Key = (string, string)

  /** What the factory lookup and the table's constructor come to. */
  datatype Making = NoFactory | Throws | Makes

  /** `tables`: the weak map.  `keys`: the key of every table ever made, by number.  `live`: those still
      referenced by somebody. */
  datatype State = State(tables: map<Key, TableId>, keys: seq<Key>, live: set<TableId>)

  datatype Event = Asked(key: Key, making: Making) | Died(t: TableId)

  predicate Possible(s: State, e: Event) { e.Died? ==> e.t in s.live }

  function Found(s: State, key: Key): Option<TableId> {
    if key in s.tables && s.tables[key] in s.live then Some(s.tables[key]) else None
  }

  function Answer(s: State, key: Key, making: Making): Option<TableId> {
    if Found(s, key).Some? then Found(s, key) else if making.Makes? then Some(|s.keys|) else None
  }

  /** Adds an entry unless there is one. */
  function Emplaced(tables: map<Key, TableId>, key: Key, t: TableId): map<Key, TableId> {
    if key in tables then tables else tables[key := t]
  }

  function Next(s: State, e: Event): State {
    match e
    case Died(t) => s.(live := s.live - {t})
    case Asked(key, making) =>
      if Found(s, key).Some? then s
      else
        var erased := s.(tables := s.tables - {key});
        if making.Makes? then
          State(Emplaced(erased.tables, key, |s.keys|), s.keys + [key], s.live + {|s.keys|})
        else erased
  }

  /** The plain map a user may imagine: each key with its live table. */
  function Plain(s: State): map<Key, TableId> {
    map k | k in s.tables && s.tables[k] in s.live :: s.tables[k]
  }

  /** Every live table is registered under its own key. */
  ghost predicate Coherent(s: State) {
    && (forall t :: t in s.live ==> t < |s.keys| && s.keys[t] in s.tables && s.tables[s.keys[t]] == t)
    && (forall k :: k in s.tables ==> s.tables[k] < |s.keys| && s.keys[s.tables[k]] == k)
  }

  lemma {:induction false} CoherentKept(s: State, e: Event)
    requires Coherent(s) && Possible(s, e)
    ensures Coherent(Next(s, e))
  {
  }

  /** The weak map behaves as the plain map: a lookup finds the live table exactly when there is one, a
      lookup that fails changes nothing, one that makes a table adds just that table, and a table that dies
      takes just its own key away. */
  lemma RefinesPlainMap(s: State, e: Event)
    requires Coherent(s) && Possible(s, e)
    ensures match e
            case Asked(key, making) =>
              && Answer(s, key, making) == (if key in Plain(s) then Some(Plain(s)[key])
                                            else if making.Makes? then Some(|s.keys|) else None)
              && Plain(Next(s, e)) == (if key !in Plain(s) && making.Makes? then Plain(s)[key := |s.keys|]
                                       else Plain(s))
            case Died(t) =>
              && t < |s.keys| && s.keys[t] in Plain(s) && Plain(s)[s.keys[t]] == t
              && Plain(Next(s, e)) == Plain(s) - {s.keys[t]}
  {
    if e.Asked? && Found(s, e.key).None? && e.making.Makes? {
      assert |s.keys| !in s.live;
    }
  }

  ghost predicate IsRun(ss: seq<State>, es: seq<Event>) {
    && |ss| == |es| + 1 && ss[0] == State(map[], [], {})
    && forall i {:trigger es[i]} :: 0 <= i < |es| ==> Possible(ss[i], es[i]) && ss[i + 1] == Next(ss[i], es[i])
  }

  /** Over any run of lookups, deaths and failing constructors no two live tables share a key. */
  lemma {:induction false} OneLiveTablePerKey(ss: seq<State>, es: seq<Event>, n: nat)
    requires IsRun(ss, es) && n < |ss|
    ensures Coherent(ss[n])
    ensures forall t, u :: t in ss[n].live && u in ss[n].live && ss[n].keys[t] == ss[n].keys[u] ==> t == u
  {
    if n > 0 {
      OneLiveTablePerKey(ss, es, n - 1);
      CoherentKept(ss[n - 1], es[n - 1]);
    }
  }

  class Gbl {
    var tables: map<Key, TableId>
    var keys: seq<Key>
    var live: set<TableId>

    ghost function Now(): State
      reads this
    {
      State(tables, keys, live)
    }

    constructor ()
      ensures Now() == State(map[], [], {})
    {
      tables, keys, live := map[], [], {};
    }

    /** lookup(); `None` is the exception for an unknown factory or a throwing constructor.  A first update
        that throws only clears the table's `last_ok`. */
    method Lookup(key: Key, making: Making, firstUpdateThrows: bool) returns (tbl: Option<TableId>, lastOk: bool)
      modifies this
      ensures tbl == old(Answer(Now(), key, making))
      ensures Now() == old(Next(Now(), Asked(key, making)))
      ensures lastOk <==> tbl.Some? && (old(Found(Now(), key)).Some? || !firstUpdateThrows)
    {
      if key in tables {
        if tables[key] in live {
          return Some(tables[key]), true;
        }
        tables := tables - {key};
      }
      if !making.Makes? {
        assert tables == old(tables) - {key};
        return None, false;
      }
      var t := |keys|;
      keys := keys + [key];
      live := live + {t};
      lastOk := !firstUpdateThrows;
      if key !in tables {
        tables := tables[key := t];
      }
      tbl := Some(t);
    }
  }
}
