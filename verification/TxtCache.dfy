/** The TXT cache of the sender verifier. A lookup holds the lock twice, with
    the resolver call in between, so any number of lookups interleave. */
module TxtCache {
  import Text
  import opened Wrappers

  /** Positive, "no record" and transient answers of the resolver. */
  datatype Answer = Values(values: seq<string>) | NoRecord | Transient

  const TXT_TTL: int := 300
  const TXT_NEGATIVE_TTL: int := 60
  const CACHE_MAX: nat := 1024

  function Ttl(answer: Answer): int {
    if answer.Values? then TXT_TTL else TXT_NEGATIVE_TTL
  }

  datatype Entry = Entry(answer: Answer, expires: int)

  /** The mutable fields: the map and the insertion order of its names. */
  datatype State = State(cache: map<string, Entry>, order: seq<string>)

  function Lookup(s: State, name: string, now: int): Option<Answer> {
    if name in s.cache && now < s.cache[name].expires then Some(s.cache[name].answer) else None
  }

  /** The second critical section, for a lookup begun at `begun`. */
  function Insert(s: State, name: string, answer: Answer, begun: int): State
    requires |s.cache| >= CACHE_MAX ==> s.order != []
  {
    if answer.Transient? then s
    else
      var t :=
        if name in s.cache then s
        else if |s.cache| >= CACHE_MAX then State(s.cache - {s.order[0]}, s.order[1..] + [name])
        else State(s.cache, s.order + [name]);
      t.(cache := t.cache[name := Entry(answer, begun + Ttl(answer))])
  }

  class Verifier {
    var cache: map<string, Entry>
    var cacheOrder: seq<string>

    function View(): State
      reads this
    {
      State(cache, cacheOrder)
    }

    constructor ()
      ensures View() == State(map[], [])
    {
      cache, cacheOrder := map[], [];
    }

    /** Under the lock: a fresh entry answers at once. */
    method Probe(name: string, now: int) returns (hit: Option<Answer>)
      ensures hit == Lookup(View(), name, now)
    {
      hit := None;
      if name in cache && now < cache[name].expires {
        hit := Some(cache[name].answer);
      }
    }

    /** Under the lock again: store what the resolver answered. */
    method Store(name: string, answer: Answer, begun: int)
      requires OrderMatches(View())
      modifies this
      ensures View() == Insert(old(View()), name, answer, begun)
    {
      if answer.Transient? {
        return;
      }
      if name !in cache {
        if |cache| >= CACHE_MAX {
          var oldest := cacheOrder[0];
          cache := cache - {oldest};
          cacheOrder := cacheOrder[1..];
        }
        cacheOrder := cacheOrder + [name];
      }
      cache := cache[name := Entry(answer, begun + Ttl(answer))];
    }
  }

  /** The order lists the cached names, each once, and they are at most 1024. */
  ghost predicate OrderMatches(s: State)
    ensures OrderMatches(s) && |s.cache| >= CACHE_MAX ==> s.order != []
  {
    && Text.Enumerates(s.order, s.cache.Keys)
    && |s.cache.Keys| <= CACHE_MAX
    && |s.order| == |s.cache.Keys|
  }

  // ---- interleaved lookups ----

  type LookupId = nat

  /** What one finished lookup asked, got and when it began. */
  datatype Resolved = Resolved(name: string, answer: Answer, begun: int)

  datatype System = System(state: State, pending: map<LookupId, (string, int)>, history: set<Resolved>)

  /** Begin runs the first critical section; Finish the second, with whatever
      the resolver answered. */
  datatype Op = Begin(id: LookupId, name: string, now: int) | Finish(id: LookupId, answer: Answer)

  ghost predicate Enabled(s: System, op: Op) {
    match op
    case Begin(id, _, _) => id !in s.pending
    case Finish(id, _) => id in s.pending
  }

  ghost function Step(s: System, op: Op): System
    requires OrderMatches(s.state) && Enabled(s, op)
  {
    match op
    case Begin(id, name, now) =>
      if Lookup(s.state, name, now).Some? then s else s.(pending := s.pending[id := (name, now)])
    case Finish(id, answer) =>
      var (name, begun) := s.pending[id];
      System(Insert(s.state, name, answer, begun), s.pending - {id}, s.history + {Resolved(name, answer, begun)})
  }

  /** Each entry is the answer of some finished lookup for that name and expires
      one TTL after that lookup began. */
  ghost predicate EntriesFromHistory(s: System) {
    forall name :: name in s.state.cache ==>
      var e := s.state.cache[name];
      !e.answer.Transient? && Resolved(name, e.answer, e.expires - Ttl(e.answer)) in s.history
  }

  ghost predicate Inv(s: System) {
    OrderMatches(s.state) && EntriesFromHistory(s)
  }

  lemma DropOldest(order: seq<string>, names: set<string>)
    requires Text.Enumerates(order, names) && order != []
    ensures Text.Enumerates(order[1..], names - {order[0]})
  {
    assert order == [order[0]] + order[1..];
  }

  lemma AppendNew(order: seq<string>, names: set<string>, name: string)
    requires Text.Enumerates(order, names) && name !in names
    ensures Text.Enumerates(order + [name], names + {name})
  {
    assert forall i :: 0 <= i < |order| ==> order[i] in names;
  }

  lemma AppendKeepsOrder(s: State, name: string, e: Entry)
    requires OrderMatches(s) && name !in s.cache && |s.cache| < CACHE_MAX
    ensures OrderMatches(State(s.cache[name := e], s.order + [name]))
  {
    hide Text.Enumerates;
    AppendNew(s.order, s.cache.Keys, name);
    assert s.cache[name := e].Keys == s.cache.Keys + {name};
  }

  lemma EvictKeepsOrder(s: State, name: string, e: Entry)
    requires OrderMatches(s) && name !in s.cache && |s.cache| >= CACHE_MAX
    ensures OrderMatches(State((s.cache - {s.order[0]})[name := e], s.order[1..] + [name]))
  {
    hide Text.Enumerates;
    var names, oldest, rest := s.cache.Keys, s.order[0], s.order[1..];
    OldestIsCached(s.order, names);
    DropOldest(s.order, names);
    AppendNew(rest, names - {oldest}, name);
    var cache := s.cache - {oldest};
    assert cache.Keys == names - {oldest};
    assert cache[name := e].Keys == names - {oldest} + {name};
  }

  lemma InsertKeepsOrder(s: State, name: string, answer: Answer, begun: int)
    requires OrderMatches(s)
    ensures OrderMatches(Insert(s, name, answer, begun))
  {
    hide Text.Enumerates;
    if !answer.Transient? {
      var e := Entry(answer, begun + Ttl(answer));
      if name in s.cache {
        assert s.cache[name := e].Keys == s.cache.Keys;
      } else if |s.cache| >= CACHE_MAX {
        EvictKeepsOrder(s, name, e);
      } else {
        AppendKeepsOrder(s, name, e);
      }
    }
  }

  lemma OldestIsCached(order: seq<string>, names: set<string>)
    requires Text.Enumerates(order, names) && order != []
    ensures order[0] in names
  {
  }

  lemma StepKeepsEntries(s: System, op: Op)
    requires Inv(s) && Enabled(s, op)
    ensures EntriesFromHistory(Step(s, op))
  {
    hide Text.Enumerates;
    if op.Finish? {
      var (name, begun) := s.pending[op.id];
      var t := Step(s, op);
      forall other | other in t.state.cache
        ensures var e := t.state.cache[other];
                !e.answer.Transient? && Resolved(other, e.answer, e.expires - Ttl(e.answer)) in t.history
      {
        if other != name || op.answer.Transient? {
          assert other in s.state.cache && t.state.cache[other] == s.state.cache[other];
        }
      }
    }
  }

  lemma StepKeeps(s: System, op: Op)
    requires Inv(s) && Enabled(s, op)
    ensures Inv(Step(s, op))
  {
    StepKeepsEntries(s, op);
    hide OrderMatches, EntriesFromHistory;
    if op.Finish? {
      InsertKeepsOrder(s.state, s.pending[op.id].0, op.answer, s.pending[op.id].1);
    }
  }

  ghost predicate Reaches(s: System, ops: seq<Op>, t: System)
    decreases |ops|
  {
    if ops == [] then s == t
    else OrderMatches(s.state) && Enabled(s, ops[0]) && Reaches(Step(s, ops[0]), ops[1..], t)
  }

  const EMPTY: System := System(State(map[], []), map[], {})

  lemma EmptyInv()
    ensures Inv(EMPTY)
  {
  }

  lemma {:induction false} RunKeeps(s: System, ops: seq<Op>, t: System)
    requires Inv(s) && Reaches(s, ops, t)
    ensures Inv(t)
    decreases |ops|
  {
    if ops != [] {
      hide Inv;
      StepKeeps(s, ops[0]);
      RunKeeps(Step(s, ops[0]), ops[1..], t);
    }
  }

  lemma OrderIsBounded(s: State)
    requires OrderMatches(s)
    ensures |s.cache| <= 1024
  {
  }

  /** In every reachable state the queue matches the map, both hold at most 1024
      names, and a hit at `now` repeats what the resolver answered for that name
      to a lookup begun less than the answer's TTL before. */
  lemma BoundedAndFresh(ops: seq<Op>, t: System, name: string, now: int)
    requires Reaches(EMPTY, ops, t)
    ensures OrderMatches(t.state) && |t.state.cache| <= 1024
    ensures Lookup(t.state, name, now).Some? ==>
              exists r :: r in t.history && r.name == name && r.answer == Lookup(t.state, name, now).value
                && !r.answer.Transient? && now - r.begun < if r.answer.Values? then 300 else 60
  {
    hide Reaches, OrderMatches;
    EmptyInv();
    RunKeeps(EMPTY, ops, t);
    OrderIsBounded(t.state);
    if Lookup(t.state, name, now).Some? {
      var e := t.state.cache[name];
      assert Resolved(name, e.answer, e.expires - Ttl(e.answer)) in t.history;
    }
  }

  /** A full cache gives up its oldest name, never a fresher one. */
  lemma EvictionIsFifo(s: State, name: string, answer: Answer, begun: int)
    requires OrderMatches(s) && !answer.Transient? && name !in s.cache
    ensures var t := Insert(s, name, answer, begun);
            && name in t.cache && t.cache[name].answer == answer
            && t.order[|t.order| - 1] == name
            && (|s.cache| < 1024 ==> t.order == s.order + [name])
            && (|s.cache| == 1024 ==> t.order == s.order[1..] + [name] && s.order[0] !in t.cache)
            && forall other :: other in s.cache && (|s.cache| < 1024 || other != s.order[0]) ==>
               other in t.cache && t.cache[other] == s.cache[other]
  {
    assert |s.cache| >= CACHE_MAX ==> s.order[0] in s.order;
  }

  /** What was stored is served until its time is up: 300 seconds after the
      lookup began for a positive answer, 60 for a "no record". A transient answer
      is never stored. */
  lemma StoredIsServed(s: State, name: string, answer: Answer, begun: int, now: int)
    requires OrderMatches(s)
    ensures var t := Insert(s, name, answer, begun);
            match answer
            case Values(_) => Lookup(t, name, now) == if now < begun + 300 then Some(answer) else None
            case NoRecord => Lookup(t, name, now) == if now < begun + 60 then Some(answer) else None
            case Transient => t == s
  {
    hide OrderMatches;
  }

  // ---- how long a name stays ----

  /** The op stores an answer. */
  predicate Stores(op: Op) {
    op.Finish? && !op.answer.Transient?
  }

  function StoresIn(ops: seq<Op>): nat {
    if ops == [] then 0 else (if Stores(ops[0]) then 1 else 0) + StoresIn(ops[1..])
  }

  /** Some op stores a new answer for the name. */
  ghost predicate Refreshes(s: System, ops: seq<Op>, name: string)
    decreases |ops|
  {
    ops != [] && OrderMatches(s.state) && Enabled(s, ops[0]) &&
    ((Stores(ops[0]) && s.pending[ops[0].id].0 == name) || Refreshes(Step(s, ops[0]), ops[1..], name))
  }

  /** How many stores the name at the place survives: those that fill the cache and
      those that evict the names before it. */
  function Margin(s: State, place: nat): int {
    place + 1024 - |s.order|
  }

  ghost predicate At(s: State, name: string, place: nat) {
    place < |s.order| && s.order[place] == name
  }

  lemma InsertKeepsPlace(s: State, name: string, place: nat, stored: string, answer: Answer, begun: int)
    returns (after: nat)
    requires OrderMatches(s) && At(s, name, place) && (answer.Transient? || Margin(s, place) > 0)
    ensures var t := Insert(s, stored, answer, begun);
            && At(t, name, after) && name in s.cache && name in t.cache
            && Margin(t, after) >= Margin(s, place) - (if answer.Transient? then 0 else 1)
            && (answer.Transient? || stored != name ==> t.cache[name] == s.cache[name])
  {
    assert name in s.order;
    after := place;
    if !answer.Transient? && stored !in s.cache && |s.cache| >= CACHE_MAX {
      assert s.order[0] != s.order[place];
      after := place - 1;
    }
  }

  /** A name stays cached through as many further stores as its margin allows, a
      name stored last through 1023 of them, and its answer stays the same unless
      a lookup of that very name stores another. */
  lemma {:induction false} NameStays(s: System, ops: seq<Op>, t: System, name: string, place: nat)
    requires Inv(s) && Reaches(s, ops, t) && At(s.state, name, place) && StoresIn(ops) <= Margin(s.state, place)
    ensures name in s.state.cache && name in t.state.cache
    ensures !Refreshes(s, ops, name) ==> t.state.cache[name] == s.state.cache[name]
    decreases |ops|
  {
    hide Inv, Insert, At, Margin, OrderMatches;
    InvMatches(s);
    PlaceIsCached(s.state, name, place);
    if ops != [] {
      var op, u := ops[0], Step(s, ops[0]);
      StepKeeps(s, op);
      var after := place;
      if op.Finish? {
        after := InsertKeepsPlace(s.state, name, place, s.pending[op.id].0, op.answer, s.pending[op.id].1);
      }
      NameStays(u, ops[1..], t, name, after);
    }
  }

  lemma InvMatches(s: System)
    requires Inv(s)
    ensures OrderMatches(s.state)
  {
  }

  lemma PlaceIsCached(s: State, name: string, place: nat)
    requires OrderMatches(s) && At(s, name, place)
    ensures name in s.cache
  {
  }

  lemma LastHasMargin(s: State, name: string, answer: Answer, begun: int)
    requires OrderMatches(s) && !answer.Transient? && name !in s.cache
    ensures var t := Insert(s, name, answer, begun);
            At(t, name, |t.order| - 1) && Margin(t, |t.order| - 1) == 1023
  {
    EvictionIsFifo(s, name, answer, begun);
  }
}
