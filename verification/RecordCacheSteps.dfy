/** The record cache of orm/rdbms/caches.go at the grain of its locks: calls overlap, each
    wrapper method is one or two critical sections, and the set of aliases that a primary entry
    lists is an object of its own, which a call can hold on to after the entry is gone. */
module RecordCacheSteps {
  import opened Options
  import opened RecordCacheSpec
  import opened RecordCacheProofs

  // ---------------------------------------------------------------------------
  // The machine
  // ---------------------------------------------------------------------------

  /** What an entry holds: a record and which set of aliases it lists, or nothing, for a
      condition key. The field `refKeys` of the entry itself stays empty here. */
  datatype Slot = Record(bean: Bean, refs: nat) | Alias

  type Entry = CacheElement<Slot>

  /** A set of aliases; `owner` is the primary key whose entry it was made for. */
  datatype Refs = Refs(owner: string, keys: set<string>)

  /** What a call still has to do, section by section. `Unlink` and `Discard` are the two halves
      of `remove`, and of `get` with removal; `Take` is the latter where a primary entry is
      replaced. `Range` and `Visit` go through a set of aliases: `due` were in it at the start,
      `seen` have been visited. `Look` reads the primary entry, `List` adds the alias to the set
      that was read, or to a new one. */
  datatype Todo =
    | Wipe
    | Unlink(key: string)
    | Discard(key: string, item: Entry)
    | Take(key: string)
    | Range(refs: nat)
    | Visit(refs: nat, due: set<string>, seen: set<string>)
    | Store(key: string, bean: Bean, expiresAt: int)
    | Look(key: string, pkKey: string, bean: Bean, expiresAt: int)
    | List(key: string, pkKey: string, bean: Bean, expiresAt: int, refs: nat)
    | Enter(e: Entry)
    | Fetch(key: string)
    | Peek(key: string, now: int, cloneResult: bool)
    | PeekPrimary(key: string, pkKey: string, now: int, cloneResult: bool)

  /** The entries with their queue, the sets of aliases, and the calls under way. */
  datatype Cache = Cache(w: Wrapper<Slot>, sets: seq<Refs>, calls: seq<seq<Todo>>)

  datatype Act =
    | StartSet(key: string, pkKey: string, bean: Bean, expiresAt: int, noPkColumns: bool)
    | StartDel(key: string)
    | StartGet(key: string, now: int, cloneResult: bool)
    | CleanUp(now: int)
    | Run(c: nat, pick: Option<string>)

  function Program(a: Act): seq<Todo> {
    match a
    case StartSet(key, pkKey, bean, expiresAt, noPkColumns) =>
      if CloneBean(bean).None? then []
      else
        (if noPkColumns && pkKey == "" then [Wipe] else [])
        + if StoresPrimary(key, pkKey) then [Take(key), Store(key, bean, expiresAt)]
          else [Unlink(key), Look(key, pkKey, bean, expiresAt)]
    case StartDel(key) => [Fetch(key)]
    case StartGet(key, now, cloneResult) => [Peek(key, now, cloneResult)]
    case _ => []
  }

  /** The aliases in a set. */
  function In(sets: seq<Refs>, refs: nat): set<string> {
    if refs < |sets| then sets[refs].keys else {}
  }

  function Primary(bean: Bean, refs: nat, key: string, expiresAt: int): Entry {
    CacheElement(expiresAt, key, "", {}, Record(bean, refs))
  }

  /** What is left to do of `t` after one section. */
  function Rest(w: Wrapper<Slot>, sets: seq<Refs>, t: Todo, pick: Option<string>): seq<Todo> {
    var objects := w.objects;
    match t
    case Unlink(key) => if key in objects then [Discard(key, objects[key])] else []
    case Take(key) =>
      if key !in objects then []
      else [Discard(key, objects[key])] + if objects[key].data.Record? then [Range(objects[key].data.refs)] else []
    case Range(refs) => [Visit(refs, In(sets, refs), {})]
    case Visit(refs, due, seen) =>
      if pick.Some? then [Unlink(pick.value), Visit(refs, due, seen + {pick.value})] else []
    case Look(key, pkKey, bean, expiresAt) =>
      if pkKey !in objects then [List(key, pkKey, bean, expiresAt, |sets|)]
      else if objects[pkKey].data.Alias? then [Unlink(pkKey), List(key, pkKey, bean, expiresAt, |sets|)]
      else [Unlink(pkKey), List(key, pkKey, bean, expiresAt, objects[pkKey].data.refs)]
    case List(key, pkKey, bean, expiresAt, refs) =>
      [Enter(Primary(bean, refs, pkKey, expiresAt)), Enter(CacheElement(expiresAt, key, pkKey, {}, Alias))]
    case Fetch(key) =>
      if key !in objects then []
      else (if objects[key].data.Record? then [Range(objects[key].data.refs)] else []) + [Unlink(key)]
    case Peek(key, now, cloneResult) =>
      if key !in objects then []
      else if now > objects[key].expiresAt then [Unlink(key)]
      else if objects[key].depKey != "" then [PeekPrimary(key, objects[key].depKey, now, cloneResult)]
      else if Readable(objects[key], cloneResult) then [] else [Unlink(key)]
    case PeekPrimary(key, pkKey, now, cloneResult) =>
      if pkKey !in objects then [Unlink(key)]
      else if now <= objects[pkKey].expiresAt && Readable(objects[pkKey], cloneResult) then []
      else [Unlink(key), Unlink(pkKey)]
    case _ => []
  }

  predicate Readable(e: Entry, cloneResult: bool) {
    e.data.Record? && (cloneResult ==> e.data.bean.encodable)
  }

  /** The sets of aliases after one section of `t`. */
  function Sets(w: Wrapper<Slot>, sets: seq<Refs>, t: Todo): seq<Refs> {
    match t
    case Store(key, _, _) => sets + [Refs(key, {})]
    case Look(_, pkKey, _, _) =>
      if pkKey in w.objects && w.objects[pkKey].data.Record? then sets else sets + [Refs(pkKey, {})]
    case List(key, _, _, _, refs) => if refs < |sets| then sets[refs := Refs(sets[refs].owner, sets[refs].keys + {key})] else sets
    case _ => sets
  }

  /** The entries after it. */
  function Entries(w: Wrapper<Slot>, sets: seq<Refs>, t: Todo): Wrapper<Slot> {
    match t
    case Wipe => Applied(w, Wipes)
    case Discard(key, item) => Applied(w, Drops(key, item))
    case Store(key, bean, expiresAt) => Applied(w, Enters(Primary(bean, |sets|, key, expiresAt)))
    case Enter(e) => Applied(w, Enters(e))
    case _ => w
  }

  /** A visit goes on while there is something to visit, and may end when all that was in the
      set at its start has been visited. */
  predicate CanRun(sets: seq<Refs>, t: Todo, pick: Option<string>) {
    t.Visit? ==> if pick.Some? then pick.value in In(sets, t.refs) - t.seen else t.due <= t.seen
  }

  function Ran(s: Cache, c: nat, pick: Option<string>): Cache
    requires c < |s.calls| && s.calls[c] != []
  {
    var t := s.calls[c][0];
    Cache(Entries(s.w, s.sets, t), Sets(s.w, s.sets, t), s.calls[c := Rest(s.w, s.sets, t, pick) + s.calls[c][1..]])
  }

  predicate CanAct(s: Cache, a: Act) {
    a.Run? ==> a.c < |s.calls| && s.calls[a.c] != [] && CanRun(s.sets, s.calls[a.c][0], a.pick)
  }

  function Do(s: Cache, a: Act): Cache
    requires CanAct(s, a)
  {
    match a
    case Run(c, pick) => Ran(s, c, pick)
    case CleanUp(now) => s.(w := Applied(s.w, Sweeps(now)))
    case _ => s.(calls := s.calls + [Program(a)])
  }

  const EMPTY := Cache(Wrapper(map[], []), [], [])

  /** Every interleaving of any number of calls and sweeps. */
  ghost predicate Interleaving(states: seq<Cache>, acts: seq<Act>) {
    && |states| == |acts| + 1 && states[0] == EMPTY
    && forall i :: 0 <= i < |acts| ==> CanAct(states[i], acts[i]) && states[i + 1] == Do(states[i], acts[i])
  }

  // ---------------------------------------------------------------------------
  // The invariant
  // ---------------------------------------------------------------------------

  /** The set was made for this key. */
  predicate Owned(sets: seq<Refs>, refs: nat, key: string) {
    refs < |sets| && sets[refs].owner == key
  }

  /** Records can be copied, and list a set made for their key. */
  predicate Known(sets: seq<Refs>, e: Entry) {
    e.data.Record? ==> e.data.bean.encodable && Owned(sets, e.data.refs, e.key) && e.depKey == ""
  }

  /** What a call is about to do is of that kind, and what it is about to discard was read
      under its key. */
  predicate Sound(sets: seq<Refs>, t: Todo) {
    match t
    case Discard(key, item) => item.key == key
    case Store(_, bean, _) => bean.encodable
    case Look(_, _, bean, _) => bean.encodable
    case List(_, pkKey, bean, _, refs) => bean.encodable && Owned(sets, refs, pkKey)
    case Enter(e) => Known(sets, e)
    case _ => true
  }

  ghost predicate Inv(s: Cache) {
    && Mirrored(s.w)
    && (forall k :: k in s.w.objects ==> Known(s.sets, s.w.objects[k]))
    && forall c, i :: 0 <= c < |s.calls| && 0 <= i < |s.calls[c]| ==> Sound(s.sets, s.calls[c][i])
  }

  /** Sets are made and grow. */
  predicate Grows(before: seq<Refs>, after: seq<Refs>) {
    |before| <= |after| && forall r :: 0 <= r < |before| ==> before[r].owner == after[r].owner
  }

  lemma RestIsSound(s: Cache, t: Todo, pick: Option<string>)
    requires Inv(s) && Sound(s.sets, t)
    ensures Grows(s.sets, Sets(s.w, s.sets, t))
    ensures forall i :: 0 <= i < |Rest(s.w, s.sets, t, pick)| ==> Sound(Sets(s.w, s.sets, t), Rest(s.w, s.sets, t, pick)[i])
  {
  }

  lemma EntriesKept(s: Cache, t: Todo)
    requires Inv(s) && Sound(s.sets, t)
    ensures Mirrored(Entries(s.w, s.sets, t))
    ensures forall k :: k in Entries(s.w, s.sets, t).objects ==> Known(Sets(s.w, s.sets, t), Entries(s.w, s.sets, t).objects[k])
  {
    match t
    case Discard(key, item) => DropsMirrored(s.w, key, item);
    case Store(key, bean, expiresAt) => PutMirrored(s.w, key, Primary(bean, |s.sets|, key, expiresAt));
    case Enter(e) => PutMirrored(s.w, e.key, e);
    case _ =>
  }

  lemma CallsSound(s: Cache, c: nat, pick: Option<string>, d: nat, i: nat)
    requires Inv(s) && c < |s.calls| && s.calls[c] != []
    requires d < |s.calls| && i < |Ran(s, c, pick).calls[d]|
    ensures Sound(Ran(s, c, pick).sets, Ran(s, c, pick).calls[d][i])
  {
    var t := s.calls[c][0];
    RestIsSound(s, t, pick);
    if d == c && i >= |Rest(s.w, s.sets, t, pick)| {
      assert Ran(s, c, pick).calls[c][i] == s.calls[c][1 + i - |Rest(s.w, s.sets, t, pick)|];
    }
  }

  lemma DoKeeps(s: Cache, a: Act)
    requires Inv(s) && CanAct(s, a)
    ensures Inv(Do(s, a))
  {
    match a
    case Run(c, pick) =>
      EntriesKept(s, s.calls[c][0]);
      forall d, i | 0 <= d < |s.calls| && 0 <= i < |Ran(s, c, pick).calls[d]|
        ensures Sound(Ran(s, c, pick).sets, Ran(s, c, pick).calls[d][i])
      {
        CallsSound(s, c, pick, d, i);
      }
    case CleanUp(now) => SweepAllOrNothing(s.w, now);
    case _ =>
  }

  lemma {:induction false} InterleavingsKeepInv(states: seq<Cache>, acts: seq<Act>, n: nat)
    requires Interleaving(states, acts) && n < |states|
    ensures Inv(states[n])
  {
    if n > 0 {
      InterleavingsKeepInv(states, acts, n - 1);
      DoKeeps(states[n - 1], acts[n - 1]);
    }
  }

  // ---------------------------------------------------------------------------
  // Which aliases are listed
  // ---------------------------------------------------------------------------

  /** Some call has added the alias to the set, in one of the first `n` acts. */
  ghost predicate WrittenInto(states: seq<Cache>, acts: seq<Act>, n: nat, alias: string, refs: nat)
    requires Interleaving(states, acts) && n < |states|
  {
    exists i :: 0 <= i < n && Adds(states[i], acts[i], alias, refs)
  }

  predicate Adds(s: Cache, a: Act, alias: string, refs: nat)
    requires CanAct(s, a)
  {
    a.Run? && s.calls[a.c][0].List? && s.calls[a.c][0].key == alias && s.calls[a.c][0].refs == refs
  }

  lemma ActAdds(s: Cache, a: Act, alias: string, refs: nat)
    requires Inv(s) && CanAct(s, a)
    ensures alias in In(Do(s, a).sets, refs) <==> alias in In(s.sets, refs) || Adds(s, a, alias, refs)
  {
    if a.Run? {
      assert Sound(s.sets, s.calls[a.c][0]);
    }
  }

  lemma {:induction false} SetHoldsExactly(states: seq<Cache>, acts: seq<Act>, n: nat, alias: string, refs: nat)
    requires Interleaving(states, acts) && n < |states|
    ensures alias in In(states[n].sets, refs) <==> WrittenInto(states, acts, n, alias, refs)
  {
    if n > 0 {
      SetHoldsExactly(states, acts, n - 1, alias, refs);
      InterleavingsKeepInv(states, acts, n - 1);
      ActAdds(states[n - 1], acts[n - 1], alias, refs);
    }
  }

  /** The primary entry is there and lists the alias. */
  predicate Lists(s: Cache, pkKey: string, alias: string) {
    && pkKey in s.w.objects && s.w.objects[pkKey].data.Record?
    && alias in In(s.sets, s.w.objects[pkKey].data.refs)
  }

  /** In every interleaving: the present primary entry lists an alias if and only if its set
      is one that the alias was written into, which a `set` chooses when it looks, before
      others may replace the entry. */
  lemma ListedExactly(states: seq<Cache>, acts: seq<Act>, n: nat, pkKey: string, alias: string)
    requires Interleaving(states, acts) && n < |states|
    requires pkKey in states[n].w.objects && states[n].w.objects[pkKey].data.Record?
    ensures Lists(states[n], pkKey, alias)
            <==> WrittenInto(states, acts, n, alias, states[n].w.objects[pkKey].data.refs)
  {
    SetHoldsExactly(states, acts, n, alias, states[n].w.objects[pkKey].data.refs);
  }

  // ---------------------------------------------------------------------------
  // Storing a record again
  // ---------------------------------------------------------------------------

  /** An act that leaves the alias alone: its entry stays as it is, and it is added to no set. */
  ghost predicate LeavesAlone(s: Cache, a: Act, alias: string)
    requires CanAct(s, a)
  {
    && Find(Do(s, a).w, alias) == Find(s.w, alias)
    && forall r: nat :: !Adds(s, a, alias, r)
  }

  /** How far the call that stores the record under its primary key again has come with the
      aliases in `refs`, and what has become of the alias by then; it had the entry `was`. */
  ghost predicate Restoring(s: Cache, c: nat, store: Todo, refs: nat, listed: bool, alias: string, was: Option<Entry>) {
    && c < |s.calls|
    && (alias in In(s.sets, refs) <==> listed)
    && var todo, now := s.calls[c], Find(s.w, alias);
       if |todo| == 3 && todo[0].Discard? && todo[1].Range? then
         todo[0].key != alias && todo[1..] == [Range(refs), store] && now == was
       else if |todo| == 2 && todo[0].Discard? then todo[0].key != alias && todo[1] == store && !listed && now == was
       else if |todo| == 2 && todo[0].Range? then todo == [Range(refs), store] && now == was
       else if |todo| == 2 then Visiting(todo[0], refs, listed, alias) && todo[1] == store
                                && now == (if alias in todo[0].seen then None else was)
       else if |todo| == 3 then
         && Visiting(todo[1], refs, listed, alias) && todo[2] == store
         && (todo[0].Unlink? || todo[0].Discard?) && todo[0].key in todo[1].seen
         && now == (if alias in todo[1].seen && todo[0].key != alias then None else was)
         && (todo[0].key == alias && todo[0].Discard? ==> was.Some?)
       else todo == [store] && now == if listed then None else was
  }

  predicate Visiting(t: Todo, refs: nat, listed: bool, alias: string) {
    t.Visit? && t.refs == refs && (listed ==> alias in t.due) && (alias in t.seen ==> listed)
  }

  lemma OwnStepRestores(s: Cache, c: nat, pick: Option<string>, store: Todo, refs: nat, listed: bool, alias: string,
                        was: Option<Entry>)
    requires Inv(s) && CanAct(s, Run(c, pick)) && store.Store? && store.key != alias
    requires Restoring(s, c, store, refs, listed, alias, was) && s.calls[c] != [store]
    ensures Restoring(Ran(s, c, pick), c, store, refs, listed, alias, was)
  {
  }

  lemma OtherActRestores(s: Cache, a: Act, c: nat, store: Todo, refs: nat, listed: bool, alias: string, was: Option<Entry>)
    requires Inv(s) && CanAct(s, a) && LeavesAlone(s, a, alias) && !(a.Run? && a.c == c)
    requires Restoring(s, c, store, refs, listed, alias, was)
    ensures Restoring(Do(s, a), c, store, refs, listed, alias, was)
  {
    ActAdds(s, a, alias, refs);
    assert Do(s, a).calls[c] == s.calls[c];
  }

  lemma ActRestores(s: Cache, a: Act, c: nat, store: Todo, refs: nat, listed: bool, alias: string, was: Option<Entry>)
    requires Inv(s) && CanAct(s, a) && store.Store? && store.key != alias
    requires if a.Run? && a.c == c then s.calls[c] != [store] else LeavesAlone(s, a, alias)
    requires Restoring(s, c, store, refs, listed, alias, was)
    ensures Restoring(Do(s, a), c, store, refs, listed, alias, was)
  {
    if a.Run? && a.c == c {
      OwnStepRestores(s, c, a.pick, store, refs, listed, alias, was);
    } else {
      OtherActRestores(s, a, c, store, refs, listed, alias, was);
    }
  }

  /** The set of aliases that the call is going to visit; one that there is not yet when there
      is none. */
  function Visited(s: Cache, pkKey: string): nat {
    if pkKey in s.w.objects && s.w.objects[pkKey].data.Record? then s.w.objects[pkKey].data.refs else |s.sets|
  }

  lemma TakeRestores(s: Cache, c: nat, pick: Option<string>, store: Todo, alias: string)
    requires c < |s.calls| && store.Store? && store.key != alias && s.calls[c] == [Take(store.key), store]
    ensures Restoring(Ran(s, c, pick), c, store, Visited(s, store.key), Lists(s, store.key, alias), alias, Find(s.w, alias))
  {
  }

  /** From act `m` on, in which call `c` reads the entry that it is going to replace, other
      calls leave the alias alone. */
  ghost predicate AloneWith(states: seq<Cache>, acts: seq<Act>, m: nat, n: nat, c: nat, alias: string)
    requires Interleaving(states, acts) && n < |states|
  {
    forall i :: m < i < n && !(acts[i].Run? && acts[i].c == c) ==> LeavesAlone(states[i], acts[i], alias)
  }

  lemma {:induction false} RestoringOn(states: seq<Cache>, acts: seq<Act>, m: nat, n: nat, c: nat, store: Todo, alias: string)
    requires Interleaving(states, acts) && m < n < |states| && AloneWith(states, acts, m, n, c, alias)
    requires store.Store? && store.key != alias
    requires acts[m].Run? && acts[m].c == c && states[m].calls[c] == [Take(store.key), store]
    requires forall i :: m < i < n && acts[i].Run? && acts[i].c == c ==> states[i].calls[c] != [store]
    ensures Restoring(states[n], c, store, Visited(states[m], store.key), Lists(states[m], store.key, alias), alias,
                      Find(states[m].w, alias))
  {
    var s, a := states[n - 1], acts[n - 1];
    if n == m + 1 {
      TakeRestores(s, c, a.pick, store, alias);
    } else {
      RestoringOn(states, acts, m, n - 1, c, store, alias);
      InterleavingsKeepInv(states, acts, n - 1);
      ActRestores(s, a, c, store, Visited(states[m], store.key), Lists(states[m], store.key, alias), alias,
                  Find(states[m].w, alias));
    }
  }

  /** Call `c` stores a record under its primary key again: it reads the entry that it is going
      to replace in act `m`, and enters the new one in act `n`. */
  ghost predicate Restores(states: seq<Cache>, acts: seq<Act>, m: nat, n: nat, c: nat, store: Todo)
    requires Interleaving(states, acts)
  {
    && m < n < |acts| && store.Store?
    && acts[m].Run? && acts[m].c == c && states[m].calls[c] == [Take(store.key), store]
    && acts[n].Run? && acts[n].c == c && states[n].calls[c] == [store]
    && forall i :: m < i < n && acts[i].Run? && acts[i].c == c ==> states[i].calls[c] != [store]
  }

  /** What storing a record again does to an alias, in every interleaving in which others leave
      the alias alone meanwhile, whatever they do to the record: its entry is dropped if and only
      if the primary entry that was read is there and lists it; otherwise it stays as it was. */
  lemma RestoreDropsExactly(states: seq<Cache>, acts: seq<Act>, m: nat, n: nat, c: nat, store: Todo, alias: string)
    requires Interleaving(states, acts) && Restores(states, acts, m, n, c, store)
    requires AloneWith(states, acts, m, n, c, alias) && alias != store.key
    ensures Find(states[n + 1].w, alias) == if Lists(states[m], store.key, alias) then None else Find(states[m].w, alias)
    ensures states[n + 1].w.objects.Keys >= {store.key}
    ensures states[n + 1].w.objects[store.key] == Primary(store.bean, |states[n].sets|, store.key, store.expiresAt)
  {
    RestoringOn(states, acts, m, n, c, store, alias);
    assert states[n + 1] == Ran(states[n], c, acts[n].pick);
  }

  /** An entry with the record and the aliases it stands for. */
  function Shown(sets: seq<Refs>, e: Entry): CacheElement<Option<Bean>> {
    CacheElement(e.expiresAt, e.key, e.depKey, if e.data.Record? then In(sets, e.data.refs) else {},
                 if e.data.Record? then Some(e.data.bean) else None)
  }

  function View(w: Wrapper<Slot>, sets: seq<Refs>): Wrapper<Option<Bean>> {
    Wrapper(map k | k in w.objects :: Shown(sets, w.objects[k]), w.timers)
  }

  /** In every interleaving, right after a record has been stored again, an alias that others
      have left alone meanwhile hits, and then with the new record, if and only if neither has
      expired and the primary entry that was replaced was missing or had a set that the alias
      was never written into. */
  lemma AliasHitsAgainExactly(states: seq<Cache>, acts: seq<Act>, m: nat, n: nat, c: nat, store: Todo, alias: string,
                              now: int, cloneResult: bool)
    requires Interleaving(states, acts) && Restores(states, acts, m, n, c, store)
    requires AloneWith(states, acts, m, n, c, alias) && alias != store.key && store.key != ""
    requires alias in states[m].w.objects && states[m].w.objects[alias].depKey == store.key
    ensures var objects := states[m].w.objects;
            var listed := && store.key in objects && objects[store.key].data.Record?
                          && WrittenInto(states, acts, m, alias, objects[store.key].data.refs);
            Get(View(states[n + 1].w, states[n + 1].sets), alias, now, cloneResult).1
            == if !listed && now <= objects[alias].expiresAt && now <= store.expiresAt then Some(store.bean) else None
  {
    RestoreDropsExactly(states, acts, m, n, c, store, alias);
    InterleavingsKeepInv(states, acts, m);
    InterleavingsKeepInv(states, acts, n);
    assert Sound(states[n].sets, states[n].calls[c][0]);
    var objects := states[m].w.objects;
    if store.key in objects && objects[store.key].data.Record? {
      ListedExactly(states, acts, m, store.key, alias);
    }
  }
}
