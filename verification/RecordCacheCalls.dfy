/** Calls of the record cache that nothing overlaps: their critical sections in a row do what
    the operations of `RecordCacheSpec` do; and a run of overlapping calls in which an alias
    outlives the renewal of its record. */
module RecordCacheCalls {
  import opened Options
  import opened RecordCacheSpec
  import opened RecordCacheProofs
  import opened RecordCacheSteps

  // ---------------------------------------------------------------------------
  // Sections in a row
  // ---------------------------------------------------------------------------

  /** The cache after `acts`, if each of them is possible. */
  function DoAll(s: Cache, acts: seq<Act>): Option<Cache> {
    if acts == [] then Some(s)
    else
      var front := DoAll(s, acts[..|acts| - 1]);
      if front.Some? && CanAct(front.value, acts[|acts| - 1]) then Some(Do(front.value, acts[|acts| - 1])) else None
  }

  lemma DoAllSnoc(s: Cache, acts: seq<Act>, t: Cache, a: Act)
    requires DoAll(s, acts) == Some(t) && CanAct(t, a)
    ensures DoAll(s, acts + [a]) == Some(Do(t, a))
  {
    assert (acts + [a])[..|acts|] == acts;
  }

  ghost predicate OnlyRuns(acts: seq<Act>, c: nat) {
    forall a :: a in acts ==> a.Run? && a.c == c
  }

  /** Sections of call `c`, and nothing in between, lead from `s` to `t`. */
  ghost predicate Goes(s: Cache, c: nat, t: Cache) {
    exists acts :: OnlyRuns(acts, c) && DoAll(s, acts) == Some(t)
  }

  /** Call `c` of `s` gets to these entries and sets, and this is what it has left. */
  ghost predicate Reaches(s: Cache, c: nat, w: Wrapper<Slot>, sets: seq<Refs>, todo: seq<Todo>) {
    c < |s.calls| && Goes(s, c, Cache(w, sets, s.calls[c := todo]))
  }

  lemma ReachesStart(s: Cache, c: nat)
    requires c < |s.calls|
    ensures Reaches(s, c, s.w, s.sets, s.calls[c])
  {
    assert s.calls[c := s.calls[c]] == s.calls;
    assert OnlyRuns([], c) && DoAll(s, []) == Some(s);
  }

  lemma ReachesNext(s: Cache, c: nat, w: Wrapper<Slot>, sets: seq<Refs>, t: Todo, rest: seq<Todo>, pick: Option<string>)
    requires Reaches(s, c, w, sets, [t] + rest) && CanRun(sets, t, pick)
    ensures Reaches(s, c, Entries(w, sets, t), Sets(w, sets, t), Rest(w, sets, t, pick) + rest)
  {
    var acts :| OnlyRuns(acts, c) && DoAll(s, acts) == Some(Cache(w, sets, s.calls[c := [t] + rest]));
    var u, next := Cache(w, sets, s.calls[c := [t] + rest]), Rest(w, sets, t, pick) + rest;
    assert u.calls[c][0] == t && u.calls[c][1..] == rest;
    DoAllSnoc(s, acts, u, Run(c, pick));
    assert s.calls[c := [t] + rest][c := next] == s.calls[c := next];
    assert OnlyRuns(acts + [Run(c, pick)], c);
  }

  /** Both halves of `remove`. */
  lemma ReachesUnlinked(s: Cache, c: nat, w: Wrapper<Slot>, sets: seq<Refs>, key: string, rest: seq<Todo>)
    requires Reaches(s, c, w, sets, [Unlink(key)] + rest)
    ensures Reaches(s, c, Remove(w, key), sets, rest)
  {
    ReachesNext(s, c, w, sets, Unlink(key), rest, None);
    if key in w.objects {
      ReachesNext(s, c, w, sets, Discard(key, w.objects[key]), rest, None);
    }
    assert [] + rest == rest;
  }

  lemma ReachesUnlinkedLast(s: Cache, c: nat, w: Wrapper<Slot>, sets: seq<Refs>, key: string)
    requires Reaches(s, c, w, sets, [Unlink(key)])
    ensures Reaches(s, c, Remove(w, key), sets, [])
  {
    assert [Unlink(key)] == [Unlink(key)] + [];
    ReachesUnlinked(s, c, w, sets, key, []);
  }

  lemma ViewRemove(w: Wrapper<Slot>, sets: seq<Refs>, key: string)
    ensures View(Remove(w, key), sets) == Remove(View(w, sets), key)
  {
    var a, b := View(Remove(w, key), sets), Remove(View(w, sets), key);
    assert a.objects == b.objects;
  }

  lemma {:induction false} ViewRemoveAll(w: Wrapper<Slot>, sets: seq<Refs>, order: seq<string>)
    ensures View(RemoveAll(w, order), sets) == RemoveAll(View(w, sets), order)
  {
    if order != [] {
      ViewRemoveAll(w, sets, order[..|order| - 1]);
      ViewRemove(RemoveAll(w, order[..|order| - 1]), sets, order[|order| - 1]);
    }
  }

  lemma ViewPut(w: Wrapper<Slot>, sets: seq<Refs>, e: Entry)
    ensures View(Put(w, e.key, e), sets) == Put(View(w, sets), e.key, Shown(sets, e))
  {
    assert View(Put(w, e.key, e), sets).objects == Put(View(w, sets), e.key, Shown(sets, e)).objects;
  }

  // ---------------------------------------------------------------------------
  // Storing under a condition key
  // ---------------------------------------------------------------------------

  /** Adding to a set shows in no entry but those that list it. */
  lemma OthersShowTheSame(w: Wrapper<Slot>, sets: seq<Refs>, refs: nat, with: Refs)
    requires refs < |sets| && forall k :: k in w.objects && w.objects[k].data.Record? ==> w.objects[k].data.refs != refs
    ensures View(w, sets[refs := with]) == View(w, sets)
  {
    assert View(w, sets[refs := with]).objects == View(w, sets).objects;
  }

  lemma NewSetShowsNowhere(w: Wrapper<Slot>, sets: seq<Refs>, with: Refs)
    requires forall k :: k in w.objects ==> Known(sets, w.objects[k])
    ensures View(w, sets + [with]) == View(w, sets)
  {
    assert View(w, sets + [with]).objects == View(w, sets).objects;
  }

  /** The set that a look at the primary entry finds, or makes. */
  function LookedUp(w: Wrapper<Slot>, sets: seq<Refs>, pkKey: string): nat {
    if pkKey in w.objects && w.objects[pkKey].data.Record? then w.objects[pkKey].data.refs else |sets|
  }

  /** The look at the primary entry, its removal, and the three sections that follow. */
  lemma ReachesAliasEntered(s: Cache, c: nat, w: Wrapper<Slot>, sets: seq<Refs>, key: string, pkKey: string, bean: Bean,
                            expiresAt: int)
    requires Reaches(s, c, w, sets, [Look(key, pkKey, bean, expiresAt)])
    ensures var refs, looked := LookedUp(w, sets, pkKey), Sets(w, sets, Look(key, pkKey, bean, expiresAt));
            var list := List(key, pkKey, bean, expiresAt, refs);
            Reaches(s, c, Put(Put(Remove(w, pkKey), pkKey, Primary(bean, refs, pkKey, expiresAt)), key,
                              CacheElement(expiresAt, key, pkKey, {}, Alias)), Sets(w, looked, list), [])
  {
    var look, refs := Look(key, pkKey, bean, expiresAt), LookedUp(w, sets, pkKey);
    var looked, list := Sets(w, sets, look), [List(key, pkKey, bean, expiresAt, refs)];
    assert [look] == [look] + [];
    ReachesNext(s, c, w, sets, look, [], None);
    if pkKey in w.objects {
      assert Rest(w, sets, look, None) + [] == [Unlink(pkKey)] + list;
      ReachesUnlinked(s, c, w, looked, pkKey, list);
    } else {
      assert Rest(w, sets, look, None) + [] == list;
    }
    ReachesListed(s, c, Remove(w, pkKey), looked, key, pkKey, bean, expiresAt, refs);
  }

  lemma ReachesListed(s: Cache, c: nat, w: Wrapper<Slot>, sets: seq<Refs>, key: string, pkKey: string, bean: Bean,
                      expiresAt: int, refs: nat)
    requires Reaches(s, c, w, sets, [List(key, pkKey, bean, expiresAt, refs)])
    ensures Reaches(s, c, Put(Put(w, pkKey, Primary(bean, refs, pkKey, expiresAt)), key,
                              CacheElement(expiresAt, key, pkKey, {}, Alias)),
                    Sets(w, sets, List(key, pkKey, bean, expiresAt, refs)), [])
  {
    var list := List(key, pkKey, bean, expiresAt, refs);
    var primary, alias := Primary(bean, refs, pkKey, expiresAt), CacheElement(expiresAt, key, pkKey, {}, Alias);
    assert [list] == [list] + [];
    ReachesNext(s, c, w, sets, list, [], None);
    var listed := Sets(w, sets, list);
    assert Rest(w, sets, list, None) + [] == [Enter(primary)] + [Enter(alias)];
    ReachesNext(s, c, w, listed, Enter(primary), [Enter(alias)], None);
    assert [] + [Enter(alias)] == [Enter(alias)] + [];
    ReachesNext(s, c, Put(w, pkKey, primary), listed, Enter(alias), [], None);
    assert Rest(Put(w, pkKey, primary), listed, Enter(alias), None) + [] == [];
  }

  /** `set` under a condition key. */
  lemma SetAliasInARow(s: Cache, c: nat, duration: int, key: string, pkKey: string, bean: Bean, now: int)
    returns (w: Wrapper<Slot>, sets: seq<Refs>)
    requires Inv(s) && c < |s.calls| && key != pkKey
    requires s.calls[c] == [Unlink(key)] + [Look(key, pkKey, bean, now + duration)]
    ensures Reaches(s, c, w, sets, [])
    ensures View(w, sets) == SetAlias(View(s.w, s.sets), duration, key, pkKey, bean, now)
  {
    var look := Look(key, pkKey, bean, now + duration);
    ReachesStart(s, c);
    ReachesUnlinked(s, c, s.w, s.sets, key, [look]);
    var w1 := Remove(s.w, key);
    ReachesAliasEntered(s, c, w1, s.sets, key, pkKey, bean, now + duration);
    var refs, looked := LookedUp(w1, s.sets, pkKey), Sets(w1, s.sets, look);
    sets := Sets(w1, looked, List(key, pkKey, bean, now + duration, refs));
    w := Put(Put(Remove(w1, pkKey), pkKey, Primary(bean, refs, pkKey, now + duration)), key,
             CacheElement(now + duration, key, pkKey, {}, Alias));
    ListingShowsNowhere(s, w1, key, pkKey, bean, now + duration);
    AliasShown(s, w1, sets, refs, duration, key, pkKey, bean, now);
  }

  /** Looking and listing show in no entry but the primary one. */
  lemma ListingShowsNowhere(s: Cache, w1: Wrapper<Slot>, key: string, pkKey: string, bean: Bean, expiresAt: int)
    requires Inv(s) && w1 == Remove(s.w, key)
    ensures var refs, looked := LookedUp(w1, s.sets, pkKey), Sets(w1, s.sets, Look(key, pkKey, bean, expiresAt));
            var sets := Sets(w1, looked, List(key, pkKey, bean, expiresAt, refs));
            && View(Remove(w1, pkKey), sets) == View(Remove(w1, pkKey), s.sets)
            && In(sets, refs) == (if pkKey in w1.objects then Shown(s.sets, w1.objects[pkKey]).refKeys else {}) + {key}
  {
    var w2, refs, looked := Remove(w1, pkKey), LookedUp(w1, s.sets, pkKey), Sets(w1, s.sets, Look(key, pkKey, bean, expiresAt));
    LookedSetIsOwn(s, w1, pkKey);
    if looked != s.sets {
      NewSetShowsNowhere(w2, s.sets, Refs(pkKey, {}));
    }
    OthersShowTheSame(w2, looked, refs, Refs(looked[refs].owner, looked[refs].keys + {key}));
  }

  lemma AliasShown(s: Cache, w1: Wrapper<Slot>, sets: seq<Refs>, refs: nat, duration: int, key: string, pkKey: string,
                   bean: Bean, now: int)
    requires w1 == Remove(s.w, key) && View(Remove(w1, pkKey), sets) == View(Remove(w1, pkKey), s.sets)
    requires In(sets, refs) == (if pkKey in w1.objects then Shown(s.sets, w1.objects[pkKey]).refKeys else {}) + {key}
    ensures var alias := CacheElement(now + duration, key, pkKey, {}, Alias);
            View(Put(Put(Remove(w1, pkKey), pkKey, Primary(bean, refs, pkKey, now + duration)), key, alias), sets)
            == SetAlias(View(s.w, s.sets), duration, key, pkKey, bean, now)
  {
    var w2 := Remove(w1, pkKey);
    var primary, alias := Primary(bean, refs, pkKey, now + duration), CacheElement(now + duration, key, pkKey, {}, Alias);
    ViewRemove(s.w, s.sets, key);
    ViewRemove(w1, s.sets, pkKey);
    assert Shown(sets, primary) == CacheElement(now + duration, pkKey, "", In(sets, refs), Some(bean));
    assert Shown(sets, alias) == CacheElement(now + duration, key, pkKey, {}, None);
    ViewPut(w2, sets, primary);
    ViewPut(Put(w2, pkKey, primary), sets, alias);
  }

  lemma LookedSetIsOwn(s: Cache, w1: Wrapper<Slot>, pkKey: string)
    requires Inv(s) && w1.objects.Keys <= s.w.objects.Keys && forall k :: k in w1.objects ==> w1.objects[k] == s.w.objects[k]
    ensures forall k :: k in w1.objects && k != pkKey && w1.objects[k].data.Record? ==>
              w1.objects[k].data.refs != LookedUp(w1, s.sets, pkKey)
  {
    forall k | k in w1.objects ensures Known(s.sets, w1.objects[k]) && w1.objects[k].key == k {
    }
  }

  // ---------------------------------------------------------------------------
  // Visiting the aliases
  // ---------------------------------------------------------------------------

  function Elements(order: seq<string>): set<string> {
    set k | k in order
  }

  /** `order` goes through `keys`, each once. */
  ghost predicate Orders(order: seq<string>, keys: set<string>) {
    (forall i, j :: 0 <= i < j < |order| ==> order[i] != order[j]) && forall k :: k in order <==> k in keys
  }

  lemma OrderOfNothing(order: seq<string>)
    requires Orders(order, {})
    ensures order == []
  {
    SomethingIn(order);
  }

  lemma SomethingIn(order: seq<string>)
    ensures order != [] ==> exists k :: k in order
  {
    if order != [] {
      assert order[0] in order;
    }
  }

  /** The aliases in a set, removed one after the other. */
  lemma {:induction false} ReachesVisited(s: Cache, c: nat, w: Wrapper<Slot>, sets: seq<Refs>, refs: nat, due: set<string>,
                                          order: seq<string>, rest: seq<Todo>)
    requires Reaches(s, c, w, sets, [Visit(refs, due, {})] + rest)
    requires forall i, j :: 0 <= i < j < |order| ==> order[i] != order[j]
    requires forall k :: k in order ==> k in In(sets, refs)
    ensures Reaches(s, c, RemoveAll(w, order), sets, [Visit(refs, due, Elements(order))] + rest)
  {
    if order == [] {
      assert Elements(order) == {};
    } else {
      var front, last := order[..|order| - 1], order[|order| - 1];
      assert order == front + [last];
      ReachesVisited(s, c, w, sets, refs, due, front, rest);
      ReachesOneVisited(s, c, RemoveAll(w, front), sets, refs, due, Elements(front), last, rest);
      assert Elements(order) == Elements(front) + {last};
    }
  }

  lemma ReachesOneVisited(s: Cache, c: nat, w: Wrapper<Slot>, sets: seq<Refs>, refs: nat, due: set<string>,
                          seen: set<string>, key: string, rest: seq<Todo>)
    requires Reaches(s, c, w, sets, [Visit(refs, due, seen)] + rest) && key in In(sets, refs) && key !in seen
    ensures Reaches(s, c, Remove(w, key), sets, [Visit(refs, due, seen + {key})] + rest)
  {
    ReachesNext(s, c, w, sets, Visit(refs, due, seen), rest, Some(key));
    var left := [Visit(refs, due, seen + {key})] + rest;
    assert Rest(w, sets, Visit(refs, due, seen), Some(key)) + rest == [Unlink(key)] + left;
    ReachesUnlinked(s, c, w, sets, key, left);
  }

  /** The whole walk through a set, from its start to its end. */
  lemma ReachesWalked(s: Cache, c: nat, w: Wrapper<Slot>, sets: seq<Refs>, refs: nat, order: seq<string>, rest: seq<Todo>)
    requires Reaches(s, c, w, sets, [Range(refs)] + rest) && Orders(order, In(sets, refs))
    ensures Reaches(s, c, RemoveAll(w, order), sets, rest)
  {
    var due := In(sets, refs);
    ReachesNext(s, c, w, sets, Range(refs), rest, None);
    ReachesVisited(s, c, w, sets, refs, due, order, rest);
    assert due <= Elements(order);
    ReachesNext(s, c, RemoveAll(w, order), sets, Visit(refs, due, Elements(order)), rest, None);
    assert [] + rest == rest;
  }

  // ---------------------------------------------------------------------------
  // Storing under a primary key, and deleting
  // ---------------------------------------------------------------------------

  /** The aliases that the entry under a key lists. */
  function ListedBy(w: Wrapper<Slot>, sets: seq<Refs>, key: string): set<string> {
    if key in w.objects && w.objects[key].data.Record? then In(sets, w.objects[key].data.refs) else {}
  }

  lemma VisitsListed(w: Wrapper<Slot>, sets: seq<Refs>, key: string, order: seq<string>)
    requires forall k :: k in w.objects ==> w.objects[k].key == k
    requires VisitsRefKeys(View(w, sets), key, order)
    ensures Orders(order, ListedBy(w, sets, key))
  {
  }

  lemma ReachesTaken(s: Cache, c: nat, w: Wrapper<Slot>, sets: seq<Refs>, key: string, order: seq<string>, rest: seq<Todo>)
    requires Reaches(s, c, w, sets, [Take(key)] + rest) && Orders(order, ListedBy(w, sets, key))
    ensures Reaches(s, c, RemoveAll(Remove(w, key), order), sets, rest)
  {
    ReachesNext(s, c, w, sets, Take(key), rest, None);
    if key !in w.objects {
      OrderOfNothing(order);
      assert [] + rest == rest;
    } else {
      ReachesDropped(s, c, w, sets, key, rest);
      ReachesRanged(s, c, Remove(w, key), sets, w.objects[key], order, rest);
    }
  }

  lemma ReachesDropped(s: Cache, c: nat, w: Wrapper<Slot>, sets: seq<Refs>, key: string, rest: seq<Todo>)
    requires key in w.objects && Reaches(s, c, w, sets, Rest(w, sets, Take(key), None) + rest)
    ensures var item := w.objects[key];
            Reaches(s, c, Remove(w, key), sets, if item.data.Record? then [Range(item.data.refs)] + rest else rest)
  {
    var item := w.objects[key];
    var walk := if item.data.Record? then [Range(item.data.refs)] + rest else rest;
    assert Rest(w, sets, Take(key), None) + rest == [Discard(key, item)] + walk;
    ReachesNext(s, c, w, sets, Discard(key, item), walk, None);
    assert [] + walk == walk;
  }

  /** A walk through the set that an entry lists, if it lists one. */
  lemma ReachesRanged(s: Cache, c: nat, w: Wrapper<Slot>, sets: seq<Refs>, item: Entry, order: seq<string>, rest: seq<Todo>)
    requires Reaches(s, c, w, sets, if item.data.Record? then [Range(item.data.refs)] + rest else rest)
    requires Orders(order, if item.data.Record? then In(sets, item.data.refs) else {})
    ensures Reaches(s, c, RemoveAll(w, order), sets, rest)
  {
    if item.data.Record? {
      ReachesWalked(s, c, w, sets, item.data.refs, order, rest);
    } else {
      OrderOfNothing(order);
    }
  }

  lemma {:induction false} RemoveAllLess(w: Wrapper<Slot>, order: seq<string>)
    ensures forall k :: k in RemoveAll(w, order).objects ==> k in w.objects && RemoveAll(w, order).objects[k] == w.objects[k]
  {
    if order != [] {
      RemoveAllLess(w, order[..|order| - 1]);
    }
  }

  /** `set` under a primary key; `order` is the order in which the aliases are visited. */
  lemma SetPrimaryInARow(s: Cache, c: nat, duration: int, key: string, bean: Bean, now: int, order: seq<string>)
    returns (w: Wrapper<Slot>, sets: seq<Refs>)
    requires Inv(s) && c < |s.calls| && s.calls[c] == [Take(key)] + [Store(key, bean, now + duration)]
    requires VisitsRefKeys(View(s.w, s.sets), key, order)
    ensures Reaches(s, c, w, sets, [])
    ensures View(w, sets) == SetPrimary(View(s.w, s.sets), duration, key, bean, now, order)
  {
    var taken := RemoveAll(Remove(s.w, key), order);
    VisitsListed(s.w, s.sets, key, order);
    ReachesStart(s, c);
    ReachesTaken(s, c, s.w, s.sets, key, order, [Store(key, bean, now + duration)]);
    ReachesStored(s, c, taken, key, bean, now + duration);
    w, sets := Put(taken, key, Primary(bean, |s.sets|, key, now + duration)), s.sets + [Refs(key, {})];
    StoredShown(s, taken, key, bean, now + duration, order);
  }

  lemma ReachesStored(s: Cache, c: nat, w: Wrapper<Slot>, key: string, bean: Bean, expiresAt: int)
    requires Reaches(s, c, w, s.sets, [Store(key, bean, expiresAt)])
    ensures Reaches(s, c, Put(w, key, Primary(bean, |s.sets|, key, expiresAt)), s.sets + [Refs(key, {})], [])
  {
    var store := Store(key, bean, expiresAt);
    assert [store] == [store] + [];
    ReachesNext(s, c, w, s.sets, store, [], None);
    assert Rest(w, s.sets, store, None) + [] == [];
  }

  lemma StoredShown(s: Cache, w: Wrapper<Slot>, key: string, bean: Bean, expiresAt: int, order: seq<string>)
    requires w == RemoveAll(Remove(s.w, key), order) && forall k :: k in s.w.objects ==> Known(s.sets, s.w.objects[k])
    ensures View(Put(w, key, Primary(bean, |s.sets|, key, expiresAt)), s.sets + [Refs(key, {})])
            == Put(RemoveAll(Remove(View(s.w, s.sets), key), order), key, CacheElement(expiresAt, key, "", {}, Some(bean)))
  {
    RemoveAllLess(Remove(s.w, key), order);
    NewSetShowsNowhere(w, s.sets, Refs(key, {}));
    ViewRemove(s.w, s.sets, key);
    ViewRemoveAll(Remove(s.w, key), s.sets, order);
    ViewPut(w, s.sets + [Refs(key, {})], Primary(bean, |s.sets|, key, expiresAt));
  }

  /** What the wiping `set` does after the wipe. */
  lemma ReachesWiped(s: Cache, c: nat, key: string, bean: Bean, expiresAt: int)
    requires c < |s.calls| && s.calls[c] == [Wipe] + ([Take(key)] + [Store(key, bean, expiresAt)])
    ensures Reaches(s, c, Put(Wrapper(map[], []), key, Primary(bean, |s.sets|, key, expiresAt)), s.sets + [Refs(key, {})], [])
  {
    var empty: Wrapper<Slot>, store := Wrapper(map[], []), [Store(key, bean, expiresAt)];
    ReachesStart(s, c);
    ReachesNext(s, c, s.w, s.sets, Wipe, [Take(key)] + store, None);
    assert [] + ([Take(key)] + store) == [Take(key)] + store;
    ReachesNext(s, c, empty, s.sets, Take(key), store, None);
    assert [] + store == store;
    ReachesStored(s, c, empty, key, bean, expiresAt);
  }

  lemma WipedShown(s: Cache, duration: int, key: string, bean: Bean, now: int, order: seq<string>)
    requires Orders(order, {})
    ensures View(Put(Wrapper(map[], []), key, Primary(bean, |s.sets|, key, now + duration)), s.sets + [Refs(key, {})])
            == SetPrimary(Wrapper(map[], []), duration, key, bean, now, order)
  {
    var empty: Wrapper<Slot> := Wrapper(map[], []);
    OrderOfNothing(order);
    ViewPut(empty, s.sets + [Refs(key, {})], Primary(bean, |s.sets|, key, now + duration));
    assert View(empty, s.sets + [Refs(key, {})]).objects == map[];
  }

  /** `set`, whichever branch it takes: under a condition key, under a primary key, wiping first or
      not, and with a bean that cannot be copied. */
  lemma SetInARow(s: Cache, c: nat, g: Group, duration: int, key: string, pkKey: string, bean: Bean, now: int,
                  order: seq<string>)
    returns (w: Wrapper<Slot>, sets: seq<Refs>)
    requires Inv(s) && c < |s.calls| && g.objects == View(s.w, s.sets)
    requires s.calls[c] == Program(StartSet(key, pkKey, bean, now + duration, g.pkColumns == 0))
    requires StoresPrimary(key, pkKey) ==> VisitsRefKeys(SetBase(g, pkKey), key, order)
    ensures Reaches(s, c, w, sets, [])
    ensures View(w, sets) == Set(g, duration, key, pkKey, bean, now, order).objects
  {
    if !bean.encodable {
      ReachesStart(s, c);
      w, sets := s.w, s.sets;
    } else if !StoresPrimary(key, pkKey) {
      assert s.calls[c] == [Unlink(key)] + [Look(key, pkKey, bean, now + duration)];
      w, sets := SetAliasInARow(s, c, duration, key, pkKey, bean, now);
    } else if g.pkColumns == 0 && pkKey == "" {
      assert s.calls[c] == [Wipe] + ([Take(key)] + [Store(key, bean, now + duration)]);
      ReachesWiped(s, c, key, bean, now + duration);
      WipedShown(s, duration, key, bean, now, order);
      w, sets := Put(Wrapper(map[], []), key, Primary(bean, |s.sets|, key, now + duration)), s.sets + [Refs(key, {})];
    } else {
      assert s.calls[c] == [Take(key)] + [Store(key, bean, now + duration)];
      w, sets := SetPrimaryInARow(s, c, duration, key, bean, now, order);
    }
  }

  /** A sweep is one section, and means the same in both models. */
  lemma CleanUpAlike(s: Cache, now: int)
    ensures View(Do(s, CleanUp(now)).w, s.sets) == Sweep(View(s.w, s.sets), now)
    ensures Do(s, CleanUp(now)).sets == s.sets && Do(s, CleanUp(now)).calls == s.calls
  {
    assert View(Sweep(s.w, now), s.sets).objects == Sweep(View(s.w, s.sets), now).objects;
  }

  /** `del`. */
  lemma DelInARow(s: Cache, c: nat, key: string, order: seq<string>) returns (w: Wrapper<Slot>)
    requires Inv(s) && c < |s.calls| && s.calls[c] == Program(StartDel(key)) && VisitsRefKeys(View(s.w, s.sets), key, order)
    ensures Reaches(s, c, w, s.sets, [])
    ensures View(w, s.sets) == Del(View(s.w, s.sets), key, order)
  {
    VisitsListed(s.w, s.sets, key, order);
    ReachesStart(s, c);
    assert [Fetch(key)] == [Fetch(key)] + [];
    ReachesNext(s, c, s.w, s.sets, Fetch(key), [], None);
    if key in s.w.objects {
      ReachesDeleted(s, c, key, order);
      w := Remove(RemoveAll(s.w, order), key);
      ViewRemoveAll(s.w, s.sets, order);
      ViewRemove(RemoveAll(s.w, order), s.sets, key);
    } else {
      assert Rest(s.w, s.sets, Fetch(key), None) + [] == [];
      w := s.w;
    }
  }

  lemma ReachesDeleted(s: Cache, c: nat, key: string, order: seq<string>)
    requires key in s.w.objects && Reaches(s, c, s.w, s.sets, Rest(s.w, s.sets, Fetch(key), None) + [])
    requires Orders(order, ListedBy(s.w, s.sets, key))
    ensures Reaches(s, c, Remove(RemoveAll(s.w, order), key), s.sets, [])
  {
    var item := s.w.objects[key];
    assert Rest(s.w, s.sets, Fetch(key), None) + []
           == if item.data.Record? then [Range(item.data.refs)] + [Unlink(key)] else [Unlink(key)];
    ReachesRanged(s, c, s.w, s.sets, item, order, [Unlink(key)]);
    ReachesUnlinkedLast(s, c, RemoveAll(s.w, order), s.sets, key);
  }

  // ---------------------------------------------------------------------------
  // Reading
  // ---------------------------------------------------------------------------

  /** `get`, with the entries it leaves. */
  lemma GetInARow(s: Cache, c: nat, key: string, now: int, cloneResult: bool) returns (w: Wrapper<Slot>)
    requires Inv(s) && c < |s.calls| && s.calls[c] == Program(StartGet(key, now, cloneResult))
    ensures Reaches(s, c, w, s.sets, [])
    ensures View(w, s.sets) == Get(View(s.w, s.sets), key, now, cloneResult).0
  {
    w := PeeksInARow(s, c, key, now, cloneResult);
  }

  lemma PeeksInARow(s: Cache, c: nat, key: string, now: int, cloneResult: bool) returns (w: Wrapper<Slot>)
    requires Inv(s) && c < |s.calls| && s.calls[c] == [Peek(key, now, cloneResult)]
    ensures Reaches(s, c, w, s.sets, [])
    ensures View(w, s.sets) == Get(View(s.w, s.sets), key, now, cloneResult).0
  {
    var peek := Peek(key, now, cloneResult);
    ReachesStart(s, c);
    assert [peek] == [peek] + [];
    ReachesNext(s, c, s.w, s.sets, peek, [], None);
    var todo := Rest(s.w, s.sets, peek, None);
    assert todo + [] == todo;
    ViewRemove(s.w, s.sets, key);
    if todo == [] {
      w := s.w;
    } else if todo == [Unlink(key)] {
      ReachesUnlinkedLast(s, c, s.w, s.sets, key);
      w := Remove(s.w, key);
    } else {
      w := GotThrough(s.w, key, s.w.objects[key].depKey, now, cloneResult);
      ReachesGotThrough(s, c, s.w, key, s.w.objects[key].depKey, now, cloneResult);
      GotThroughShown(s.w, s.sets, key, now, cloneResult);
    }
  }

  /** What reading through the primary entry leaves. */
  function GotThrough(w: Wrapper<Slot>, key: string, pkKey: string, now: int, cloneResult: bool): Wrapper<Slot> {
    if pkKey !in w.objects then Remove(w, key)
    else if now <= w.objects[pkKey].expiresAt && Readable(w.objects[pkKey], cloneResult) then w
    else Remove(Remove(w, key), pkKey)
  }

  lemma ReachesGotThrough(s: Cache, c: nat, w: Wrapper<Slot>, key: string, pkKey: string, now: int, cloneResult: bool)
    requires Reaches(s, c, w, s.sets, [PeekPrimary(key, pkKey, now, cloneResult)])
    ensures Reaches(s, c, GotThrough(w, key, pkKey, now, cloneResult), s.sets, [])
  {
    var peek := PeekPrimary(key, pkKey, now, cloneResult);
    assert [peek] == [peek] + [];
    ReachesNext(s, c, w, s.sets, peek, [], None);
    var todo := Rest(w, s.sets, peek, None);
    assert todo + [] == todo;
    if todo == [Unlink(key)] {
      ReachesUnlinkedLast(s, c, w, s.sets, key);
    } else if todo != [] {
      assert todo == [Unlink(key)] + [Unlink(pkKey)];
      ReachesUnlinked(s, c, w, s.sets, key, [Unlink(pkKey)]);
      ReachesUnlinkedLast(s, c, Remove(w, key), s.sets, pkKey);
    }
  }

  lemma GotThroughShown(w: Wrapper<Slot>, sets: seq<Refs>, key: string, now: int, cloneResult: bool)
    requires key in w.objects && w.objects[key].depKey != "" && now <= w.objects[key].expiresAt
    ensures View(GotThrough(w, key, w.objects[key].depKey, now, cloneResult), sets) == Get(View(w, sets), key, now, cloneResult).0
  {
    var pkKey := w.objects[key].depKey;
    ViewRemove(w, sets, key);
    if pkKey in w.objects && !(now <= w.objects[pkKey].expiresAt && Readable(w.objects[pkKey], cloneResult)) {
      ViewRemove(Remove(w, key), sets, pkKey);
    }
  }

  // ---------------------------------------------------------------------------
  // An overlap
  // ---------------------------------------------------------------------------

  lemma {:induction false} InvAfter(s: Cache, acts: seq<Act>)
    requires Inv(s) && DoAll(s, acts).Some?
    ensures Inv(DoAll(s, acts).value)
  {
    if acts != [] {
      InvAfter(s, acts[..|acts| - 1]);
      DoKeeps(DoAll(s, acts[..|acts| - 1]).value, acts[|acts| - 1]);
    }
  }

  lemma GoesKeepsInv(s: Cache, c: nat, t: Cache)
    requires Inv(s) && Goes(s, c, t)
    ensures Inv(t)
  {
    var acts :| OnlyRuns(acts, c) && DoAll(s, acts) == Some(t);
    InvAfter(s, acts);
  }

  lemma LooksInVain(s: Cache, c: nat, key: string, pkKey: string, bean: Bean, expiresAt: int)
    requires c < |s.calls| && s.w.objects == map[]
    requires s.calls[c] == [Unlink(key)] + [Look(key, pkKey, bean, expiresAt)]
    ensures Reaches(s, c, s.w, s.sets + [Refs(pkKey, {})], [List(key, pkKey, bean, expiresAt, |s.sets|)])
  {
    var look := Look(key, pkKey, bean, expiresAt);
    ReachesStart(s, c);
    ReachesUnlinked(s, c, s.w, s.sets, key, [look]);
    assert [look] == [look] + [];
    ReachesNext(s, c, s.w, s.sets, look, [], None);
    assert Rest(s.w, s.sets, look, None) + [] == [List(key, pkKey, bean, expiresAt, |s.sets|)];
  }

  lemma Writes(s: Cache, c: nat, key: string, pkKey: string, bean: Bean, expiresAt: int, refs: nat)
    requires c < |s.calls| && refs < |s.sets| && s.calls[c] == [List(key, pkKey, bean, expiresAt, refs)]
    ensures Reaches(s, c, Put(Put(s.w, pkKey, Primary(bean, refs, pkKey, expiresAt)), key, CacheElement(expiresAt, key, pkKey, {}, Alias)),
                    s.sets[refs := Refs(s.sets[refs].owner, s.sets[refs].keys + {key})], [])
  {
    ReachesStart(s, c);
    ReachesListed(s, c, s.w, s.sets, key, pkKey, bean, expiresAt, refs);
  }

  lemma AliasProgram(key: string, pkKey: string, bean: Bean, expiresAt: int)
    requires key != pkKey && pkKey != "" && bean.encodable
    ensures Program(StartSet(key, pkKey, bean, expiresAt, false)) == [Unlink(key)] + [Look(key, pkKey, bean, expiresAt)]
  {
  }

  lemma PrimaryProgram(key: string, bean: Bean, expiresAt: int)
    requires bean.encodable
    ensures Program(StartSet(key, "", bean, expiresAt, false)) == [Take(key)] + [Store(key, bean, expiresAt)]
  {
  }

  lemma Pairs<T>(x: T, y: T, z: T)
    ensures [x, y][0 := z] == [z, y] && [x, y][1 := z] == [x, z]
  {
  }

  /** Two calls have begun that store records under condition keys of one primary key. */
  function Begun(a: string, b: string, pkKey: string, x: Bean, y: Bean, expiresAt: int): Cache {
    Cache(Wrapper(map[], []), [], [Program(StartSet(a, pkKey, x, expiresAt, false)), Program(StartSet(b, pkKey, y, expiresAt, false))])
  }

  lemma Begins(a: string, b: string, pkKey: string, x: Bean, y: Bean, expiresAt: int)
    ensures Do(Do(EMPTY, StartSet(a, pkKey, x, expiresAt, false)), StartSet(b, pkKey, y, expiresAt, false))
            == Begun(a, b, pkKey, x, y, expiresAt)
  {
    var p, q := Program(StartSet(a, pkKey, x, expiresAt, false)), Program(StartSet(b, pkKey, y, expiresAt, false));
    assert ([] + [p]) + [q] == [p, q];
  }

  /** Both look before either writes, and find nothing. */
  lemma BothLook(a: string, b: string, pkKey: string, x: Bean, y: Bean, expiresAt: int) returns (s1: Cache, s2: Cache)
    requires a != pkKey && b != pkKey && pkKey != "" && x.encodable && y.encodable
    ensures Goes(Begun(a, b, pkKey, x, y, expiresAt), 0, s1) && Goes(s1, 1, s2)
    ensures s2.w.objects == map[] && s2.sets == [Refs(pkKey, {}), Refs(pkKey, {})]
    ensures s2.calls == [[List(a, pkKey, x, expiresAt, 0)], [List(b, pkKey, y, expiresAt, 1)]]
  {
    var s0 := Begun(a, b, pkKey, x, y, expiresAt);
    var listA, listB := [List(a, pkKey, x, expiresAt, 0)], [List(b, pkKey, y, expiresAt, 1)];
    AliasProgram(a, pkKey, x, expiresAt);
    AliasProgram(b, pkKey, y, expiresAt);
    Pairs(s0.calls[0], s0.calls[1], listA);
    Pairs(listA, s0.calls[1], listB);
    LooksInVain(s0, 0, a, pkKey, x, expiresAt);
    s1 := Cache(s0.w, [Refs(pkKey, {})], [listA, s0.calls[1]]);
    assert [] + [Refs(pkKey, {})] == s1.sets;
    LooksInVain(s1, 1, b, pkKey, y, expiresAt);
    s2 := Cache(s0.w, [Refs(pkKey, {}), Refs(pkKey, {})], [listA, listB]);
    assert s1.sets + [Refs(pkKey, {})] == s2.sets;
  }

  lemma BothWrite(s2: Cache, a: string, b: string, pkKey: string, x: Bean, y: Bean, expiresAt: int)
    returns (s3: Cache, s4: Cache)
    requires s2.sets == [Refs(pkKey, {}), Refs(pkKey, {})]
    requires s2.calls == [[List(a, pkKey, x, expiresAt, 0)], [List(b, pkKey, y, expiresAt, 1)]]
    ensures Goes(s2, 0, s3) && Goes(s3, 1, s4)
    ensures s4.calls == [[], []] && s4.sets == [Refs(pkKey, {a}), Refs(pkKey, {b})]
    ensures s4.w == Put(Put(Put(Put(s2.w, pkKey, Primary(x, 0, pkKey, expiresAt)), a, CacheElement(expiresAt, a, pkKey, {}, Alias)),
                            pkKey, Primary(y, 1, pkKey, expiresAt)), b, CacheElement(expiresAt, b, pkKey, {}, Alias))
  {
    var listB := [List(b, pkKey, y, expiresAt, 1)];
    Pairs(s2.calls[0], listB, []);
    Pairs([], listB, []);
    Pairs(Refs(pkKey, {}), Refs(pkKey, {}), Refs(pkKey, {a}));
    Pairs(Refs(pkKey, {a}), Refs(pkKey, {}), Refs(pkKey, {b}));
    assert {} + {a} == {a} && {} + {b} == {b};
    Writes(s2, 0, a, pkKey, x, expiresAt, 0);
    s3 := Cache(Put(Put(s2.w, pkKey, Primary(x, 0, pkKey, expiresAt)), a, CacheElement(expiresAt, a, pkKey, {}, Alias)),
                [Refs(pkKey, {a}), Refs(pkKey, {})], [[], listB]);
    Writes(s3, 1, b, pkKey, y, expiresAt, 1);
    s4 := Cache(Put(Put(s3.w, pkKey, Primary(y, 1, pkKey, expiresAt)), b, CacheElement(expiresAt, b, pkKey, {}, Alias)),
                [Refs(pkKey, {a}), Refs(pkKey, {b})], [[], []]);
  }

  /** The primary entry lists only the second alias in the end. */
  lemma OverlapCrosses(a: string, b: string, pkKey: string, x: Bean, y: Bean, expiresAt: int)
    returns (s1: Cache, s2: Cache, s3: Cache, s4: Cache)
    requires a != b && a != pkKey && b != pkKey && pkKey != "" && x.encodable && y.encodable
    ensures var s0 := Begun(a, b, pkKey, x, y, expiresAt);
            Goes(s0, 0, s1) && Goes(s1, 1, s2) && Goes(s2, 0, s3) && Goes(s3, 1, s4)
    ensures s4.calls == [[], []] && s4.sets == [Refs(pkKey, {a}), Refs(pkKey, {b})]
    ensures s4.w.objects == map[pkKey := Primary(y, 1, pkKey, expiresAt),
                                a := CacheElement(expiresAt, a, pkKey, {}, Alias), b := CacheElement(expiresAt, b, pkKey, {}, Alias)]
  {
    s1, s2 := BothLook(a, b, pkKey, x, y, expiresAt);
    s3, s4 := BothWrite(s2, a, b, pkKey, x, y, expiresAt);
  }

  /** After that the record is stored again under its primary key, with nothing in between, and
      the first condition key hits it. */
  lemma OverlapLeavesAliasBehind(a: string, b: string, pkKey: string, x: Bean, y: Bean, z: Bean, expiresAt: int)
    returns (s1: Cache, s2: Cache, s3: Cache, s4: Cache, s5: Cache)
    requires a != b && a != pkKey && b != pkKey && pkKey != "" && x.encodable && y.encodable && z.encodable
    ensures var s0 := Begun(a, b, pkKey, x, y, expiresAt);
            Goes(s0, 0, s1) && Goes(s1, 1, s2) && Goes(s2, 0, s3) && Goes(s3, 1, s4)
    ensures Goes(Do(s4, StartSet(pkKey, "", z, expiresAt, false)), 2, s5)
    ensures |s5.calls| == 3 && s5.calls[2] == [] && Get(View(s5.w, s5.sets), a, expiresAt, true).1 == Some(z)
  {
    s1, s2, s3, s4 := OverlapCrosses(a, b, pkKey, x, y, expiresAt);
    BegunInv(a, b, pkKey, x, y, expiresAt);
    GoesKeepsInv(Begun(a, b, pkKey, x, y, expiresAt), 0, s1);
    GoesKeepsInv(s1, 1, s2);
    GoesKeepsInv(s2, 0, s3);
    GoesKeepsInv(s3, 1, s4);
    DoKeeps(s4, StartSet(pkKey, "", z, expiresAt, false));
    s5 := StoresAgain(s4, a, b, pkKey, y, z, expiresAt);
  }

  lemma BegunInv(a: string, b: string, pkKey: string, x: Bean, y: Bean, expiresAt: int)
    requires x.encodable && y.encodable
    ensures Inv(Begun(a, b, pkKey, x, y, expiresAt))
  {
    DoKeeps(EMPTY, StartSet(a, pkKey, x, expiresAt, false));
    DoKeeps(Do(EMPTY, StartSet(a, pkKey, x, expiresAt, false)), StartSet(b, pkKey, y, expiresAt, false));
    Begins(a, b, pkKey, x, y, expiresAt);
  }

  lemma StoresAgain(s: Cache, a: string, b: string, pkKey: string, y: Bean, z: Bean, expiresAt: int) returns (t: Cache)
    requires a != b && a != pkKey && b != pkKey && pkKey != "" && z.encodable
    requires Inv(Do(s, StartSet(pkKey, "", z, expiresAt, false)))
    requires s.calls == [[], []] && s.sets == [Refs(pkKey, {a}), Refs(pkKey, {b})]
    requires s.w.objects == map[pkKey := Primary(y, 1, pkKey, expiresAt),
                                a := CacheElement(expiresAt, a, pkKey, {}, Alias), b := CacheElement(expiresAt, b, pkKey, {}, Alias)]
    ensures Goes(Do(s, StartSet(pkKey, "", z, expiresAt, false)), 2, t)
    ensures |t.calls| == 3 && t.calls[2] == [] && Get(View(t.w, t.sets), a, expiresAt, true).1 == Some(z)
  {
    var u := Do(s, StartSet(pkKey, "", z, expiresAt, false));
    PrimaryProgram(pkKey, z, expiresAt);
    CrossedVisits(u.w, u.sets, a, b, pkKey, y, expiresAt);
    var w, sets := SetPrimaryInARow(u, 2, 0, pkKey, z, expiresAt, [b]);
    t := Cache(w, sets, u.calls[2 := []]);
    RestoredObjects(View(u.w, u.sets), pkKey, b, z, expiresAt);
  }

  lemma CrossedVisits(w: Wrapper<Slot>, sets: seq<Refs>, a: string, b: string, pkKey: string, y: Bean, expiresAt: int)
    requires a != b && a != pkKey && b != pkKey && sets == [Refs(pkKey, {a}), Refs(pkKey, {b})]
    requires w.objects == map[pkKey := Primary(y, 1, pkKey, expiresAt),
                              a := CacheElement(expiresAt, a, pkKey, {}, Alias), b := CacheElement(expiresAt, b, pkKey, {}, Alias)]
    ensures VisitsRefKeys(View(w, sets), pkKey, [b])
    ensures a in View(w, sets).objects && View(w, sets).objects[a] == CacheElement(expiresAt, a, pkKey, {}, None)
  {
  }

  lemma RestoredObjects(w: Wrapper<Option<Bean>>, pkKey: string, b: string, z: Bean, expiresAt: int)
    ensures SetPrimary(w, 0, pkKey, z, expiresAt, [b]).objects
            == (w.objects - {pkKey} - {b})[pkKey := CacheElement(expiresAt, pkKey, "", {}, Some(z))]
  {
    var removed := Remove(w, pkKey);
    assert [b][..0] == [];
    assert RemoveAll(removed, [b]) == Remove(removed, b);
  }
}
