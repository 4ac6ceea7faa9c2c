/** Coherence of the record cache over every run: aliases lead to live primary
    entries, every entry is mirrored in the expiry queue, and every hit is what an
    ideal cache, which forgets nothing and invalidates at once, would answer. */
module RecordCacheProofs {
  import opened Options
  import opened OrderedQueues
  import opened RecordCacheSpec

  // ---------------------------------------------------------------------------
  // The invariant
  // ---------------------------------------------------------------------------

  /** Entries sit under their own key, and the queue holds an element with the
      id and the expiry time of each. */
  ghost predicate Mirrored<D>(w: Wrapper<D>) {
    && Sorted(Asc, w.timers)
    && forall k :: k in w.objects ==> w.objects[k].key == k && Stamp(w.objects[k]) in w.timers
  }

  /** Primary keys hold records and list aliases only. An alias names a primary
      key; while it has not expired, that primary entry is present, lists the
      alias, and expires no earlier. */
  ghost predicate AliasesLive(isPk: string -> bool, objects: map<string, CacheElement<Option<Bean>>>, now: int) {
    forall k :: k in objects ==>
      var e := objects[k];
      if isPk(k) then
        e.depKey == "" && e.data.Some? && e.data.value.encodable && forall r :: r in e.refKeys ==> !isPk(r)
      else
        && e.depKey != "" && isPk(e.depKey) && e.refKeys == {}
        && (now <= e.expiresAt ==>
              && e.depKey in objects
              && k in objects[e.depKey].refKeys
              && e.expiresAt <= objects[e.depKey].expiresAt)
  }

  ghost predicate ExpiryBounded(objects: map<string, CacheElement<Option<Bean>>>, bound: int) {
    forall k :: k in objects ==> objects[k].expiresAt <= bound
  }

  ghost predicate Coherent(isPk: string -> bool, duration: int, g: Group, now: int) {
    && Mirrored(g.objects) && Mirrored(g.arrays)
    && AliasesLive(isPk, g.objects.objects, now)
    && ExpiryBounded(g.objects.objects, now + duration)
    && forall a, i :: a in g.arrays.objects && 0 <= i < |g.arrays.objects[a].data| ==> isPk(g.arrays.objects[a].data[i])
  }

  // ---------------------------------------------------------------------------
  // The ideal cache
  // ---------------------------------------------------------------------------

  /** `store`: the record last stored under each primary key and not deleted since.
      `target`: the primary key each condition key stands for, dropped as soon as
      the record behind it is stored again or deleted. `arrays`: the keys of each array. */
  datatype Ideal = Ideal(store: map<string, Bean>, target: map<string, string>, arrays: map<string, seq<string>>)

  function Detached(target: map<string, string>, pk: string): map<string, string> {
    map k | k in target && target[k] != pk :: target[k]
  }

  function IdealSet(s: Ideal, key: string, pkKey: string, bean: Bean): Ideal {
    if CloneBean(bean).None? then s
    else if StoresPrimary(key, pkKey) then s.(store := s.store[key := bean], target := Detached(s.target, key))
    else s.(store := s.store[pkKey := bean], target := s.target[key := pkKey])
  }

  function IdealRows(s: Ideal, rows: seq<Row>, n: nat): Ideal
    requires n <= KeyedRows(rows)
  {
    if n == 0 then s else IdealSet(IdealRows(s, rows, n - 1), rows[n - 1].pk.value, "", rows[n - 1].bean)
  }

  /** A stored array is known by the keys of its rows, once all of them have one. */
  function IdealCompleted(s: Ideal, key: string, rows: seq<Row>): Ideal {
    if KeyedRows(rows) < |rows| then s else s.(arrays := s.arrays[key := PkKeys(rows, |rows|)])
  }

  function IdealSetArray(s: Ideal, key: string, rows: seq<Row>): Ideal {
    IdealCompleted(IdealRows(s.(arrays := s.arrays - {key}), rows, KeyedRows(rows)), key, rows)
  }

  function IdealDel(s: Ideal, key: string): Ideal {
    s.(store := s.store - {key}, target := Detached(s.target, key) - {key})
  }

  ghost predicate RecordsAgree(isPk: string -> bool, objects: map<string, CacheElement<Option<Bean>>>, s: Ideal, now: int) {
    && (forall k :: k in objects && isPk(k) ==> k in s.store && objects[k].data == Some(s.store[k]))
    && (forall k :: k in objects && !isPk(k) && now <= objects[k].expiresAt ==>
          k in s.target && s.target[k] == objects[k].depKey)
  }

  /** What is in the cache agrees with the ideal; the cache may hold less. */
  ghost predicate Agrees(isPk: string -> bool, g: Group, s: Ideal, now: int) {
    && RecordsAgree(isPk, g.objects.objects, s, now)
    && (forall a :: a in g.arrays.objects ==> a in s.arrays && g.arrays.objects[a].data == s.arrays[a])
  }

  // ---------------------------------------------------------------------------
  // One wrapper
  // ---------------------------------------------------------------------------

  /** Whatever the lookup takes out carries the id that was asked for. */
  lemma RemovalSparesOthers(q: seq<Element<()>>, probe: Element<()>)
    requires Sorted(Asc, q)
    ensures Sorted(Asc, RemoveFrom(Asc, q, probe))
    ensures forall e :: e in q && e.id != probe.id ==> e in RemoveFrom(Asc, q, probe)
  {
    var found := LookupIndex(Asc, q, probe);
    var rest := Without(q, found);
    if found >= 0 {
      forall e | e in q && e.id != probe.id ensures e in rest {
        var i :| 0 <= i < |q| && q[i] == e;
        assert rest[if i < found then i else i - 1] == e;
      }
    }
  }

  /** Removing an entry may miss its queue element, or take a stale one of the same
      key, but never the element of another entry. */
  lemma RemoveMirrored<D>(w: Wrapper<D>, key: string)
    requires Mirrored(w)
    ensures Mirrored(Remove(w, key)) && Remove(w, key).objects == w.objects - {key}
  {
    if key in w.objects {
      RemovalSparesOthers(w.timers, Stamp(w.objects[key]));
      forall k | k in w.objects && k != key ensures Stamp(w.objects[k]).id != key {
      }
    }
  }

  lemma {:induction false} RemoveAllMirrored<D>(w: Wrapper<D>, order: seq<string>)
    requires Mirrored(w)
    ensures Mirrored(RemoveAll(w, order))
    ensures RemoveAll(w, order).objects == w.objects - (set k | k in order)
  {
    if order != [] {
      var front, last := order[..|order| - 1], order[|order| - 1];
      RemoveAllMirrored(w, front);
      RemoveMirrored(RemoveAll(w, front), last);
      assert order == front + [last];
      assert (set k | k in order) == (set k | k in front) + {last};
    }
  }

  lemma PutMirrored<D>(w: Wrapper<D>, key: string, e: CacheElement<D>)
    requires Mirrored(w) && e.key == key
    ensures Mirrored(Put(w, key, e)) && Put(w, key, e).objects == w.objects[key := e]
  {
    var u := UpperBound(Asc, w.timers, Stamp(e));
    InsertKeepsSorted(Asc, w.timers, Stamp(e));
    var q := Insert(Asc, w.timers, Stamp(e));
    assert q[u] == Stamp(e);
    forall x | x in w.timers ensures x in q {
      var i :| 0 <= i < |w.timers| && w.timers[i] == x;
      assert q[if i < u then i else i + 1] == x;
    }
  }

  /** The periodic sweep of a coherent wrapper is all or nothing: it empties the
      wrapper when some queue elements have expired and some have not. */
  lemma SweepAllOrNothing<D>(w: Wrapper<D>, now: int)
    requires Mirrored(w)
    ensures var mixed := (exists e :: e in w.timers && e.value <= now) && (exists e :: e in w.timers && e.value > now);
            Sweep(w, now) == if mixed then Wrapper(map[], []) else w
  {
    var i := SweepIndex(w.timers, now);
    if i > 0 {
      assert w.timers[0] in w.timers && w.timers[i] in w.timers;
      forall k | k in w.objects ensures k in Ids(w.timers) {
        assert Stamp(w.objects[k]) in w.timers;
      }
      assert w.objects - Ids(w.timers) == map[];
    } else if w.timers != [] && w.timers[0].value > now {
      forall e | e in w.timers ensures e.value > now {
        var j :| 0 <= j < |w.timers| && w.timers[j] == e;
        assert j == 0 || !Before(Asc, w.timers[j], w.timers[0]);
      }
    }
  }

  function Unexpired(q: seq<Element<()>>, now: int): seq<Element<()>> {
    if q == [] then [] else (if q[0].value > now then [q[0]] else []) + Unexpired(q[1..], now)
  }

  /** Dropping exactly what has expired happens only when nothing has: a sweep that
      acts also drops live elements, and a fully expired queue is left alone. */
  lemma SweepDropsExactlyExpired<D>(w: Wrapper<D>, now: int)
    requires Mirrored(w)
    ensures Sweep(w, now).timers == Unexpired(w.timers, now) <==> forall e :: e in w.timers ==> e.value > now
  {
    SweepAllOrNothing(w, now);
    UnexpiredSplit(w.timers, now);
  }

  lemma {:induction false} UnexpiredSplit(q: seq<Element<()>>, now: int)
    ensures forall e :: e in Unexpired(q, now) <==> e in q && e.value > now
    ensures Unexpired(q, now) == q <==> forall e :: e in q ==> e.value > now
  {
    if q != [] {
      UnexpiredSplit(q[1..], now);
      assert q == [q[0]] + q[1..];
    }
  }

  // ---------------------------------------------------------------------------
  // One operation
  // ---------------------------------------------------------------------------

  function PrimaryObjects(objects: map<string, CacheElement<Option<Bean>>>, duration: int, key: string, bean: Bean,
                          now: int, order: seq<string>): map<string, CacheElement<Option<Bean>>> {
    (objects - (set k | k in order) - {key})[key := CacheElement(now + duration, key, "", {}, Some(bean))]
  }

  /** The critical sections of one wrapper. `remove`, and `get` with removal, read an element in
      one section and drop what sits under its key in another, where the queue is asked for the
      element that was read. */
  datatype Section<D> = Drops(key: string, item: CacheElement<D>) | Enters(e: CacheElement<D>) | Wipes | Sweeps(now: int)

  function Applied<D>(w: Wrapper<D>, c: Section<D>): Wrapper<D> {
    match c
    case Drops(key, item) => Wrapper(w.objects - {key}, RemoveFrom(Asc, w.timers, Stamp(item)))
    case Enters(e) => Put(w, e.key, e)
    case Wipes => Wrapper(map[], [])
    case Sweeps(now) => Sweep(w, now)
  }

  /** What one section drops, it or an earlier one has read. */
  ghost predicate IsSectionRun<D>(ws: seq<Wrapper<D>>, cs: seq<Section<D>>) {
    && |ws| == |cs| + 1 && ws[0] == Wrapper(map[], [])
    && forall i :: 0 <= i < |cs| ==> WasRead(ws, i, cs[i]) && ws[i + 1] == Applied(ws[i], cs[i])
  }

  ghost predicate WasRead<D>(ws: seq<Wrapper<D>>, i: nat, c: Section<D>)
    requires i < |ws|
  {
    c.Drops? ==> exists j :: 0 <= j <= i && Find(ws[j], c.key) == Some(c.item)
  }

  lemma DropsMirrored<D>(w: Wrapper<D>, key: string, item: CacheElement<D>)
    requires Mirrored(w) && item.key == key
    ensures Mirrored(Applied(w, Drops(key, item)))
  {
    RemovalSparesOthers(w.timers, Stamp(item));
    forall k | k in w.objects && k != key ensures Stamp(w.objects[k]).id != key {
    }
  }

  lemma {:induction false} SectionsStayMirrored<D>(ws: seq<Wrapper<D>>, cs: seq<Section<D>>, n: nat)
    requires IsSectionRun(ws, cs) && n < |ws|
    ensures Mirrored(ws[n])
  {
    if n > 0 {
      SectionsStayMirrored(ws, cs, n - 1);
      var w, c := ws[n - 1], cs[n - 1];
      match c
      case Drops(key, item) =>
        assert WasRead(ws, n - 1, c);
        var j :| 0 <= j <= n - 1 && Find(ws[j], key) == Some(item);
        SectionsStayMirrored(ws, cs, j);
        DropsMirrored(w, key, item);
      case Enters(e) => PutMirrored(w, e.key, e);
      case Sweeps(now) => SweepAllOrNothing(w, now);
      case Wipes =>
    }
  }

  /** No cached entry escapes expiry: over every interleaving of the critical sections of a
      wrapper, of records or of arrays, each entry has a queue element with its own key and
      expiry time. */
  lemma EveryEntryIsQueued<D>(ws: seq<Wrapper<D>>, cs: seq<Section<D>>, n: nat, key: string)
    requires IsSectionRun(ws, cs) && n < |ws| && key in ws[n].objects
    ensures exists e :: e in ws[n].timers && e.id == key && e.value == ws[n].objects[key].expiresAt
  {
    SectionsStayMirrored(ws, cs, n);
    assert Stamp(ws[n].objects[key]) in ws[n].timers;
  }

  lemma SetPrimaryMirrored(duration: int, w: Wrapper<Option<Bean>>, key: string, bean: Bean, now: int, order: seq<string>)
    requires Mirrored(w)
    ensures Mirrored(SetPrimary(w, duration, key, bean, now, order))
    ensures SetPrimary(w, duration, key, bean, now, order).objects
            == PrimaryObjects(w.objects, duration, key, bean, now, order)
  {
    RemoveMirrored(w, key);
    RemoveAllMirrored(Remove(w, key), order);
    PutMirrored(RemoveAll(Remove(w, key), order), key, CacheElement(now + duration, key, "", {}, Some(bean)));
    assert w.objects - {key} - (set k | k in order) == w.objects - (set k | k in order) - {key};
  }

  /** A primary `set`: the older entry and the aliases it lists are gone, so no
      unexpired alias is left that leads to the key. */
  lemma PrimaryObjectsLive(isPk: string -> bool, duration: int, objects: map<string, CacheElement<Option<Bean>>>,
                           key: string, bean: Bean, now: int, order: seq<string>)
    requires AliasesLive(isPk, objects, now) && ExpiryBounded(objects, now + duration)
    requires isPk(key) && bean.encodable && forall k :: k in order <==> key in objects && k in objects[key].refKeys
    ensures var r := PrimaryObjects(objects, duration, key, bean, now, order);
            && AliasesLive(isPk, r, now) && ExpiryBounded(r, now + duration)
            && forall a :: a in r && !isPk(a) && now <= r[a].expiresAt ==> r[a].depKey != key
  {
    DropLive(isPk, objects, key, order, now);
  }

  lemma PrimaryObjectsAgree(isPk: string -> bool, duration: int, objects: map<string, CacheElement<Option<Bean>>>, s: Ideal,
                            key: string, bean: Bean, now: int, order: seq<string>)
    requires RecordsAgree(isPk, objects, s, now) && isPk(key)
    requires var r := PrimaryObjects(objects, duration, key, bean, now, order);
             forall a :: a in r && !isPk(a) && now <= r[a].expiresAt ==> r[a].depKey != key
    ensures RecordsAgree(isPk, PrimaryObjects(objects, duration, key, bean, now, order),
                         s.(store := s.store[key := bean], target := Detached(s.target, key)), now)
  {
  }

  function AliasObjects(objects: map<string, CacheElement<Option<Bean>>>, duration: int, key: string, pkKey: string,
                        bean: Bean, now: int): map<string, CacheElement<Option<Bean>>> {
    var refKeys := (if pkKey in objects then objects[pkKey].refKeys else {}) + {key};
    objects[pkKey := CacheElement(now + duration, pkKey, "", refKeys, Some(bean))]
           [key := CacheElement(now + duration, key, pkKey, {}, None)]
  }

  lemma ReplaceMirrored<D>(w: Wrapper<D>, key: string, e: CacheElement<D>)
    requires Mirrored(w) && e.key == key
    ensures Mirrored(Put(Remove(w, key), key, e)) && Put(Remove(w, key), key, e).objects == w.objects[key := e]
  {
    RemoveMirrored(w, key);
    PutMirrored(Remove(w, key), key, e);
    assert (w.objects - {key})[key := e] == w.objects[key := e];
  }

  lemma SetAliasMirrored(duration: int, w: Wrapper<Option<Bean>>, key: string, pkKey: string, bean: Bean, now: int)
    requires Mirrored(w)
    ensures Mirrored(SetAlias(w, duration, key, pkKey, bean, now))
  {
    var w1 := Remove(w, key);
    RemoveMirrored(w, key);
    var refKeys := (if pkKey in w1.objects then w1.objects[pkKey].refKeys else {}) + {key};
    var pkEle := CacheElement(now + duration, pkKey, "", refKeys, Some(bean));
    ReplaceMirrored(w1, pkKey, pkEle);
    PutMirrored(Put(Remove(w1, pkKey), pkKey, pkEle), key, CacheElement(now + duration, key, pkKey, {}, None));
  }

  lemma RemoveObjects<D>(w: Wrapper<D>, key: string)
    ensures Remove(w, key).objects == w.objects - {key}
  {
  }

  lemma SetAliasObjects(duration: int, w: Wrapper<Option<Bean>>, key: string, pkKey: string, bean: Bean, now: int)
    requires key != pkKey
    ensures SetAlias(w, duration, key, pkKey, bean, now).objects == AliasObjects(w.objects, duration, key, pkKey, bean, now)
  {
    var w1 := Remove(w, key);
    RemoveObjects(w, key);
    RemoveObjects(w1, pkKey);
    OverwriteTwice(w.objects, key, pkKey, AliasObjects(w.objects, duration, key, pkKey, bean, now)[key],
                   AliasObjects(w.objects, duration, key, pkKey, bean, now)[pkKey]);
  }

  lemma OverwriteTwice<D>(m: map<string, D>, key: string, pkKey: string, x: D, y: D)
    requires key != pkKey
    ensures (m - {key} - {pkKey})[pkKey := y][key := x] == m[pkKey := y][key := x]
  {
  }

  /** An alias `set` renews the primary entry, which keeps the aliases it had. */
  lemma AliasObjectsLive(isPk: string -> bool, duration: int, objects: map<string, CacheElement<Option<Bean>>>,
                         key: string, pkKey: string, bean: Bean, now: int)
    requires AliasesLive(isPk, objects, now) && ExpiryBounded(objects, now + duration)
    requires !isPk(key) && isPk(pkKey) && pkKey != "" && bean.encodable
    ensures var r := AliasObjects(objects, duration, key, pkKey, bean, now);
            AliasesLive(isPk, r, now) && ExpiryBounded(r, now + duration)
  {
  }

  lemma AliasObjectsAgree(isPk: string -> bool, duration: int, objects: map<string, CacheElement<Option<Bean>>>, s: Ideal,
                          key: string, pkKey: string, bean: Bean, now: int)
    requires RecordsAgree(isPk, objects, s, now) && !isPk(key) && isPk(pkKey)
    ensures RecordsAgree(isPk, AliasObjects(objects, duration, key, pkKey, bean, now),
                         s.(store := s.store[pkKey := bean], target := s.target[key := pkKey]), now)
  {
  }

  /** Dropping a key together with the aliases it lists strands nobody. */
  lemma DropLive(isPk: string -> bool, objects: map<string, CacheElement<Option<Bean>>>, key: string,
                 order: seq<string>, now: int)
    requires AliasesLive(isPk, objects, now)
    requires forall k :: k in order <==> key in objects && k in objects[key].refKeys
    ensures AliasesLive(isPk, objects - (set k | k in order) - {key}, now)
    ensures forall k :: k in objects && k !in order && !isPk(k) && now <= objects[k].expiresAt ==> objects[k].depKey != key
  {
  }

  /** Keys are classified once and for all: a condition key stored with an empty or
      equal primary key condition is a primary key, any other is not. */
  predicate Classified(isPk: string -> bool, key: string, pkKey: string) {
    if StoresPrimary(key, pkKey) then isPk(key) else !isPk(key) && isPk(pkKey)
  }

  lemma SetPrimaryKeeps(isPk: string -> bool, duration: int, g: Group, s: Ideal, key: string, bean: Bean, now: int,
                        order: seq<string>)
    requires Coherent(isPk, duration, g, now) && Agrees(isPk, g, s, now)
    requires isPk(key) && bean.encodable && VisitsRefKeys(g.objects, key, order)
    ensures var r := g.(objects := SetPrimary(g.objects, duration, key, bean, now, order));
            && Coherent(isPk, duration, r, now)
            && Agrees(isPk, r, s.(store := s.store[key := bean], target := Detached(s.target, key)), now)
  {
    SetPrimaryMirrored(duration, g.objects, key, bean, now, order);
    PrimaryObjectsLive(isPk, duration, g.objects.objects, key, bean, now, order);
    PrimaryObjectsAgree(isPk, duration, g.objects.objects, s, key, bean, now, order);
  }

  lemma SetAliasKeeps(isPk: string -> bool, duration: int, g: Group, s: Ideal, key: string, pkKey: string, bean: Bean, now: int)
    requires Coherent(isPk, duration, g, now) && Agrees(isPk, g, s, now)
    requires !isPk(key) && isPk(pkKey) && pkKey != "" && bean.encodable
    ensures var r := g.(objects := SetAlias(g.objects, duration, key, pkKey, bean, now));
            && Coherent(isPk, duration, r, now)
            && Agrees(isPk, r, s.(store := s.store[pkKey := bean], target := s.target[key := pkKey]), now)
  {
    SetAliasMirrored(duration, g.objects, key, pkKey, bean, now);
    SetAliasObjects(duration, g.objects, key, pkKey, bean, now);
    AliasObjectsLive(isPk, duration, g.objects.objects, key, pkKey, bean, now);
    AliasObjectsAgree(isPk, duration, g.objects.objects, s, key, pkKey, bean, now);
  }

  lemma SetKeeps(isPk: string -> bool, duration: int, g: Group, s: Ideal, key: string, pkKey: string, bean: Bean,
                 now: int, order: seq<string>)
    requires Coherent(isPk, duration, g, now) && Agrees(isPk, g, s, now)
    requires Classified(isPk, key, pkKey)
    requires StoresPrimary(key, pkKey) ==> VisitsRefKeys(SetBase(g, pkKey), key, order)
    ensures var r := Set(g, duration, key, pkKey, bean, now, order);
            && Coherent(isPk, duration, r, now) && Agrees(isPk, r, IdealSet(s, key, pkKey, bean), now)
            && r.arrays == g.arrays && r.pkColumns == g.pkColumns
  {
    var base := g.(objects := SetBase(g, pkKey));
    if bean.encodable {
      if StoresPrimary(key, pkKey) {
        SetPrimaryKeeps(isPk, duration, base, s, key, bean, now, order);
      } else {
        SetAliasKeeps(isPk, duration, base, s, key, pkKey, bean, now);
      }
    }
  }

  /** In a coherent cache `get` hits exactly when the key is there and has not
      expired; copying never fails, and the record is the ideal's. */
  lemma GetIsExact(isPk: string -> bool, duration: int, g: Group, s: Ideal, key: string, now: int, cloneResult: bool)
    requires Coherent(isPk, duration, g, now) && Agrees(isPk, g, s, now)
    ensures var hit := Get(g.objects, key, now, cloneResult).1;
            && (hit.Some? <==> key in g.objects.objects && now <= g.objects.objects[key].expiresAt)
            && (hit.Some? && isPk(key) ==> key in s.store && hit.value == s.store[key])
            && (hit.Some? && !isPk(key) ==>
                  key in s.target && s.target[key] in s.store && hit.value == s.store[s.target[key]])
  {
  }

  lemma GetKeeps(isPk: string -> bool, duration: int, g: Group, s: Ideal, key: string, now: int, cloneResult: bool)
    requires Coherent(isPk, duration, g, now) && Agrees(isPk, g, s, now)
    ensures var r := g.(objects := Get(g.objects, key, now, cloneResult).0);
            Coherent(isPk, duration, r, now) && Agrees(isPk, r, s, now)
  {
    GetLeaves(isPk, g.objects, key, now, cloneResult);
    if key in g.objects.objects && now > g.objects.objects[key].expiresAt {
      RemoveMirrored(g.objects, key);
      DropExpiredKeeps(isPk, duration, g, s, Remove(g.objects, key), key, now);
    }
  }

  lemma DropExpiredKeeps(isPk: string -> bool, duration: int, g: Group, s: Ideal, w: Wrapper<Option<Bean>>, key: string, now: int)
    requires Coherent(isPk, duration, g, now) && Agrees(isPk, g, s, now)
    requires key in g.objects.objects && now > g.objects.objects[key].expiresAt
    requires Mirrored(w) && w.objects == g.objects.objects - {key}
    ensures Coherent(isPk, duration, g.(objects := w), now) && Agrees(isPk, g.(objects := w), s, now)
  {
  }

  /** The branches of `get` that would drop a live primary entry are dead: only an
      expired entry is ever removed. */
  lemma GetLeaves(isPk: string -> bool, w: Wrapper<Option<Bean>>, key: string, now: int, cloneResult: bool)
    requires AliasesLive(isPk, w.objects, now)
    ensures Get(w, key, now, cloneResult).0
            == if key in w.objects && now > w.objects[key].expiresAt then Remove(w, key) else w
  {
  }

  lemma DelKeeps(isPk: string -> bool, duration: int, g: Group, s: Ideal, key: string, now: int, order: seq<string>)
    requires Coherent(isPk, duration, g, now) && Agrees(isPk, g, s, now)
    requires VisitsRefKeys(g.objects, key, order)
    ensures var r := g.(objects := Del(g.objects, key, order));
            Coherent(isPk, duration, r, now) && Agrees(isPk, r, IdealDel(s, key), now)
  {
    if key in g.objects.objects {
      RemoveAllMirrored(g.objects, order);
      RemoveMirrored(RemoveAll(g.objects, order), key);
      DropLive(isPk, g.objects.objects, key, order, now);
    }
  }

  lemma Later(isPk: string -> bool, duration: int, g: Group, s: Ideal, now: int, later: int)
    requires Coherent(isPk, duration, g, now) && Agrees(isPk, g, s, now) && now <= later
    ensures Coherent(isPk, duration, g, later) && Agrees(isPk, g, s, later)
  {
  }

  lemma CleanKeeps(isPk: string -> bool, duration: int, g: Group, s: Ideal, now: int)
    requires Coherent(isPk, duration, g, now) && Agrees(isPk, g, s, now)
    ensures Coherent(isPk, duration, CleanTimeouts(g, now), now) && Agrees(isPk, CleanTimeouts(g, now), s, now)
  {
    SweepAllOrNothing(g.objects, now);
    SweepAllOrNothing(g.arrays, now);
  }

  // ---------------------------------------------------------------------------
  // Arrays
  // ---------------------------------------------------------------------------

  lemma PutArrayKeeps(isPk: string -> bool, duration: int, g: Group, s: Ideal, key: string, keys: seq<string>, now: int)
    requires Coherent(isPk, duration, g, now) && Agrees(isPk, g, s, now)
    requires forall i :: 0 <= i < |keys| ==> isPk(keys[i])
    ensures var r := g.(arrays := Put(g.arrays, key, CacheElement(now + duration, key, "", {}, keys)));
            Coherent(isPk, duration, r, now) && Agrees(isPk, r, s.(arrays := s.arrays[key := keys]), now)
  {
    PutMirrored(g.arrays, key, CacheElement(now + duration, key, "", {}, keys));
  }

  lemma DropArrayKeeps(isPk: string -> bool, duration: int, g: Group, s: Ideal, key: string, now: int)
    requires Coherent(isPk, duration, g, now) && Agrees(isPk, g, s, now)
    ensures var r := g.(arrays := Remove(g.arrays, key));
            Coherent(isPk, duration, r, now) && Agrees(isPk, r, s.(arrays := s.arrays - {key}), now)
  {
    RemoveMirrored(g.arrays, key);
  }

  lemma {:induction false} RowsKeep(isPk: string -> bool, duration: int, g: Group, s: Ideal, now: int,
                                    rows: seq<Row>, times: seq<int>, orders: seq<seq<string>>, n: nat)
    requires Coherent(isPk, duration, g, now) && Agrees(isPk, g, s, now)
    requires n <= KeyedRows(rows) && n < |times| && n <= |orders|
    requires now <= times[0] && forall i, j :: 0 <= i < j < |times| ==> times[i] <= times[j]
    requires forall i :: 0 <= i < n ==> isPk(rows[i].pk.value)
    requires RowsVisit(g, duration, rows, times, orders, n)
    ensures var r := SetRows(g, duration, rows, times, orders, n);
            Coherent(isPk, duration, r, times[n]) && Agrees(isPk, r, IdealRows(s, rows, n), times[n])
  {
    if n == 0 {
      Later(isPk, duration, g, s, now, times[0]);
    } else {
      RowsKeep(isPk, duration, g, s, now, rows, times, orders, n - 1);
      var r, row := SetRows(g, duration, rows, times, orders, n - 1), rows[n - 1];
      SetKeeps(isPk, duration, r, IdealRows(s, rows, n - 1), row.pk.value, "", row.bean, times[n - 1], orders[n - 1]);
      Later(isPk, duration, SetRows(g, duration, rows, times, orders, n), IdealRows(s, rows, n), times[n - 1], times[n]);
    }
  }

  /** A whole `setArray` keeps the cache coherent and in agreement with the ideal one. */
  lemma SetArrayKeeps(isPk: string -> bool, duration: int, g: Group, s: Ideal, now: int, key: string,
                      rows: seq<Row>, times: seq<int>, orders: seq<seq<string>>)
    requires Coherent(isPk, duration, g, now) && Agrees(isPk, g, s, now)
    requires |times| == |rows| + 1 && |orders| == |rows| && !ArraysDisabled(g, duration, rows)
    requires now <= times[0] && forall i, j :: 0 <= i < j < |times| ==> times[i] <= times[j]
    requires forall i :: 0 <= i < KeyedRows(rows) ==> isPk(rows[i].pk.value)
    requires RowsVisit(g.(arrays := Remove(g.arrays, key)), duration, rows, times, orders, KeyedRows(rows))
    ensures var r, end := SetArray(g, duration, key, rows, times, orders), times[KeyedRows(rows)];
            Coherent(isPk, duration, r, end) && Agrees(isPk, r, IdealSetArray(s, key, rows), end)
  {
    var n := KeyedRows(rows);
    DropArrayKeeps(isPk, duration, g, s, key, now);
    var g1, s1 := g.(arrays := Remove(g.arrays, key)), s.(arrays := s.arrays - {key});
    RowsKeep(isPk, duration, g1, s1, now, rows, times, orders, n);
    CompletionKeeps(isPk, duration, SetRows(g1, duration, rows, times, orders, n), IdealRows(s1, rows, n), key, rows, times[n]);
  }

  /** The last part of a `setArray`, once all rows are stored. */
  lemma CompletionKeeps(isPk: string -> bool, duration: int, g: Group, s: Ideal, key: string, rows: seq<Row>, now: int)
    requires Coherent(isPk, duration, g, now) && Agrees(isPk, g, s, now)
    requires forall i :: 0 <= i < KeyedRows(rows) ==> isPk(rows[i].pk.value)
    ensures Coherent(isPk, duration, Completed(g, duration, key, rows, now), now)
    ensures Agrees(isPk, Completed(g, duration, key, rows, now), IdealCompleted(s, key, rows), now)
  {
    if KeyedRows(rows) == |rows| {
      PutArrayKeeps(isPk, duration, g, s, key, PkKeys(rows, KeyedRows(rows)), now);
    }
  }

  lemma {:induction false} ReadRowsAgree(isPk: string -> bool, g: Group, s: Ideal, now: int, keys: seq<string>)
    requires AliasesLive(isPk, g.objects.objects, now) && Agrees(isPk, g, s, now)
    requires forall i :: 0 <= i < |keys| ==> isPk(keys[i])
    ensures var r := ReadRows(g.objects, keys);
            && (forall i :: 0 <= i < |r| ==> keys[i] in s.store && r[i] == s.store[keys[i]])
            && (|r| < |keys| ==> keys[|r|] !in g.objects.objects)
  {
    if keys != [] {
      ReadRowsAgree(isPk, g, s, now, keys[..|keys| - 1]);
      assert isPk(keys[|keys| - 1]);
    }
  }

  /** A `getArray` hit lists, in order, the ideal's record of every key of the ideal's
      array; it fails only on a missing, outdated or incomplete array. */
  lemma GetArrayIsExact(isPk: string -> bool, duration: int, g: Group, s: Ideal, key: string, now: int)
    requires Coherent(isPk, duration, g, now) && Agrees(isPk, g, s, now)
    ensures var hit := GetArray(g, key, now).1;
            && (hit.Some? <==>
                  && key in g.arrays.objects && now <= g.arrays.objects[key].expiresAt
                  && forall i :: 0 <= i < |s.arrays[key]| ==> s.arrays[key][i] in g.objects.objects)
            && (hit.Some? ==>
                  && |hit.value| == |s.arrays[key]|
                  && forall i :: 0 <= i < |hit.value| ==>
                       s.arrays[key][i] in s.store && hit.value[i] == s.store[s.arrays[key][i]])
  {
    if key in g.arrays.objects && now <= g.arrays.objects[key].expiresAt {
      var keys := g.arrays.objects[key].data;
      ReadRowsAgree(isPk, g, s, now, keys);
      ReadRowsStopsAtMissing(isPk, g.objects, keys, now);
    }
  }

  lemma {:induction false} ReadRowsStopsAtMissing(isPk: string -> bool, w: Wrapper<Option<Bean>>, keys: seq<string>, now: int)
    ensures |ReadRows(w, keys)| == |keys| ==> forall i :: 0 <= i < |keys| ==> keys[i] in w.objects
  {
    if keys != [] {
      ReadRowsStopsAtMissing(isPk, w, keys[..|keys| - 1], now);
    }
  }

  // ---------------------------------------------------------------------------
  // Runs
  // ---------------------------------------------------------------------------

  /** The atomic steps of the cache. Storing an array is not one of them: `setArray`
      drops the old array, stores every row, and then puts the new array. */
  datatype Op =
    | OpSet(key: string, pkKey: string, bean: Bean, order: seq<string>)
    | OpGet(key: string, cloneResult: bool)
    | OpDel(key: string, order: seq<string>)
    | OpDropArray(key: string)
    | OpPutArray(key: string, keys: seq<string>)
    | OpGetArray(key: string)
    | OpCleanTimeouts
    | OpPkColumns(n: nat)

  /** An operation and the time at which it happens. */
  datatype Event = Event(now: int, op: Op)

  datatype State = State(group: Group, ideal: Ideal, clock: int)

  /** What the callers and the clock guarantee: time does not run backwards, keys are
      classified consistently, and alias sets are visited completely, in some order. */
  ghost predicate Legal(isPk: string -> bool, st: State, e: Event) {
    && st.clock <= e.now
    && match e.op
       case OpSet(key, pkKey, _, order) =>
         && Classified(isPk, key, pkKey)
         && (StoresPrimary(key, pkKey) ==> VisitsRefKeys(SetBase(st.group, pkKey), key, order))
       case OpDel(key, order) => VisitsRefKeys(st.group.objects, key, order)
       case OpPutArray(_, keys) => forall i :: 0 <= i < |keys| ==> isPk(keys[i])
       case _ => true
  }

  function StepGroup(duration: int, g: Group, e: Event): Group {
    match e.op
    case OpSet(key, pkKey, bean, order) => Set(g, duration, key, pkKey, bean, e.now, order)
    case OpGet(key, cloneResult) => g.(objects := Get(g.objects, key, e.now, cloneResult).0)
    case OpDel(key, order) => g.(objects := Del(g.objects, key, order))
    case OpDropArray(key) => g.(arrays := Remove(g.arrays, key))
    case OpPutArray(key, keys) =>
      g.(arrays := Put(g.arrays, key, CacheElement(e.now + duration, key, "", {}, keys)))
    case OpGetArray(key) => GetArray(g, key, e.now).0
    case OpCleanTimeouts => CleanTimeouts(g, e.now)
    case OpPkColumns(n) => g.(pkColumns := n)
  }

  function StepIdeal(s: Ideal, e: Event): Ideal {
    match e.op
    case OpSet(key, pkKey, bean, _) => IdealSet(s, key, pkKey, bean)
    case OpDel(key, _) => IdealDel(s, key)
    case OpDropArray(key) => s.(arrays := s.arrays - {key})
    case OpPutArray(key, keys) => s.(arrays := s.arrays[key := keys])
    case _ => s
  }

  function Step(duration: int, st: State, e: Event): State {
    State(StepGroup(duration, st.group, e), StepIdeal(st.ideal, e), e.now)
  }

  /** `states` is a run of the cache from the empty group through `events`. */
  ghost predicate IsRun(isPk: string -> bool, duration: int, states: seq<State>, events: seq<Event>) {
    && |states| == |events| + 1
    && states[0].group == EMPTY_GROUP && states[0].ideal == Ideal(map[], map[], map[])
    && forall i :: 0 <= i < |events| ==>
         Legal(isPk, states[i], events[i]) && states[i + 1] == Step(duration, states[i], events[i])
  }

  lemma StepKeeps(isPk: string -> bool, duration: int, st: State, e: Event)
    requires Legal(isPk, st, e)
    requires Coherent(isPk, duration, st.group, st.clock) && Agrees(isPk, st.group, st.ideal, st.clock)
    ensures var t := Step(duration, st, e);
            Coherent(isPk, duration, t.group, t.clock) && Agrees(isPk, t.group, t.ideal, t.clock)
  {
    var g, s, now := st.group, st.ideal, e.now;
    Later(isPk, duration, g, s, st.clock, now);
    match e.op
    case OpSet(key, pkKey, bean, order) => SetKeeps(isPk, duration, g, s, key, pkKey, bean, now, order);
    case OpGet(key, cloneResult) => GetKeeps(isPk, duration, g, s, key, now, cloneResult);
    case OpDel(key, order) => DelKeeps(isPk, duration, g, s, key, now, order);
    case OpDropArray(key) => DropArrayKeeps(isPk, duration, g, s, key, now);
    case OpPutArray(key, keys) => PutArrayKeeps(isPk, duration, g, s, key, keys, now);
    case OpGetArray(key) => GetArrayKeeps(isPk, duration, g, s, key, now);
    case OpCleanTimeouts => CleanKeeps(isPk, duration, g, s, now);
    case OpPkColumns(n) =>
  }

  lemma GetArrayKeeps(isPk: string -> bool, duration: int, g: Group, s: Ideal, key: string, now: int)
    requires Coherent(isPk, duration, g, now) && Agrees(isPk, g, s, now)
    ensures Coherent(isPk, duration, GetArray(g, key, now).0, now) && Agrees(isPk, GetArray(g, key, now).0, s, now)
  {
    RemoveMirrored(g.arrays, key);
  }

  function RunGroup(duration: int, g: Group, events: seq<Event>): Group {
    if events == [] then g
    else StepGroup(duration, RunGroup(duration, g, events[..|events| - 1]), events[|events| - 1])
  }

  function RowEvents(rows: seq<Row>, times: seq<int>, orders: seq<seq<string>>, n: nat): seq<Event>
    requires n <= KeyedRows(rows) && n <= |times| && n <= |orders|
  {
    if n == 0 then []
    else RowEvents(rows, times, orders, n - 1)
         + [Event(times[n - 1], OpSet(rows[n - 1].pk.value, "", rows[n - 1].bean, orders[n - 1]))]
  }

  /** The atomic steps of one `setArray`: it gives up at the first row without a primary key. */
  function ArrayEvents(key: string, rows: seq<Row>, times: seq<int>, orders: seq<seq<string>>): seq<Event>
    requires |times| == |rows| + 1 && |orders| == |rows|
  {
    var n := KeyedRows(rows);
    [Event(times[0], OpDropArray(key))] + RowEvents(rows, times, orders, n)
    + if n < |rows| then [] else [Event(times[n], OpPutArray(key, PkKeys(rows, n)))]
  }

  lemma {:induction false} RowEventsRun(duration: int, g: Group, e: Event, rows: seq<Row>, times: seq<int>,
                                        orders: seq<seq<string>>, n: nat)
    requires n <= KeyedRows(rows) && n <= |times| && n <= |orders|
    ensures RunGroup(duration, g, [e] + RowEvents(rows, times, orders, n))
            == SetRows(StepGroup(duration, g, e), duration, rows, times, orders, n)
  {
    var events := [e] + RowEvents(rows, times, orders, n);
    if n == 0 {
      assert events == [e] && events[..0] == [];
    } else {
      assert events[..|events| - 1] == [e] + RowEvents(rows, times, orders, n - 1);
      RowEventsRun(duration, g, e, rows, times, orders, n - 1);
    }
  }

  /** `setArray` is the run of its atomic steps. */
  lemma SetArrayIsItsSteps(duration: int, g: Group, key: string, rows: seq<Row>, times: seq<int>, orders: seq<seq<string>>)
    requires |times| == |rows| + 1 && |orders| == |rows| && !ArraysDisabled(g, duration, rows)
    ensures SetArray(g, duration, key, rows, times, orders) == RunGroup(duration, g, ArrayEvents(key, rows, times, orders))
  {
    var n := KeyedRows(rows);
    var front := [Event(times[0], OpDropArray(key))] + RowEvents(rows, times, orders, n);
    var events := ArrayEvents(key, rows, times, orders);
    RowEventsRun(duration, g, front[0], rows, times, orders, n);
    if n < |rows| {
      assert events == front;
    } else {
      assert events[..|events| - 1] == front;
    }
  }

  /** Every state of every run is coherent and agrees with the ideal cache. */
  lemma {:induction false} RunsStayCoherent(isPk: string -> bool, duration: int, states: seq<State>, events: seq<Event>, n: nat)
    requires IsRun(isPk, duration, states, events) && n < |states|
    ensures Coherent(isPk, duration, states[n].group, states[n].clock)
    ensures Agrees(isPk, states[n].group, states[n].ideal, states[n].clock)
  {
    if n > 0 {
      RunsStayCoherent(isPk, duration, states, events, n - 1);
      StepKeeps(isPk, duration, states[n - 1], events[n - 1]);
    }
  }

  /** Refinement: at any later time, every hit of `get` after any run is the record
      the ideal cache holds for that key. */
  lemma HitsAreLatest(isPk: string -> bool, duration: int, states: seq<State>, events: seq<Event>, n: nat,
                      key: string, now: int, cloneResult: bool)
    requires IsRun(isPk, duration, states, events) && n < |states| && states[n].clock <= now
    ensures var (g, s) := (states[n].group, states[n].ideal);
            var hit := Get(g.objects, key, now, cloneResult).1;
            hit.Some? ==>
              if isPk(key) then key in s.store && hit.value == s.store[key]
              else key in s.target && s.target[key] in s.store && hit.value == s.store[s.target[key]]
  {
    RunsStayCoherent(isPk, duration, states, events, n);
    Later(isPk, duration, states[n].group, states[n].ideal, states[n].clock, now);
    GetIsExact(isPk, duration, states[n].group, states[n].ideal, key, now, cloneResult);
  }

  /** The same for arrays: a hit lists the latest records of the stored keys, in order. */
  lemma ArrayHitsAreLatest(isPk: string -> bool, duration: int, states: seq<State>, events: seq<Event>, n: nat,
                           key: string, now: int)
    requires IsRun(isPk, duration, states, events) && n < |states| && states[n].clock <= now
    ensures var (g, s) := (states[n].group, states[n].ideal);
            var hit := GetArray(g, key, now).1;
            hit.Some? ==>
              && key in s.arrays && |hit.value| == |s.arrays[key]|
              && forall i :: 0 <= i < |hit.value| ==>
                   s.arrays[key][i] in s.store && hit.value[i] == s.store[s.arrays[key][i]]
  {
    RunsStayCoherent(isPk, duration, states, events, n);
    Later(isPk, duration, states[n].group, states[n].ideal, states[n].clock, now);
    GetArrayIsExact(isPk, duration, states[n].group, states[n].ideal, key, now);
  }

  /** Between two states nothing stores or drops the array, and nothing sweeps. */
  ghost predicate Undisturbed(events: seq<Event>, m: nat, n: nat, key: string) {
    forall i :: m < i < n && i < |events| ==>
      && !events[i].op.OpCleanTimeouts?
      && (events[i].op.OpDropArray? || events[i].op.OpPutArray? ==> events[i].op.key != key)
  }

  /** An array stored by event `m` is there in state `n`, or its time is over. */
  ghost predicate StillThere(duration: int, st: State, e: Event)
    requires e.op.OpPutArray?
  {
    if e.op.key in st.group.arrays.objects
    then st.group.arrays.objects[e.op.key] == CacheElement(e.now + duration, e.op.key, "", {}, e.op.keys)
    else st.clock > e.now + duration
  }

  lemma StepLeavesArray(duration: int, st: State, stored: Event, e: Event)
    requires stored.op.OpPutArray? && StillThere(duration, st, stored) && st.clock <= e.now
    requires !e.op.OpCleanTimeouts?
    requires e.op.OpDropArray? || e.op.OpPutArray? ==> e.op.key != stored.op.key
    ensures StillThere(duration, Step(duration, st, e), stored)
  {
  }

  lemma {:induction false} ArrayStays(isPk: string -> bool, duration: int, states: seq<State>, events: seq<Event>, m: nat, n: nat)
    requires IsRun(isPk, duration, states, events) && m < n < |states| && events[m].op.OpPutArray?
    requires Undisturbed(events, m, n, events[m].op.key)
    ensures StillThere(duration, states[n], events[m])
  {
    assert states[n] == Step(duration, states[n - 1], events[n - 1]);
    if m + 1 < n {
      ArrayStays(isPk, duration, states, events, m, n - 1);
      assert Legal(isPk, states[n - 1], events[n - 1]);
      StepLeavesArray(duration, states[n - 1], events[m], events[n - 1]);
    }
  }

  /** How long an array lives, in every run: stored at some time and not disturbed since, it
      is a hit if and only if that is not longer ago than the caching duration and all its
      records are present. */
  lemma ArrayLivesExactly(isPk: string -> bool, duration: int, states: seq<State>, events: seq<Event>, m: nat, n: nat, now: int)
    requires IsRun(isPk, duration, states, events) && m < n < |states| && states[n].clock <= now
    requires events[m].op.OpPutArray? && Undisturbed(events, m, n, events[m].op.key)
    ensures var keys := events[m].op.keys;
            GetArray(states[n].group, events[m].op.key, now).1.Some? <==>
              && now <= events[m].now + duration
              && forall i :: 0 <= i < |keys| ==> keys[i] in states[n].group.objects.objects
  {
    ArrayStays(isPk, duration, states, events, m, n);
    RunsStayCoherent(isPk, duration, states, events, n);
    Later(isPk, duration, states[n].group, states[n].ideal, states[n].clock, now);
    GetArrayIsExact(isPk, duration, states[n].group, states[n].ideal, events[m].op.key, now);
  }

  /** Whenever arrays are cached at all they outlive the limit computed for them: such an array
      is still a hit when the whole caching duration has passed. */
  lemma ArraysOutliveLimit(isPk: string -> bool, duration: int, states: seq<State>, events: seq<Event>, m: nat, n: nat)
    requires IsRun(isPk, duration, states, events) && m < n < |states|
    requires events[m].op.OpPutArray? && Undisturbed(events, m, n, events[m].op.key)
    requires duration > ARRAY_DURATION_MARGIN && states[n].clock <= events[m].now + duration
    requires forall i :: 0 <= i < |events[m].op.keys| ==> events[m].op.keys[i] in states[n].group.objects.objects
    ensures GetArray(states[n].group, events[m].op.key, events[m].now + duration).1.Some?
    ensures events[m].now + duration > events[m].now + ArrayLimit(duration)
  {
    ArrayLivesExactly(isPk, duration, states, events, m, n, events[m].now + duration);
  }

  /** At an input: an array of one record, stored at t, is a hit at t + 300. */
  lemma ArrayHitAfterLimit(key: string, pk: string, bean: Bean, t: int)
    requires bean.encodable
    ensures var g := EMPTY_GROUP.(pkColumns := 1);
            var stored := SetArray(g, DEFAULT_CACHING_DURATION_SECONDS, key, [Row(bean, Some(pk))], [t, t], [[]]);
            && GetArray(stored, key, t + 300).1 == Some([bean])
            && ArrayLimit(DEFAULT_CACHING_DURATION_SECONDS) == 180
  {
    var g := EMPTY_GROUP.(pkColumns := 1);
    var rows := [Row(bean, Some(pk))];
    assert rows[1..] == [];
    assert KeyedRows(rows) == 1 && PkKeys(rows, 1) == [pk];
    OneRowStored(g, pk, bean, t);
    assert g.(arrays := Remove(g.arrays, key)) == g;
    var stored := SetRows(g, DEFAULT_CACHING_DURATION_SECONDS, rows, [t, t], [[]], 1);
    assert [pk][..0] == [];
    assert ReadRows(stored.objects, [pk]) == [bean];
  }

  lemma OneRowStored(g: Group, pk: string, bean: Bean, t: int)
    requires bean.encodable && g.objects.objects == map[] && g.pkColumns == 1
    requires KeyedRows([Row(bean, Some(pk))]) == 1
    ensures var r := SetRows(g, DEFAULT_CACHING_DURATION_SECONDS, [Row(bean, Some(pk))], [t, t], [[]], 1);
            && r.objects.objects == map[pk := CacheElement(t + 300, pk, "", {}, Some(bean))]
            && r.arrays == g.arrays && r.pkColumns == 1
  {
    assert SetRows(g, DEFAULT_CACHING_DURATION_SECONDS, [Row(bean, Some(pk))], [t, t], [[]], 0) == g;
    assert RemoveAll(Remove(g.objects, pk), []) == g.objects;
  }

  /** Once a record has been stored again under its primary key, no condition key set
      before can hit it: until such a key is itself set again, every `get` of it misses. */
  lemma RestoredRecordHidesAliases(isPk: string -> bool, duration: int, states: seq<State>, events: seq<Event>,
                                   m: nat, n: nat, alias: string, now: int, cloneResult: bool)
    requires IsRun(isPk, duration, states, events) && m < n < |states| && states[n].clock <= now
    requires events[m].op.OpSet? && StoresPrimary(events[m].op.key, events[m].op.pkKey) && events[m].op.bean.encodable
    requires alias in states[m].ideal.target && states[m].ideal.target[alias] == events[m].op.key
    requires forall i :: m < i < n && events[i].op.OpSet? ==> events[i].op.key != alias
    requires !isPk(alias)
    ensures Get(states[n].group.objects, alias, now, cloneResult).1 == None
  {
    TargetStaysDropped(isPk, duration, states, events, m, n, alias);
    HitsAreLatest(isPk, duration, states, events, n, alias, now, cloneResult);
  }

  lemma {:induction false} TargetStaysDropped(isPk: string -> bool, duration: int, states: seq<State>,
                                              events: seq<Event>, m: nat, n: nat, alias: string)
    requires IsRun(isPk, duration, states, events) && m < n < |states|
    requires events[m].op.OpSet? && StoresPrimary(events[m].op.key, events[m].op.pkKey) && events[m].op.bean.encodable
    requires alias in states[m].ideal.target && states[m].ideal.target[alias] == events[m].op.key
    requires forall i :: m < i < n && events[i].op.OpSet? ==> events[i].op.key != alias
    ensures alias !in states[n].ideal.target
  {
    assert states[n] == Step(duration, states[n - 1], events[n - 1]);
    if m + 1 < n {
      TargetStaysDropped(isPk, duration, states, events, m, n - 1, alias);
    }
  }
}
