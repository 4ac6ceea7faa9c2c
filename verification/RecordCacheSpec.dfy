/** What the record cache of orm/rdbms/caches.go does to its state, operation by
    operation, on values. A group holds two wrappers (single records and arrays
    of record keys); every wrapper mirrors its entries in an ordered expiry queue.
    Condition keys are aliases: they hold no record but the key of the primary
    entry that does, and the primary lists them in `refKeys`. */
module RecordCacheSpec {
  import opened Options
  import opened OrderedQueues

  const DEFAULT_CACHING_DURATION_SECONDS := 300
  const ARRAY_DURATION_MARGIN := 30
  const MAX_ARRAY_CACHING_DURATION_SECONDS := 180

  /** The duration that `setArray` computes for arrays, and does not use. */
  function ArrayLimit(duration: int): (limit: int)
    ensures limit <= 180 && limit <= duration - 30 && (limit == 180 || limit == duration - 30)
  {
    if duration - ARRAY_DURATION_MARGIN > MAX_ARRAY_CACHING_DURATION_SECONDS
    then MAX_ARRAY_CACHING_DURATION_SECONDS else duration - ARRAY_DURATION_MARGIN
  }

  /** A record; `encodable` tells whether copying it (gob) succeeds. */
  datatype Bean = Bean(record: int, encodable: bool)

  function CloneBean(bean: Bean): Option<Bean> {
    if bean.encodable then Some(bean) else None
  }

  datatype CacheElement<+D> =
    CacheElement(expiresAt: int, key: string, depKey: string, refKeys: set<string>, data: D)

  datatype Wrapper<+D> = Wrapper(objects: map<string, CacheElement<D>>, timers: seq<Element<()>>)

  datatype Group = Group(
    objects: Wrapper<Option<Bean>>,
    arrays: Wrapper<seq<string>>,
    pkColumns: nat)

  // ---------------------------------------------------------------------------
  // One wrapper
  // ---------------------------------------------------------------------------

  /** The queue element of a cache element: its key and its expiry time. */
  function Stamp<D>(e: CacheElement<D>): Element<()> {
    Element(e.key, e.expiresAt, ())
  }

  function Find<D>(w: Wrapper<D>, key: string): Option<CacheElement<D>> {
    if key in w.objects then Some(w.objects[key]) else None
  }

  function Remove<D>(w: Wrapper<D>, key: string): Wrapper<D> {
    if key in w.objects
    then Wrapper(w.objects - {key}, RemoveFrom(Asc, w.timers, Stamp(w.objects[key])))
    else w
  }

  function Put<D>(w: Wrapper<D>, key: string, e: CacheElement<D>): Wrapper<D> {
    Wrapper(w.objects[key := e], Insert(Asc, w.timers, Stamp(e)))
  }

  function RemoveAll<D>(w: Wrapper<D>, order: seq<string>): Wrapper<D> {
    if order == [] then w else Remove(RemoveAll(w, order[..|order| - 1]), order[|order| - 1])
  }

  function Ids(q: seq<Element<()>>): set<string> {
    set e <- q :: e.id
  }

  /** The first queue position that expires after `now`; 0 when there is none. */
  function SweepIndex(q: seq<Element<()>>, now: int): (i: nat)
    ensures i <= |q|
    ensures i > 0 ==> i < |q| && q[i].value > now && forall j :: 0 <= j < i ==> q[j].value <= now
    ensures i == 0 ==> (forall e :: e in q ==> e.value <= now) || (q != [] && q[0].value > now)
  {
    SweepFrom(q, now, 0)
  }

  function SweepFrom(q: seq<Element<()>>, now: int, from: nat): (i: nat)
    requires from <= |q| && forall j :: 0 <= j < from ==> q[j].value <= now
    ensures i <= |q|
    ensures i > 0 ==> i < |q| && q[i].value > now && forall j :: 0 <= j < i ==> q[j].value <= now
    ensures i == 0 ==> (forall e :: e in q ==> e.value <= now) || (q != [] && q[0].value > now)
    decreases |q| - from
  {
    if from == |q| then 0 else if q[from].value > now then from else SweepFrom(q, now, from + 1)
  }

  /** Cutting the queue at a position inside it clears all of it, so a sweep that
      starts at all empties the wrapper of everything the queue knows. */
  function Sweep<D>(w: Wrapper<D>, now: int): Wrapper<D> {
    if SweepIndex(w.timers, now) == 0 then w
    else Wrapper(w.objects - Ids(w.timers), [])
  }

  // ---------------------------------------------------------------------------
  // The group operations
  // ---------------------------------------------------------------------------

  predicate StoresPrimary(key: string, pkKey: string) {
    pkKey == "" || pkKey == key
  }

  /** `order` is the order in which the aliases listed by the entry at `key` are visited. */
  ghost predicate VisitsRefKeys(w: Wrapper<Option<Bean>>, key: string, order: seq<string>) {
    && (forall k :: k in order <==> key in w.objects && k in w.objects[key].refKeys)
    && (forall i, j :: 0 <= i < j < |order| ==> order[i] != order[j])
  }

  /** The objects a `set` starts from: without primary key columns, storing
      without a primary key condition forgets everything. */
  function SetBase(g: Group, pkKey: string): Wrapper<Option<Bean>> {
    if g.pkColumns == 0 && pkKey == "" then Wrapper(map[], []) else g.objects
  }

  function SetPrimary(w: Wrapper<Option<Bean>>, duration: int, key: string, bean: Bean, now: int,
                      order: seq<string>): Wrapper<Option<Bean>> {
    Put(RemoveAll(Remove(w, key), order), key, CacheElement(now + duration, key, "", {}, Some(bean)))
  }

  function SetAlias(w: Wrapper<Option<Bean>>, duration: int, key: string, pkKey: string, bean: Bean,
                    now: int): Wrapper<Option<Bean>> {
    var w1 := Remove(w, key);
    var refKeys := (if pkKey in w1.objects then w1.objects[pkKey].refKeys else {}) + {key};
    var w2 := Put(Remove(w1, pkKey), pkKey, CacheElement(now + duration, pkKey, "", refKeys, Some(bean)));
    Put(w2, key, CacheElement(now + duration, key, pkKey, {}, None))
  }

  function Set(g: Group, duration: int, key: string, pkKey: string, bean: Bean, now: int, order: seq<string>): Group {
    if CloneBean(bean).None? then g
    else if StoresPrimary(key, pkKey) then
      g.(objects := SetPrimary(SetBase(g, pkKey), duration, key, bean, now, order))
    else g.(objects := SetAlias(SetBase(g, pkKey), duration, key, pkKey, bean, now))
  }

  /** The answer of `get` and the objects it leaves behind. */
  function Get(w: Wrapper<Option<Bean>>, key: string, now: int, cloneResult: bool)
    : (Wrapper<Option<Bean>>, Option<Bean>)
  {
    if key !in w.objects then (w, None)
    else
      var e := w.objects[key];
      if now > e.expiresAt then (Remove(w, key), None)
      else if e.depKey == "" then
        var copy := Deliver(e.data, cloneResult);
        if copy.None? then (Remove(w, key), None) else (w, copy)
      else if e.depKey !in w.objects then (Remove(w, key), None)
      else
        var pk := w.objects[e.depKey];
        var copy := if now > pk.expiresAt then None else Deliver(pk.data, cloneResult);
        if copy.None? then (Remove(Remove(w, key), e.depKey), None) else (w, copy)
  }

  /** The stored record, or its copy when the caller asks for one. */
  function Deliver(data: Option<Bean>, cloneResult: bool): Option<Bean> {
    if cloneResult && data.Some? then CloneBean(data.value) else data
  }

  function Del(w: Wrapper<Option<Bean>>, key: string, order: seq<string>): Wrapper<Option<Bean>> {
    if key in w.objects then Remove(RemoveAll(w, order), key) else w
  }

  /** A record of an array with its primary key, unless that condition is empty. */
  datatype Row = Row(bean: Bean, pk: Option<string>)

  /** How many leading rows have a primary key. */
  function KeyedRows(rows: seq<Row>): (n: nat)
    ensures n <= |rows|
    ensures forall i :: 0 <= i < n ==> rows[i].pk.Some?
    ensures n < |rows| ==> rows[n].pk.None?
  {
    if rows == [] || rows[0].pk.None? then 0 else 1 + KeyedRows(rows[1..])
  }

  function SetRows(g: Group, duration: int, rows: seq<Row>, times: seq<int>, orders: seq<seq<string>>, n: nat): Group
    requires n <= KeyedRows(rows) && n <= |times| && n <= |orders|
  {
    if n == 0 then g
    else Set(SetRows(g, duration, rows, times, orders, n - 1), duration,
             rows[n - 1].pk.value, "", rows[n - 1].bean, times[n - 1], orders[n - 1])
  }

  /** Each row visits the aliases listed by the entry it replaces. */
  ghost predicate RowsVisit(g: Group, duration: int, rows: seq<Row>, times: seq<int>, orders: seq<seq<string>>, n: nat)
    requires n <= KeyedRows(rows) && n <= |times| && n <= |orders|
  {
    n == 0
    || (RowsVisit(g, duration, rows, times, orders, n - 1)
        && VisitsRefKeys(SetBase(SetRows(g, duration, rows, times, orders, n - 1), ""), rows[n - 1].pk.value, orders[n - 1]))
  }

  function PkKeys(rows: seq<Row>, n: nat): (r: seq<string>)
    requires n <= KeyedRows(rows)
    ensures |r| == n && forall i :: 0 <= i < n ==> r[i] == rows[i].pk.value
  {
    seq(n, i requires 0 <= i < n => rows[i].pk.value)
  }

  predicate ArraysDisabled(g: Group, duration: int, rows: seq<Row>) {
    g.pkColumns == 0 || rows == [] || duration - ARRAY_DURATION_MARGIN <= 0
  }

  /** The array is entered once all rows are stored. */
  function Completed(g: Group, duration: int, key: string, rows: seq<Row>, now: int): Group {
    var n := KeyedRows(rows);
    if n < |rows| then g
    else g.(arrays := Put(g.arrays, key, CacheElement(now + duration, key, "", {}, PkKeys(rows, n))))
  }

  function SetArray(g: Group, duration: int, key: string, rows: seq<Row>, times: seq<int>, orders: seq<seq<string>>): Group
    requires |times| == |rows| + 1 && |orders| == |rows|
  {
    if ArraysDisabled(g, duration, rows) then g
    else
      var n := KeyedRows(rows);
      var stored := SetRows(g.(arrays := Remove(g.arrays, key)), duration, rows, times, orders, n);
      Completed(stored, duration, key, rows, times[n])
  }

  /** The records behind the keys of an array, in order; a missing one ends the reading. */
  function ReadRows(w: Wrapper<Option<Bean>>, keys: seq<string>): (r: seq<Bean>)
    ensures |r| <= |keys|
  {
    if keys == [] then []
    else
      var front := ReadRows(w, keys[..|keys| - 1]);
      var last := keys[|keys| - 1];
      if |front| < |keys| - 1 || last !in w.objects || w.objects[last].data.None?
         || CloneBean(w.objects[last].data.value).None?
      then front
      else front + [w.objects[last].data.value]
  }

  /** The group `getArray` leaves behind, and the records when all are there. */
  function GetArray(g: Group, key: string, now: int): (Group, Option<seq<Bean>>) {
    if key !in g.arrays.objects then (g, None)
    else if now > g.arrays.objects[key].expiresAt then (g.(arrays := Remove(g.arrays, key)), None)
    else
      var keys := g.arrays.objects[key].data;
      var rows := ReadRows(g.objects, keys);
      (g, if |rows| == |keys| then Some(rows) else None)
  }

  function CleanTimeouts(g: Group, now: int): Group {
    g.(objects := Sweep(g.objects, now), arrays := Sweep(g.arrays, now))
  }

  const EMPTY_GROUP := Group(Wrapper(map[], []), Wrapper(map[], []), 0)
}
