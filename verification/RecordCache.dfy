/** The classes of orm/rdbms/caches.go, updating their fields in place. A group
    also carries, as ghosts, the ideal cache it stands for and the latest time it
    has seen; its validity says that it is coherent and agrees with that ideal. */
module RecordCache {
  import opened Options
  import opened OrderedQueues
  import opened RecordCacheProofs
  import Spec = RecordCacheSpec

  type Bean = Spec.Bean
  type CacheElement<D> = Spec.CacheElement<D>

  class CacheElementWrapper<D> {
    var objects: map<string, CacheElement<D>>
    var timerObjects: OrderedQueue<()>

    ghost predicate Valid()
      reads this, timerObjects
    {
      timerObjects.ordering == Asc && timerObjects.Valid()
    }

    ghost function State(): Spec.Wrapper<D>
      reads this, timerObjects
    {
      Spec.Wrapper(objects, timerObjects.queue)
    }

    constructor ()
      ensures Valid() && fresh(timerObjects)
      ensures State() == Spec.Wrapper(map[], [])
    {
      objects := map[];
      timerObjects := new OrderedQueue(Asc);
    }

    method Reset()
      modifies this
      ensures Valid() && fresh(timerObjects)
      ensures State() == Spec.Wrapper(map[], [])
    {
      objects := map[];
      timerObjects := new OrderedQueue(Asc);
    }

    method Get(key: string, removeTimerIfExists: bool) returns (item: Option<CacheElement<D>>)
      requires Valid()
      modifies this, timerObjects
      ensures Valid() && timerObjects == old(timerObjects)
      ensures item == Spec.Find(old(State()), key)
      ensures State() == if removeTimerIfExists then Spec.Remove(old(State()), key) else old(State())
    {
      item := if key in objects then Some(objects[key]) else None;
      if removeTimerIfExists && item.Some? {
        objects := objects - {key};
        var _ := timerObjects.Remove(Spec.Stamp(item.value));
      }
    }

    method Remove(key: string) returns (item: Option<CacheElement<D>>)
      requires Valid()
      modifies this, timerObjects
      ensures Valid() && timerObjects == old(timerObjects)
      ensures item == Spec.Find(old(State()), key) && State() == Spec.Remove(old(State()), key)
    {
      item := if key in objects then Some(objects[key]) else None;
      if item.Some? {
        objects := objects - {key};
        var _ := timerObjects.Remove(Spec.Stamp(item.value));
      }
    }

    method Set(key: string, item: CacheElement<D>)
      requires Valid()
      modifies this, timerObjects
      ensures Valid() && timerObjects == old(timerObjects)
      ensures State() == Spec.Put(old(State()), key, item)
    {
      objects := objects[key := item];
      timerObjects.Add(Spec.Stamp(item));
    }

    /** Removes every key of `keys`, in whatever order the iteration yields them. */
    method RemoveEach(keys: set<string>) returns (ghost order: seq<string>)
      requires Valid()
      modifies this, timerObjects
      ensures Valid() && timerObjects == old(timerObjects)
      ensures (forall k :: k in order <==> k in keys) && forall i, j :: 0 <= i < j < |order| ==> order[i] != order[j]
      ensures State() == Spec.RemoveAll(old(State()), order)
    {
      order := [];
      var rest := keys;
      while rest != {}
        invariant Valid() && timerObjects == old(timerObjects)
        invariant rest <= keys && forall k :: k in order <==> k in keys - rest
        invariant forall i, j :: 0 <= i < j < |order| ==> order[i] != order[j]
        invariant State() == Spec.RemoveAll(old(State()), order)
        decreases rest
      {
        var k :| k in rest;
        var _ := Remove(k);
        assert (order + [k])[..|order|] == order;
        forall i | 0 <= i < |order| ensures order[i] != k {
          assert order[i] in order;
        }
        order, rest := order + [k], rest - {k};
      }
    }

    method CleanTimeouts(now: int)
      requires Valid()
      modifies this, timerObjects
      ensures Valid() && timerObjects == old(timerObjects)
      ensures State() == Spec.Sweep(old(State()), now)
    {
      var timeoutsIndex := 0;
      var elements := timerObjects.Elements();
      var i := 0;
      while i < |elements|
        invariant 0 <= i <= |elements| && timeoutsIndex == 0
        invariant forall j :: 0 <= j < i ==> elements[j].value <= now
        invariant Spec.SweepIndex(elements, now) == Spec.SweepFrom(elements, now, i)
      {
        if elements[i].value > now {
          timeoutsIndex := i;
          break;
        }
        i := i + 1;
      }
      assert timeoutsIndex == Spec.SweepIndex(elements, now);
      if 0 < timeoutsIndex {
        var cut := timerObjects.CutBefore(timeoutsIndex);
        var cuts := cut.value;
        var n := 0;
        while n < |cuts|
          invariant 0 <= n <= |cuts| && timerObjects == old(timerObjects)
          invariant timerObjects.queue == [] && timerObjects.ordering == Asc
          invariant objects == old(objects) - Spec.Ids(cuts[..n])
        {
          assert cuts[..n + 1] == cuts[..n] + [cuts[n]];
          assert Spec.Ids(cuts[..n + 1]) == Spec.Ids(cuts[..n]) + {cuts[n].id};
          objects := objects - {cuts[n].id};
          n := n + 1;
        }
        assert cuts[..n] == old(timerObjects.queue);
      }
    }
  }

  class CacheElementGroup {
    const cachingDurationSeconds: int
    const objects: CacheElementWrapper<Option<Bean>>
    const arrayObjects: CacheElementWrapper<seq<string>>
    var pkColumns: nat
    ghost const isPk: string -> bool
    ghost var ideal: Ideal
    ghost var clock: int

    ghost function Footprint(): set<object>
      reads this, objects, arrayObjects
    {
      {this, objects, arrayObjects, objects.timerObjects, arrayObjects.timerObjects}
    }

    ghost function State(): Spec.Group
      reads Footprint(), this, objects, arrayObjects
    {
      Spec.Group(objects.State(), arrayObjects.State(), pkColumns)
    }

    ghost predicate Separate()
      reads Footprint(), this, objects, arrayObjects
    {
      && objects as object != arrayObjects as object
      && objects.timerObjects != arrayObjects.timerObjects
      && objects.Valid() && arrayObjects.Valid()
    }

    ghost predicate Valid()
      reads Footprint(), this, objects, arrayObjects
    {
      && Separate()
      && Coherent(isPk, cachingDurationSeconds, State(), clock)
      && Agrees(isPk, State(), ideal, clock)
    }

    constructor (ghost primary: string -> bool, ghost now: int)
      ensures Valid() && State() == Spec.EMPTY_GROUP && isPk == primary && clock == now
      ensures cachingDurationSeconds == Spec.DEFAULT_CACHING_DURATION_SECONDS
      ensures fresh(Footprint())
    {
      cachingDurationSeconds := Spec.DEFAULT_CACHING_DURATION_SECONDS;
      objects := new CacheElementWrapper();
      arrayObjects := new CacheElementWrapper();
      pkColumns := 0;
      isPk := primary;
      ideal := Ideal(map[], map[], map[]);
      clock := now;
    }

    /** Keeps the group valid when the caller uses a key as a primary key or as a condition
        key, and not once as this and once as that. */
    method Set(bean: Bean, key: string, pkKey: string, now: int) returns (ghost order: seq<string>)
      requires Separate()
      modifies Footprint()
      ensures Separate() && clock == now && fresh(Footprint() - old(Footprint()))
      ensures old(Valid()) && old(clock) <= now && Classified(isPk, key, pkKey) ==> Valid()
      ensures Spec.StoresPrimary(key, pkKey) ==> Spec.VisitsRefKeys(Spec.SetBase(old(State()), pkKey), key, order)
      ensures State() == Spec.Set(old(State()), cachingDurationSeconds, key, pkKey, bean, now, order)
      ensures ideal == IdealSet(old(ideal), key, pkKey, bean)
    {
      order := SetObjects(bean, key, pkKey, now);
      if old(Valid()) && old(clock) <= now && Classified(isPk, key, pkKey) {
        Later(isPk, cachingDurationSeconds, old(State()), old(ideal), old(clock), now);
        SetKeeps(isPk, cachingDurationSeconds, old(State()), old(ideal), key, pkKey, bean, now, order);
      }
      ideal := IdealSet(ideal, key, pkKey, bean);
      clock := now;
    }

    /** The executable part of `Set`. */
    method SetObjects(bean: Bean, key: string, pkKey: string, now: int) returns (ghost order: seq<string>)
      requires Separate()
      modifies objects, objects.timerObjects
      ensures Separate() && (objects.timerObjects == old(objects.timerObjects) || fresh(objects.timerObjects))
      ensures Spec.StoresPrimary(key, pkKey) ==> Spec.VisitsRefKeys(Spec.SetBase(old(State()), pkKey), key, order)
      ensures State() == Spec.Set(old(State()), cachingDurationSeconds, key, pkKey, bean, now, order)
    {
      var setBean := Spec.CloneBean(bean);
      if setBean.None? {
        order := Order(Spec.SetBase(State(), pkKey), key);
        return;
      }
      if pkColumns <= 0 && "" == pkKey {
        objects.Reset();
      }
      if "" == pkKey || pkKey == key {
        order := StorePrimary(key, setBean.value, now);
      } else {
        StoreAlias(key, pkKey, setBean.value, now);
        order := [];
      }
    }

    method StorePrimary(key: string, setBean: Bean, now: int) returns (ghost order: seq<string>)
      requires objects.Valid()
      modifies objects, objects.timerObjects
      ensures objects.Valid() && objects.timerObjects == old(objects.timerObjects)
      ensures Spec.VisitsRefKeys(old(objects.State()), key, order)
      ensures objects.State() == Spec.SetPrimary(old(objects.State()), cachingDurationSeconds, key, setBean, now, order)
    {
      order := [];
      var existsEle := objects.Get(key, true);
      if existsEle.Some? {
        order := objects.RemoveEach(existsEle.value.refKeys);
      }
      objects.Set(key, Spec.CacheElement(now + cachingDurationSeconds, key, "", {}, Some(setBean)));
    }

    /** The primary entry is renewed with the aliases it had and the new one. */
    method StoreAlias(key: string, pkKey: string, setBean: Bean, now: int)
      requires objects.Valid()
      modifies objects, objects.timerObjects
      ensures objects.Valid() && objects.timerObjects == old(objects.timerObjects)
      ensures objects.State() == Spec.SetAlias(old(objects.State()), cachingDurationSeconds, key, pkKey, setBean, now)
    {
      var _ := objects.Get(key, true);
      var existsEle := objects.Get(pkKey, false);
      var refKeys := {};
      if existsEle.Some? {
        refKeys := existsEle.value.refKeys;
        var _ := objects.Remove(pkKey);
      }
      refKeys := refKeys + {key};
      objects.Set(pkKey, Spec.CacheElement(now + cachingDurationSeconds, pkKey, "", refKeys, Some(setBean)));
      objects.Set(key, Spec.CacheElement(now + cachingDurationSeconds, key, pkKey, {}, None));
    }

    /** Some complete order of visiting the aliases of an entry. */
    static lemma Order(w: Spec.Wrapper<Option<Bean>>, key: string) returns (order: seq<string>)
      ensures Spec.VisitsRefKeys(w, key, order)
    {
      order := if key in w.objects then Enumerate(w.objects[key].refKeys) else [];
    }

    static ghost function Enumerate(s: set<string>): (order: seq<string>)
      ensures forall k :: k in order <==> k in s
      ensures forall i, j :: 0 <= i < j < |order| ==> order[i] != order[j]
    {
      if s == {} then [] else var k :| k in s; Enumerate(s - {k}) + [k]
    }

    method Get(key: string, cloneResult: bool, now: int) returns (bean: Option<Bean>, ok: bool)
      requires Valid() && clock <= now
      modifies Footprint()
      ensures Valid() && clock == now && Footprint() == old(Footprint()) && ideal == old(ideal)
      ensures State() == old(State()).(objects := Spec.Get(old(State()).objects, key, now, cloneResult).0)
      ensures ok <==> key in old(objects.objects) && now <= old(objects.objects)[key].expiresAt
      ensures ok && isPk(key) ==> key in ideal.store && bean == Some(ideal.store[key])
      ensures ok && !isPk(key) ==>
                key in ideal.target && ideal.target[key] in ideal.store && bean == Some(ideal.store[ideal.target[key]])
      ensures !ok ==> bean == None
    {
      Later(isPk, cachingDurationSeconds, State(), ideal, clock, now);
      GetIsExact(isPk, cachingDurationSeconds, State(), ideal, key, now, cloneResult);
      GetKeeps(isPk, cachingDurationSeconds, State(), ideal, key, now, cloneResult);
      bean, ok := GetObjects(key, cloneResult, now);
      clock := now;
    }

    /** Whatever `get` may read as a record is one. */
    static ghost predicate Readable(entries: map<string, CacheElement<Option<Bean>>>) {
      forall k :: k in entries ==>
        if entries[k].depKey == "" then entries[k].data.Some?
        else entries[k].depKey in entries ==> entries[entries[k].depKey].data.Some?
    }

    /** The executable part of `Get`: an entry without a `depKey` holds a record, an
        entry with one leads to an entry that does. */
    method GetObjects(key: string, cloneResult: bool, now: int) returns (bean: Option<Bean>, ok: bool)
      requires Separate() && Readable(objects.objects)
      modifies objects, objects.timerObjects
      ensures Separate() && objects.timerObjects == old(objects.timerObjects)
      ensures State() == old(State()).(objects := Spec.Get(old(State()).objects, key, now, cloneResult).0)
      ensures bean == Spec.Get(old(State()).objects, key, now, cloneResult).1 && (ok <==> bean.Some?)
    {
      var e := objects.Get(key, false);
      bean, ok := None, false;
      var pkEle: Option<CacheElement<Option<Bean>>> := None;
      if e.Some? && now <= e.value.expiresAt {
        if "" == e.value.depKey {
          bean := if cloneResult then Spec.CloneBean(e.value.data.value) else e.value.data;
          ok := bean.Some?;
        } else {
          pkEle := objects.Get(e.value.depKey, false);
          if pkEle.Some? && now <= pkEle.value.expiresAt {
            bean := if cloneResult then Spec.CloneBean(pkEle.value.data.value) else pkEle.value.data;
            ok := bean.Some?;
          }
        }
      }
      if !ok {
        if pkEle.None? {
          if e.Some? {
            var _ := objects.Remove(key);
          }
        } else {
          var _ := objects.Remove(key);
          var _ := objects.Remove(e.value.depKey);
        }
      }
    }

    method Del(key: string, now: int) returns (ghost order: seq<string>)
      requires Valid() && clock <= now
      modifies Footprint()
      ensures Valid() && clock == now && Footprint() == old(Footprint())
      ensures Spec.VisitsRefKeys(old(State()).objects, key, order)
      ensures State() == old(State()).(objects := Spec.Del(old(State()).objects, key, order))
      ensures ideal == IdealDel(old(ideal), key)
    {
      order := [];
      var e := objects.Get(key, false);
      if e.Some? {
        if |e.value.refKeys| > 0 {
          order := objects.RemoveEach(e.value.refKeys);
        }
        var _ := objects.Remove(key);
      }
      Later(isPk, cachingDurationSeconds, old(State()), old(ideal), old(clock), now);
      DelKeeps(isPk, cachingDurationSeconds, old(State()), old(ideal), key, now, order);
      ideal := IdealDel(ideal, key);
      clock := now;
    }

    static predicate Ascending(from: int, times: seq<int>) {
      (times != [] ==> from <= times[0]) && forall i, j :: 0 <= i < j < |times| ==> times[i] <= times[j]
    }

    ghost predicate PrimaryRows(rows: seq<Spec.Row>) {
      forall i :: 0 <= i < Spec.KeyedRows(rows) ==> isPk(rows[i].pk.value)
    }

    /** `rows` are the beans with their primary keys, `times` the clock readings; each row
        stored visits the aliases of the entry it replaces. Keeps the group valid when the
        primary keys of the rows are used as such throughout. */
    method SetArray(key: string, rows: seq<Spec.Row>, times: seq<int>) returns (ghost orders: seq<seq<string>>)
      requires Separate() && |times| == |rows| + 1
      modifies Footprint()
      ensures Separate() && fresh(Footprint() - old(Footprint())) && |orders| == |rows|
      ensures old(Valid()) && Ascending(old(clock), times) && PrimaryRows(rows) ==> Valid()
      ensures State() == Spec.SetArray(old(State()), cachingDurationSeconds, key, rows, times, orders)
      ensures Spec.ArraysDisabled(old(State()), cachingDurationSeconds, rows) ==> ideal == old(ideal)
      ensures !Spec.ArraysDisabled(old(State()), cachingDurationSeconds, rows) ==>
                && ideal == IdealSetArray(old(ideal), key, rows)
                && Spec.RowsVisit(old(State()).(arrays := Spec.Remove(old(State()).arrays, key)),
                                  cachingDurationSeconds, rows, times, orders, Spec.KeyedRows(rows))
    {
      var arrayCachingDurationSeconds := cachingDurationSeconds - Spec.ARRAY_DURATION_MARGIN;
      if pkColumns <= 0 || |rows| <= 0 || arrayCachingDurationSeconds <= 0 {
        orders := seq(|rows|, _ => []);
      } else {
        orders := StoreArray(key, rows, times);
        if old(Valid()) && Ascending(old(clock), times) && PrimaryRows(rows) {
          SetArrayKeeps(isPk, cachingDurationSeconds, old(State()), old(ideal), old(clock), key, rows, times, orders);
        }
        ideal, clock := IdealSetArray(ideal, key, rows), times[Spec.KeyedRows(rows)];
      }
    }

    /** The executable part of `SetArray`. */
    method StoreArray(key: string, rows: seq<Spec.Row>, times: seq<int>) returns (ghost orders: seq<seq<string>>)
      requires Separate() && |times| == |rows| + 1
      requires !Spec.ArraysDisabled(State(), cachingDurationSeconds, rows)
      modifies objects, objects.timerObjects, arrayObjects, arrayObjects.timerObjects
      ensures Separate() && (objects.timerObjects == old(objects.timerObjects) || fresh(objects.timerObjects))
      ensures arrayObjects.timerObjects == old(arrayObjects.timerObjects) && |orders| == |rows|
      ensures State() == Spec.SetArray(old(State()), cachingDurationSeconds, key, rows, times, orders)
      ensures Spec.RowsVisit(old(State()).(arrays := Spec.Remove(old(State()).arrays, key)),
                             cachingDurationSeconds, rows, times, orders, Spec.KeyedRows(rows))
    {
      ghost var start := State();
      var _ := arrayObjects.Get(key, true);
      var n, cacheObjects;
      n, cacheObjects, orders := SetRows(rows, times);
      ghost var stored := State();
      if n == |rows| {
        arrayObjects.Set(key, Spec.CacheElement(times[n] + cachingDurationSeconds, key, "", {}, cacheObjects));
      }
      SetArrayShape(start, key, rows, times, orders, n, stored, State());
    }

    lemma SetArrayShape(g: Spec.Group, key: string, rows: seq<Spec.Row>, times: seq<int>, orders: seq<seq<string>>, n: nat,
                        stored: Spec.Group, end: Spec.Group)
      requires |times| == |rows| + 1 && |orders| == |rows| && !Spec.ArraysDisabled(g, cachingDurationSeconds, rows)
      requires n == Spec.KeyedRows(rows)
      requires stored == Spec.SetRows(g.(arrays := Spec.Remove(g.arrays, key)), cachingDurationSeconds, rows, times, orders, n)
      requires end == if n != |rows| then stored else stored.(arrays := Spec.Put(stored.arrays, key,
                        Spec.CacheElement(times[n] + cachingDurationSeconds, key, "", {}, Spec.PkKeys(rows, n))))
      ensures Spec.SetArray(g, cachingDurationSeconds, key, rows, times, orders) == end
    {
    }

    /** The loop of `SetArray`: stores the rows one by one up to the first without a primary key. */
    method SetRows(rows: seq<Spec.Row>, times: seq<int>)
      returns (n: nat, cacheObjects: seq<string>, ghost orders: seq<seq<string>>)
      requires Separate() && |times| == |rows| + 1
      modifies objects, objects.timerObjects
      ensures Separate() && (objects.timerObjects == old(objects.timerObjects) || fresh(objects.timerObjects))
      ensures n == Spec.KeyedRows(rows) && cacheObjects == Spec.PkKeys(rows, n) && |orders| == |rows|
      ensures State() == Spec.SetRows(old(State()), cachingDurationSeconds, rows, times, orders, n)
      ensures Spec.RowsVisit(old(State()), cachingDurationSeconds, rows, times, orders, n)
    {
      ghost var start := State();
      orders := seq(|rows|, _ => []);
      cacheObjects := [];
      n := 0;
      while n < |rows|
        invariant n <= Spec.KeyedRows(rows) && |orders| == |rows|
        invariant Separate() && (objects.timerObjects == old(objects.timerObjects) || fresh(objects.timerObjects))
        invariant RowsStored(start, rows, times, orders, n, State())
        invariant cacheObjects == Spec.PkKeys(rows, n)
        decreases |rows| - n
      {
        if rows[n].pk.None? {
          break;
        }
        ghost var before := State();
        ghost var order := SetObjects(rows[n].bean, rows[n].pk.value, "", times[n]);
        RowStored(start, rows, times, orders, n, before, order, State());
        orders := orders[n := order];
        cacheObjects := cacheObjects + [rows[n].pk.value];
        n := n + 1;
      }
    }

    ghost predicate RowsStored(g: Spec.Group, rows: seq<Spec.Row>, times: seq<int>, orders: seq<seq<string>>, n: nat, end: Spec.Group)
      requires n <= Spec.KeyedRows(rows) && n <= |times| && n <= |orders|
    {
      && end == Spec.SetRows(g, cachingDurationSeconds, rows, times, orders, n)
      && Spec.RowsVisit(g, cachingDurationSeconds, rows, times, orders, n)
    }

    lemma RowStored(g: Spec.Group, rows: seq<Spec.Row>, times: seq<int>, orders: seq<seq<string>>, n: nat,
                    before: Spec.Group, order: seq<string>, after: Spec.Group)
      requires n < Spec.KeyedRows(rows) && n < |times| && n < |orders|
      requires RowsStored(g, rows, times, orders, n, before)
      requires Spec.VisitsRefKeys(Spec.SetBase(before, ""), rows[n].pk.value, order)
      requires after == Spec.Set(before, cachingDurationSeconds, rows[n].pk.value, "", rows[n].bean, times[n], order)
      ensures RowsStored(g, rows, times, orders[n := order], n + 1, after)
    {
      SetRowsSameOrders(g, rows, times, orders, orders[n := order], n);
    }

    lemma {:induction false} SetRowsSameOrders(g: Spec.Group, rows: seq<Spec.Row>, times: seq<int>, orders: seq<seq<string>>,
                              others: seq<seq<string>>, n: nat)
      requires n <= Spec.KeyedRows(rows) && n <= |times| && n <= |orders| && n <= |others|
      requires forall i :: 0 <= i < n ==> orders[i] == others[i]
      ensures Spec.SetRows(g, cachingDurationSeconds, rows, times, orders, n)
              == Spec.SetRows(g, cachingDurationSeconds, rows, times, others, n)
      ensures Spec.RowsVisit(g, cachingDurationSeconds, rows, times, orders, n)
              == Spec.RowsVisit(g, cachingDurationSeconds, rows, times, others, n)
    {
      if n > 0 {
        SetRowsSameOrders(g, rows, times, orders, others, n - 1);
      }
    }

    method GetArray(key: string, now: int) returns (records: seq<Bean>, ok: bool)
      requires Valid() && clock <= now
      modifies Footprint()
      ensures Valid() && clock == now && Footprint() == old(Footprint()) && ideal == old(ideal)
      ensures State() == Spec.GetArray(old(State()), key, now).0
      ensures ok <==> Spec.GetArray(old(State()), key, now).1.Some?
      ensures ok ==> key in ideal.arrays && |records| == |ideal.arrays[key]|
      ensures ok ==> forall i :: 0 <= i < |records| ==>
                       ideal.arrays[key][i] in ideal.store && records[i] == ideal.store[ideal.arrays[key][i]]
    {
      Later(isPk, cachingDurationSeconds, State(), ideal, clock, now);
      GetArrayIsExact(isPk, cachingDurationSeconds, State(), ideal, key, now);
      GetArrayKeeps(isPk, cachingDurationSeconds, State(), ideal, key, now);
      records, ok := GetArrayObjects(key, now);
      clock := now;
    }

    method GetArrayObjects(key: string, now: int) returns (records: seq<Bean>, ok: bool)
      requires Separate()
      requires forall a, i :: a in arrayObjects.objects && 0 <= i < |arrayObjects.objects[a].data| ==>
                 var k := arrayObjects.objects[a].data[i]; k in objects.objects ==> objects.objects[k].data.Some?
      modifies arrayObjects, arrayObjects.timerObjects, objects, objects.timerObjects
      ensures Separate() && Footprint() == old(Footprint())
      ensures State() == Spec.GetArray(old(State()), key, now).0
      ensures if ok then Spec.GetArray(old(State()), key, now).1 == Some(records)
              else Spec.GetArray(old(State()), key, now).1 == None
    {
      records, ok := [], false;
      var e := arrayObjects.Get(key, false);
      if e.None? {
        return;
      } else if now > e.value.expiresAt {
        var _ := arrayObjects.Remove(key);
        return;
      }
      records, ok := ReadRecords(e.value.data);
    }

    method ReadRecords(pkeys: seq<string>) returns (records: seq<Bean>, ok: bool)
      requires objects.Valid()
      requires forall i :: 0 <= i < |pkeys| && pkeys[i] in objects.objects ==> objects.objects[pkeys[i]].data.Some?
      modifies objects, objects.timerObjects
      ensures objects.Valid() && objects.timerObjects == old(objects.timerObjects) && objects.State() == old(objects.State())
      ensures ok <==> |Spec.ReadRows(old(objects.State()), pkeys)| == |pkeys|
      ensures ok ==> records == Spec.ReadRows(old(objects.State()), pkeys)
    {
      records, ok := [], true;
      var i := 0;
      while i < |pkeys|
        invariant 0 <= i <= |pkeys| && ok && objects.State() == old(objects.State())
        invariant objects.Valid() && objects.timerObjects == old(objects.timerObjects)
        invariant records == Spec.ReadRows(old(objects.State()), pkeys[..i]) && |records| == i
      {
        assert pkeys[..i + 1][..i] == pkeys[..i];
        var one := objects.Get(pkeys[i], false);
        var bean := if one.None? then None else Spec.CloneBean(one.value.data.value);
        if bean.None? {
          ReadRowsStops(old(objects.State()), pkeys, i + 1);
          ok := false;
          return;
        }
        records := records + [bean.value];
        i := i + 1;
      }
      assert pkeys[..|pkeys|] == pkeys;
    }

    /** Reading that has stopped does not resume. */
    static lemma {:induction false} ReadRowsStops(w: Spec.Wrapper<Option<Bean>>, keys: seq<string>, n: nat)
      requires n <= |keys| && |Spec.ReadRows(w, keys[..n])| < n
      ensures |Spec.ReadRows(w, keys)| < |keys|
      decreases |keys|
    {
      if n < |keys| {
        assert keys[..|keys| - 1][..n] == keys[..n];
        ReadRowsStops(w, keys[..|keys| - 1], n);
      } else {
        assert keys[..n] == keys;
      }
    }

    method CleanTimeouts(now: int)
      requires Valid() && clock <= now
      modifies Footprint()
      ensures Valid() && clock == now && Footprint() == old(Footprint()) && ideal == old(ideal)
      ensures State() == Spec.CleanTimeouts(old(State()), now)
    {
      Later(isPk, cachingDurationSeconds, State(), ideal, clock, now);
      CleanKeeps(isPk, cachingDurationSeconds, State(), ideal, now);
      objects.CleanTimeouts(now);
      arrayObjects.CleanTimeouts(now);
      clock := now;
    }
  }
}
