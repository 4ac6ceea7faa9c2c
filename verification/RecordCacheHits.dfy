/** What the record cache of orm/rdbms/caches.go still holds: what each operation enters, drops
    and leaves in place, and exactly how long a record or a condition key is a hit. */
module RecordCacheHits {
  import opened Options
  import opened RecordCacheSpec
  import opened RecordCacheProofs

  // ---------------------------------------------------------------------------
  // One operation
  // ---------------------------------------------------------------------------

  /** The keys that go when the entry under a key is replaced or deleted: it and its aliases. */
  ghost predicate GoesWith(w: Wrapper<Option<Bean>>, key: string, k: string) {
    key in w.objects && (k == key || k in w.objects[key].refKeys)
  }

  lemma {:induction false} RemoveAllExactly(w: Wrapper<Option<Bean>>, order: seq<string>, k: string)
    ensures Find(RemoveAll(w, order), k) == if k in order then None else Find(w, k)
  {
    if order != [] {
      var front, last := order[..|order| - 1], order[|order| - 1];
      assert order == front + [last];
      RemoveAllExactly(w, front, k);
    }
  }

  /** `del` drops the entry and the aliases it lists, and nothing else. */
  lemma DelDropsExactly(w: Wrapper<Option<Bean>>, key: string, order: seq<string>, k: string)
    requires VisitsRefKeys(w, key, order)
    ensures Find(Del(w, key, order), k) == if GoesWith(w, key, k) then None else Find(w, k)
  {
    RemoveAllExactly(w, order, k);
  }

  /** A `set` without a primary key condition, in a group without primary key columns, forgets
      everything first. */
  predicate Wipes(g: Group, pkKey: string) {
    g.pkColumns == 0 && pkKey == ""
  }

  /** The aliases of the replaced entry are visited, once each. */
  ghost predicate VisitsReplaced(g: Group, key: string, pkKey: string, order: seq<string>) {
    pkKey == "" || pkKey == key ==>
      VisitsRefKeys(if Wipes(g, pkKey) then Wrapper(map[], []) else g.objects, key, order)
  }

  /** What `set` enters: under a primary key the record, with no aliases; under a condition key
      an alias, and the record under the primary key, with this alias and those it had. */
  lemma SetEnters(g: Group, duration: int, key: string, pkKey: string, bean: Bean, now: int, order: seq<string>)
    requires bean.encodable
    ensures var r := Set(g, duration, key, pkKey, bean, now, order).objects.objects;
            if pkKey == "" || pkKey == key then
              key in r && r[key] == CacheElement(now + duration, key, "", {}, Some(bean))
            else
              var listed := if pkKey in g.objects.objects then g.objects.objects[pkKey].refKeys else {};
              && key in r && r[key] == CacheElement(now + duration, key, pkKey, {}, None)
              && pkKey in r && r[pkKey] == CacheElement(now + duration, pkKey, "", listed + {key}, Some(bean))
  {
    if pkKey != "" && pkKey != key {
      SetAliasObjects(duration, g.objects, key, pkKey, bean, now);
    }
  }

  /** What has been set is a hit, under the key and under the primary key, until it expires. */
  lemma SetHits(g: Group, duration: int, key: string, pkKey: string, bean: Bean, now: int, order: seq<string>,
                later: int, cloneResult: bool)
    requires bean.encodable && later <= now + duration
    ensures var w := Set(g, duration, key, pkKey, bean, now, order).objects;
            && Get(w, key, later, cloneResult).1 == Some(bean)
            && (pkKey != "" ==> Get(w, pkKey, later, cloneResult).1 == Some(bean))
  {
    SetEnters(g, duration, key, pkKey, bean, now, order);
  }

  /** What `set` leaves in place: every other entry, but for the aliases of a record that is
      stored again, and but for everything when it wipes. Arrays and columns stay. */
  lemma SetLeavesOthers(g: Group, duration: int, key: string, pkKey: string, bean: Bean, now: int, order: seq<string>, k: string)
    requires bean.encodable && k != key && (pkKey == "" || k != pkKey) && VisitsReplaced(g, key, pkKey, order)
    ensures var r := Set(g, duration, key, pkKey, bean, now, order);
            && r.arrays == g.arrays && r.pkColumns == g.pkColumns
            && Find(r.objects, k) == if Wipes(g, pkKey) || ((pkKey == "" || pkKey == key) && GoesWith(g.objects, key, k))
                                     then None else Find(g.objects, k)
  {
    if pkKey == "" || pkKey == key {
      RemoveAllExactly(Remove(if Wipes(g, pkKey) then Wrapper(map[], []) else g.objects, key), order, k);
    } else {
      SetAliasObjects(duration, g.objects, key, pkKey, bean, now);
    }
  }

  /** A bean that cannot be copied is not set at all. */
  lemma UncopiedSetsNothing(g: Group, duration: int, key: string, pkKey: string, bean: Bean, now: int, order: seq<string>)
    requires !bean.encodable
    ensures Set(g, duration, key, pkKey, bean, now, order) == g
  {
  }

  /** What `getArray` leaves: everything, but for an expired array that was asked for. */
  lemma GetArrayLeaves(g: Group, key: string, now: int, k: string)
    ensures var r := GetArray(g, key, now).0;
            && r.objects == g.objects && r.pkColumns == g.pkColumns
            && Find(r.arrays, k) == if k == key && key in g.arrays.objects && now > g.arrays.objects[key].expiresAt then None
                                    else Find(g.arrays, k)
  {
  }

  /** What `setArray` does to the arrays: the one under the key goes, and comes back if all rows
      have a primary key; without primary key columns, without rows, or with a short caching
      duration nothing happens at all. */
  lemma SetArrayEnters(g: Group, duration: int, key: string, rows: seq<Row>, times: seq<int>, orders: seq<seq<string>>, k: string)
    requires |times| == |rows| + 1 && |orders| == |rows|
    ensures var r := SetArray(g, duration, key, rows, times, orders);
            if g.pkColumns == 0 || rows == [] || duration <= 30 then r == g
            else if k != key then Find(r.arrays, k) == Find(g.arrays, k)
            else if exists i :: 0 <= i < |rows| && rows[i].pk.None? then Find(r.arrays, key) == None
            else Find(r.arrays, key) == Some(CacheElement(times[|rows|] + duration, key, "", {},
                                                          seq(|rows|, i requires 0 <= i < |rows| => rows[i].pk.value)))
  {
    if !ArraysDisabled(g, duration, rows) {
      RowsLeaveArrays(g.(arrays := Remove(g.arrays, key)), duration, rows, times, orders, KeyedRows(rows));
      AllKeyedExactly(rows);
    }
  }

  lemma {:induction false} RowsLeaveArrays(g: Group, duration: int, rows: seq<Row>, times: seq<int>, orders: seq<seq<string>>, n: nat)
    requires n <= KeyedRows(rows) && n <= |times| && n <= |orders|
    ensures SetRows(g, duration, rows, times, orders, n).arrays == g.arrays
  {
    if n > 0 {
      RowsLeaveArrays(g, duration, rows, times, orders, n - 1);
    }
  }

  lemma AllKeyedExactly(rows: seq<Row>)
    ensures KeyedRows(rows) == |rows| <==> forall i :: 0 <= i < |rows| ==> rows[i].pk.Some?
  {
  }

  // ---------------------------------------------------------------------------
  // The sweep
  // ---------------------------------------------------------------------------

  /** The queue holds expired and unexpired elements. */
  ghost predicate Mixed<D>(w: Wrapper<D>, now: int) {
    (exists e :: e in w.timers && e.value <= now) && (exists e :: e in w.timers && e.value > now)
  }

  /** In every state of every run the sweep of the group empties the records if their queue is
      mixed, and the arrays if theirs is, and leaves them as they were otherwise. */
  lemma GroupSweepExactly(isPk: string -> bool, duration: int, states: seq<State>, events: seq<Event>, n: nat, now: int)
    requires IsRun(isPk, duration, states, events) && n < |states|
    ensures var g, r := states[n].group, CleanTimeouts(states[n].group, now);
            && r.objects == (if Mixed(g.objects, now) then Wrapper(map[], []) else g.objects)
            && r.arrays == (if Mixed(g.arrays, now) then Wrapper(map[], []) else g.arrays)
            && r.pkColumns == g.pkColumns
  {
    RunsStayCoherent(isPk, duration, states, events, n);
    SweepAllOrNothing(states[n].group.objects, now);
    SweepAllOrNothing(states[n].group.arrays, now);
  }

  /** After a sweep of a mixed queue every `get` misses, live records included. */
  lemma SweptMisses(isPk: string -> bool, duration: int, states: seq<State>, events: seq<Event>, n: nat, now: int,
                    key: string, later: int, cloneResult: bool)
    requires IsRun(isPk, duration, states, events) && n < |states|
    ensures var g, r := states[n].group, CleanTimeouts(states[n].group, now);
            && (Mixed(g.objects, now) ==> Get(r.objects, key, later, cloneResult).1 == None)
            && (Mixed(g.arrays, now) ==> GetArray(r, key, later).1 == None)
  {
    GroupSweepExactly(isPk, duration, states, events, n, now);
  }

  // ---------------------------------------------------------------------------
  // Runs
  // ---------------------------------------------------------------------------

  /** The event enters the key: as the key of a `set`, or as its primary key. */
  predicate EntersKey(e: Event, k: string) {
    e.op.OpSet? && e.op.bean.encodable && (e.op.key == k || (e.op.pkKey != "" && e.op.pkKey == k))
  }

  /** The event drops the key, whether or not it has expired. */
  ghost predicate Forgets(st: State, e: Event, k: string) {
    match e.op
    case OpSet(key, pkKey, bean, _) =>
      bean.encodable && (Wipes(st.group, pkKey) || ((pkKey == "" || pkKey == key) && GoesWith(st.group.objects, key, k)))
    case OpDel(key, _) => GoesWith(st.group.objects, key, k)
    case OpCleanTimeouts => Mixed(st.group.objects, e.now)
    case _ => false
  }

  /** The entry is there unchanged, or its time is over and it is gone. */
  predicate KeptOrExpired(st: State, k: string, e: CacheElement<Option<Bean>>) {
    Find(st.group.objects, k) == Some(e) || (Find(st.group.objects, k) == None && st.clock > e.expiresAt)
  }

  /** One event that does not enter the key: it is gone afterwards if the event forgets it; if
      not, it is as before, or expired. */
  lemma EventKeepsKey(isPk: string -> bool, duration: int, st: State, e: Event, k: string)
    requires Legal(isPk, st, e) && !EntersKey(e, k)
    requires Coherent(isPk, duration, st.group, st.clock) && Agrees(isPk, st.group, st.ideal, st.clock)
    ensures var t := Step(duration, st, e);
            && (Forgets(st, e, k) ==> Find(t.group.objects, k) == None)
            && (Find(st.group.objects, k) == None ==> Find(t.group.objects, k) == None)
            && (!Forgets(st, e, k) && Find(st.group.objects, k).Some? ==>
                  KeptOrExpired(t, k, st.group.objects.objects[k]))
  {
    match e.op
    case OpSet(key, pkKey, bean, order) =>
      if bean.encodable {
        SetLeavesOthers(st.group, duration, key, pkKey, bean, e.now, order, k);
      } else {
        UncopiedSetsNothing(st.group, duration, key, pkKey, bean, e.now, order);
      }
    case OpDel(key, order) => DelDropsExactly(st.group.objects, key, order, k);
    case OpGet(key, cloneResult) =>
      Later(isPk, duration, st.group, st.ideal, st.clock, e.now);
      GetLeaves(isPk, st.group.objects, key, e.now, cloneResult);
    case OpCleanTimeouts => SweepAllOrNothing(st.group.objects, e.now);
    case _ =>
  }

  /** Nothing enters the key between event `m` and state `n`. */
  ghost predicate NotEnteredAgain(events: seq<Event>, m: nat, n: nat, k: string) {
    forall i :: m < i < n && i < |events| ==> !EntersKey(events[i], k)
  }

  ghost predicate NeverForgotten(states: seq<State>, events: seq<Event>, m: nat, n: nat, k: string)
    requires |states| == |events| + 1 && n <= |events|
  {
    forall i :: m < i < n ==> !Forgets(states[i], events[i], k)
  }

  lemma KeptStep(isPk: string -> bool, duration: int, st: State, ev: Event, k: string, e: CacheElement<Option<Bean>>, kept: bool)
    requires Legal(isPk, st, ev) && !EntersKey(ev, k)
    requires Coherent(isPk, duration, st.group, st.clock) && Agrees(isPk, st.group, st.ideal, st.clock)
    requires if kept then KeptOrExpired(st, k, e) else Find(st.group.objects, k) == None
    ensures var t := Step(duration, st, ev);
            if kept && !Forgets(st, ev, k) then KeptOrExpired(t, k, e) else Find(t.group.objects, k) == None
  {
    EventKeepsKey(isPk, duration, st, ev, k);
  }

  lemma ForgottenStep(states: seq<State>, events: seq<Event>, m: nat, n: nat, k: string)
    requires |states| == |events| + 1 && m + 1 < n <= |events|
    ensures NeverForgotten(states, events, m, n, k)
            <==> NeverForgotten(states, events, m, n - 1, k) && !Forgets(states[n - 1], events[n - 1], k)
  {
  }

  lemma {:induction false} KeyKept(isPk: string -> bool, duration: int, states: seq<State>, events: seq<Event>, m: nat, n: nat,
                                   k: string, e: CacheElement<Option<Bean>>)
    requires IsRun(isPk, duration, states, events) && m < n < |states|
    requires Find(states[m + 1].group.objects, k) == Some(e) && NotEnteredAgain(events, m, n, k)
    ensures if NeverForgotten(states, events, m, n, k) then KeptOrExpired(states[n], k, e)
            else Find(states[n].group.objects, k) == None
  {
    if m + 1 < n {
      KeyKept(isPk, duration, states, events, m, n - 1, k, e);
      RunsStayCoherent(isPk, duration, states, events, n - 1);
      ForgottenStep(states, events, m, n, k);
      KeptStep(isPk, duration, states[n - 1], events[n - 1], k, e, NeverForgotten(states, events, m, n - 1, k));
      assert states[n] == Step(duration, states[n - 1], events[n - 1]);
    }
  }

  /** The entry under the key after the event. */
  lemma EventEnters(isPk: string -> bool, duration: int, states: seq<State>, events: seq<Event>, m: nat, k: string)
    returns (e: CacheElement<Option<Bean>>)
    requires IsRun(isPk, duration, states, events) && m < |events| && EntersKey(events[m], k)
    ensures Find(states[m + 1].group.objects, k) == Some(e) && e.expiresAt == events[m].now + duration
    ensures isPk(k) ==> e.data == Some(events[m].op.bean)
  {
    var op := events[m].op;
    assert states[m + 1] == Step(duration, states[m], events[m]) && Legal(isPk, states[m], events[m]);
    SetEnters(states[m].group, duration, op.key, op.pkKey, op.bean, events[m].now, op.order);
    e := states[m + 1].group.objects.objects[k];
  }

  /** Exactly how long a key is a hit, in every run: entered by a `set` and not since, it hits if
      and only if the caching duration has not passed and nothing has forgotten it, by deleting
      or storing again what lists it, by wiping, or by sweeping a mixed queue. A primary key then
      hits with the record it was set with. */
  lemma KeyLivesExactly(isPk: string -> bool, duration: int, states: seq<State>, events: seq<Event>, m: nat, n: nat,
                        k: string, now: int, cloneResult: bool)
    requires IsRun(isPk, duration, states, events) && m < n < |states| && states[n].clock <= now
    requires EntersKey(events[m], k) && NotEnteredAgain(events, m, n, k)
    ensures var hit := Get(states[n].group.objects, k, now, cloneResult).1;
            && (hit.Some? <==> now <= events[m].now + duration && NeverForgotten(states, events, m, n, k))
            && (hit.Some? && isPk(k) ==> hit == Some(events[m].op.bean))
  {
    var e := EventEnters(isPk, duration, states, events, m, k);
    KeyKept(isPk, duration, states, events, m, n, k, e);
    RunsStayCoherent(isPk, duration, states, events, n);
    Later(isPk, duration, states[n].group, states[n].ideal, states[n].clock, now);
    GetIsExact(isPk, duration, states[n].group, states[n].ideal, k, now, cloneResult);
  }

  // ---------------------------------------------------------------------------
  // Arrays
  // ---------------------------------------------------------------------------

  /** Rows that all have a primary key, each its own, and can be copied. */
  ghost predicate Storable(isPk: string -> bool, rows: seq<Row>) {
    && KeyedRows(rows) == |rows|
    && (forall i :: 0 <= i < |rows| ==> isPk(rows[i].pk.value) && rows[i].bean.encodable)
    && forall i, j :: 0 <= i < j < |rows| ==> rows[i].pk.value != rows[j].pk.value
  }

  /** The first `n` rows are stored, each as the record of its primary key. */
  lemma {:induction false} RowsStored(isPk: string -> bool, duration: int, g: Group, s: Ideal, now: int, rows: seq<Row>,
                                      times: seq<int>, orders: seq<seq<string>>, n: nat, i: nat)
    requires Coherent(isPk, duration, g, now) && Agrees(isPk, g, s, now)
    requires Storable(isPk, rows) && i < n <= |rows| && g.pkColumns > 0 && |times| == |rows| + 1 && |orders| == |rows|
    requires now <= times[0] && forall a, b :: 0 <= a < b < |times| ==> times[a] <= times[b]
    requires RowsVisit(g, duration, rows, times, orders, n)
    ensures var r := SetRows(g, duration, rows, times, orders, n);
            && rows[i].pk.value in r.objects.objects
            && r.objects.objects[rows[i].pk.value].data == Some(rows[i].bean)
  {
    RowsKeep(isPk, duration, g, s, now, rows, times, orders, n - 1);
    ColumnsStay(g, duration, rows, times, orders, n - 1);
    var before := SetRows(g, duration, rows, times, orders, n - 1);
    if i < n - 1 {
      RowsStored(isPk, duration, g, s, now, rows, times, orders, n - 1, i);
      RowLeavesRecord(isPk, duration, before, times[n - 1], rows[n - 1], orders[n - 1], rows[i].pk.value);
    } else {
      SetEnters(before, duration, rows[i].pk.value, "", rows[i].bean, times[n - 1], orders[n - 1]);
    }
  }

  /** Storing a row leaves the records of other primary keys. */
  lemma RowLeavesRecord(isPk: string -> bool, duration: int, g: Group, now: int, row: Row, order: seq<string>, k: string)
    requires AliasesLive(isPk, g.objects.objects, now) && g.pkColumns > 0 && row.pk.Some? && row.bean.encodable
    requires isPk(row.pk.value) && isPk(k) && k != row.pk.value && VisitsRefKeys(g.objects, row.pk.value, order)
    ensures Find(Set(g, duration, row.pk.value, "", row.bean, now, order).objects, k) == Find(g.objects, k)
  {
    SetLeavesOthers(g, duration, row.pk.value, "", row.bean, now, order, k);
  }

  lemma {:induction false} ColumnsStay(g: Group, duration: int, rows: seq<Row>, times: seq<int>, orders: seq<seq<string>>, n: nat)
    requires n <= KeyedRows(rows) && n <= |times| && n <= |orders|
    ensures SetRows(g, duration, rows, times, orders, n).pkColumns == g.pkColumns
  {
    if n > 0 {
      ColumnsStay(g, duration, rows, times, orders, n - 1);
    }
  }

  /** A whole array of rows that can be stored is a hit until it expires, with these rows in
      order. */
  lemma SetArrayHits(isPk: string -> bool, duration: int, g: Group, s: Ideal, now: int, key: string, rows: seq<Row>,
                     times: seq<int>, orders: seq<seq<string>>, later: int)
    requires Coherent(isPk, duration, g, now) && Agrees(isPk, g, s, now) && Storable(isPk, rows)
    requires |times| == |rows| + 1 && |orders| == |rows| && rows != [] && g.pkColumns > 0 && duration > ARRAY_DURATION_MARGIN
    requires now <= times[0] && forall i, j :: 0 <= i < j < |times| ==> times[i] <= times[j]
    requires RowsVisit(g.(arrays := Remove(g.arrays, key)), duration, rows, times, orders, |rows|)
    ensures var hit := GetArray(SetArray(g, duration, key, rows, times, orders), key, later).1;
            && (hit.Some? <==> later <= times[|rows|] + duration)
            && (hit.Some? ==> |hit.value| == |rows| && forall i :: 0 <= i < |rows| ==> hit.value[i] == rows[i].bean)
  {
    var g1, s1 := g.(arrays := Remove(g.arrays, key)), s.(arrays := s.arrays - {key});
    DropArrayKeeps(isPk, duration, g, s, key, now);
    var r := SetArray(g, duration, key, rows, times, orders);
    var stored := SetRows(g1, duration, rows, times, orders, |rows|);
    forall i | 0 <= i < |rows|
      ensures rows[i].pk.value in stored.objects.objects && stored.objects.objects[rows[i].pk.value].data == Some(rows[i].bean)
    {
      RowsStored(isPk, duration, g1, s1, now, rows, times, orders, |rows|, i);
    }
    assert r == Completed(stored, duration, key, rows, times[|rows|]);
    ReadsAll(stored.objects, PkKeys(rows, |rows|), rows);
  }

  lemma {:induction false} ReadsAll(w: Wrapper<Option<Bean>>, keys: seq<string>, rows: seq<Row>)
    requires |keys| <= |rows|
    requires forall i :: 0 <= i < |keys| ==>
               keys[i] in w.objects && w.objects[keys[i]].data == Some(rows[i].bean) && rows[i].bean.encodable
    ensures var r := ReadRows(w, keys); |r| == |keys| && forall i :: 0 <= i < |keys| ==> r[i] == rows[i].bean
  {
    if keys != [] {
      ReadsAll(w, keys[..|keys| - 1], rows);
    }
  }
}
