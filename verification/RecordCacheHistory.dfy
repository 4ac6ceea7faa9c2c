/** The ideal cache of `RecordCacheProofs` in terms of the history of a run: which record is the
    latest, and which record a condition key stands for (orm/rdbms/caches.go). */
module RecordCacheHistory {
  import opened Options
  import opened RecordCacheSpec
  import opened RecordCacheProofs

  // ---------------------------------------------------------------------------
  // Records
  // ---------------------------------------------------------------------------

  /** The event stores a record under this primary key. */
  predicate StoresRecord(e: Event, key: string) {
    e.op.OpSet? && e.op.bean.encodable && key == if e.op.pkKey == "" then e.op.key else e.op.pkKey
  }

  predicate Deletes(e: Event, key: string) {
    e.op.OpDel? && e.op.key == key
  }

  /** Event `m` is the last of the first `n` that stored this record, and none has deleted it since. */
  ghost predicate LastStoredAt(events: seq<Event>, n: nat, m: int, key: string) {
    && 0 <= m < n <= |events| && StoresRecord(events[m], key)
    && forall i :: m < i < n ==> !StoresRecord(events[i], key) && !Deletes(events[i], key)
  }

  lemma StoreStep(s: Ideal, e: Event, key: string)
    ensures var t := StepIdeal(s, e).store;
            if StoresRecord(e, key) then key in t && t[key] == e.op.bean
            else if Deletes(e, key) then key !in t
            else (key in t <==> key in s.store) && (key in t ==> t[key] == s.store[key])
  {
  }

  lemma {:induction false} StoredStays(isPk: string -> bool, duration: int, states: seq<State>, events: seq<Event>, n: nat,
                                       m: int, key: string)
    requires IsRun(isPk, duration, states, events) && n < |states| && LastStoredAt(events, n, m, key)
    ensures key in states[n].ideal.store && states[n].ideal.store[key] == events[m].op.bean
  {
    assert states[n] == Step(duration, states[n - 1], events[n - 1]);
    StoreStep(states[n - 1].ideal, events[n - 1], key);
    if m < n - 1 {
      StoredStays(isPk, duration, states, events, n - 1, m, key);
    }
  }

  lemma {:induction false} StoredSometime(isPk: string -> bool, duration: int, states: seq<State>, events: seq<Event>, n: nat,
                                          key: string)
    returns (m: int)
    requires IsRun(isPk, duration, states, events) && n < |states| && key in states[n].ideal.store
    ensures LastStoredAt(events, n, m, key)
  {
    assert states[n] == Step(duration, states[n - 1], events[n - 1]);
    StoreStep(states[n - 1].ideal, events[n - 1], key);
    if StoresRecord(events[n - 1], key) {
      m := n - 1;
    } else {
      m := StoredSometime(isPk, duration, states, events, n - 1, key);
    }
  }

  /** The ideal cache holds a record if and only if it has been stored and not deleted since, and
      then the one stored last. */
  lemma IdealExactly(isPk: string -> bool, duration: int, states: seq<State>, events: seq<Event>, n: nat, key: string)
    requires IsRun(isPk, duration, states, events) && n < |states|
    ensures key in states[n].ideal.store <==> exists m :: LastStoredAt(events, n, m, key)
    ensures forall m :: LastStoredAt(events, n, m, key) ==> states[n].ideal.store[key] == events[m].op.bean
  {
    forall m | LastStoredAt(events, n, m, key)
      ensures key in states[n].ideal.store && states[n].ideal.store[key] == events[m].op.bean
    {
      StoredStays(isPk, duration, states, events, n, m, key);
    }
    if key in states[n].ideal.store {
      var m := StoredSometime(isPk, duration, states, events, n, key);
    }
  }

  /** Every hit under a primary key is the record of the last event that stored one there, and
      nothing has deleted that since. */
  lemma HitIsLastStored(isPk: string -> bool, duration: int, states: seq<State>, events: seq<Event>, n: nat,
                        key: string, now: int, cloneResult: bool)
    requires IsRun(isPk, duration, states, events) && n < |states| && states[n].clock <= now && isPk(key)
    requires Get(states[n].group.objects, key, now, cloneResult).1.Some?
    ensures exists m :: LastStoredAt(events, n, m, key)
                        && Get(states[n].group.objects, key, now, cloneResult).1 == Some(events[m].op.bean)
  {
    HitsAreLatest(isPk, duration, states, events, n, key, now, cloneResult);
    var m := StoredSometime(isPk, duration, states, events, n, key);
    StoredStays(isPk, duration, states, events, n, m, key);
  }

  // ---------------------------------------------------------------------------
  // Condition keys
  // ---------------------------------------------------------------------------

  /** The event makes the condition key stand for that primary key. */
  predicate SetsAlias(e: Event, k: string, pk: string) {
    e.op.OpSet? && e.op.bean.encodable && e.op.key == k && e.op.pkKey == pk && pk != "" && pk != k
  }

  /** The event ends that: it deletes either, stores the record without a condition key, or makes
      the condition key stand for another record. */
  predicate EndsAlias(e: Event, k: string, pk: string) {
    || Deletes(e, pk) || Deletes(e, k)
    || (StoresRecord(e, pk) && e.op.key == pk)
    || (e.op.OpSet? && SetsAlias(e, k, e.op.pkKey) && e.op.pkKey != pk)
  }

  /** Event `m` made the condition key stand for the record, and none of the first `n` has ended
      that since. */
  ghost predicate StandsFor(events: seq<Event>, n: nat, m: int, k: string, pk: string) {
    && 0 <= m < n <= |events| && SetsAlias(events[m], k, pk)
    && forall i :: m < i < n ==> !EndsAlias(events[i], k, pk)
  }

  predicate Targets(s: Ideal, k: string, pk: string) {
    k in s.target && s.target[k] == pk
  }

  lemma TargetStep(s: Ideal, e: Event, k: string, pk: string)
    ensures Targets(StepIdeal(s, e), k, pk) <==> SetsAlias(e, k, pk) || (Targets(s, k, pk) && !EndsAlias(e, k, pk))
  {
  }

  lemma {:induction false} AliasStays(isPk: string -> bool, duration: int, states: seq<State>, events: seq<Event>, n: nat,
                                      m: int, k: string, pk: string)
    requires IsRun(isPk, duration, states, events) && n < |states| && StandsFor(events, n, m, k, pk)
    ensures Targets(states[n].ideal, k, pk)
  {
    assert states[n] == Step(duration, states[n - 1], events[n - 1]);
    TargetStep(states[n - 1].ideal, events[n - 1], k, pk);
    if m < n - 1 {
      AliasStays(isPk, duration, states, events, n - 1, m, k, pk);
    }
  }

  lemma {:induction false} AliasSetSometime(isPk: string -> bool, duration: int, states: seq<State>, events: seq<Event>,
                                            n: nat, k: string, pk: string)
    returns (m: int)
    requires IsRun(isPk, duration, states, events) && n < |states| && Targets(states[n].ideal, k, pk)
    ensures StandsFor(events, n, m, k, pk)
  {
    assert states[n] == Step(duration, states[n - 1], events[n - 1]);
    TargetStep(states[n - 1].ideal, events[n - 1], k, pk);
    if SetsAlias(events[n - 1], k, pk) {
      m := n - 1;
    } else {
      m := AliasSetSometime(isPk, duration, states, events, n - 1, k, pk);
    }
  }

  /** A condition key stands for a record in the ideal cache if and only if it was set for it and
      nothing has ended that since. */
  lemma TargetExactly(isPk: string -> bool, duration: int, states: seq<State>, events: seq<Event>, n: nat, k: string, pk: string)
    requires IsRun(isPk, duration, states, events) && n < |states|
    ensures Targets(states[n].ideal, k, pk) <==> exists m :: StandsFor(events, n, m, k, pk)
  {
    forall m | StandsFor(events, n, m, k, pk) ensures Targets(states[n].ideal, k, pk) {
      AliasStays(isPk, duration, states, events, n, m, k, pk);
    }
    if Targets(states[n].ideal, k, pk) {
      var m := AliasSetSometime(isPk, duration, states, events, n, k, pk);
    }
  }

  /** Every hit under a condition key is the latest record of the primary key that it was last
      set for, with nothing since that ended that. */
  lemma AliasHitIsLastStored(isPk: string -> bool, duration: int, states: seq<State>, events: seq<Event>, n: nat,
                             k: string, now: int, cloneResult: bool)
    requires IsRun(isPk, duration, states, events) && n < |states| && states[n].clock <= now && !isPk(k)
    requires Get(states[n].group.objects, k, now, cloneResult).1.Some?
    ensures exists pk, i, m ::
              StandsFor(events, n, i, k, pk) && LastStoredAt(events, n, m, pk)
              && Get(states[n].group.objects, k, now, cloneResult).1 == Some(events[m].op.bean)
  {
    HitsAreLatest(isPk, duration, states, events, n, k, now, cloneResult);
    var pk := states[n].ideal.target[k];
    var i := AliasSetSometime(isPk, duration, states, events, n, k, pk);
    var m := StoredSometime(isPk, duration, states, events, n, pk);
    StoredStays(isPk, duration, states, events, n, m, pk);
  }
}
