/** The strategy index of microsvc/widgets/strategywidets.go at the grain of its two locks:
    additions, removals and loads overlap. Each takes the lock of the widgets first and the one
    of the strategies later, a load once more for every widget it has found. */
module StrategySteps {
  import opened Options
  import opened StrategyIndex

  // ---------------------------------------------------------------------------
  // The machine
  // ---------------------------------------------------------------------------

  /** What a call still has to do with the strategies: enter or drop a widget, announce the
      patterns of a load, or enter the widgets that the load has found. */
  datatype Job =
    | Entering(w: Widget)
    | Dropping(w: Widget)
    | Announcing(patterns: seq<string>, found: map<string, Widget>)
    | Loading(found: map<string, Widget>)
    | Finished

  datatype Shared = Shared(ix: Index, jobs: seq<Job>)

  /** The first section of a call, or the next one of call `j`; a load goes through what it has
      found in any order. */
  datatype Act =
    | StartAdd(w: Widget)
    | StartRemove(name: string)
    | StartLoad(patterns: seq<string>)
    | Go(j: nat, name: string)

  predicate CanAct(s: Shared, a: Act) {
    a.Go? ==>
      a.j < |s.jobs| && !s.jobs[a.j].Finished? && (s.jobs[a.j].Loading? && s.jobs[a.j].found != map[] ==> a.name in s.jobs[a.j].found)
  }

  /** The widget that the next section of a call enters, if it enters one. */
  function Enters(s: Shared, a: Act): Option<Widget>
    requires CanAct(s, a)
  {
    if a.Go? && s.jobs[a.j].Entering? then Some(s.jobs[a.j].w)
    else if a.Go? && s.jobs[a.j].Loading? && a.name in s.jobs[a.j].found then Some(s.jobs[a.j].found[a.name])
    else None
  }

  function Drops(s: Shared, a: Act): Option<Widget>
    requires CanAct(s, a)
  {
    if a.Go? && s.jobs[a.j].Dropping? then Some(s.jobs[a.j].w) else None
  }

  function Strategies(regex: string -> bool, s: Shared, a: Act): map<string, seq<string>>
    requires CanAct(s, a)
  {
    if Enters(s, a).Some? then LoadStrategy(regex, s.ix.strategies, Enters(s, a).value)
    else if Drops(s, a).Some? then RemoveStrategy(regex, s.ix.strategies, Drops(s, a).value)
    else if a.Go? && s.jobs[a.j].Announcing? then Announce(s.ix.strategies, s.jobs[a.j].patterns)
    else s.ix.strategies
  }

  function Widgets(s: Shared, a: Act): map<string, Widget> {
    match a
    case StartAdd(w) => if w.name in s.ix.widgets then s.ix.widgets else s.ix.widgets[w.name := w]
    case StartRemove(name) => s.ix.widgets - {name}
    case _ => s.ix.widgets
  }

  function Jobs(s: Shared, a: Act): seq<Job>
    requires CanAct(s, a)
  {
    match a
    case StartAdd(w) => s.jobs + [if w.name in s.ix.widgets then Finished else Entering(w)]
    case StartRemove(name) => s.jobs + [if name in s.ix.widgets then Dropping(s.ix.widgets[name]) else Finished]
    case StartLoad(patterns) => s.jobs + [Announcing(patterns, s.ix.widgets)]
    case Go(j, name) =>
      match s.jobs[j]
      case Announcing(_, found) => s.jobs[j := Loading(found)]
      case Loading(found) => s.jobs[j := if name in found then Loading(found - {name}) else Finished]
      case _ => s.jobs[j := Finished]
  }

  function Do(regex: string -> bool, s: Shared, a: Act): Shared
    requires CanAct(s, a)
  {
    Shared(Index(Widgets(s, a), Strategies(regex, s, a)), Jobs(s, a))
  }

  const EMPTY := Shared(Index(map[], map[]), [])

  /** Every interleaving of any number of calls. */
  ghost predicate Interleaving(regex: string -> bool, states: seq<Shared>, acts: seq<Act>) {
    && |states| == |acts| + 1 && states[0] == EMPTY
    && forall i :: 0 <= i < |acts| ==> CanAct(states[i], acts[i]) && states[i + 1] == Do(regex, states[i], acts[i])
  }

  // ---------------------------------------------------------------------------
  // What the strategies list
  // ---------------------------------------------------------------------------

  /** Nothing is listed twice. */
  ghost predicate ListsDistinct(ix: Index) {
    forall s :: s in ix.strategies ==> Distinct(ix.strategies[s])
  }

  predicate EntersName(regex: string -> bool, s: Shared, a: Act, name: string)
    requires CanAct(s, a)
  {
    Enters(s, a).Some? && Matches(regex, Enters(s, a).value) && Enters(s, a).value.name == name
  }

  predicate DropsName(regex: string -> bool, s: Shared, a: Act, name: string)
    requires CanAct(s, a)
  {
    Drops(s, a).Some? && Matches(regex, Drops(s, a).value) && Drops(s, a).value.name == name
  }

  predicate Listed(s: Shared, strategy: string, name: string) {
    strategy in s.ix.strategies && name in s.ix.strategies[strategy]
  }

  /** One act: what is listed after it. */
  lemma ActLists(regex: string -> bool, s: Shared, a: Act, strategy: string, name: string)
    requires CanAct(s, a) && ListsDistinct(s.ix)
    ensures Listed(Do(regex, s, a), strategy, name)
            <==> (strategy in s.ix.strategies && EntersName(regex, s, a, name))
                 || (Listed(s, strategy, name) && !DropsName(regex, s, a, name))
    ensures strategy in s.ix.strategies ==> strategy in Do(regex, s, a).ix.strategies
    ensures strategy in Do(regex, s, a).ix.strategies ==> Distinct(Do(regex, s, a).ix.strategies[strategy])
  {
    if a.Go? && s.jobs[a.j].Announcing? {
      AnnounceLists(s.ix.strategies, s.jobs[a.j].patterns);
    } else if strategy in s.ix.strategies {
      var carrier := s.ix.strategies[strategy];
      if Enters(s, a).Some? {
        EnteredIsDistinct(carrier, Enters(s, a).value.name);
      } else if Drops(s, a).Some? {
        DroppedIsDistinct(carrier, Drops(s, a).value.name);
      }
    }
  }

  lemma {:induction false} AlwaysDistinct(regex: string -> bool, states: seq<Shared>, acts: seq<Act>, n: nat)
    requires Interleaving(regex, states, acts) && n < |states|
    ensures ListsDistinct(states[n].ix)
  {
    if n > 0 {
      AlwaysDistinct(regex, states, acts, n - 1);
      forall s | s in states[n].ix.strategies ensures Distinct(states[n].ix.strategies[s]) {
        ActLists(regex, states[n - 1], acts[n - 1], s, "");
      }
    }
  }

  /** Since the strategy was loaded, the last section that entered or dropped a matching widget
      of this name has entered it. */
  ghost predicate LastEntered(regex: string -> bool, states: seq<Shared>, acts: seq<Act>, n: nat, strategy: string, name: string)
    requires Interleaving(regex, states, acts) && n < |states|
  {
    exists i :: 0 <= i < n && EnteredAt(regex, states, acts, i, strategy, name)
                && forall j :: i < j < n ==> !DropsName(regex, states[j], acts[j], name)
  }

  ghost predicate EnteredAt(regex: string -> bool, states: seq<Shared>, acts: seq<Act>, i: nat, strategy: string, name: string)
    requires Interleaving(regex, states, acts) && i < |acts|
  {
    strategy in states[i].ix.strategies && EntersName(regex, states[i], acts[i], name)
  }

  lemma LastEnteredStep(regex: string -> bool, states: seq<Shared>, acts: seq<Act>, n: nat, strategy: string, name: string)
    requires Interleaving(regex, states, acts) && 0 < n < |states|
    ensures LastEntered(regex, states, acts, n, strategy, name)
            <==> EnteredAt(regex, states, acts, n - 1, strategy, name)
                 || (LastEntered(regex, states, acts, n - 1, strategy, name) && !DropsName(regex, states[n - 1], acts[n - 1], name))
  {
    if LastEntered(regex, states, acts, n - 1, strategy, name) && !DropsName(regex, states[n - 1], acts[n - 1], name) {
      var i :| 0 <= i < n - 1 && EnteredAt(regex, states, acts, i, strategy, name)
               && forall j :: i < j < n - 1 ==> !DropsName(regex, states[j], acts[j], name);
      assert forall j :: i < j < n ==> !DropsName(regex, states[j], acts[j], name);
    }
  }

  /** In every interleaving: a loaded strategy lists a name if and only if, since it was loaded,
      the last section that entered or dropped a matching widget of this name has entered it. */
  lemma {:induction false} ListedExactly(regex: string -> bool, states: seq<Shared>, acts: seq<Act>, n: nat, strategy: string,
                                         name: string)
    requires Interleaving(regex, states, acts) && n < |states|
    ensures Listed(states[n], strategy, name) <==> LastEntered(regex, states, acts, n, strategy, name)
  {
    if n > 0 {
      ListedExactly(regex, states, acts, n - 1, strategy, name);
      AlwaysDistinct(regex, states, acts, n - 1);
      ActLists(regex, states[n - 1], acts[n - 1], strategy, name);
      LastEnteredStep(regex, states, acts, n, strategy, name);
    }
  }

  lemma {:induction false} NamesAreKeys(regex: string -> bool, states: seq<Shared>, acts: seq<Act>, n: nat)
    requires Interleaving(regex, states, acts) && n < |states|
    ensures forall k :: k in states[n].ix.widgets ==> states[n].ix.widgets[k].name == k
  {
    if n > 0 {
      NamesAreKeys(regex, states, acts, n - 1);
      assert states[n] == Do(regex, states[n - 1], acts[n - 1]);
    }
  }

  /** Exactly when the index is exact, in every state of every interleaving: if and only if for
      every loaded strategy and every name, the last section that entered or dropped a matching
      widget of the name agrees with what is registered now. */
  lemma IndexExactExactly(regex: string -> bool, states: seq<Shared>, acts: seq<Act>, n: nat)
    requires Interleaving(regex, states, acts) && n < |states|
    ensures Exact(regex, states[n].ix) <==>
              forall s, name :: s in states[n].ix.strategies ==>
                (LastEntered(regex, states, acts, n, s, name) <==> Selected(regex, states[n].ix, name))
  {
    AlwaysDistinct(regex, states, acts, n);
    NamesAreKeys(regex, states, acts, n);
    forall s, name | s in states[n].ix.strategies
      ensures LastEntered(regex, states, acts, n, s, name) <==> name in states[n].ix.strategies[s]
    {
      ListedExactly(regex, states, acts, n, s, name);
    }
  }

  // ---------------------------------------------------------------------------
  // Calls that nothing overlaps
  // ---------------------------------------------------------------------------

  /** The state after `acts`, if each of them is possible. */
  function DoAll(regex: string -> bool, s: Shared, acts: seq<Act>): Option<Shared> {
    if acts == [] then Some(s)
    else
      var front := DoAll(regex, s, acts[..|acts| - 1]);
      if front.Some? && CanAct(front.value, acts[|acts| - 1]) then Some(Do(regex, front.value, acts[|acts| - 1])) else None
  }

  lemma DoAllSnoc(regex: string -> bool, s: Shared, acts: seq<Act>, t: Shared, a: Act)
    requires DoAll(regex, s, acts) == Some(t) && CanAct(t, a)
    ensures DoAll(regex, s, acts + [a]) == Some(Do(regex, t, a))
  {
    assert (acts + [a])[..|acts|] == acts;
  }

  /** The sections of an addition of a new widget in a row. */
  lemma AddInARow(regex: string -> bool, s: Shared, w: Widget)
    requires w.name !in s.ix.widgets
    ensures DoAll(regex, s, [StartAdd(w)] + [Go(|s.jobs|, "")]) == Some(Shared(Add(regex, s.ix, w), s.jobs + [Finished]))
  {
    DoAllSnoc(regex, s, [], s, StartAdd(w));
    assert [] + [StartAdd(w)] == [StartAdd(w)];
    var t := Do(regex, s, StartAdd(w));
    DoAllSnoc(regex, s, [StartAdd(w)], t, Go(|s.jobs|, ""));
    LastReplaced(s.jobs, Entering(w), Finished);
  }

  lemma RemoveInARow(regex: string -> bool, s: Shared, name: string)
    requires name in s.ix.widgets
    ensures DoAll(regex, s, [StartRemove(name)] + [Go(|s.jobs|, "")]) == Some(Shared(Remove(regex, s.ix, name), s.jobs + [Finished]))
  {
    DoAllSnoc(regex, s, [], s, StartRemove(name));
    assert [] + [StartRemove(name)] == [StartRemove(name)];
    var t := Do(regex, s, StartRemove(name));
    DoAllSnoc(regex, s, [StartRemove(name)], t, Go(|s.jobs|, ""));
    LastReplaced(s.jobs, Dropping(s.ix.widgets[name]), Finished);
  }

  /** The sections of a load; `order` is the order in which the widgets are entered. */
  function LoadSections(j: nat, patterns: seq<string>, order: seq<string>): seq<Act> {
    if order == [] then [StartLoad(patterns)] + [Go(j, "")]
    else LoadSections(j, patterns, order[..|order| - 1]) + [Go(j, order[|order| - 1])]
  }

  function Left(found: map<string, Widget>, order: seq<string>): map<string, Widget> {
    map n | n in found && n !in order :: found[n]
  }

  lemma {:induction false} LoadInARow(regex: string -> bool, s: Shared, patterns: seq<string>, order: seq<string>)
    requires forall i, j :: 0 <= i < j < |order| ==> order[i] != order[j]
    requires forall n :: n in order ==> n in s.ix.widgets
    ensures DoAll(regex, s, LoadSections(|s.jobs|, patterns, order))
            == Some(Shared(LoadStrategies(regex, s.ix, patterns, order), s.jobs + [Loading(Left(s.ix.widgets, order))]))
  {
    if order == [] {
      LoadAnnounces(regex, s, patterns);
      assert Left(s.ix.widgets, []) == s.ix.widgets;
    } else {
      var front, last := order[..|order| - 1], order[|order| - 1];
      assert order == front + [last];
      LoadInARow(regex, s, patterns, front);
      var t := Shared(LoadStrategies(regex, s.ix, patterns, front), s.jobs + [Loading(Left(s.ix.widgets, front))]);
      DoAllSnoc(regex, s, LoadSections(|s.jobs|, patterns, front), t, Go(|s.jobs|, last));
      assert Left(s.ix.widgets, front) - {last} == Left(s.ix.widgets, order);
      LastReplaced(s.jobs, Loading(Left(s.ix.widgets, front)), Loading(Left(s.ix.widgets, order)));
    }
  }

  lemma LoadAnnounces(regex: string -> bool, s: Shared, patterns: seq<string>)
    ensures DoAll(regex, s, [StartLoad(patterns)] + [Go(|s.jobs|, "")])
            == Some(Shared(LoadStrategies(regex, s.ix, patterns, []), s.jobs + [Loading(s.ix.widgets)]))
  {
    DoAllSnoc(regex, s, [], s, StartLoad(patterns));
    assert [] + [StartLoad(patterns)] == [StartLoad(patterns)];
    var t := Do(regex, s, StartLoad(patterns));
    DoAllSnoc(regex, s, [StartLoad(patterns)], t, Go(|s.jobs|, ""));
    LastReplaced(s.jobs, Announcing(patterns, s.ix.widgets), Loading(s.ix.widgets));
  }

  lemma LastReplaced(jobs: seq<Job>, before: Job, after: Job)
    ensures (jobs + [before])[|jobs| := after] == jobs + [after]
  {
  }

  // ---------------------------------------------------------------------------
  // Inputs
  // ---------------------------------------------------------------------------

  /** One strategy is loaded, and nothing is registered. */
  function Loaded(strategy: string): Shared {
    Shared(Index(map[], map[strategy := []]), [Finished])
  }

  lemma AnnounceOne(strategy: string)
    ensures Announce(map[], [strategy]) == map[strategy := []]
  {
    assert [strategy][..0] == [];
    var none: map<string, seq<string>> := map[];
    assert none[strategy := []] == map[strategy := []];
  }

  /** What entering and dropping a matching widget does to the strategy. */
  lemma OneStrategy(regex: string -> bool, strategy: string, w: Widget)
    requires Matches(regex, w)
    ensures LoadStrategy(regex, map[strategy := []], w) == map[strategy := [w.name]]
    ensures LoadStrategy(regex, map[strategy := [w.name]], w) == map[strategy := [w.name]]
    ensures RemoveStrategy(regex, map[strategy := [w.name]], w) == map[strategy := []]
  {
    assert [w.name][1..] == [];
    assert [] + [w.name] == [w.name];
  }

  lemma LoadsOne(regex: string -> bool, strategy: string)
    ensures DoAll(regex, EMPTY, [StartLoad([strategy])] + [Go(0, "")] + [Go(0, "")]) == Some(Loaded(strategy))
  {
    LoadInARow(regex, EMPTY, [strategy], []);
    var t := Shared(LoadStrategies(regex, EMPTY.ix, [strategy], []), [] + [Loading(Left(map[], []))]);
    assert Left(map[], []) == map[];
    AnnounceOne(strategy);
    assert t == Shared(Index(map[], map[strategy := []]), [Loading(map[])]);
    DoAllSnoc(regex, EMPTY, LoadSections(0, [strategy], []), t, Go(0, ""));
    assert Do(regex, t, Go(0, "")).jobs == [Finished];
  }

  lemma WidgetReplaced(regex: string -> bool, strategy: string, w: Widget, v: Widget)
    requires Matches(regex, w) && Matches(regex, v) && v.name == w.name
    ensures DoAll(regex, Loaded(strategy), [StartAdd(w)] + [Go(1, "")] + [StartRemove(w.name)] + [StartAdd(v)])
            == Some(Shared(Index(map[v.name := v], map[strategy := [w.name]]), [Finished, Finished, Dropping(w), Entering(v)]))
  {
    var s0 := Loaded(strategy);
    AddInARow(regex, s0, w);
    var s1 := Shared(Index(map[w.name := w], map[strategy := [w.name]]), [Finished, Finished]);
    OneStrategy(regex, strategy, w);
    assert map[][w.name := w] == map[w.name := w];
    assert Add(regex, s0.ix, w) == s1.ix;
    assert s0.jobs + [Finished] == s1.jobs;
    DoAllSnoc(regex, s0, [StartAdd(w)] + [Go(1, "")], s1, StartRemove(w.name));
    var s2 := Shared(Index(map[], map[strategy := [w.name]]), [Finished, Finished, Dropping(w)]);
    assert Do(regex, s1, StartRemove(w.name)) == s2;
    DoAllSnoc(regex, s0, [StartAdd(w)] + [Go(1, "")] + [StartRemove(w.name)], s2, StartAdd(v));
    assert Do(regex, s2, StartAdd(v)).jobs == [Finished, Finished, Dropping(w), Entering(v)];
  }

  /** At an input: a widget is replaced by one of the same name, which matches too, and the
      late drop of the first takes the name away from the second: it is registered, and no
      strategy lists it. */
  lemma ReplacedWidgetListedNowhere(regex: string -> bool, strategy: string, w: Widget, v: Widget)
    requires Matches(regex, w) && Matches(regex, v) && v.name == w.name
    ensures var s := DoAll(regex, Loaded(strategy), [StartAdd(w)] + [Go(1, "")] + [StartRemove(w.name)] + [StartAdd(v)]
                                                    + [Go(3, "")] + [Go(2, "")]);
            && s.Some? && s.value.jobs == [Finished, Finished, Finished, Finished]
            && s.value.ix.strategies == map[strategy := []] && Selected(regex, s.value.ix, v.name)
  {
    var acts := [StartAdd(w)] + [Go(1, "")] + [StartRemove(w.name)] + [StartAdd(v)];
    WidgetReplaced(regex, strategy, w, v);
    OneStrategy(regex, strategy, w);
    OneStrategy(regex, strategy, v);
    var s3 := Shared(Index(map[v.name := v], map[strategy := [w.name]]), [Finished, Finished, Dropping(w), Entering(v)]);
    DoAllSnoc(regex, Loaded(strategy), acts, s3, Go(3, ""));
    var s4 := s3.(jobs := [Finished, Finished, Dropping(w), Finished]);
    assert Do(regex, s3, Go(3, "")) == s4;
    DoAllSnoc(regex, Loaded(strategy), acts + [Go(3, "")], s4, Go(2, ""));
    assert Do(regex, s4, Go(2, "")).jobs == [Finished, Finished, Finished, Finished];
  }

  /** At an input: a widget that is removed while a load runs is listed again. */
  lemma RemovedWidgetListedAgain(regex: string -> bool, strategy: string, w: Widget)
    requires Matches(regex, w)
    ensures var s := DoAll(regex, Loaded(strategy), [StartAdd(w)] + [Go(1, "")] + [StartLoad([])] + [Go(2, "")]
                                                    + [StartRemove(w.name)] + [Go(3, "")] + [Go(2, w.name)]);
            && s.Some? && s.value.jobs == [Finished, Finished, Loading(map[]), Finished]
            && s.value.ix.strategies == map[strategy := [w.name]] && !Selected(regex, s.value.ix, w.name)
  {
    var acts := [StartAdd(w)] + [Go(1, "")] + [StartLoad([])] + [Go(2, "")];
    WidgetFound(regex, strategy, w);
    OneStrategy(regex, strategy, w);
    var found := map[w.name := w];
    var s4 := Shared(Index(found, map[strategy := [w.name]]), [Finished, Finished, Loading(found)]);
    DoAllSnoc(regex, Loaded(strategy), acts, s4, StartRemove(w.name));
    var s5 := Shared(Index(map[], map[strategy := [w.name]]), [Finished, Finished, Loading(found), Dropping(w)]);
    assert Do(regex, s4, StartRemove(w.name)) == s5;
    DoAllSnoc(regex, Loaded(strategy), acts + [StartRemove(w.name)], s5, Go(3, ""));
    var s6 := Shared(Index(map[], map[strategy := []]), [Finished, Finished, Loading(found), Finished]);
    assert Do(regex, s5, Go(3, "")) == s6;
    DoAllSnoc(regex, Loaded(strategy), acts + [StartRemove(w.name)] + [Go(3, "")], s6, Go(2, w.name));
    assert found - {w.name} == map[];
    assert Do(regex, s6, Go(2, w.name)).jobs == [Finished, Finished, Loading(map[]), Finished];
  }

  lemma WidgetFound(regex: string -> bool, strategy: string, w: Widget)
    requires Matches(regex, w)
    ensures DoAll(regex, Loaded(strategy), [StartAdd(w)] + [Go(1, "")] + [StartLoad([])] + [Go(2, "")])
            == Some(Shared(Index(map[w.name := w], map[strategy := [w.name]]), [Finished, Finished, Loading(map[w.name := w])]))
  {
    var s0 := Loaded(strategy);
    AddInARow(regex, s0, w);
    var s1 := Shared(Index(map[w.name := w], map[strategy := [w.name]]), [Finished, Finished]);
    OneStrategy(regex, strategy, w);
    assert map[][w.name := w] == map[w.name := w];
    assert Add(regex, s0.ix, w) == s1.ix;
    assert s0.jobs + [Finished] == s1.jobs;
    DoAllSnoc(regex, s0, [StartAdd(w)] + [Go(1, "")], s1, StartLoad([]));
    var s2 := s1.(jobs := [Finished, Finished, Announcing([], s1.ix.widgets)]);
    assert Do(regex, s1, StartLoad([])) == s2;
    DoAllSnoc(regex, s0, [StartAdd(w)] + [Go(1, "")] + [StartLoad([])], s2, Go(2, ""));
    assert Do(regex, s2, Go(2, "")).jobs == [Finished, Finished, Loading(s1.ix.widgets)];
  }

  /** At an input: a widget added after a load has looked for widgets, and before it announces
      its patterns, is entered nowhere. */
  lemma AddedDuringLoadMissed(regex: string -> bool, strategy: string, w: Widget)
    requires Matches(regex, w)
    ensures var s := DoAll(regex, EMPTY, [StartLoad([strategy])] + [StartAdd(w)] + [Go(1, "")] + [Go(0, "")] + [Go(0, "")]);
            && s.Some? && s.value.jobs == [Finished, Finished]
            && s.value.ix.strategies == map[strategy := []] && Selected(regex, s.value.ix, w.name)
  {
    DoAllSnoc(regex, EMPTY, [], EMPTY, StartLoad([strategy]));
    assert [] + [StartLoad([strategy])] == [StartLoad([strategy])];
    var s1 := Shared(Index(map[], map[]), [Announcing([strategy], map[])]);
    assert Do(regex, EMPTY, StartLoad([strategy])) == s1;
    DoAllSnoc(regex, EMPTY, [StartLoad([strategy])], s1, StartAdd(w));
    var s2 := Shared(Index(map[w.name := w], map[]), [Announcing([strategy], map[]), Entering(w)]);
    assert Do(regex, s1, StartAdd(w)) == s2;
    DoAllSnoc(regex, EMPTY, [StartLoad([strategy])] + [StartAdd(w)], s2, Go(1, ""));
    var s3 := Shared(s2.ix, [Announcing([strategy], map[]), Finished]);
    assert Do(regex, s2, Go(1, "")) == s3;
    AnnouncesLate(regex, strategy, [StartLoad([strategy])] + [StartAdd(w)] + [Go(1, "")], s3, w);
  }

  lemma AnnouncesLate(regex: string -> bool, strategy: string, acts: seq<Act>, s3: Shared, w: Widget)
    requires DoAll(regex, EMPTY, acts) == Some(s3)
    requires s3 == Shared(Index(map[w.name := w], map[]), [Announcing([strategy], map[]), Finished])
    ensures DoAll(regex, EMPTY, acts + [Go(0, "")] + [Go(0, "")])
            == Some(Shared(Index(map[w.name := w], map[strategy := []]), [Finished, Finished]))
  {
    DoAllSnoc(regex, EMPTY, acts, s3, Go(0, ""));
    var s4 := Shared(Index(map[w.name := w], map[strategy := []]), [Loading(map[]), Finished]);
    AnnounceOne(strategy);
    assert Do(regex, s3, Go(0, "")) == s4;
    DoAllSnoc(regex, EMPTY, acts + [Go(0, "")], s4, Go(0, ""));
    assert Do(regex, s4, Go(0, "")).jobs == [Finished, Finished];
  }
}
