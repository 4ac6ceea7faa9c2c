/** The strategy index of microsvc/widgets/strategywidets.go: widgets registered by
    name, and for every loaded strategy the names of the widgets that match. */
module StrategyIndex {
  import opened Sequences

  datatype Widget = Widget(name: string, pattern: string)

  datatype Index = Index(widgets: map<string, Widget>, strategies: map<string, seq<string>>)

  /** The match test of the source. `regex(p)` stands for: the pattern compiles, and
      matches the pattern itself; the strategy is not looked at. */
  predicate Matches(regex: string -> bool, w: Widget) {
    w.pattern == "*" || w.pattern == "#" || regex(w.pattern)
  }

  // ---------------------------------------------------------------------------
  // Specification
  // ---------------------------------------------------------------------------

  function Entered(carrier: seq<string>, name: string): seq<string> {
    if name in carrier then carrier else carrier + [name]
  }

  function Dropped(carrier: seq<string>, name: string): seq<string> {
    if carrier == [] then []
    else if carrier[0] == name then carrier[1..]
    else [carrier[0]] + Dropped(carrier[1..], name)
  }

  function LoadStrategy(regex: string -> bool, strategies: map<string, seq<string>>, w: Widget): map<string, seq<string>> {
    if Matches(regex, w) then map s | s in strategies :: Entered(strategies[s], w.name) else strategies
  }

  function RemoveStrategy(regex: string -> bool, strategies: map<string, seq<string>>, w: Widget): map<string, seq<string>> {
    if Matches(regex, w) then map s | s in strategies :: Dropped(strategies[s], w.name) else strategies
  }

  function Add(regex: string -> bool, ix: Index, w: Widget): Index {
    if w.name in ix.widgets then ix
    else Index(ix.widgets[w.name := w], LoadStrategy(regex, ix.strategies, w))
  }

  function Remove(regex: string -> bool, ix: Index, name: string): Index {
    if name !in ix.widgets then ix
    else Index(ix.widgets - {name}, RemoveStrategy(regex, ix.strategies, ix.widgets[name]))
  }

  /** Patterns that are new, or have no widgets, start with none. */
  function Announce(strategies: map<string, seq<string>>, patterns: seq<string>): map<string, seq<string>> {
    if patterns == [] then strategies
    else
      var front, p := Announce(strategies, patterns[..|patterns| - 1]), patterns[|patterns| - 1];
      if p in front && |front[p]| > 0 then front else front[p := []]
  }

  function LoadAll(regex: string -> bool, ix: Index, order: seq<string>): map<string, seq<string>>
    requires forall n :: n in order ==> n in ix.widgets
  {
    if order == [] then ix.strategies
    else LoadStrategy(regex, LoadAll(regex, ix, order[..|order| - 1]), ix.widgets[order[|order| - 1]])
  }

  /** `order` is the order in which the registered widgets are visited. */
  function LoadStrategies(regex: string -> bool, ix: Index, patterns: seq<string>, order: seq<string>): Index
    requires forall n :: n in order ==> n in ix.widgets
  {
    ix.(strategies := LoadAll(regex, ix.(strategies := Announce(ix.strategies, patterns)), order))
  }

  // ---------------------------------------------------------------------------
  // The index agrees with a filter
  // ---------------------------------------------------------------------------

  ghost predicate Distinct<T>(s: seq<T>) {
    forall i, j :: 0 <= i < j < |s| ==> s[i] != s[j]
  }

  /** The plain filter: the widget under `name` is registered and passes the match test. */
  predicate Selected(regex: string -> bool, ix: Index, name: string) {
    name in ix.widgets && Matches(regex, ix.widgets[name])
  }

  /** Widgets sit under their own names, and every loaded strategy lists exactly the
      selected ones, each once. */
  ghost predicate Exact(regex: string -> bool, ix: Index) {
    && (forall n :: n in ix.widgets ==> ix.widgets[n].name == n)
    && forall s :: s in ix.strategies ==>
         Distinct(ix.strategies[s]) && forall n :: n in ix.strategies[s] <==> Selected(regex, ix, n)
  }

  lemma EnteredIsDistinct(carrier: seq<string>, name: string)
    requires Distinct(carrier)
    ensures Distinct(Entered(carrier, name)) && forall n :: n in Entered(carrier, name) <==> n in carrier || n == name
  {
  }

  lemma {:induction false} DroppedIsDistinct(carrier: seq<string>, name: string)
    requires Distinct(carrier)
    ensures Distinct(Dropped(carrier, name)) && forall n :: n in Dropped(carrier, name) <==> n in carrier && n != name
  {
    if carrier != [] {
      DroppedIsDistinct(carrier[1..], name);
      assert carrier == [carrier[0]] + carrier[1..];
      assert carrier[0] !in carrier[1..];
    }
  }

  lemma AddExact(regex: string -> bool, ix: Index, w: Widget)
    requires Exact(regex, ix)
    ensures Exact(regex, Add(regex, ix, w))
  {
    forall s | s in ix.strategies ensures Distinct(Entered(ix.strategies[s], w.name)) {
      EnteredIsDistinct(ix.strategies[s], w.name);
    }
  }

  lemma RemoveExact(regex: string -> bool, ix: Index, name: string)
    requires Exact(regex, ix)
    ensures Exact(regex, Remove(regex, ix, name))
  {
    forall s | s in ix.strategies
      ensures Distinct(Dropped(ix.strategies[s], name))
      ensures forall n :: n in Dropped(ix.strategies[s], name) <==> n in ix.strategies[s] && n != name
    {
      DroppedIsDistinct(ix.strategies[s], name);
    }
  }

  /** While strategies are being loaded they list only selected widgets, each once. */
  ghost predicate Partial(regex: string -> bool, ix: Index, strategies: map<string, seq<string>>) {
    forall s :: s in strategies ==>
      Distinct(strategies[s]) && forall n :: n in strategies[s] ==> Selected(regex, ix, n)
  }

  lemma {:induction false} AnnouncePartial(regex: string -> bool, ix: Index, patterns: seq<string>)
    requires Exact(regex, ix)
    ensures Partial(regex, ix, Announce(ix.strategies, patterns))
    ensures forall s :: s in Announce(ix.strategies, patterns) <==> s in ix.strategies || s in patterns
  {
    if patterns != [] {
      AnnouncePartial(regex, ix, patterns[..|patterns| - 1]);
      assert patterns == patterns[..|patterns| - 1] + [patterns[|patterns| - 1]];
    }
  }

  lemma {:induction false} LoadAllPartial(regex: string -> bool, ix: Index, order: seq<string>)
    requires Partial(regex, ix, ix.strategies) && forall n :: n in order ==> n in ix.widgets
    requires forall n :: n in ix.widgets ==> ix.widgets[n].name == n
    ensures var r := LoadAll(regex, ix, order);
            && Partial(regex, ix, r) && r.Keys == ix.strategies.Keys
            && forall s, n :: s in r && n in order && Selected(regex, ix, n) ==> n in r[s]
  {
    if order != [] {
      var front, last := order[..|order| - 1], order[|order| - 1];
      assert order == front + [last];
      LoadAllPartial(regex, ix, front);
      var m := LoadAll(regex, ix, front);
      forall s | s in m
        ensures Distinct(Entered(m[s], last)) && forall n :: n in Entered(m[s], last) <==> n in m[s] || n == last
      {
        EnteredIsDistinct(m[s], last);
      }
    }
  }

  lemma LoadExact(regex: string -> bool, ix: Index, patterns: seq<string>, order: seq<string>)
    requires Exact(regex, ix) && forall n :: n in order <==> n in ix.widgets
    ensures Exact(regex, LoadStrategies(regex, ix, patterns, order))
    ensures forall s :: s in LoadStrategies(regex, ix, patterns, order).strategies <==> s in ix.strategies || s in patterns
  {
    var announced := ix.(strategies := Announce(ix.strategies, patterns));
    AnnouncePartial(regex, ix, patterns);
    LoadAllPartial(regex, announced, order);
  }

  datatype Op = OpAdd(w: Widget) | OpRemove(name: string) | OpLoad(patterns: seq<string>, order: seq<string>)

  ghost predicate VisitsAll(ix: Index, op: Op) {
    op.OpLoad? ==> forall n :: n in op.order <==> n in ix.widgets
  }

  ghost function Apply(regex: string -> bool, ix: Index, op: Op): Index
    requires VisitsAll(ix, op)
  {
    match op
    case OpAdd(w) => Add(regex, ix, w)
    case OpRemove(name) => Remove(regex, ix, name)
    case OpLoad(patterns, order) => LoadStrategies(regex, ix, patterns, order)
  }

  ghost predicate IsRun(regex: string -> bool, states: seq<Index>, ops: seq<Op>) {
    && |states| == |ops| + 1 && states[0] == Index(map[], map[])
    && forall i :: 0 <= i < |ops| ==> VisitsAll(states[i], ops[i]) && states[i + 1] == Apply(regex, states[i], ops[i])
  }

  /** After any mix of additions, removals and loads, every loaded strategy lists each
      registered widget that passes the match test exactly once, and nothing else. */
  lemma {:induction false} IndexAlwaysExact(regex: string -> bool, states: seq<Index>, ops: seq<Op>, n: nat)
    requires IsRun(regex, states, ops) && n < |states|
    ensures Exact(regex, states[n])
  {
    if n > 0 {
      IndexAlwaysExact(regex, states, ops, n - 1);
      assert states[n] == Apply(regex, states[n - 1], ops[n - 1]);
      match ops[n - 1]
      case OpAdd(w) => AddExact(regex, states[n - 1], w);
      case OpRemove(name) => RemoveExact(regex, states[n - 1], name);
      case OpLoad(patterns, order) => LoadExact(regex, states[n - 1], patterns, order);
    }
  }

  /** What is registered: the first widget added under a name, until it is removed. */
  lemma RegistryExactly(regex: string -> bool, ix: Index, op: Op)
    requires VisitsAll(ix, op)
    ensures Apply(regex, ix, op).widgets ==
            match op
            case OpAdd(w) => if w.name in ix.widgets then ix.widgets else ix.widgets[w.name := w]
            case OpRemove(name) => ix.widgets - {name}
            case OpLoad(_, _) => ix.widgets
    ensures Apply(regex, ix, op) ==
            match op
            case OpAdd(w) => Add(regex, ix, w)
            case OpRemove(name) => Remove(regex, ix, name)
            case OpLoad(patterns, order) => LoadStrategies(regex, ix, patterns, order)
  {
  }

  /** In every state of every run a loaded strategy lists a registered widget if and only if its
      pattern is a wildcard, or compiles and matches itself. */
  lemma ListedByPattern(regex: string -> bool, states: seq<Index>, ops: seq<Op>, n: nat, s: string, name: string)
    requires IsRun(regex, states, ops) && n < |states|
    requires s in states[n].strategies && name in states[n].widgets
    ensures var p := states[n].widgets[name].pattern;
            name in states[n].strategies[s] <==> p == "*" || p == "#" || regex(p)
  {
    IndexAlwaysExact(regex, states, ops, n);
  }

  /** The listing keeps the order of entering: a new widget that matches comes last everywhere,
      and a removed one leaves the order of the others. */
  lemma ListingOrder(regex: string -> bool, ix: Index, w: Widget, s: string, i: nat, j: nat)
    requires Exact(regex, ix) && s in ix.strategies && i < j < |ix.strategies[s]|
    ensures var before, after := ix.strategies[s], Add(regex, ix, w).strategies;
            s in after && after[s] == before + if w.name !in ix.widgets && Matches(regex, w) then [w.name] else []
    ensures var before, after := ix.strategies[s], Remove(regex, ix, w.name).strategies;
            s in after && (before[i] != w.name && before[j] != w.name ==> InOrder(after[s], before[i], before[j]))
  {
    var before := ix.strategies[s];
    if before[i] != w.name && before[j] != w.name {
      DroppedKeepsOrder(before, w.name, i, j);
    }
  }

  lemma {:induction false} AnnounceLists(strategies: map<string, seq<string>>, patterns: seq<string>)
    ensures var t := Announce(strategies, patterns);
            && (forall s :: s in strategies ==> s in t && t[s] == strategies[s])
            && (forall s :: s in t ==> s in strategies || t[s] == [])
  {
    if patterns != [] {
      AnnounceLists(strategies, patterns[..|patterns| - 1]);
    }
  }

  /** A load leaves the listings of the strategies loaded before as they are, to the order. */
  lemma LoadKeepsListing(regex: string -> bool, ix: Index, patterns: seq<string>, order: seq<string>, s: string)
    requires Exact(regex, ix) && (forall n :: n in order <==> n in ix.widgets) && s in ix.strategies
    ensures var after := LoadStrategies(regex, ix, patterns, order).strategies; s in after && after[s] == ix.strategies[s]
  {
    AnnounceLists(ix.strategies, patterns);
    LoadAllKeeps(regex, ix.(strategies := Announce(ix.strategies, patterns)), order, s);
  }

  lemma {:induction false} LoadAllKeeps(regex: string -> bool, ix: Index, order: seq<string>, s: string)
    requires s in ix.strategies && forall n :: n in order ==> n in ix.widgets && ix.widgets[n].name == n
    requires forall n :: n in order && Selected(regex, ix, n) ==> n in ix.strategies[s]
    ensures s in LoadAll(regex, ix, order) && LoadAll(regex, ix, order)[s] == ix.strategies[s]
  {
    if order != [] {
      var front, last := order[..|order| - 1], order[|order| - 1];
      assert order == front + [last];
      LoadAllKeeps(regex, ix, front, s);
      assert last in order;
    }
  }

  predicate InOrder(carrier: seq<string>, a: string, b: string) {
    exists i, j :: 0 <= i < j < |carrier| && carrier[i] == a && carrier[j] == b
  }

  lemma {:induction false} DroppedKeepsOrder(carrier: seq<string>, name: string, i: nat, j: nat)
    requires i < j < |carrier| && carrier[i] != name && carrier[j] != name
    ensures InOrder(Dropped(carrier, name), carrier[i], carrier[j])
  {
    var r := Dropped(carrier, name);
    if carrier[0] == name {
      assert r[i - 1] == carrier[i] && r[j - 1] == carrier[j];
    } else if i > 0 {
      DroppedKeepsOrder(carrier[1..], name, i - 1, j - 1);
      var rest := Dropped(carrier[1..], name);
      var a, b :| 0 <= a < b < |rest| && rest[a] == carrier[i] && rest[b] == carrier[j];
      assert r[a + 1] == carrier[i] && r[b + 1] == carrier[j];
    } else {
      KeptElsewhere(carrier[1..], name, j - 1);
      var rest := Dropped(carrier[1..], name);
      var b :| 0 <= b < |rest| && rest[b] == carrier[j];
      assert r[0] == carrier[0] && r[b + 1] == carrier[j];
    }
  }

  lemma {:induction false} KeptElsewhere(carrier: seq<string>, name: string, j: nat)
    requires j < |carrier| && carrier[j] != name
    ensures carrier[j] in Dropped(carrier, name)
  {
    if carrier[0] != name && j > 0 {
      KeptElsewhere(carrier[1..], name, j - 1);
    } else if carrier[0] == name {
      assert carrier[1..][j - 1] == carrier[j];
    }
  }

  /** As the match test does not look at the strategy, all loaded strategies select the
      same widgets. */
  lemma StrategiesSelectAlike(regex: string -> bool, states: seq<Index>, ops: seq<Op>, n: nat, s: string, t: string)
    requires IsRun(regex, states, ops) && n < |states|
    requires s in states[n].strategies && t in states[n].strategies
    ensures multiset(states[n].strategies[s]) == multiset(states[n].strategies[t])
  {
    IndexAlwaysExact(regex, states, ops, n);
    SameElements(states[n].strategies[s], states[n].strategies[t]);
  }

  lemma {:induction false} SameElements(a: seq<string>, b: seq<string>)
    requires Distinct(a) && Distinct(b) && forall n :: n in a <==> n in b
    ensures multiset(a) == multiset(b)
  {
    forall n ensures multiset(a)[n] == multiset(b)[n] {
      OccursOnce(a, n);
      OccursOnce(b, n);
    }
  }

  // ---------------------------------------------------------------------------
  // Overlapping operations
  // ---------------------------------------------------------------------------

  /** `LoadStrategies` enters widgets that it has listed before, with nothing locked in between.
      Entering a widget that late keeps the index exact if and only if no strategy is loaded,
      the widget does not match, or one that matches is registered under its name now. */
  lemma LateLoadExactly(regex: string -> bool, ix: Index, w: Widget)
    requires Exact(regex, ix)
    ensures Exact(regex, ix.(strategies := LoadStrategy(regex, ix.strategies, w)))
            <==> ix.strategies == map[] || !Matches(regex, w) || Selected(regex, ix, w.name)
  {
    var late := ix.(strategies := LoadStrategy(regex, ix.strategies, w));
    if Matches(regex, w) && !Selected(regex, ix, w.name) && ix.strategies != map[] {
      var s :| s in ix.strategies;
      assert w.name in late.strategies[s];
    } else if Matches(regex, w) {
      forall s | s in ix.strategies ensures late.strategies[s] == ix.strategies[s] {
        assert w.name in ix.strategies[s];
      }
      assert late.strategies == ix.strategies;
    }
  }

  /** `Remove` drops a widget that it has unregistered before, with nothing locked in between.
      Dropping it that late keeps the index exact if and only if no strategy is loaded, the
      widget does not match, or none that matches is registered under its name now. */
  lemma LateDropExactly(regex: string -> bool, ix: Index, w: Widget)
    requires Exact(regex, ix)
    ensures Exact(regex, ix.(strategies := RemoveStrategy(regex, ix.strategies, w)))
            <==> ix.strategies == map[] || !Matches(regex, w) || !Selected(regex, ix, w.name)
  {
    var late := ix.(strategies := RemoveStrategy(regex, ix.strategies, w));
    if Matches(regex, w) {
      forall s | s in ix.strategies
        ensures Distinct(late.strategies[s]) && forall n :: n in late.strategies[s] <==> n in ix.strategies[s] && n != w.name
      {
        DroppedIsDistinct(ix.strategies[s], w.name);
      }
      if Selected(regex, ix, w.name) && ix.strategies != map[] {
        var s :| s in ix.strategies;
        assert w.name !in late.strategies[s];
      }
    } else {
      assert late == ix;
    }
  }

  // ---------------------------------------------------------------------------
  // The wrapper
  // ---------------------------------------------------------------------------

  lemma DroppedBehind(carrier: seq<string>, name: string, i: nat)
    requires i < |carrier| && carrier[i] != name
    ensures carrier[..i] + Dropped(carrier[i..], name) == carrier[..i + 1] + Dropped(carrier[i + 1..], name)
  {
    assert carrier[i..][1..] == carrier[i + 1..];
    assert carrier[..i] + [carrier[i]] == carrier[..i + 1];
    assert carrier[..i] + ([carrier[i]] + Dropped(carrier[i + 1..], name))
           == carrier[..i] + [carrier[i]] + Dropped(carrier[i + 1..], name);
  }

  class WidgetsStrategyWrapper {
    var widgetsByName: map<string, Widget>
    var strategies: map<string, seq<string>>
    const regex: string -> bool

    ghost function State(): Index
      reads this
    {
      Index(widgetsByName, strategies)
    }

    ghost predicate Valid()
      reads this
    {
      Exact(regex, State())
    }

    constructor (selfMatch: string -> bool)
      ensures Valid() && State() == Index(map[], map[]) && regex == selfMatch
    {
      regex := selfMatch;
      widgetsByName, strategies := map[], map[];
    }

    method AddWidget(widget: Widget)
      requires Valid()
      modifies this
      ensures Valid() && State() == Add(regex, old(State()), widget)
    {
      AddExact(regex, State(), widget);
      if widget.name !in widgetsByName {
        widgetsByName := widgetsByName[widget.name := widget];
        LoadOne(widget);
      }
    }

    method RemoveWidget(name: string) returns (removed: bool)
      requires Valid()
      modifies this
      ensures Valid() && State() == Remove(regex, old(State()), name) && (removed <==> name in old(widgetsByName))
    {
      RemoveExact(regex, State(), name);
      removed := name in widgetsByName;
      if removed {
        var removedWidget := widgetsByName[name];
        widgetsByName := widgetsByName - {name};
        RemoveOne(removedWidget);
      }
    }

    method Load(patterns: seq<string>) returns (ghost order: seq<string>)
      requires Valid()
      modifies this
      ensures Valid() && (forall n :: n in order <==> n in old(widgetsByName))
      ensures State() == LoadStrategies(regex, old(State()), patterns, order)
      ensures strategies.Keys == old(strategies.Keys) + (set p | p in patterns)
    {
      var widgets := widgetsByName;
      var i := 0;
      while i < |patterns|
        invariant 0 <= i <= |patterns| && widgetsByName == old(widgetsByName)
        invariant strategies == Announce(old(strategies), patterns[..i])
      {
        assert patterns[..i + 1][..i] == patterns[..i];
        if !(patterns[i] in strategies && |strategies[patterns[i]]| > 0) {
          strategies := strategies[patterns[i] := []];
        }
        i := i + 1;
      }
      assert patterns[..i] == patterns;
      ghost var announced := State();
      order := [];
      var rest := widgets.Keys;
      while rest != {}
        invariant rest <= widgets.Keys && widgetsByName == old(widgetsByName) == widgets
        invariant forall n :: n in order <==> n in widgets.Keys - rest
        invariant strategies == LoadAll(regex, announced, order)
        decreases rest
      {
        var name :| name in rest;
        LoadOne(widgets[name]);
        assert (order + [name])[..|order|] == order;
        order, rest := order + [name], rest - {name};
      }
      LoadExact(regex, old(State()), patterns, order);
    }

    method LoadOne(widget: Widget)
      modifies `strategies
      ensures strategies == LoadStrategy(regex, old(strategies), widget)
    {
      var rest := strategies.Keys;
      while rest != {}
        invariant rest <= old(strategies).Keys && strategies.Keys == old(strategies).Keys
        invariant forall s :: s in strategies && s !in rest && Matches(regex, widget) ==>
                    strategies[s] == Entered(old(strategies)[s], widget.name)
        invariant forall s :: s in strategies && (s in rest || !Matches(regex, widget)) ==> strategies[s] == old(strategies)[s]
        decreases rest
      {
        var strategy :| strategy in rest;
        var carrier := strategies[strategy];
        if widget.pattern == "*" || widget.pattern == "#" || regex(widget.pattern) {
          var addWidget := true;
          var i := 0;
          while i < |carrier| && addWidget
            invariant 0 <= i <= |carrier|
            invariant addWidget <==> widget.name !in carrier[..i]
          {
            assert carrier[..i + 1] == carrier[..i] + [carrier[i]];
            if carrier[i] == widget.name {
              addWidget := false;
            }
            i := i + 1;
          }
          assert addWidget ==> carrier[..i] == carrier;
          if addWidget {
            strategies := strategies[strategy := carrier + [widget.name]];
          }
        }
        rest := rest - {strategy};
      }
    }

    method RemoveOne(widget: Widget)
      modifies `strategies
      ensures strategies == RemoveStrategy(regex, old(strategies), widget)
    {
      var rest := strategies.Keys;
      while rest != {}
        invariant rest <= old(strategies).Keys && strategies.Keys == old(strategies).Keys
        invariant forall s :: s in strategies && s !in rest && Matches(regex, widget) ==>
                    strategies[s] == Dropped(old(strategies)[s], widget.name)
        invariant forall s :: s in strategies && (s in rest || !Matches(regex, widget)) ==> strategies[s] == old(strategies)[s]
        decreases rest
      {
        var strategy :| strategy in rest;
        if widget.pattern == "*" || widget.pattern == "#" || regex(widget.pattern) {
          var kept := CutFirst(strategies[strategy], widget.name);
          strategies := strategies[strategy := kept];
        }
        rest := rest - {strategy};
      }
    }

    static method CutFirst(carrier: seq<string>, name: string) returns (r: seq<string>)
      ensures r == Dropped(carrier, name)
    {
      var i := 0;
      while i < |carrier|
        invariant 0 <= i <= |carrier|
        invariant Dropped(carrier, name) == carrier[..i] + Dropped(carrier[i..], name)
      {
        assert carrier[i..][1..] == carrier[i + 1..];
        if carrier[i] == name {
          return carrier[..i] + carrier[i + 1..];
        }
        DroppedBehind(carrier, name, i);
        i := i + 1;
      }
      r := carrier;
    }

    /** The widgets of a loaded strategy, in the order of its listing: each registered one that
        passes the match test, once. An unknown strategy has none. */
    method GetWidgetsByStrategy(strategy: string) returns (widgets: seq<Widget>)
      requires Valid()
      ensures Distinct(widgets)
      ensures strategy in strategies ==>
                forall w :: w in widgets <==> w.name in widgetsByName && widgetsByName[w.name] == w && Matches(regex, w)
      ensures strategy in strategies ==>
                && |widgets| == |strategies[strategy]|
                && forall i :: 0 <= i < |widgets| ==> widgets[i].name == strategies[strategy][i]
      ensures strategy !in strategies ==> widgets == []
    {
      widgets := [];
      if strategy in strategies {
        var carrier := strategies[strategy];
        var i := 0;
        while i < |carrier|
          invariant 0 <= i <= |carrier| && |widgets| == i
          invariant forall j :: 0 <= j < i ==> carrier[j] in widgetsByName && widgets[j] == widgetsByName[carrier[j]]
        {
          assert carrier[i] in carrier;
          if carrier[i] in widgetsByName {
            widgets := widgets + [widgetsByName[carrier[i]]];
          }
          i := i + 1;
        }
        forall w | w in widgets ensures w.name in widgetsByName && widgetsByName[w.name] == w && Matches(regex, w) {
          var j :| 0 <= j < |widgets| && widgets[j] == w;
          assert carrier[j] in carrier;
        }
        forall w: Widget | w.name in widgetsByName && widgetsByName[w.name] == w && Matches(regex, w) ensures w in widgets {
          assert w.name in carrier;
          var j :| 0 <= j < |carrier| && carrier[j] == w.name;
          assert widgets[j] == w;
        }
      }
    }
  }
}
