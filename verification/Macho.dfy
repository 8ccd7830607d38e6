// The engine of hierarchical state machines: exits, entries, histories and chained init transitions.
module Machos {
  import opened Common

  // How a state keeps the history of its substates.
  datatype Strategy = NoHistory | ShallowHistory | DeepHistory

  // A state's own box, the box all states without an own one share, or none yet.
  datatype Box = NoBox | EmptyBox | Live

  // What the initializer of a transition runs on the new state.
  datatype Initializer = DefaultInit | HistoryInit | ParameterInit

  // An entry or exit action.
  datatype Action = Entered(state: StateInstance) | Exited(state: StateInstance)

  // What a user's init action or event handler asks for: a transition, an event, both or neither.
  datatype Decision = Decision(transition: Option<(StateInstance, Initializer)>, event: bool)

  // The machine's data about one state. Only Root has no parent.
  class StateInstance {
    const parent: StateInstance?
    const strategy: Strategy
    const ownBox: bool
    const persistent: bool
    ghost const depth: nat
    var history: StateInstance?
    var box: Box

    constructor (superstate: StateInstance?, strategy: Strategy, ownBox: bool, persistent: bool)
      ensures parent == superstate && this.strategy == strategy && this.ownBox == ownBox
        && this.persistent == persistent
      ensures depth == if superstate == null then 0 else superstate.depth + 1
      ensures history == null && box == NoBox
    {
      parent, this.strategy, this.ownBox, this.persistent := superstate, strategy, ownBox, persistent;
      depth := if superstate == null then 0 else superstate.depth + 1;
      history, box := null, NoBox;
    }

    // The superstates are finitely many.
    ghost predicate Placed()
      decreases depth
    {
      parent != null ==> parent.depth + 1 == depth && parent.Placed()
    }

    // Is instance this state or a superstate?
    predicate IsChild(instance: StateInstance)
      requires Placed()
      decreases depth
    {
      this == instance || (parent != null && parent.IsChild(instance))
    }
  }

  // s is strictly below t.
  predicate ProperSubstate(s: StateInstance, t: StateInstance)
    requires s.Placed()
  {
    s.parent != null && s.parent.IsChild(t)
  }

  lemma {:induction false} ChildIsDeeper(s: StateInstance, t: StateInstance)
    requires s.Placed() && s.IsChild(t)
    ensures t.Placed() && t.depth <= s.depth && (t.depth == s.depth ==> s == t)
    decreases s.depth
  {
    if s != t {
      ChildIsDeeper(s.parent, t);
    }
  }

  lemma {:induction false} ChildTransitive(s: StateInstance, t: StateInstance, u: StateInstance)
    requires s.Placed() && t.Placed() && s.IsChild(t) && t.IsChild(u)
    ensures s.IsChild(u)
    decreases s.depth
  {
    if s != t {
      ChildTransitive(s.parent, t, u);
    }
  }

  // ---- where exits stop and entries start ----

  // The state whose exit action is the first not to run on the way from s to next.
  ghost function ExitsUpTo(s: StateInstance, next: StateInstance): (x: StateInstance)
    requires s.Placed() && next.Placed()
    ensures x.Placed() && s.IsChild(x)
    decreases s.depth
  {
    if s.parent == null || (s != next && next.IsChild(s)) then s else ExitsUpTo(s.parent, next)
  }

  // The state whose entry action is the first not to run on the way up from s, coming from previous.
  ghost function EntersFrom(s: StateInstance, previous: StateInstance): (y: StateInstance)
    requires s.Placed() && previous.Placed()
    ensures y.Placed() && s.IsChild(y)
    decreases s.depth
  {
    if s.parent == null || previous.IsChild(s) then s else EntersFrom(s.parent, previous)
  }

  lemma {:induction false} ExitsStopAtSuperstate(s: StateInstance, next: StateInstance, z: StateInstance)
    requires s.Placed() && next.Placed() && s.IsChild(z) && ProperSubstate(next, z)
    ensures ExitsUpTo(s, next).IsChild(z)
    ensures ProperSubstate(next, ExitsUpTo(s, next))
    decreases s.depth
  {
    ChildIsDeeper(next.parent, z);
    if s.parent != null && (s == next || !next.IsChild(s)) {
      ExitsStopAtSuperstate(s.parent, next, z);
    }
  }

  lemma {:induction false} EntriesStartAtSuperstate(s: StateInstance, previous: StateInstance, z: StateInstance)
    requires s.Placed() && previous.Placed() && s.IsChild(z) && previous.IsChild(z)
    ensures EntersFrom(s, previous).IsChild(z)
    ensures previous.IsChild(EntersFrom(s, previous))
    decreases s.depth
  {
    if s.parent != null && !previous.IsChild(s) {
      EntriesStartAtSuperstate(s.parent, previous, z);
    }
  }

  // Exits stop exactly where entries start: at the deepest state that is above next and not below current.
  lemma ExitsMeetEntries(current: StateInstance, next: StateInstance, root: StateInstance)
    requires current.Placed() && next.Placed() && next.parent != null
    requires current.IsChild(root) && next.parent.IsChild(root)
    ensures ExitsUpTo(current, next) == EntersFrom(next.parent, current)
  {
    var x, y := ExitsUpTo(current, next), EntersFrom(next.parent, current);
    ExitsStopAtSuperstate(current, next, root);
    EntriesStartAtSuperstate(next.parent, current, root);
    ExitsStopAtSuperstate(current, next, y);
    EntriesStartAtSuperstate(next.parent, current, x);
    ChildIsDeeper(x, y);
    ChildIsDeeper(y, x);
  }

  // ---- the log of actions ----

  // The log is well nested, and leaves exactly at and its superstates below Root entered: every state
  // is entered from within its superstate, and only the innermost state is exited.
  ghost predicate Leads(log: seq<Action>, at: StateInstance)
    decreases |log|
  {
    if log == [] then at.parent == null
    else
      match log[|log| - 1]
      case Entered(s) => s == at && s.parent != null && Leads(log[..|log| - 1], s.parent)
      case Exited(s) => s.parent == at && Leads(log[..|log| - 1], s)
  }

  // The states entered and not exited yet.
  ghost function Inside(log: seq<Action>): set<StateInstance> {
    if log == [] then {}
    else
      match log[|log| - 1]
      case Entered(s) => Inside(log[..|log| - 1]) + {s}
      case Exited(s) => Inside(log[..|log| - 1]) - {s}
  }

  // A state and its superstates below Root.
  ghost function Line(s: StateInstance): set<StateInstance>
    requires s.Placed()
    decreases s.depth
  {
    if s.parent == null then {} else Line(s.parent) + {s}
  }

  lemma {:induction false} LineIs(s: StateInstance, t: StateInstance)
    requires s.Placed()
    ensures t in Line(s) <==> s.IsChild(t) && t.parent != null
    decreases s.depth
  {
    if s.parent != null {
      LineIs(s.parent, t);
    }
  }

  lemma NotBelowItself(s: StateInstance)
    requires s.Placed()
    ensures !ProperSubstate(s, s)
  {
    if ProperSubstate(s, s) {
      ChildIsDeeper(s.parent, s);
    }
  }

  lemma NotInParentLine(s: StateInstance)
    requires s.Placed() && s.parent != null
    ensures s !in Line(s.parent)
  {
    LineIs(s.parent, s);
    NotBelowItself(s);
  }

  lemma {:induction false} LeadsInside(log: seq<Action>, at: StateInstance)
    requires Leads(log, at) && forall i | 0 <= i < |log| :: log[i].state.Placed()
    requires at.Placed()
    ensures Inside(log) == Line(at)
    decreases |log|
  {
    if log != [] {
      var front := log[..|log| - 1];
      match log[|log| - 1]
      case Entered(s) => LeadsInside(front, s.parent);
      case Exited(s) =>
        LeadsInside(front, s);
        if s in Line(at) {
          LineIs(at, s);
          ChildIsDeeper(at, s);
        }
    }
  }

  ghost function StatesOf(actions: seq<Action>): set<StateInstance> {
    set a | a in actions :: a.state
  }

  lemma StatesOfTwo(a: seq<Action>, b: seq<Action>)
    ensures StatesOf(a + b) == StatesOf(a) + StatesOf(b)
  {
    forall x | x in StatesOf(a) + StatesOf(b) ensures x in StatesOf(a + b) {
      var e :| (e in a || e in b) && e.state == x;
      assert e in a + b;
    }
  }

  // The exits on the way from s to next: of the states entered those that do not enclose next.
  ghost predicate ExitsAre(outs: seq<Action>, s: StateInstance, next: StateInstance)
    requires s.Placed() && next.Placed()
  {
    && (forall a | a in outs :: a.Exited?)
    && StatesOf(outs) == set x | x in Line(s) && !ProperSubstate(next, x)
  }

  // The entries on the way from previous to s: the states around s that do not enclose previous, and s itself if it
  // is the one the transition goes to.
  ghost predicate EntriesAre(ins: seq<Action>, s: StateInstance, previous: StateInstance, first: bool)
    requires s.Placed() && previous.Placed()
  {
    && (forall a | a in ins :: a.Entered?)
    && StatesOf(ins) == set x | x in Line(s) && ((first && x == s) || !previous.IsChild(x))
  }

  lemma NoExits(s: StateInstance, next: StateInstance)
    requires s.Placed() && next.Placed() && (s.parent == null || (s != next && next.IsChild(s)))
    ensures ExitsAre([], s, next)
  {
    if s.parent != null {
      forall x | x in Line(s) ensures ProperSubstate(next, x) {
        LineIs(s, x);
        ChildIsDeeper(s, x);
        ChildTransitive(next.parent, s, x);
      }
    }
  }

  lemma OneExitMore(s: StateInstance, next: StateInstance, more: seq<Action>)
    requires s.Placed() && next.Placed() && s.parent != null && (s == next || !next.IsChild(s))
    requires ExitsAre(more, s.parent, next)
    ensures ExitsAre([Exited(s)] + more, s, next)
  {
    NotBelowItself(s);
    StatesOfTwo([Exited(s)], more);
    assert Exited(s) in [Exited(s)];
    assert StatesOf([Exited(s)]) == {s};
    assert !ProperSubstate(next, s);
  }

  lemma NoEntries(s: StateInstance, previous: StateInstance, first: bool)
    requires s.Placed() && previous.Placed() && (s.parent == null || (!first && previous.IsChild(s)))
    ensures EntriesAre([], s, previous, first)
  {
    if s.parent != null {
      forall x | x in Line(s) ensures previous.IsChild(x) {
        LineIs(s, x);
        ChildIsDeeper(s, x);
        ChildTransitive(previous, s, x);
      }
    }
  }

  lemma OneEntryMore(s: StateInstance, previous: StateInstance, first: bool, outer: seq<Action>)
    requires s.Placed() && previous.Placed() && s.parent != null && (first || !previous.IsChild(s))
    requires EntriesAre(outer, s.parent, previous, false)
    ensures EntriesAre(outer + [Entered(s)], s, previous, first)
  {
    NotInParentLine(s);
    StatesOfTwo(outer, [Entered(s)]);
    assert Entered(s) in [Entered(s)];
    assert StatesOf([Entered(s)]) == {s};
  }

  // The exit actions on the way from s to next, innermost first.
  ghost function ExitLog(s: StateInstance, next: StateInstance): seq<Action>
    requires s.Placed() && next.Placed()
    decreases s.depth
  {
    if s.parent == null || (s != next && next.IsChild(s)) then []
    else [Exited(s)] + ExitLog(s.parent, next)
  }

  lemma {:induction false} ExitLogIs(s: StateInstance, next: StateInstance)
    requires s.Placed() && next.Placed()
    ensures ExitsAre(ExitLog(s, next), s, next)
    decreases s.depth
  {
    if s.parent == null || (s != next && next.IsChild(s)) {
      NoExits(s, next);
    } else {
      ExitLogIs(s.parent, next);
      OneExitMore(s, next, ExitLog(s.parent, next));
    }
  }

  lemma Regrouped(a: seq<Action>, x: Action, b: seq<Action>)
    ensures a + [x] + b == a + ([x] + b)
  {
  }

  // The entry actions on the way from previous to s, outermost first.
  ghost function EntryLog(s: StateInstance, previous: StateInstance, first: bool): seq<Action>
    requires s.Placed() && previous.Placed()
    decreases s.depth
  {
    if s.parent == null || (!first && previous.IsChild(s)) then []
    else EntryLog(s.parent, previous, false) + [Entered(s)]
  }

  lemma {:induction false} EntryLogIs(s: StateInstance, previous: StateInstance, first: bool)
    requires s.Placed() && previous.Placed()
    ensures EntriesAre(EntryLog(s, previous, first), s, previous, first)
    decreases s.depth
  {
    if s.parent == null || (!first && previous.IsChild(s)) {
      NoEntries(s, previous, first);
    } else {
      EntryLogIs(s.parent, previous, false);
      OneEntryMore(s, previous, first, EntryLog(s.parent, previous, false));
    }
  }

  // ---- what a transition does to histories and boxes ----

  // The child of a on the way down to s.
  ghost function ChildToward(a: StateInstance, s: StateInstance): (c: StateInstance)
    requires s.Placed() && ProperSubstate(s, a)
    ensures c.Placed() && c.parent == a && s.IsChild(c)
    decreases s.depth
  {
    if s.parent == a then s else ChildToward(a, s.parent)
  }

  lemma {:induction false} ChildTowardIs(c: StateInstance, s: StateInstance)
    requires s.Placed() && s.IsChild(c) && c.parent != null
    ensures ProperSubstate(s, c.parent) && ChildToward(c.parent, s) == c
    decreases s.depth
  {
    ChildIsDeeper(s, c);
    if s != c {
      ChildTowardIs(c, s.parent);
      ChildIsDeeper(s.parent, c);
      assert s.parent != c.parent;
    }
  }

  // The history of a state after `left` was left.
  ghost function HistoryAfter(a: StateInstance, left: StateInstance, before: StateInstance?): StateInstance?
    requires left.Placed()
  {
    if a.parent == null || !ProperSubstate(left, a) then before
    else
      match a.strategy
      case NoHistory => before
      case ShallowHistory => ChildToward(a, left)
      case DeepHistory => left
  }

  // ---- what is pending, and what comes of it ----

  // A machine between two steps: where it is, what is pending, and what its users will still ask for.
  datatype Config = Config(current: StateInstance, pending: Option<(StateInstance, Initializer)>, event: bool,
                           script: seq<Decision>, history: map<StateInstance, StateInstance?>) {
    ghost predicate Sane() {
      && current.Placed() && (pending.Some? ==> pending.value.0.Placed())
      && (forall i {:trigger script[i]} | 0 <= i < |script| && script[i].transition.Some? ::
           script[i].transition.value.0.Placed())
      && forall a {:trigger history[a]} | a in history && history[a] != null ::
           history[a].Placed() && history[a].parent != null
    }

    ghost predicate Quiet() {
      pending.None? && !event
    }
  }

  // The next decision; the user stays silent when there is none left.
  ghost function FirstOf(script: seq<Decision>): Decision {
    if script == [] then Decision(None, false) else script[0]
  }

  ghost function RestOf(script: seq<Decision>): seq<Decision> {
    if script == [] then [] else script[1..]
  }

  ghost function Saved(h: map<StateInstance, StateInstance?>, a: StateInstance): StateInstance? {
    if a in h then h[a] else null
  }

  // The histories after `left` was left.
  ghost function Recorded(h: map<StateInstance, StateInstance?>, left: StateInstance)
    : map<StateInstance, StateInstance?>
    requires left.Placed()
  {
    map a | a in h :: HistoryAfter(a, left, h[a])
  }

  // What an init action of state s may ask for.
  ghost function AskedInside(d: Decision, s: StateInstance): Option<(StateInstance, Initializer)>
    requires d.transition.Some? ==> d.transition.value.0.Placed()
  {
    if d.transition.Some? && ProperSubstate(d.transition.value.0, s) then d.transition else None
  }

  // The user's init action of the current state; Root has none.
  ghost function AfterAction(c: Config): (r: Config)
    requires c.Sane() && c.pending.None?
    ensures r.Sane() && r.current == c.current && r.history == c.history
    ensures r.pending.Some? ==> ProperSubstate(r.pending.value.0, c.current)
    ensures r.script == c.script || (c.script != [] && r.script == c.script[1..])
    ensures r.pending.Some? || r.event != c.event ==> |r.script| < |c.script|
  {
    if c.current.parent == null then c
    else
      var d := FirstOf(c.script);
      Config(c.current, AskedInside(d, c.current), c.event || d.event, RestOf(c.script), c.history)
  }

  // The initializer on the new current state; the history is used up.
  ghost function AfterInit(c: Config, init: Initializer): (r: Config)
    requires c.Sane() && c.pending.None?
    ensures r.Sane() && r.current == c.current
    ensures r.script == c.script || (c.script != [] && r.script == c.script[1..])
    ensures r.pending.Some? ==> |r.script| < |c.script| || (init == HistoryInit && r.pending.value.1 == DefaultInit)
    ensures r.event != c.event ==> |r.script| < |c.script|
  {
    match init
    case ParameterInit => AfterAction(c)
    case DefaultInit =>
      var r := AfterAction(c);
      r.(history := r.history[c.current := null])
    case HistoryInit =>
      var h := Saved(c.history, c.current);
      var r := if h != null then c.(pending := Some((h, DefaultInit))) else AfterAction(c);
      r.(history := r.history[c.current := null])
  }

  // One transition and the init action behind it.
  ghost function AfterTransition(c: Config): (r: Config)
    requires c.Sane() && c.pending.Some?
    ensures r.Sane() && r.current == c.pending.value.0 && |r.script| <= |c.script|
  {
    AfterInit(Config(c.pending.value.0, None, c.event, c.script, Recorded(c.history, c.current)), c.pending.value.1)
  }

  // The handler of one event.
  ghost function AfterEvent(c: Config): (r: Config)
    requires c.Sane() && c.pending.None?
    ensures r.Sane() && r.current == c.current && |r.script| <= |c.script|
  {
    var d := FirstOf(c.script);
    Config(c.current, d.transition, d.event, RestOf(c.script), c.history)
  }

  ghost function Rank(c: Config): nat {
    if c.pending.None? then 0 else if c.pending.value.1 == HistoryInit then 2 else 1
  }

  // Where everything that is pending leads: transitions first, then the event.
  ghost function Final(c: Config): (r: Config)
    requires c.Sane()
    ensures r.Sane() && r.Quiet()
    decreases |c.script|, Rank(c), if c.event then 1 else 0
  {
    if c.pending.Some? then Final(AfterTransition(c))
    else if c.event then Final(AfterEvent(c))
    else c
  }

  // Where a transition ends that no init action carries on: at the target, or at its history as it stands after
  // `left` was left.
  ghost function DestinationOf(h: map<StateInstance, StateInstance?>, target: StateInstance, init: Initializer,
      left: StateInstance): StateInstance
    requires left.Placed()
  {
    var back := HistoryAfter(target, left, Saved(h, target));
    if init == HistoryInit && back != null then back else target
  }

  // The laws of Final. A transition ends at its destination, whose init action is asked next ...
  lemma TransitionAsks(c: Config) returns (h: map<StateInstance, StateInstance?>)
    requires c.Sane() && c.pending.Some? && c.pending.value.0 in c.history
    ensures var g := DestinationOf(c.history, c.pending.value.0, c.pending.value.1, c.current);
      var d := if g.parent == null then Decision(None, false) else FirstOf(c.script);
      var rest := if g.parent == null then c.script else RestOf(c.script);
      var more := Config(g, AskedInside(d, g), c.event || d.event, rest, h);
      g.Placed() && more.Sane() && Final(c) == Final(more)
  {
    var (s, init) := c.pending.value;
    var h1 := Recorded(c.history, c.current);
    var c1 := AfterTransition(c);
    if init == HistoryInit && Saved(h1, s) != null {
      var c2 := AfterTransition(c1);
      h := c2.history;
    } else {
      h := c1.history;
    }
  }

  // ... and an event asks the handler of the current state.
  lemma EventAsks(c: Config)
    requires c.Sane() && c.pending.None? && c.event
    ensures var d := FirstOf(c.script);
      var more := Config(c.current, d.transition, d.event, RestOf(c.script), c.history);
      more.Sane() && Final(c) == Final(more)
  {
  }

  // Without decisions a transition ends at its destination, and an event changes nothing.
  lemma SilentTransition(c: Config)
    requires c.Sane() && c.script == [] && (c.pending.Some? ==> c.pending.value.0 in c.history)
    ensures Final(c).script == []
    ensures Final(c).current == if c.pending.None? then c.current
      else DestinationOf(c.history, c.pending.value.0, c.pending.value.1, c.current)
  {
    if c.pending.Some? {
      var h := TransitionAsks(c);
    }
  }

  // A handler that asks for a transition gets it.
  lemma HandlerIsObeyed(c: Config, s: StateInstance, init: Initializer)
    requires c.Sane() && c.pending.None? && c.event && c.script == [Decision(Some((s, init)), false)] && s in c.history
    ensures Final(c).current == DestinationOf(c.history, s, init, c.current) && Final(c).script == []
  {
    EventAsks(c);
    assert c.script[0].transition == Some((s, init));
    assert RestOf(c.script) == [];
    SilentTransition(Config(c.current, Some((s, init)), false, [], c.history));
  }

  // What is left of s after some of its first entries have been taken.
  ghost predicate IsTail(u: seq<Decision>, s: seq<Decision>) {
    u == s || (s != [] && IsTail(u, s[1..]))
  }

  // Decisions are taken in their order, and if there is someone to ask at least one is.
  lemma {:induction false} ScriptIsUsed(c: Config)
    requires c.Sane()
    ensures |Final(c).script| <= |c.script| && IsTail(Final(c).script, c.script)
    ensures c.script != [] && (c.event || (c.pending.Some? && c.pending.value.0.parent != null)) ==>
      |Final(c).script| < |c.script|
    decreases |c.script|, Rank(c), if c.event then 1 else 0
  {
    if c.pending.Some? {
      var r := AfterTransition(c);
      ScriptIsUsed(r);
    } else if c.event {
      var r := AfterEvent(c);
      ScriptIsUsed(r);
    }
  }

  // A transition to Root ends there, and nobody is asked.
  lemma TransitionToRoot(c: Config, root: StateInstance)
    requires c.Sane() && c.pending == Some((root, DefaultInit)) && !c.event && root.parent == null
    ensures Final(c) == Config(root, None, false, c.script, Recorded(c.history, c.current)[root := null])
  {
    assert AfterTransition(c).Quiet();
  }

  // What r is, in plain words, when it is all that c leads to.
  ghost predicate Obeys(r: Config, c: Config)
    requires c.Sane()
  {
    && r.Quiet() && |r.script| <= |c.script| && IsTail(r.script, c.script)
    && (c.script != [] && (c.event || (c.pending.Some? && c.pending.value.0.parent != null)) ==>
         |r.script| < |c.script|)
    && (c.script == [] ==>
         r.current == if c.pending.None? then c.current
           else DestinationOf(c.history, c.pending.value.0, c.pending.value.1, c.current))
    && (c.pending.None? && c.event && |c.script| == 1 && c.script[0].transition.Some? && !c.script[0].event ==>
         var (s, init) := c.script[0].transition.value;
         r.script == [] && r.current == DestinationOf(c.history, s, init, c.current))
  }

  lemma FinalObeys(c: Config)
    requires c.Sane() && (c.pending.Some? ==> c.pending.value.0 in c.history)
    requires forall i {:trigger c.script[i]} | 0 <= i < |c.script| && c.script[i].transition.Some? ::
      c.script[i].transition.value.0 in c.history
    ensures Obeys(Final(c), c)
  {
    ScriptIsUsed(c);
    if c.script == [] {
      SilentTransition(c);
    } else if c.pending.None? && c.event && |c.script| == 1 && c.script[0].transition.Some? && !c.script[0].event {
      var (s, init) := c.script[0].transition.value;
      assert c.script == [Decision(Some((s, init)), false)];
      HandlerIsObeyed(c, s, init);
    }
  }

  // Who leaves a state with history for a state outside it, and asks for its history later, is back where he was:
  // at the state he left, or at the child on the path to it.
  lemma HistoryReturns(c: Config, a: StateInstance, s: StateInstance)
    requires c.Sane() && c.script == [] && c.Quiet() && a in c.history && s in c.history && a.parent != null
    requires a.Placed() && s.Placed() && ProperSubstate(c.current, a) && !s.IsChild(a)
    ensures var away := Final(c.(pending := Some((s, DefaultInit))));
      var back := Final(away.(pending := Some((a, HistoryInit))));
      && away.current == s
      && (a.strategy == DeepHistory ==> back.current == c.current)
      && (a.strategy == ShallowHistory ==> back.current == ChildToward(a, c.current))
      && (a.strategy == NoHistory && c.history[a] == null ==> back.current == a)
  {
    var c0 := c.(pending := Some((s, DefaultInit)));
    var away := Final(c0);
    SilentTransition(c0);
    var c1 := AfterTransition(c0);
    assert Final(c0) == Final(c1) == c1;
    var c2 := away.(pending := Some((a, HistoryInit)));
    SilentTransition(c2);
  }

  class Machine {
    const root: StateInstance
    ghost const states: set<StateInstance>
    ghost const maxDepth: nat
    var current: StateInstance?
    var pendingState: StateInstance?
    var pendingInit: Initializer
    var pendingEvent: bool
    // What the user's actions will ask for, in the order they are run.
    var script: seq<Decision>
    ghost var log: seq<Action>

    // Nothing is entered yet.
    constructor (root: StateInstance, ghost states: set<StateInstance>, ghost maxDepth: nat, script: seq<Decision>)
      ensures this.root == root && this.states == states && this.maxDepth == maxDepth && this.script == script
      ensures current == null && pendingState == null && !pendingEvent && log == []
    {
      this.root, this.states, this.maxDepth, this.script := root, states, maxDepth, script;
      current, pendingState, pendingInit, pendingEvent, log := null, null, DefaultInit, false, [];
    }

    // The state tree. It never changes.
    ghost predicate Tree()
    {
      && root in states && root.parent == null && !root.ownBox
      && forall s {:trigger s in states} | s in states ::
           s.Placed() && s.IsChild(root) && s.depth <= maxDepth && (s.parent == null ==> s == root)
             && (s.parent != null ==> s.parent in states)
    }

    // A saved history is a proper substate.
    ghost predicate HistoryOk(s: StateInstance)
      reads s`history
    {
      s.history != null ==>
        s.parent != null && s.history in states && s.history.Placed() && ProperSubstate(s.history, s)
    }

    // A box that is not persistent lives exactly while its state is entered; a persistent one from the first entry on.
    ghost predicate BoxOk(s: StateInstance, at: StateInstance)
      requires at.Placed()
      reads s`box
    {
      var entered := s in Line(at);
      && (s.ownBox && !s.persistent ==> (s.box == Live <==> entered) && s.box != EmptyBox)
      && (s.ownBox && s.persistent ==> (entered ==> s.box == Live) && s.box != EmptyBox)
      && (!s.ownBox ==> (entered ==> s.box == EmptyBox) && s.box != Live)
    }

    // at is where the log leads, and the boxes agree.
    ghost predicate At(at: StateInstance)
      reads this`log, states`box
    {
      && Tree() && at in states && Leads(log, at) && (forall i | 0 <= i < |log| :: log[i].state in states)
      && forall s {:trigger BoxOk(s, at)} | s in states :: BoxOk(s, at)
    }

    // The states entered and not yet exited are at and its superstates below Root.
    lemma EnteredStates(at: StateInstance)
      requires At(at)
      ensures Inside(log) == Line(at)
    {
      assert forall i | 0 <= i < |log| :: log[i].state in states && log[i].state.Placed();
      LeadsInside(log, at);
    }

    ghost predicate HistoriesOk()
      reads states`history
    {
      forall s {:trigger HistoryOk(s)} | s in states :: HistoryOk(s)
    }

    // ---- exits and entries ----

    // _StateInstance::exit
    method Exit(s: StateInstance, next: StateInstance)
      requires At(s) && next in states
      modifies this`log, states`box
      ensures At(ExitsUpTo(s, next))
      ensures log == old(log) + ExitLog(s, next)
      decreases s.depth
    {
      if s.parent == null {
        return;
      }
      if s == next || !next.IsChild(s) {
        Leave(s);
        Exit(s.parent, next);
        Regrouped(old(log), Exited(s), ExitLog(s.parent, next));
      }
    }

    // The exit action of one state, and the end of its box.
    method Leave(s: StateInstance)
      requires At(s) && s.parent != null
      modifies this`log, s`box
      ensures At(s.parent) && log == old(log) + [Exited(s)]
    {
      NotInParentLine(s);
      assert BoxOk(s, s);
      log := log + [Exited(s)];
      if s.box != EmptyBox && !s.persistent {
        assert s.box == Live;
        s.box := NoBox;
      }
      forall t | t in states ensures BoxOk(t, s.parent) {
        assert old(BoxOk(t, s));
      }
    }

    // _StateInstance::entry
    method Enter(s: StateInstance, previous: StateInstance, first: bool)
      requires Tree() && s in states && previous in states
      requires At(if first && s.parent != null then EntersFrom(s.parent, previous) else EntersFrom(s, previous))
      modifies this`log, states`box
      ensures At(s) && log == old(log) + EntryLog(s, previous, first)
      decreases s.depth
    {
      if s.parent == null {
        return;
      }
      if first || !previous.IsChild(s) {
        Enter(s.parent, previous, false);
        Arrive(s);
      }
    }

    // The box of one state and its entry action.
    method Arrive(s: StateInstance)
      requires s in states && s.parent != null && At(s.parent)
      modifies this`log, s`box
      ensures At(s) && log == old(log) + [Entered(s)]
    {
      NotInParentLine(s);
      assert BoxOk(s, s.parent);
      if s.box == NoBox {
        s.box := if s.ownBox then Live else EmptyBox;
      }
      log := log + [Entered(s)];
      forall t | t in states ensures BoxOk(t, s) {
        assert old(BoxOk(t, s.parent));
      }
    }

    // ---- histories ----

    lemma {:induction false} SuperstatesInTree(s: StateInstance, t: StateInstance)
      requires Tree() && s in states && s.IsChild(t)
      ensures t in states
      decreases s.depth
    {
      if s != t {
        SuperstatesInTree(s.parent, t);
      }
    }

    // The history of a after `left` was left from s: s and the states above it are informed.
    ghost function HistoryVia(a: StateInstance, s: StateInstance, left: StateInstance,
        before: StateInstance?): StateInstance?
      requires s.Placed() && left.Placed() && left.IsChild(s)
    {
      if ProperSubstate(s, a) then HistoryAfter(a, left, before) else before
    }

    // _StateInstance::setHistorySuper
    method SetHistorySuper(s: StateInstance, deep: StateInstance)
      requires Tree() && s in states && deep in states && deep.IsChild(s)
      modifies states`history
      ensures forall a {:trigger a.history} | a in states :: a.history == HistoryVia(a, s, deep, old(a.history))
      decreases s.depth, 1
    {
      if s.parent != null {
        SaveHistory(s.parent, s, deep);
      }
    }

    // _saveHistory of the state's strategy: a state without history only passes the information on.
    method SaveHistory(self: StateInstance, shallow: StateInstance, deep: StateInstance)
      requires Tree() && shallow in states && shallow.parent == self && deep in states && deep.IsChild(shallow)
      modifies states`history
      ensures forall a {:trigger a.history} | a in states :: a.history == HistoryVia(a, shallow, deep, old(a.history))
      decreases shallow.depth, 0
    {
      if self.parent == null {
        // Root
        return;
      }
      ChildTowardIs(shallow, deep);
      match self.strategy {
        case NoHistory =>
        case ShallowHistory => self.history := shallow;
        case DeepHistory => self.history := deep;
      }
      SetHistorySuper(self, deep);
    }

    // All histories.
    ghost function Histories(): map<StateInstance, StateInstance?>
      reads states`history
    {
      map s | s in states :: s.history
    }

    // What the whole chain of calls does, and that it keeps histories below their states.
    method RecordHistory(left: StateInstance)
      requires Tree() && HistoriesOk() && left in states
      modifies states`history
      ensures HistoriesOk()
      ensures forall a {:trigger a.history} | a in states :: a.history == HistoryAfter(a, left, old(a.history))
      ensures Histories() == Recorded(old(Histories()), left)
    {
      SetHistorySuper(left, left);
      forall a | a in states ensures HistoryOk(a) {
        assert old(HistoryOk(a));
        if ProperSubstate(left, a) {
          SuperstatesInTree(left, ChildToward(a, left));
        }
      }
    }

    // ---- transitions ----

    // Users name only their own states.
    ghost predicate ScriptOk()
      reads this`script
    {
      forall i | 0 <= i < |script| && script[i].transition.Some? ::
        script[i].transition.value.0 in states && script[i].transition.value.0 != root
    }

    // The machine between two steps: the entered states are the current one and its superstates.
    ghost predicate Valid()
      reads this, states`box, states`history
    {
      && current != null && At(current) && HistoriesOk() && ScriptOk()
      && (pendingState != null ==> pendingState in states)
    }

    ghost predicate Idle()
      reads this, states`box, states`history
    {
      Valid() && pendingState == null && !pendingEvent
    }

    ghost function Pending(): Option<(StateInstance, Initializer)>
      reads this`pendingState, this`pendingInit
    {
      if pendingState == null then None
      else
        var s: StateInstance := pendingState;
        Some((s, pendingInit))
    }

    ghost function Now(): (c: Config)
      requires Valid()
      reads this, states`box, states`history
      ensures c.Sane()
    {
      HistoriesAreSane();
      Config(current, Pending(), pendingEvent, script, Histories())
    }

    lemma HistoriesAreSane()
      requires HistoriesOk()
      ensures forall a {:trigger Histories()[a]} | a in states && a.history != null ::
        a.history.Placed() && a.history.parent != null
    {
      forall a | a in states && a.history != null ensures a.history.Placed() && a.history.parent != null {
        assert HistoryOk(a);
      }
    }

    // The pending transition up to its entry actions. No action of a state that encloses both ends is run.
    method ExitAndEnter()
      requires Valid() && pendingState != null
      modifies this`log, this`current, this`pendingState, states`box, states`history
      ensures Valid() && current == old(pendingState) && pendingState == null && old(current).Placed()
      ensures log == old(log) + ExitLog(old(current), current) + EntryLog(current, old(current), true)
      ensures Histories() == Recorded(old(Histories()), old(current))
    {
      ExitAndRecord();
      EnterPending();
    }

    // The second half.
    method EnterPending()
      requires current != null && current in states && HistoriesOk() && ScriptOk() && Tree()
      requires pendingState != null && pendingState in states
      requires At(if pendingState.parent != null then EntersFrom(pendingState.parent, current)
        else EntersFrom(pendingState, current))
      modifies this`log, this`current, this`pendingState, states`box
      ensures Valid() && current == old(pendingState) && pendingState == null && old(current).Placed()
      ensures log == old(log) + EntryLog(current, old(current), true)
    {
      var previous := current;
      current := pendingState;
      Enter(current, previous, true);
      pendingState := null;
    }

    // The first half: the machine is where the entries start.
    method ExitAndRecord()
      requires Valid() && pendingState != null
      modifies this`log, states`box, states`history
      ensures pendingState.Placed() && At(if pendingState.parent != null then EntersFrom(pendingState.parent, current)
        else EntersFrom(pendingState, current))
      ensures HistoriesOk() && log == old(log) + ExitLog(current, pendingState)
      ensures Histories() == Recorded(old(Histories()), current)
    {
      Exit(current, pendingState);
      if pendingState.parent != null {
        ExitsMeetEntries(current, pendingState, root);
      } else {
        ExitsReachRoot(current);
      }
      RecordHistory(current);
    }

    lemma {:induction false} ExitsReachRoot(s: StateInstance)
      requires Tree() && s in states
      ensures ExitsUpTo(s, root) == root
      decreases s.depth
    {
      if s.parent != null {
        ExitsReachRoot(s.parent);
      }
    }

    // setPendingState
    method SetPendingState(s: StateInstance, init: Initializer)
      requires Valid() && s in states && pendingState == null
      modifies this`pendingState, this`pendingInit
      ensures Valid() && pendingState == s && pendingInit == init
    {
      pendingState, pendingInit := s, init;
    }

    // The next decision; the user stays silent when there is none left.
    ghost function NextDecision(): Decision
      reads this`script
    {
      FirstOf(script)
    }

    method Ask() returns (d: Decision)
      requires ScriptOk()
      modifies this`script
      ensures ScriptOk() && (d.transition.Some? ==> d.transition.value.0 in states && d.transition.value.0 != root)
      ensures d == old(NextDecision()) && script == if old(script) == [] then [] else old(script)[1..]
    {
      if script == [] {
        d := Decision(None, false);
      } else {
        d := script[0];
        script := script[1..];
      }
    }

    // The init action of the current state: it may ask for a proper substate. Root has none.
    method UserInit()
      requires Valid() && pendingState == null
      modifies this`script, this`pendingState, this`pendingInit, this`pendingEvent
      ensures Valid() && (pendingState != null ==> ProperSubstate(pendingState, current))
      ensures |script| <= |old(script)| && (pendingEvent && !old(pendingEvent) ==> |script| < |old(script)|)
      ensures old(pendingEvent) ==> pendingEvent
      ensures var t := old(NextDecision()).transition;
        current != root && t.Some? && t.value.0.Placed() && ProperSubstate(t.value.0, current) ==>
        pendingState == t.value.0 && pendingInit == t.value.1
      ensures current != root && old(NextDecision()).event ==> pendingEvent
      ensures old(script) == [] ==> pendingEvent == old(pendingEvent) && pendingState == null
      ensures current == root ==> script == old(script) && pendingState == null && pendingEvent == old(pendingEvent)
      ensures Now() == AfterAction(old(Now()))
    {
      if current.parent == null {
        return;
      }
      var d := Ask();
      if d.transition.Some? && ProperSubstate(d.transition.value.0, current) {
        SetPendingState(d.transition.value.0, d.transition.value.1);
      }
      if d.event && !pendingEvent {
        pendingEvent := true;
      }
    }

    // _StateInstance::init; the history is used up.
    method Init(history: bool)
      requires Valid() && pendingState == null
      modifies this`script, this`pendingState, this`pendingInit, this`pendingEvent, current`history
      ensures Valid() && (pendingState != null ==> ProperSubstate(pendingState, current)) && current.history == null
      ensures history && old(current.history) != null ==>
        pendingState == old(current.history) && pendingInit == DefaultInit && script == old(script)
      ensures |script| <= |old(script)| && (pendingEvent && !old(pendingEvent) ==> |script| < |old(script)|)
      ensures old(pendingEvent) ==> pendingEvent
      ensures old(script) == [] ==>
        pendingEvent == old(pendingEvent) && (history && old(current.history) != null) == (pendingState != null)
      ensures current == root ==> script == old(script) && pendingState == null && pendingEvent == old(pendingEvent)
      ensures Now() == AfterInit(old(Now()), if history then HistoryInit else DefaultInit)
    {
      assert HistoryOk(current);
      if history && current.history != null {
        SetPendingState(current.history, DefaultInit);
      } else {
        UserInit();
      }
      ForgetHistory();
    }

    method ForgetHistory()
      requires Valid()
      modifies current`history
      ensures Valid() && current.history == null && Now() == old(Now()).(history := old(Histories())[current := null])
    {
      current.history := null;
      assert forall a | a in states :: HistoryOk(a) by {
        forall a | a in states ensures HistoryOk(a) {
          assert old(HistoryOk(a));
        }
      }
      assert Histories() == old(Histories())[current := null];
    }

    // init->execute(*myCurrentState)
    method Execute(init: Initializer)
      requires Valid() && pendingState == null
      modifies this`script, this`pendingState, this`pendingInit, this`pendingEvent, current`history
      ensures Valid() && (pendingState != null ==> ProperSubstate(pendingState, current))
      ensures |script| <= |old(script)| && (pendingEvent && !old(pendingEvent) ==> |script| < |old(script)|)
      ensures old(pendingEvent) ==> pendingEvent
      ensures old(script) == [] ==>
        pendingEvent == old(pendingEvent)
          && pendingState == (if init == HistoryInit then old(current.history) else null)
      ensures old(script) == [] && pendingState != null ==> pendingInit == DefaultInit
      ensures current == root ==> pendingState == null && pendingEvent == old(pendingEvent)
      ensures Now() == AfterInit(old(Now()), init)
    {
      match init
      case DefaultInit => Init(false);
      case HistoryInit => Init(true);
      case ParameterInit => UserInit();
    }

    // Where a transition from `left` to target ends when no init action asks for more: at the target, or
    // at its history as it stands after `left` was left.
    ghost function Destination(target: StateInstance, init: Initializer, left: StateInstance): StateInstance
      requires left.Placed()
      reads target`history
    {
      var h := HistoryAfter(target, left, target.history);
      if init == HistoryInit && h != null then h else target
    }

    // One transition: exits, histories, entries, and the initializer.
    method Transition()
      requires Valid() && pendingState != null
      modifies this, states`box, states`history
      ensures Valid() && current == old(pendingState) && old(current).Placed()
      ensures log == old(log) + ExitLog(old(current), current) + EntryLog(current, old(current), true)
      ensures ExitsAre(ExitLog(old(current), current), old(current), current)
      ensures EntriesAre(EntryLog(current, old(current), true), current, old(current), true)
      ensures pendingState != null ==> ProperSubstate(pendingState, current)
      ensures Now() == AfterTransition(old(Now()))
      ensures current == root ==> pendingState == null && pendingEvent == old(pendingEvent)
    {
      var init := pendingInit;
      ExitLogIs(current, pendingState);
      EntryLogIs(pendingState, current, true);
      ExitAndEnter();
      Execute(init);
    }

    // The inner loop of rattleOn: init actions might change the state again, but only downwards.
    method Settle() returns (ghost target: StateInstance)
      requires Valid() && pendingState != null
      modifies this, states`box, states`history
      ensures Valid() && pendingState == null && target == old(pendingState) && current.IsChild(target)
      ensures Final(Now()) == Final(old(Now()))
      ensures |script| <= |old(script)| && (pendingEvent && !old(pendingEvent) ==> |script| < |old(script)|)
      ensures target == root ==> current == root && pendingEvent == old(pendingEvent)
      ensures old(script) == [] ==>
        pendingEvent == old(pendingEvent) && current == old(Destination(pendingState, pendingInit, current))
    {
      target := pendingState;
      ghost var c := Now();
      while pendingState != null
        invariant Valid() && target in states
        invariant pendingState == target
          || (current.IsChild(target) && (pendingState != null ==> ProperSubstate(pendingState, current)))
        invariant Final(Now()) == Final(old(Now()))
        invariant |script| <= |old(script)| && (pendingEvent != old(pendingEvent) ==> |script| < |old(script)|)
        invariant target == root ==>
          pendingEvent == old(pendingEvent) && (pendingState == root || (pendingState == null && current == root))
        decreases if pendingState == null then 0 else 1 + maxDepth - pendingState.depth
      {
        ghost var next := pendingState;
        if pendingState != target {
          ChildTransitive(pendingState, current, target);
        }
        Transition();
        // what init asked for lies inside the state that is being initialised
        assert pendingState != null ==> ProperSubstate(pendingState, current);
        if pendingState != null {
          ChildIsDeeper(pendingState.parent, current);
        }
      }
      if c.script == [] {
        SilentTransition(c);
        SilentTransition(Now());
      }
    }

    // Event dispatch: the handler of the current state may ask for any state.
    method Handle()
      requires Valid() && pendingState == null && !pendingEvent
      modifies this`script, this`pendingState, this`pendingInit, this`pendingEvent
      ensures Valid() && |script| <= |old(script)|
      ensures (pendingState != null || pendingEvent) ==> |script| < |old(script)|
      ensures pendingEvent == old(NextDecision()).event
      ensures var t := old(NextDecision()).transition;
        if t.None? then pendingState == null else pendingState == t.value.0 && pendingInit == t.value.1
      ensures Now() == AfterEvent(old(Now()))
    {
      var d := Ask();
      if d.transition.Some? {
        SetPendingState(d.transition.value.0, d.transition.value.1);
      }
      pendingEvent := d.event;
    }

    // Performs pending transitions and events until none is left.
    method RattleOn()
      requires Valid()
      modifies this, states`box, states`history
      ensures Idle()
      ensures Now() == Final(old(Now())) && Obeys(Now(), old(Now()))
      ensures old(pendingState) == root && !old(pendingEvent) ==> current == root
      ensures old(script == [] && pendingState != null) ==>
        current == old(Destination(pendingState, pendingInit, current)) && script == []
      ensures old(pendingState == null && pendingEvent && |script| == 1 && script[0].transition.Some?
          && !script[0].event) ==>
        current == old(Destination(script[0].transition.value.0, script[0].transition.value.1, current)) && script == []
    {
      FinalObeys(Now());
      while pendingState != null || pendingEvent
        invariant Valid() && Final(Now()) == Final(old(Now()))
        invariant old(pendingState) == root && !old(pendingEvent) ==>
          !pendingEvent && (pendingState == root || (pendingState == null && current == root))
        decreases |script|, (if pendingState != null then 1 else 0) + (if pendingEvent then 1 else 0)
      {
        if pendingState != null {
          var target := Settle();
        }
        if pendingEvent {
          HandlePending();
        }
      }
    }

    // The pending event goes to the handler of the current state.
    method HandlePending()
      requires Valid() && pendingState == null && pendingEvent
      modifies this`script, this`pendingState, this`pendingInit, this`pendingEvent
      ensures Valid() && |script| <= |old(script)|
      ensures (pendingState != null || pendingEvent) ==> |script| < |old(script)|
      ensures Final(Now()) == Final(old(Now()))
    {
      ghost var before := Now();
      pendingEvent := false;
      Handle();
      assert Now() == AfterEvent(before);
      assert Final(before) == Final(AfterEvent(before));
    }

    // ---- the machine's interface ----

    // Start with Root, then go to the given state.
    method Start(s: StateInstance, init: Initializer)
      requires Tree() && s in states && s != root && ScriptOk() && current == null && log == [] && pendingState == null
        && !pendingEvent
      requires forall t | t in states :: t.box == NoBox && t.history == null
      modifies this, states`box, states`history
      ensures Idle()
      ensures old(Started(s, init)).Sane() && Now() == Final(old(Started(s, init)))
      ensures old(script) == [] ==> current == s && script == []
      ensures old(script) != [] ==> |script| < |old(script)|
      ensures IsTail(script, old(script))
    {
      ghost var c := Started(s, init);
      current := root;
      forall t | t in states ensures BoxOk(t, root) && HistoryOk(t) {
      }
      SetPendingState(s, init);
      assert Now() == c;
      RattleOn();
    }

    // The machine at Root, about to go to s.
    ghost function Started(s: StateInstance, init: Initializer): Config
      reads this`script, states`history
    {
      Config(root, Some((s, init)), false, script, Histories())
    }

    // setState from outside
    method SetState(s: StateInstance, init: Initializer)
      requires Idle() && s in states && s != root
      modifies this, states`box, states`history
      ensures Idle()
      ensures old(Now().(pending := Some((s, init))).Sane()) && Now() == Final(old(Now().(pending := Some((s, init)))))
      ensures old(script) == [] ==> current == old(Destination(s, init, current)) && script == []
      ensures old(script) != [] ==> |script| < |old(script)|
      ensures IsTail(script, old(script))
    {
      ghost var c := Now().(pending := Some((s, init)));
      SetPendingState(s, init);
      assert Now() == c;
      RattleOn();
    }

    // An event reaches the handler of the current state, and what the handler asks for is done.
    method Dispatch()
      requires Idle()
      modifies this, states`box, states`history
      ensures Idle()
      ensures old(Now().(event := true).Sane()) && Now() == Final(old(Now().(event := true)))
      ensures old(|script| == 1 && script[0].transition.Some? && !script[0].event) ==>
        current == old(Destination(script[0].transition.value.0, script[0].transition.value.1, current)) && script == []
      ensures old(script) == [] ==> Now() == old(Now())
      ensures old(script) != [] ==> |script| < |old(script)|
      ensures IsTail(script, old(script))
    {
      EventAhead();
      Handle();
      RattleOn();
    }

    // What an event would lead to.
    lemma EventAhead()
      requires Idle()
      ensures Now().Sane() && Now().(event := true).Sane()
      ensures Final(Now().(event := true)) == Final(AfterEvent(Now()))
      ensures Obeys(Final(Now().(event := true)), Now().(event := true))
    {
      var c := Now().(event := true);
      FinalObeys(c);
      assert AfterEvent(c) == AfterEvent(Now());
    }

    // Performs exit actions by going to Root: no state stays entered, and only persistent boxes stay alive.
    method Shutdown()
      requires Idle()
      modifies this, states`box, states`history
      ensures current == null && Leads(log, root) && Inside(log) == {}
      ensures forall s | s in states && s.ownBox && !s.persistent :: s.box != Live
      ensures old(current).Placed() && script == old(script)
        && Histories() == Recorded(old(Histories()), old(current))[root := null]
    {
      GoToRoot();
      EnteredStates(root);
      forall s | s in states && s.ownBox && !s.persistent ensures s.box != Live {
        assert BoxOk(s, root);
      }
      current := null;
    }

    method GoToRoot()
      requires Idle()
      modifies this, states`box, states`history
      ensures Idle() && current == root && script == old(script) && old(current).Placed()
      ensures Histories() == Recorded(old(Histories()), old(current))[root := null]
    {
      SetPendingState(root, DefaultInit);
      TransitionToRoot(Now(), root);
      RattleOn();
    }

    // No state from instance down remembers a former substate.
    method ClearHistoryDeep(instances: seq<StateInstance>, instance: StateInstance)
      requires Tree() && HistoriesOk() && (set s | s in instances) == states
      modifies states`history
      ensures HistoriesOk()
      ensures forall s {:trigger s.history} | s in states ::
        s.history == if s.IsChild(instance) then null else old(s.history)
    {
      forall i | 0 <= i < |instances| ensures instances[i] in states {
        assert instances[i] in set t | t in instances;
      }
      for i := 0 to |instances|
        invariant HistoriesOk()
        invariant forall s {:trigger s.history} | s in states ::
          s.history == (if s in instances[..i] && s.IsChild(instance) then null else old(s.history))
      {
        var s := instances[i];
        if s.IsChild(instance) {
          s.history := null;
        }
      }
    }
  }
}
