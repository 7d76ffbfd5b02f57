/**
 * What keeping views in step with the view model does, as the events it causes: handler
 * subscriptions, values written into views, lists handed to table sources. Every operation
 * of the engine that touches views or handlers is specified by the events it appends.
 */
module Synchronization {
  import opened Wrappers
  import opened Host
  import opened Parameters
  import opened BindingTable

  /** A handler the engine attaches: a table source's handlers, a two-way change handler
      on a view, or a command handler on a view. */
  datatype Handler =
    | ListHandlers(tableView: ViewId)
    | TwoWayHandler(view: ViewId)
    | CommandHandler(view: ViewId)

  /** A value read from a view model: the model itself, or one of its properties. */
  datatype Value = WholeModel(model: ModelRef) | PropertyValue(model: ModelRef, property: string)

  datatype Event =
    | Subscribed(handler: Handler)
    | Unsubscribed(handler: Handler)
      /** A value written into a view member, by the extension points when there are any. */
    | ViewUpdated(view: ViewId, member: Option<string>, value: Value, viaExtensionPoints: bool)
      /** `SetList` on a table source, with a list property of the model. */
    | ListSet(tableView: ViewId, model: ModelRef, listProperty: string)

  predicate IsSubscription(e: Event) {
    e.Subscribed? || e.Unsubscribed?
  }

  /** The view an event acts on, if any. */
  function Target(e: Event): Option<ViewId> {
    match e
    case ViewUpdated(view, _, _, _) => Some(view)
    case ListSet(tableView, _, _) => Some(tableView)
    case _ => None
  }

  /** The model an event reads, if any. */
  function ModelRead(e: Event): Option<ModelRef> {
    match e
    case ViewUpdated(_, _, value, _) => Some(value.model)
    case ListSet(_, model, _) => Some(model)
    case _ => None
  }

  /** Whether a binding's mode writes into its view. */
  predicate ShowsModel(b: DataBinding) {
    b.Mode == OneWay || b.Mode == TwoWay
  }

  /** The value `UpdateView(binding)` writes: the model itself when there is no property. */
  function ValueOf(b: DataBinding, model: ModelRef): Value {
    if b.ViewModelPropertyInfo.None? then WholeModel(model)
    else PropertyValue(model, b.ViewModelPropertyInfo.value)
  }

  /** `UpdateList(binding)`. */
  function ListRefresh(b: DataBinding, model: ModelRef): (es: seq<Event>)
    ensures |es| <= 1
    ensures es != [] <==> b.ViewModelListPropertyInfo.Some? && b.TableViewSource.Some?
    ensures forall e :: e in es ==>
      && e.ListSet? && e.model == model && Some(e.listProperty) == b.ViewModelListPropertyInfo
      && e.tableView == b.TableViewSource.value.tableView
  {
    if b.ViewModelListPropertyInfo.Some? && b.TableViewSource.Some? then
      [ListSet(b.TableViewSource.value.tableView, model, b.ViewModelListPropertyInfo.value)]
    else []
  }

  /** `UpdateView(binding)`. */
  function ViewRefresh(b: DataBinding, model: ModelRef, viaExtensionPoints: bool): (es: seq<Event>)
    ensures |es| <= 1
    ensures es != [] <==> ShowsModel(b)
    ensures forall e :: e in es ==>
      && e.ViewUpdated? && e.view == b.View && e.member == b.ViewMemberName
      && e.value.model == model && e.viaExtensionPoints == viaExtensionPoints
      && (e.value.WholeModel? <==> b.ViewModelPropertyInfo.None?)
      && (e.value.PropertyValue? ==> Some(e.value.property) == b.ViewModelPropertyInfo)
  {
    if ShowsModel(b) then [ViewUpdated(b.View, b.ViewMemberName, ValueOf(b, model), viaExtensionPoints)]
    else []
  }

  /** `UpdateList(binding)` followed by `UpdateView(binding)`. */
  function Refresh(b: DataBinding, model: ModelRef, viaExtensionPoints: bool): (es: seq<Event>)
    ensures |es| <= 2
    ensures forall e :: e in es ==> !IsSubscription(e) && ModelRead(e) == Some(model)
    // the list is handed over before the view is written
    ensures forall i, j :: 0 <= i < j < |es| ==> es[i].ListSet? && es[j].ViewUpdated?
  {
    ListRefresh(b, model) + ViewRefresh(b, model, viaExtensionPoints)
  }

  /** The handlers of a binding's table source, if it has one. */
  function ListHandler(b: DataBinding): Option<Handler> {
    if b.TableViewSource.Some? then Some(ListHandlers(b.TableViewSource.value.tableView)) else None
  }

  /** The handler the mode switch of `AddBinding`, `AddHandlers` and `RemoveHandlers` picks. */
  function ModeHandler(b: DataBinding): Option<Handler> {
    match b.Mode
    case TwoWay => Some(TwoWayHandler(b.View))
    case Command => Some(CommandHandler(b.View))
    case _ => None
  }

  /** Subscribing (`on`) or unsubscribing a handler, if there is one. */
  function Switched(h: Option<Handler>, on: bool): seq<Event> {
    if h.None? then [] else if on then [Subscribed(h.value)] else [Unsubscribed(h.value)]
  }

  function Held(h: Option<Handler>): multiset<Handler> {
    if h.None? then multiset{} else multiset{h.value}
  }

  /** The handlers a binding owns: its table source's and the one its mode calls for. */
  function HandlersOf(b: DataBinding): multiset<Handler> {
    Held(ListHandler(b)) + Held(ModeHandler(b))
  }

  /** What one iteration of a `foreach` over the bindings does. */
  datatype Sweep =
    | Refreshing(model: ModelRef, viaExtensionPoints: bool)
    | Subscribing
    | Unsubscribing

  /** An iteration's first step: the table source's list, or its handlers. */
  function FirstStep(p: Sweep, b: DataBinding): seq<Event> {
    match p
    case Refreshing(model, _) => ListRefresh(b, model)
    case Subscribing => Switched(ListHandler(b), true)
    case Unsubscribing => Switched(ListHandler(b), false)
  }

  /** An iteration's second step: the view, or the mode's handler. */
  function SecondStep(p: Sweep, b: DataBinding): seq<Event> {
    match p
    case Refreshing(model, ext) => ViewRefresh(b, model, ext)
    case Subscribing => Switched(ModeHandler(b), true)
    case Unsubscribing => Switched(ModeHandler(b), false)
  }

  /** The kind of event a sweep causes: list and view updates from the given model, or
      only subscriptions, or only unsubscriptions. */
  predicate InSweep(p: Sweep, e: Event) {
    match p
    case Refreshing(model, ext) =>
      (e.ListSet? && e.model == model) || (e.ViewUpdated? && e.value.model == model && e.viaExtensionPoints == ext)
    case Subscribing => e.Subscribed?
    case Unsubscribing => e.Unsubscribed?
  }

  function SweepEvents(p: Sweep, b: DataBinding): seq<Event> {
    FirstStep(p, b) + SecondStep(p, b)
  }

  /** The first `n` iterations of a `foreach` over the bindings, in enumeration order. */
  function ForEach(t: Table, n: nat, p: Sweep): (es: seq<Event>)
    requires KeysPresent(t) && n <= |t.keys|
    ensures |es| <= 2 * n
    ensures forall e :: e in es ==> InSweep(p, e)
  {
    if n == 0 then [] else ForEach(t, n - 1, p) + SweepEvents(p, t.entries[t.keys[n - 1]])
  }

  /** No iteration adds nothing. */
  lemma ForEachNone(done: seq<Event>, t: Table, p: Sweep)
    requires KeysPresent(t)
    ensures done + ForEach(t, 0, p) == done
  {
    assert ForEach(t, 0, p) == [];
  }

  /** The events after `i` iterations, followed by the next iteration's. */
  lemma ForEachNext(done: seq<Event>, t: Table, i: nat, p: Sweep)
    requires KeysPresent(t) && i < |t.keys|
    ensures var b := t.entries[t.keys[i]];
      done + ForEach(t, i, p) + FirstStep(p, b) + SecondStep(p, b) == done + ForEach(t, i + 1, p)
  {
  }

  /** What the steps of attaching or detaching one binding's handlers are. */
  lemma SwitchSteps(b: DataBinding, on: bool)
    ensures FirstStep(if on then Subscribing else Unsubscribing, b) == Switched(ListHandler(b), on)
    ensures SecondStep(if on then Subscribing else Unsubscribing, b) == Switched(ModeHandler(b), on)
  {
  }

  /** What the steps of refreshing one binding are. */
  lemma RefreshSteps(b: DataBinding, model: ModelRef, viaExtensionPoints: bool)
    ensures FirstStep(Refreshing(model, viaExtensionPoints), b) == ListRefresh(b, model)
    ensures SecondStep(Refreshing(model, viaExtensionPoints), b) == ViewRefresh(b, model, viaExtensionPoints)
  {
  }

  /** `UpdateView()`. */
  function RefreshAll(t: Table, model: ModelRef, viaExtensionPoints: bool): (es: seq<Event>)
    requires KeysPresent(t)
    ensures |es| <= 2 * |t.keys|
    ensures forall e :: e in es ==> !IsSubscription(e) && ModelRead(e) == Some(model)
  {
    ForEach(t, |t.keys|, Refreshing(model, viaExtensionPoints))
  }

  /** `AddHandlers()`. */
  function SubscribeAll(t: Table): (es: seq<Event>)
    requires KeysPresent(t)
    ensures |es| <= 2 * |t.keys|
    ensures forall e :: e in es ==> e.Subscribed?
  {
    ForEach(t, |t.keys|, Subscribing)
  }

  /** `RemoveHandlers()`. */
  function UnsubscribeAll(t: Table): (es: seq<Event>)
    requires KeysPresent(t)
    ensures |es| <= 2 * |t.keys|
    ensures forall e :: e in es ==> e.Unsubscribed?
  {
    ForEach(t, |t.keys|, Unsubscribing)
  }

  /** `SetViewModel` with a different model: remove handlers, switch, add handlers, update. */
  function ModelSwap(t: Table, model: ModelRef, viaExtensionPoints: bool): (es: seq<Event>)
    requires KeysPresent(t)
    // no view or list is refreshed from any model but the new one
    ensures forall e :: e in es && !IsSubscription(e) ==> ModelRead(e) == Some(model)
  {
    UnsubscribeAll(t) + SubscribeAll(t) + RefreshAll(t, model, viaExtensionPoints)
  }

  /** The three passes of `SetViewModel`, one after the other, are a model switch. */
  lemma ModelSwapAfter(done: seq<Event>, t: Table, model: ModelRef, viaExtensionPoints: bool)
    requires KeysPresent(t)
    ensures done + UnsubscribeAll(t) + SubscribeAll(t) + RefreshAll(t, model, viaExtensionPoints)
            == done + ModelSwap(t, model, viaExtensionPoints)
  {
    var u, a, r := UnsubscribeAll(t), SubscribeAll(t), RefreshAll(t, model, viaExtensionPoints);
    assert done + u + a + r == done + (u + a + r);
  }

  /** `UpdateView(propertyName)`: the binding with that id is refreshed completely; failing
      that, the first binding listing that property has its list refreshed; else nothing. */
  function PropertyChanged(t: Table, idPrefix: string, name: Option<string>, model: ModelRef,
                           viaExtensionPoints: bool): (es: seq<Event>)
    requires Inv(t)
    ensures forall e :: e in es ==> !IsSubscription(e) && ModelRead(e) == Some(model)
    ensures IdName(idPrefix, name) in t.entries ==>
      forall e :: e in es ==> Target(e) == Some(t.entries[IdName(idPrefix, name)].View)
    ensures IdName(idPrefix, name) in t.entries && ShowsModel(t.entries[IdName(idPrefix, name)]) ==>
      var b := t.entries[IdName(idPrefix, name)];
      ViewUpdated(b.View, b.ViewMemberName, ValueOf(b, model), viaExtensionPoints) in es
    ensures IdName(idPrefix, name) !in t.entries ==>
      |es| <= 1 && forall e :: e in es ==> e.ListSet? && Some(e.listProperty) == name
    ensures (&& IdName(idPrefix, name) !in t.entries
             && forall k :: k in t.entries ==> !IsListBindingFor(t.entries[k], name)) ==> es == []
    // an id match: that binding's list, then its view
    ensures IdName(idPrefix, name) in t.entries ==>
      es == Refresh(t.entries[IdName(idPrefix, name)], model, viaExtensionPoints)
    // otherwise: the list of the first binding, in enumeration order, listing that property
    ensures IdName(idPrefix, name) !in t.entries && FindBindingForListProperty(t, name).Some? ==>
      es == ListRefresh(FindBindingForListProperty(t, name).value, model)
  {
    var id := IdName(idPrefix, name);
    if id in t.entries then Refresh(t.entries[id], model, viaExtensionPoints)
    else
      match FindBindingForListProperty(t, name)
      case Some(b) => ListRefresh(b, model)
      case None => []
  }

  /** All handlers the first `n` bindings own. */
  function HandlersIn(t: Table, n: nat): multiset<Handler>
    requires KeysPresent(t) && n <= |t.keys|
  {
    if n == 0 then multiset{} else HandlersIn(t, n - 1) + HandlersOf(t.entries[t.keys[n - 1]])
  }
}

/** What the synchronisation protocol guarantees. */
module SynchronizationProperties {
  import opened Wrappers
  import opened Host
  import opened Parameters
  import opened BindingTable
  import opened Synchronization

  /** The binding an event of a pass came from. */
  lemma {:induction false} ForEachSource(t: Table, n: nat, p: Sweep, e: Event) returns (i: nat)
    requires KeysPresent(t) && n <= |t.keys| && e in ForEach(t, n, p)
    ensures i < n && e in SweepEvents(p, t.entries[t.keys[i]])
  {
    var last := SweepEvents(p, t.entries[t.keys[n - 1]]);
    assert ForEach(t, n, p) == ForEach(t, n - 1, p) + last;
    if e in last {
      i := n - 1;
    } else {
      i := ForEachSource(t, n - 1, p, e);
    }
  }

  /** Every event of an iteration is in the pass. */
  lemma {:induction false} ForEachHas(t: Table, n: nat, p: Sweep, i: nat, e: Event)
    requires KeysPresent(t) && i < n <= |t.keys| && e in SweepEvents(p, t.entries[t.keys[i]])
    ensures e in ForEach(t, n, p)
  {
    if i < n - 1 {
      ForEachHas(t, n - 1, p, i, e);
    }
  }

  lemma ForEachContains(t: Table, n: nat, p: Sweep, e: Event)
    requires KeysPresent(t) && n <= |t.keys|
    ensures e in ForEach(t, n, p) <==> exists i :: 0 <= i < n && e in SweepEvents(p, t.entries[t.keys[i]])
  {
    if e in ForEach(t, n, p) {
      var i := ForEachSource(t, n, p, e);
    }
    if exists i :: 0 <= i < n && e in SweepEvents(p, t.entries[t.keys[i]]) {
      var i :| 0 <= i < n && e in SweepEvents(p, t.entries[t.keys[i]]);
      ForEachHas(t, n, p, i, e);
    }
  }

  /** An event of a pass over the whole table comes from one of its bindings, and each
      binding's events are there. */
  lemma ForEachBinding(t: Table, p: Sweep, e: Event)
    requires Valid(t)
    ensures e in ForEach(t, |t.keys|, p) <==> exists k :: k in t.entries && e in SweepEvents(p, t.entries[k])
  {
    ForEachContains(t, |t.keys|, p, e);
    if exists k :: k in t.entries && e in SweepEvents(p, t.entries[k]) {
      var k :| k in t.entries && e in SweepEvents(p, t.entries[k]);
      var i :| 0 <= i < |t.keys| && t.keys[i] == k;
    }
  }

  /** `UpdateView()` shows the current model in every view bound one-way or two-way. */
  lemma RefreshAllShowsModel(t: Table, model: ModelRef, ext: bool, k: string)
    requires Valid(t) && k in t.entries && ShowsModel(t.entries[k])
    ensures
      var b := t.entries[k];
      ViewUpdated(b.View, b.ViewMemberName, ValueOf(b, model), ext) in RefreshAll(t, model, ext)
  {
    var b := t.entries[k];
    ForEachBinding(t, Refreshing(model, ext), ViewUpdated(b.View, b.ViewMemberName, ValueOf(b, model), ext));
  }

  /** `UpdateView()` hands every table source its list property of the current model. */
  lemma RefreshAllSetsLists(t: Table, model: ModelRef, ext: bool, k: string)
    requires Valid(t) && k in t.entries
    requires t.entries[k].ViewModelListPropertyInfo.Some? && t.entries[k].TableViewSource.Some?
    ensures
      var b := t.entries[k];
      ListSet(b.TableViewSource.value.tableView, model, b.ViewModelListPropertyInfo.value)
        in RefreshAll(t, model, ext)
  {
    var b := t.entries[k];
    ForEachBinding(t, Refreshing(model, ext),
      ListSet(b.TableViewSource.value.tableView, model, b.ViewModelListPropertyInfo.value));
  }

  /** `UpdateView()` touches only bound views, reads only the current model and attaches
      or detaches nothing. */
  lemma RefreshAllReadsModel(t: Table, model: ModelRef, ext: bool, e: Event)
    requires Inv(t) && e in RefreshAll(t, model, ext)
    ensures !IsSubscription(e) && ModelRead(e) == Some(model)
    ensures exists k :: k in t.entries && Target(e) == Some(t.entries[k].View)
  {
    ForEachBinding(t, Refreshing(model, ext), e);
    var k :| k in t.entries && e in SweepEvents(Refreshing(model, ext), t.entries[k]);
    RefreshEvent(t.entries[k], model, ext, e);
  }

  /** An event of refreshing one binding, whose table source sits on its own view. */
  lemma RefreshEvent(b: DataBinding, model: ModelRef, ext: bool, e: Event)
    requires e in SweepEvents(Refreshing(model, ext), b)
    requires b.TableViewSource.Some? ==> b.TableViewSource.value.tableView == b.View
    ensures !IsSubscription(e) && ModelRead(e) == Some(model) && Target(e) == Some(b.View)
  {
  }

  lemma Union3(s: multiset<Handler>, a: multiset<Handler>, b: multiset<Handler>, c: multiset<Handler>)
    ensures ((s + a) + b) + c == s + (a + (b + c))
  {
    assert forall x :: (((s + a) + b) + c)[x] == (s + (a + (b + c)))[x];
  }

  lemma Difference3(s: multiset<Handler>, a: multiset<Handler>, b: multiset<Handler>, c: multiset<Handler>)
    ensures ((s - a) - b) - c == s - (a + (b + c))
  {
    assert forall x :: (((s - a) - b) - c)[x] == (s - (a + (b + c)))[x];
  }

  /** Two tables that agree on their first `n` bindings own the same handlers in them. */
  lemma {:induction false} HandlersInPrefix(t: Table, u: Table, n: nat)
    requires KeysPresent(t) && KeysPresent(u) && n <= |t.keys| && n <= |u.keys|
    requires forall i :: 0 <= i < n ==> t.entries[t.keys[i]] == u.entries[u.keys[i]]
    ensures HandlersIn(t, n) == HandlersIn(u, n)
  {
    if n > 0 {
      HandlersInPrefix(t, u, n - 1);
      assert t.entries[t.keys[n - 1]] == u.entries[u.keys[n - 1]];
    }
  }

  /** Adding a binding adds the handlers it owns. */
  lemma HandlersInInsert(t: Table, id: string, b: DataBinding)
    requires Valid(t) && id !in t.entries
    ensures HandlersIn(Insert(t, id, b), |t.keys| + 1) == HandlersIn(t, |t.keys|) + HandlersOf(b)
  {
    var u := Insert(t, id, b);
    forall i | 0 <= i < |t.keys| ensures t.entries[t.keys[i]] == u.entries[u.keys[i]] {
      assert t.keys[i] != id;
    }
    HandlersInPrefix(t, u, |t.keys|);
  }

  /** An attach turned into the matching detach. */
  function Flip(e: Event): Event {
    if e.Subscribed? then Unsubscribed(e.handler) else e
  }

  function Mirrored(es: seq<Event>): seq<Event> {
    seq(|es|, i requires 0 <= i < |es| => Flip(es[i]))
  }

  lemma MirroredAppend(a: seq<Event>, b: seq<Event>)
    ensures Mirrored(a + b) == Mirrored(a) + Mirrored(b)
  {
    assert forall i :: 0 <= i < |a + b| ==> Mirrored(a + b)[i] == (Mirrored(a) + Mirrored(b))[i];
  }

  /** Each iteration of `RemoveHandlers()` detaches what the same iteration of
      `AddHandlers()` attaches, in the same order. */
  lemma {:induction false} ForEachMirrored(t: Table, n: nat)
    requires KeysPresent(t) && n <= |t.keys|
    ensures ForEach(t, n, Unsubscribing) == Mirrored(ForEach(t, n, Subscribing))
  {
    if n > 0 {
      var b := t.entries[t.keys[n - 1]];
      var done := ForEach(t, n - 1, Subscribing);
      ForEachMirrored(t, n - 1);
      SweepMirrored(b);
      MirroredAppend(done, SweepEvents(Subscribing, b));
      assert ForEach(t, n, Subscribing) == done + SweepEvents(Subscribing, b);
    }
  }

  lemma SweepMirrored(b: DataBinding)
    ensures SweepEvents(Unsubscribing, b) == Mirrored(SweepEvents(Subscribing, b))
  {
    MirroredAppend(Switched(ListHandler(b), true), Switched(ModeHandler(b), true));
  }

  /** `AddHandlers()` followed by `RemoveHandlers()` over the same bindings: the second
      detaches exactly the handlers the first attached, in the same order, and the attached
      handlers are back to what they were before either ran. */
  lemma DetachUndoesAttach(t: Table, attached: multiset<Handler>)
    requires KeysPresent(t)
    ensures UnsubscribeAll(t) == Mirrored(SubscribeAll(t))
    ensures (attached + HandlersIn(t, |t.keys|)) - HandlersIn(t, |t.keys|) == attached
  {
    ForEachMirrored(t, |t.keys|);
    var h := HandlersIn(t, |t.keys|);
    assert forall x :: ((attached + h) - h)[x] == attached[x];
  }

  /** `RemoveHandlers()` then `AddHandlers()`, as `SetViewModel` does when the model changes,
      from `s` attached with `h` owned: each handler ends up attached as often as the
      bindings own it, or as often as before if that was more; exactly as owned when no
      handler was attached more often than that; and a second switch changes nothing. */
  lemma Reattach(s: multiset<Handler>, h: multiset<Handler>)
    ensures forall x :: ((s - h) + h)[x] == if s[x] >= h[x] then s[x] else h[x]
    ensures s <= h ==> (s - h) + h == h
    ensures (((s - h) + h) - h) + h == (s - h) + h
  {
    if s <= h {
      assert forall x :: ((s - h) + h)[x] == h[x];
    }
    assert forall x :: ((((s - h) + h) - h) + h)[x] == ((s - h) + h)[x];
  }

  /** The three phases of a model switch. */
  function Phase(e: Event): nat {
    match e
    case Unsubscribed(_) => 0
    case Subscribed(_) => 1
    case _ => 2
  }

  function SweepPhase(p: Sweep): nat {
    match p
    case Unsubscribing => 0
    case Subscribing => 1
    case Refreshing(_, _) => 2
  }

  lemma SweepEventsPhase(p: Sweep, b: DataBinding, e: Event)
    requires e in SweepEvents(p, b)
    ensures Phase(e) == SweepPhase(p)
  {
  }

  /** Each event of a pass has the pass's phase. */
  lemma ForEachPhase(t: Table, p: Sweep, e: Event)
    requires Valid(t) && e in ForEach(t, |t.keys|, p)
    ensures Phase(e) == SweepPhase(p)
  {
    ForEachBinding(t, p, e);
    var k :| k in t.entries && e in SweepEvents(p, t.entries[k]);
    SweepEventsPhase(p, t.entries[k], e);
  }

  /** `SetViewModel` detaches every handler before attaching any, and attaches them all
      before it writes a single view. */
  lemma ModelSwapOrder(t: Table, model: ModelRef, ext: bool)
    requires Valid(t)
    ensures var es := ModelSwap(t, model, ext);
      forall i, j :: 0 <= i < j < |es| ==> Phase(es[i]) <= Phase(es[j])
  {
    var u, a, r := UnsubscribeAll(t), SubscribeAll(t), RefreshAll(t, model, ext);
    var es := ModelSwap(t, model, ext);
    forall i | 0 <= i < |es|
      ensures Phase(es[i]) == if i < |u| then 0 else if i < |u| + |a| then 1 else 2
    {
      if i < |u| {
        assert es[i] == u[i];
        ForEachPhase(t, Unsubscribing, u[i]);
      } else if i < |u| + |a| {
        assert es[i] == a[i - |u|];
        ForEachPhase(t, Subscribing, a[i - |u|]);
      } else {
        assert es[i] == r[i - |u| - |a|];
        ForEachPhase(t, Refreshing(model, ext), r[i - |u| - |a|]);
      }
    }
  }
}
