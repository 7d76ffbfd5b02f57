/**
 * Adding bindings to a ViewDataBindings instance (`AddBindings` and the private
 * `AddBinding`), stated on values: what the instance knows, what adding changes, and the
 * binding each parameters record becomes.
 */
module Registration {
  import opened Wrappers
  import opened DotNetText
  import opened Host
  import opened Parameters
  import opened BindingTable
  import opened Synchronization

  /** What an instance consults while adding bindings. `modelProperties` stands for
      reflection on the view model's type: its public properties by name, each with whether
      its type implements `IList`. `viewDefaults` is `ViewDefaultPropertyOrFieldName`. */
  datatype Config = Config(
    idPrefix: string,
    modelProperties: map<string, bool>,
    viewDefaults: map<string, string>,
    hasExtensionPoints: bool,
    viewModel: ModelRef,
    views: map<ViewId, ViewInfo>)

  /** What adding bindings changes: the binding table, the table views' `Source`
      properties, and the events so far. */
  datatype State = State(table: Table, sources: map<ViewId, TableViewSource>, trace: seq<Event>,
                         attached: multiset<Handler>)

  /** `ViewModelPropertyInfo` as first resolved: no property for a null, empty or "." name,
      nor for a name the view model's type does not have. */
  function PropertyInfo(c: Config, name: Option<string>): (r: Option<string>)
    ensures r.Some? <==> !IsNullOrEmpty(name) && name.value != "." && name.value in c.modelProperties
    ensures r.Some? ==> r == name
  {
    if IsNullOrEmpty(name) || name.value == "." || name.value !in c.modelProperties then None else name
  }

  /** The list property name a table view binding asks for: `ListPropertyName`, or else the
      property name followed by "List" (a null name contributing nothing). */
  function ListName(bp: BindingParameters): (r: string)
    ensures bp.ListPropertyName.Some? ==> r == bp.ListPropertyName.value
    ensures bp.ListPropertyName.None? ==> r == bp.ViewModelPropertyName.GetOr("") + "List"
  {
    bp.ListPropertyName.GetOr(bp.ViewModelPropertyName.GetOr("") + "List")
  }

  /** When the list property asked for does not exist but the bound property itself is a
      list, the binding takes its list from that property and binds no scalar. */
  predicate ReusesProperty(c: Config, bp: BindingParameters) {
    && ListName(bp) !in c.modelProperties
    && PropertyInfo(c, bp.ViewModelPropertyName).Some?
    && c.modelProperties[bp.ViewModelPropertyName.value]
  }

  /** A OneWay or TwoWay binding without a view member binds the view type's default one. */
  predicate DefaultsViewMember(bp: BindingParameters) {
    (bp.Mode == OneWay || bp.Mode == TwoWay) && bp.ViewMemberName.None?
  }

  /** The view member a binding writes: the one named, else the view type's default for a
      binding that shows the model, else none; the error when there is no default. */
  function ViewMember(c: Config, bp: BindingParameters, view: ViewId): (r: Result<Option<string>, Error>)
    requires view in c.views
    ensures r.Err? <==> DefaultsViewMember(bp) && c.views[view].typeName !in c.viewDefaults
    ensures r.Err? ==> r.error == NoDefaultViewMember(c.views[view].typeName)
    ensures r.Ok? && bp.ViewMemberName.Some? ==> r.value == bp.ViewMemberName
    ensures r.Ok? && bp.ViewMemberName.None? ==>
      r.value == if bp.Mode == OneWay || bp.Mode == TwoWay then Some(c.viewDefaults[c.views[view].typeName]) else None
  {
    var typeName := c.views[view].typeName;
    if !DefaultsViewMember(bp) then Ok(bp.ViewMemberName)
    else if typeName !in c.viewDefaults then Err(NoDefaultViewMember(typeName))
    else Ok(Some(c.viewDefaults[typeName]))
  }

  /** The list property of a table view binding: the one asked for when it exists, else
      the bound property when that is a list, else none. */
  function ListInfo(c: Config, bp: BindingParameters): (r: Option<string>)
    ensures ListName(bp) in c.modelProperties ==> r == Some(ListName(bp))
    ensures ReusesProperty(c, bp) ==> r == bp.ViewModelPropertyName
    ensures ListName(bp) !in c.modelProperties && !ReusesProperty(c, bp) ==> r.None?
    ensures r.Some? ==> r.value in c.modelProperties
  {
    if ReusesProperty(c, bp) then bp.ViewModelPropertyName
    else if ListName(bp) in c.modelProperties then Some(ListName(bp)) else None
  }

  /** The source created for a table view that has none yet: on that view, for the current
      model, with the record's list options; its item template defaults to the list
      property's name followed by "Item". */
  function NewSource(c: Config, sources: map<ViewId, TableViewSource>, bp: BindingParameters, view: ViewId)
    : (r: Option<TableViewSource>)
    ensures r.Some? <==> view !in sources
    ensures r.Some? ==>
      var src := r.value;
      && src.tableView == view && src.viewModel == c.viewModel && src.hasExtensionPoints == c.hasExtensionPoints
      && src.canEditItem == bp.ListCanEditItem && src.canMoveItem == bp.ListCanMoveItem
      && src.removeItemCommandName == bp.ListRemoveItemCommandName
      && src.addItemCommandName == bp.ListAddItemCommandName
      && src.itemSelectedPropertyName == (if bp.Mode == Command || bp.Mode == TwoWay then bp.ViewModelPropertyName else None)
      && (bp.ListItemTemplateName.Some? ==> src.itemTemplateName == bp.ListItemTemplateName.value)
      && (bp.ListItemTemplateName.None? && ListInfo(c, bp).Some? ==>
            src.itemTemplateName == ListInfo(c, bp).value + "Item")
      && (bp.ListItemTemplateName.None? && ListInfo(c, bp).None? ==>
            src.itemTemplateName == ListName(bp) + "Item")
  {
    var listPropertyName := if ReusesProperty(c, bp) then bp.ViewModelPropertyName.value else ListName(bp);
    if view in sources then None
    else Some(TableViewSource(
      view,
      bp.ListItemTemplateName.GetOr(listPropertyName + "Item"),
      c.viewModel,
      bp.ListCanEditItem,
      bp.ListCanMoveItem,
      if bp.Mode == Command || bp.Mode == TwoWay then bp.ViewModelPropertyName else None,
      bp.ListRemoveItemCommandName,
      bp.ListAddItemCommandName,
      c.hasExtensionPoints))
  }

  /** The binding `AddBinding` builds for a parameters record whose view is `view`, given the
      table sources already set; or the error it throws when the view's member would have to
      be defaulted and its type has no default. */
  function NewBinding(c: Config, sources: map<ViewId, TableViewSource>, bp: BindingParameters, view: ViewId)
    : (r: Result<DataBinding, Error>)
    requires view in c.views
    ensures r.Err? <==>
      (bp.Mode == OneWay || bp.Mode == TwoWay) && bp.ViewMemberName.None? && c.views[view].typeName !in c.viewDefaults
    ensures r.Err? ==> r.error == NoDefaultViewMember(c.views[view].typeName)
    ensures r.Ok? ==> r.value.View == view && r.value.Mode == bp.Mode
    ensures r.Ok? && bp.ViewMemberName.Some? ==> r.value.ViewMemberName == bp.ViewMemberName
    ensures r.Ok? && bp.ViewMemberName.None? ==>
      r.value.ViewMemberName ==
        if bp.Mode == OneWay || bp.Mode == TwoWay then Some(c.viewDefaults[c.views[view].typeName]) else None
    // the scalar property, when bound, is the named one and exists
    ensures r.Ok? && r.value.ViewModelPropertyInfo.Some? ==>
      r.value.ViewModelPropertyInfo == PropertyInfo(c, bp.ViewModelPropertyName)
    // only table views get a list property or a source, and the list property exists
    ensures r.Ok? && !c.views[view].isTableView ==>
      && r.value.ViewModelPropertyInfo == PropertyInfo(c, bp.ViewModelPropertyName)
      && r.value.ViewModelListPropertyInfo.None? && r.value.TableViewSource.None?
    ensures r.Ok? && r.value.ViewModelListPropertyInfo.Some? ==>
      c.views[view].isTableView && r.value.ViewModelListPropertyInfo.value in c.modelProperties
    ensures r.Ok? && c.views[view].isTableView && ListName(bp) in c.modelProperties ==>
      && r.value.ViewModelListPropertyInfo == Some(ListName(bp))
      && r.value.ViewModelPropertyInfo == PropertyInfo(c, bp.ViewModelPropertyName)
    ensures r.Ok? && c.views[view].isTableView && ReusesProperty(c, bp) ==>
      r.value.ViewModelListPropertyInfo == bp.ViewModelPropertyName && r.value.ViewModelPropertyInfo.None?
    ensures r.Ok? && c.views[view].isTableView && ListName(bp) !in c.modelProperties && !ReusesProperty(c, bp) ==>
      r.value.ViewModelListPropertyInfo.None? && r.value.ViewModelPropertyInfo == PropertyInfo(c, bp.ViewModelPropertyName)
    // a source is created only for a table view that has none, on that view, for the current model
    ensures r.Ok? ==> (r.value.TableViewSource.Some? <==> c.views[view].isTableView && view !in sources)
    ensures r.Ok? && r.value.TableViewSource.Some? ==>
      var src := r.value.TableViewSource.value;
      && src.tableView == view && src.viewModel == c.viewModel && src.hasExtensionPoints == c.hasExtensionPoints
      && src.canEditItem == bp.ListCanEditItem && src.canMoveItem == bp.ListCanMoveItem
      && src.removeItemCommandName == bp.ListRemoveItemCommandName
      && src.addItemCommandName == bp.ListAddItemCommandName
      && src.itemSelectedPropertyName == (if bp.Mode == Command || bp.Mode == TwoWay then bp.ViewModelPropertyName else None)
      && (bp.ListItemTemplateName.Some? ==> src.itemTemplateName == bp.ListItemTemplateName.value)
      && (bp.ListItemTemplateName.None? && r.value.ViewModelListPropertyInfo.Some? ==>
            src.itemTemplateName == r.value.ViewModelListPropertyInfo.value + "Item")
      && (bp.ListItemTemplateName.None? && r.value.ViewModelListPropertyInfo.None? ==>
            src.itemTemplateName == ListName(bp) + "Item")
  {
    match ViewMember(c, bp, view)
    case Err(e) => Err(e)
    case Ok(viewMemberName) =>
      var propertyInfo := PropertyInfo(c, bp.ViewModelPropertyName);
      if !c.views[view].isTableView then
        Ok(DataBinding(bp.Mode, view, viewMemberName, propertyInfo, None, None))
      else
        Ok(DataBinding(bp.Mode, view, viewMemberName, if ReusesProperty(c, bp) then None else propertyInfo,
                       ListInfo(c, bp), NewSource(c, sources, bp, view)))
  }

  /** `tableView.Source` after a binding was built: set when the binding created a source. */
  function SourcesAfter(sources: map<ViewId, TableViewSource>, b: DataBinding): (r: map<ViewId, TableViewSource>)
    ensures r.Keys == sources.Keys + (if b.TableViewSource.Some? then {b.View} else {})
    // a binding with a source makes it its view's source; no other view's source changes
    ensures b.TableViewSource.Some? ==> r[b.View] == b.TableViewSource.value
    ensures forall v :: v in sources && (v != b.View || b.TableViewSource.None?) ==> r[v] == sources[v]
  {
    if b.TableViewSource.Some? then sources[b.View := b.TableViewSource.value] else sources
  }

  /** `AddBinding(bp)`, once `AddBindings` has made its checks: nothing for a record with no
      view; otherwise the new binding is added under its id and its mode's handler attached. */
  function Added(c: Config, s: State, bp: BindingParameters): (r: Result<State, Error>)
    requires Valid(s.table) && IdName(c.idPrefix, bp.ViewModelPropertyName) !in s.table.entries
    requires bp.View.Some? ==> bp.View.value in c.views
    ensures bp.View.None? ==> r == Ok(s)
    ensures bp.View.Some? ==> (r.Err? <==> NewBinding(c, s.sources, bp, bp.View.value).Err?)
    ensures r.Err? ==> r.error.NoDefaultViewMember?
    // the built binding goes in under its id, last in order, with its mode's handler attached
    ensures r.Ok? && bp.View.Some? ==>
      var id := IdName(c.idPrefix, bp.ViewModelPropertyName);
      && r.value.table.keys == s.table.keys + [id]
      && r.value.table.entries.Keys == s.table.entries.Keys + {id}
      && Ok(r.value.table.entries[id]) == NewBinding(c, s.sources, bp, bp.View.value)
      && (forall k :: k in s.table.entries ==> r.value.table.entries[k] == s.table.entries[k])
      && r.value.sources == SourcesAfter(s.sources, r.value.table.entries[id])
      && r.value.trace == s.trace + Switched(ModeHandler(r.value.table.entries[id]), true)
      && r.value.attached == s.attached + Held(ModeHandler(r.value.table.entries[id]))
  {
    if bp.View.None? then Ok(s)
    else
      match NewBinding(c, s.sources, bp, bp.View.value)
      case Err(e) => Err(e)
      case Ok(b) =>
        Ok(State(Insert(s.table, IdName(c.idPrefix, bp.ViewModelPropertyName), b),
                 SourcesAfter(s.sources, b),
                 s.trace + Switched(ModeHandler(b), true),
                 s.attached + Held(ModeHandler(b))))
  }

  /** Every binding that owns a source is its table view's current source. */
  ghost predicate SourcesRecorded(s: State) {
    forall k :: k in s.table.entries && s.table.entries[k].TableViewSource.Some? ==>
      var b := s.table.entries[k];
      b.View in s.sources && s.sources[b.View] == b.TableViewSource.value
  }

  ghost predicate Consistent(s: State) {
    Inv(s.table) && SourcesRecorded(s)
  }

  /** Adding a binding for a view that is not bound yet, whose source is on its own view,
      keeps the table's invariant. */
  lemma InsertKeepsInv(t: Table, id: string, b: DataBinding)
    requires Inv(t) && id !in t.entries
    requires forall k :: k in t.entries ==> t.entries[k].View != b.View
    requires b.TableViewSource.Some? ==> b.TableViewSource.value.tableView == b.View
    ensures Inv(Insert(t, id, b))
  {
    var u := Insert(t, id, b);
    assert u.entries == t.entries[id := b];
  }

  /** Setting a table view's source that was not set keeps every source already set. */
  lemma SourcesAfterKeeps(sources: map<ViewId, TableViewSource>, b: DataBinding)
    requires b.TableViewSource.Some? ==> b.View !in sources
    ensures forall v :: v in sources ==> v in SourcesAfter(sources, b) && SourcesAfter(sources, b)[v] == sources[v]
    ensures b.TableViewSource.Some? ==> SourcesAfter(sources, b)[b.View] == b.TableViewSource.value
  {
  }

  /** Adding a binding for a view that is not bound yet, with its table view's new source,
      keeps every binding's source recorded. */
  lemma InsertKeepsSources(s: State, r: State, id: string, b: DataBinding)
    requires Inv(s.table) && SourcesRecorded(s) && id !in s.table.entries
    requires forall k :: k in s.table.entries ==> s.table.entries[k].View != b.View
    requires b.TableViewSource.Some? ==> b.View !in s.sources
    requires r.table == Insert(s.table, id, b) && r.sources == SourcesAfter(s.sources, b)
    ensures SourcesRecorded(r)
  {
    assert r.table.entries == s.table.entries[id := b];
    SourcesAfterKeeps(s.sources, b);
  }

  /** Adding a binding for a view that is not bound yet keeps the table's invariant and
      the correspondence with the table views' sources, and changes nothing already there. */
  lemma AddedKeeps(c: Config, s: State, bp: BindingParameters)
    requires Inv(s.table) && bp.View.Some? && bp.View.value in c.views
    requires IdName(c.idPrefix, bp.ViewModelPropertyName) !in s.table.entries
    requires forall k :: k in s.table.entries ==> s.table.entries[k].View != bp.View.value
    ensures Added(c, s, bp).Ok? ==>
      var r := Added(c, s, bp).value;
      && Inv(r.table) && (Consistent(s) ==> Consistent(r))
      && (forall k :: k in s.table.entries ==> k in r.table.entries && r.table.entries[k] == s.table.entries[k])
      && (forall v :: v in s.sources ==> v in r.sources && r.sources[v] == s.sources[v])
  {
    match NewBinding(c, s.sources, bp, bp.View.value)
    case Err(_) =>
    case Ok(b) =>
      var id := IdName(c.idPrefix, bp.ViewModelPropertyName);
      var r := Added(c, s, bp).value;
      assert r.table == Insert(s.table, id, b) && r.sources == SourcesAfter(s.sources, b);
      InsertKeepsInv(s.table, id, b);
      SourcesAfterKeeps(s.sources, b);
      if Consistent(s) {
        InsertKeepsSources(s, r, id, b);
      }
  }

  /** One iteration of `AddBindings`: reject a view that is bound already, then an id that
      is taken, then add. */
  function AddOne(c: Config, s: State, bp: BindingParameters): (r: Result<State, Error>)
    requires Inv(s.table) && (bp.View.Some? ==> bp.View.value in c.views)
    ensures bp.View.Some? && (exists k :: k in s.table.entries && s.table.entries[k].View == bp.View.value) ==>
      r == Err(DuplicateView(bp.View.value))
    ensures (bp.View.None? || forall k :: k in s.table.entries ==> s.table.entries[k].View != bp.View.value) &&
            IdName(c.idPrefix, bp.ViewModelPropertyName) in s.table.entries ==>
      r == Err(DuplicateId(IdName(c.idPrefix, bp.ViewModelPropertyName)))
    ensures r.Err? ==> r.error.DuplicateView? || r.error.DuplicateId? || r.error.NoDefaultViewMember?
    // past both checks, a record with a view fails exactly when its binding cannot be built
    ensures (&& bp.View.Some?
             && (forall k :: k in s.table.entries ==> s.table.entries[k].View != bp.View.value)
             && IdName(c.idPrefix, bp.ViewModelPropertyName) !in s.table.entries) ==>
      && (r.Err? <==> NewBinding(c, s.sources, bp, bp.View.value).Err?)
      && (r.Err? ==> r.error == NewBinding(c, s.sources, bp, bp.View.value).error)
    ensures r.Ok? ==> Inv(r.value.table)
    ensures r.Ok? && Consistent(s) ==> Consistent(r.value)
    ensures r.Ok? && bp.View.None? ==> r.value == s
    ensures r.Ok? && bp.View.Some? ==>
      var id := IdName(c.idPrefix, bp.ViewModelPropertyName);
      var t := r.value.table;
      && id !in s.table.entries && t.keys == s.table.keys + [id]
      && t.entries.Keys == s.table.entries.Keys + {id}
      && t.entries[id].View == bp.View.value && t.entries[id].Mode == bp.Mode
      && r.value.trace == s.trace + Switched(ModeHandler(t.entries[id]), true)
      && r.value.attached == s.attached + Held(ModeHandler(t.entries[id]))
    // what is added is the binding built for the record, and its table view's new source
    ensures r.Ok? && bp.View.Some? ==>
      var b := r.value.table.entries[IdName(c.idPrefix, bp.ViewModelPropertyName)];
      && NewBinding(c, s.sources, bp, bp.View.value) == Ok(b)
      && r.value.sources == SourcesAfter(s.sources, b)
    // nothing already there changes: bindings, or table view sources
    ensures r.Ok? ==> forall k :: k in s.table.entries ==> k in r.value.table.entries && r.value.table.entries[k] == s.table.entries[k]
    ensures r.Ok? ==> forall v :: v in s.sources ==> v in r.value.sources && r.value.sources[v] == s.sources[v]
  {
    var id := IdName(c.idPrefix, bp.ViewModelPropertyName);
    if bp.View.Some? && FindBindingForView(s.table, bp.View.value).Some? then Err(DuplicateView(bp.View.value))
    else if id in s.table.entries then Err(DuplicateId(id))
    else if bp.View.None? then Added(c, s, bp)
    else
      AddedKeeps(c, s, bp);
      Added(c, s, bp)
  }

  /** Every view the records name is known. */
  predicate ViewsKnown(c: Config, bps: seq<BindingParameters>) {
    forall bp :: bp in bps && bp.View.Some? ==> bp.View.value in c.views
  }

  /** `AddBindings(bps)`: the records in order, stopping at the first exception; the records
      added before it stay added. */
  function AddAll(c: Config, s: State, bps: seq<BindingParameters>): (r: (State, Outcome<Error>))
    requires Inv(s.table) && ViewsKnown(c, bps)
    ensures Inv(r.0.table)
    decreases |bps|
  {
    if bps == [] then (s, Pass)
    else
      match AddOne(c, s, bps[0])
      case Err(e) => (s, Fail(e))
      case Ok(next) =>
        assert ViewsKnown(c, bps[1..]) by {
          forall bp | bp in bps[1..] ensures bp in bps { }
        }
        AddAll(c, next, bps[1..])
  }
}

/** What adding bindings guarantees. */
module RegistrationProperties {
  import opened Wrappers
  import opened Sequences
  import opened Parameters
  import opened BindingTable
  import opened Synchronization
  import opened SynchronizationProperties
  import opened Registration

  /** No handler is attached more often than the bindings own it. */
  ghost predicate AttachedOwned(s: State)
    requires Valid(s.table)
  {
    s.attached <= HandlersIn(s.table, |s.table.keys|)
  }

  /** A new binding owns its table source's handlers and its mode's handler, but `AddBinding`
      attaches only the latter: its list handlers wait for the next `AddHandlers()`. */
  lemma AddOneAttachesModeHandler(c: Config, s: State, bp: BindingParameters)
    requires Inv(s.table) && (bp.View.Some? ==> bp.View.value in c.views)
    requires AddOne(c, s, bp).Ok? && bp.View.Some?
    ensures var r := AddOne(c, s, bp).value;
      var b := r.table.entries[IdName(c.idPrefix, bp.ViewModelPropertyName)];
      && HandlersIn(r.table, |r.table.keys|) == HandlersIn(s.table, |s.table.keys|) + HandlersOf(b)
      && r.attached == s.attached + Held(ModeHandler(b))
  {
    var id := IdName(c.idPrefix, bp.ViewModelPropertyName);
    var b := NewBinding(c, s.sources, bp, bp.View.value).value;
    HandlersInInsert(s.table, id, b);
  }

  /** Adding records never attaches a handler no binding owns. */
  lemma {:induction false} AddAllOwned(c: Config, s: State, bps: seq<BindingParameters>)
    requires Inv(s.table) && ViewsKnown(c, bps) && AttachedOwned(s)
    ensures AttachedOwned(AddAll(c, s, bps).0)
    decreases |bps|
  {
    if bps != [] {
      match AddOne(c, s, bps[0])
      case Err(_) =>
      case Ok(next) =>
        if bps[0].View.Some? {
          AddOneAttachesModeHandler(c, s, bps[0]);
        }
        ViewsKnownTail(c, bps);
        AddAllOwned(c, next, bps[1..]);
    }
  }

  lemma ViewsKnownParts(c: Config, p: seq<BindingParameters>, q: seq<BindingParameters>)
    requires ViewsKnown(c, p + q)
    ensures ViewsKnown(c, p) && ViewsKnown(c, q)
  {
    forall bp | bp in p ensures bp in p + q { }
    forall bp | bp in q ensures bp in p + q { }
  }

  /** Adding `p + q` adds `p`, then, unless that failed, `q` to the result: `AddBindings`
      stops at the first exception and keeps what it added before it. */
  lemma {:induction false} AddAllSplit(c: Config, s: State, p: seq<BindingParameters>, q: seq<BindingParameters>)
    requires Inv(s.table) && ViewsKnown(c, p + q)
    ensures ViewsKnown(c, p) && ViewsKnown(c, q)
    ensures AddAll(c, s, p + q) ==
      var first := AddAll(c, s, p);
      if first.1.Fail? then first else AddAll(c, first.0, q)
    decreases |p|
  {
    ViewsKnownParts(c, p, q);
    if p == [] {
      assert p + q == q;
    } else {
      assert (p + q)[0] == p[0] && (p + q)[1..] == p[1..] + q;
      match AddOne(c, s, p[0])
      case Err(_) =>
      case Ok(next) =>
        AddAllSplit(c, next, p[1..], q);
    }
  }

  lemma ViewsKnownTail(c: Config, bps: seq<BindingParameters>)
    requires bps != [] && ViewsKnown(c, bps)
    ensures ViewsKnown(c, bps[1..])
  {
    forall bp | bp in bps[1..] ensures bp in bps { }
  }

  /** However many records are added, and whether or not one fails, no two bindings share
      a view and every binding that owns a source is its table's source. */
  lemma {:induction false} AddAllConsistent(c: Config, s: State, bps: seq<BindingParameters>)
    requires Consistent(s) && ViewsKnown(c, bps)
    ensures Consistent(AddAll(c, s, bps).0)
    decreases |bps|
  {
    if bps != [] {
      match AddOne(c, s, bps[0])
      case Err(_) =>
      case Ok(next) =>
        ViewsKnownTail(c, bps);
        AddAllConsistent(c, next, bps[1..]);
    }
  }

  /** Adding never changes or drops a binding already there, nor replaces a table's source. */
  lemma {:induction false} AddAllKeeps(c: Config, s: State, bps: seq<BindingParameters>)
    requires Inv(s.table) && ViewsKnown(c, bps)
    ensures var r := AddAll(c, s, bps).0;
      forall k :: k in s.table.entries ==> k in r.table.entries && r.table.entries[k] == s.table.entries[k]
    ensures var r := AddAll(c, s, bps).0;
      forall v :: v in s.sources ==> v in r.sources && r.sources[v] == s.sources[v]
    decreases |bps|
  {
    if bps != [] {
      match AddOne(c, s, bps[0])
      case Err(_) =>
      case Ok(next) =>
        ViewsKnownTail(c, bps);
        AddAllKeeps(c, next, bps[1..]);
    }
  }

  /** Adding only appends: to the enumeration order and to the events. */
  lemma {:induction false} AddAllAppends(c: Config, s: State, bps: seq<BindingParameters>)
    requires Inv(s.table) && ViewsKnown(c, bps)
    ensures s.table.keys <= AddAll(c, s, bps).0.table.keys
    ensures s.trace <= AddAll(c, s, bps).0.trace
    decreases |bps|
  {
    if bps != [] {
      match AddOne(c, s, bps[0])
      case Err(_) =>
      case Ok(next) =>
        ViewsKnownTail(c, bps);
        AddAllAppends(c, next, bps[1..]);
        var r := AddAll(c, next, bps[1..]).0;
        PrefixTransitive(s.table.keys, next.table.keys, r.table.keys);
        PrefixTransitive(s.trace, next.trace, r.trace);
    }
  }

  /** A second record for a view that is bound already is rejected. */
  lemma SecondBindingForViewFails(c: Config, s: State, first: BindingParameters, second: BindingParameters)
    requires Inv(s.table) && first.View.Some? && first.View.value in c.views
    requires AddOne(c, s, first).Ok? && second.View == first.View
    ensures AddOne(c, AddOne(c, s, first).value, second) == Err(DuplicateView(first.View.value))
  {
    var id := IdName(c.idPrefix, first.ViewModelPropertyName);
    assert AddOne(c, s, first).value.table.entries[id].View == first.View.value;
  }

  /** A record for the same property, with a prefix making the same id, is rejected even
      on another view: an id can be bound only once. */
  lemma SecondBindingForIdFails(c: Config, s: State, first: BindingParameters, second: BindingParameters)
    requires Inv(s.table) && first.View.Some? && first.View.value in c.views
    requires second.View.Some? ==> second.View.value in c.views
    requires AddOne(c, s, first).Ok? && second.ViewModelPropertyName.GetOr("") == first.ViewModelPropertyName.GetOr("")
    ensures AddOne(c, AddOne(c, s, first).value, second).Err?
  {
    var id := IdName(c.idPrefix, first.ViewModelPropertyName);
    IdNameInjective(c.idPrefix, first.ViewModelPropertyName, second.ViewModelPropertyName);
    assert id in AddOne(c, s, first).value.table.entries;
  }

  /** A record without a view is skipped, but only after its id was checked; it does not
      take the id, so a later record may still use it. */
  lemma ViewlessRecordSkipped(c: Config, s: State, bp: BindingParameters)
    requires Inv(s.table) && bp.View.None?
    ensures AddOne(c, s, bp).Ok? <==> IdName(c.idPrefix, bp.ViewModelPropertyName) !in s.table.entries
    ensures AddOne(c, s, bp).Ok? ==> AddOne(c, s, bp).value == s
  {
  }
}
