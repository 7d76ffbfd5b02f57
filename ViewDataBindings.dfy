/**
 * A ViewDataBindings instance: the bindings of the views under one root, and the
 * operations that keep the views, their handlers and the view model in step.
 */
module Engine {
  import opened Wrappers
  import opened Host
  import opened Parameters
  import opened BindingTable
  import opened Synchronization
  import opened SynchronizationProperties
  import opened Registration
  import opened RegistrationProperties

  class ViewDataBindings {
    const idPrefix: string
    /** Reflection on the view model's type: its properties, and whether each is a list. */
    const modelProperties: map<string, bool>
    /** `ViewDefaultPropertyOrFieldName`: the member bound by default, by view type name. */
    const viewDefaults: map<string, string>
    /** Whether `rootViewExtensionPoints` is set. */
    const hasExtensionPoints: bool
    var viewModel: ModelRef
    var dataBindings: Table
    /** The handler subscriptions, view writes and list updates made so far. */
    var trace: seq<Event>
    /** The handlers currently attached, as often as each is attached: C# `+=` adds one
        subscription and `-=` removes one, if any. */
    var attached: multiset<Handler>

    ghost predicate Valid()
      reads this`dataBindings
    {
      Inv(dataBindings)
    }

    constructor (viewModel: ModelRef, idPrefix: string, modelProperties: map<string, bool>,
                 viewDefaults: map<string, string>, hasExtensionPoints: bool)
      ensures Valid()
      ensures this.viewModel == viewModel && this.idPrefix == idPrefix
      ensures this.modelProperties == modelProperties && this.viewDefaults == viewDefaults
      ensures this.hasExtensionPoints == hasExtensionPoints
      ensures dataBindings == Empty && trace == [] && attached == multiset{}
    {
      this.viewModel := viewModel;
      this.idPrefix := idPrefix;
      this.modelProperties := modelProperties;
      this.viewDefaults := viewDefaults;
      this.hasExtensionPoints := hasExtensionPoints;
      dataBindings := Empty;
      trace := [];
      attached := multiset{};
    }

    /** What adding bindings consults. */
    function ConfigFor(views: Views): Config
      reads this`viewModel
    {
      Config(idPrefix, modelProperties, viewDefaults, hasExtensionPoints, viewModel, views.info)
    }

    /** `SetViewModel`: nothing for the same model; otherwise detach every handler, switch,
        attach them again and update every view from the new model. */
    method SetViewModel(newViewModel: ModelRef)
      requires Valid()
      modifies this`viewModel, this`trace, this`attached
      ensures Valid()
      ensures old(viewModel) == newViewModel ==>
        viewModel == old(viewModel) && trace == old(trace) && attached == old(attached)
      ensures old(viewModel) != newViewModel ==>
        && viewModel == newViewModel
        && trace == old(trace) + ModelSwap(dataBindings, newViewModel, hasExtensionPoints)
        && attached == (old(attached) - HandlersIn(dataBindings, |dataBindings.keys|))
                       + HandlersIn(dataBindings, |dataBindings.keys|)
      // from a state where no handler is attached more often than owned, each binding's
      // handlers end up attached exactly once
      ensures old(viewModel) != newViewModel && old(attached) <= HandlersIn(dataBindings, |dataBindings.keys|) ==>
        attached == HandlersIn(dataBindings, |dataBindings.keys|)
    {
      if viewModel == newViewModel {
        return;
      }
      ghost var t0, a0 := trace, attached;
      ghost var owned := HandlersIn(dataBindings, |dataBindings.keys|);
      RemoveHandlers();
      viewModel := newViewModel;
      AddHandlers();
      UpdateView();
      Reattach(a0, owned);
      ModelSwapAfter(t0, dataBindings, newViewModel, hasExtensionPoints);
    }

    /** `UpdateView()`: every binding in turn, its list and then its view. */
    method UpdateView()
      requires KeysPresent(dataBindings)
      modifies this`trace
      ensures trace == old(trace) + RefreshAll(dataBindings, viewModel, hasExtensionPoints)
    {
      var t, pass := dataBindings, Refreshing(viewModel, hasExtensionPoints);
      ghost var start := trace;
      ForEachNone(start, t, pass);
      var i := 0;
      while i < |t.keys|
        invariant 0 <= i <= |t.keys| && KeysPresent(t)
        invariant trace == start + ForEach(t, i, pass)
      {
        var binding := t.entries[t.keys[i]];
        UpdateList(binding);
        UpdateBindingView(binding);
        RefreshSteps(binding, viewModel, hasExtensionPoints);
        ForEachNext(start, t, i, pass);
        i := i + 1;
      }
    }

    /** `UpdateView(propertyName)`, after a change of that property. */
    method UpdateViewOf(propertyName: Option<string>)
      requires Valid()
      modifies this`trace
      ensures Valid()
      ensures trace == old(trace) + PropertyChanged(dataBindings, idPrefix, propertyName, viewModel, hasExtensionPoints)
    {
      var id := IdName(idPrefix, propertyName);
      if id in dataBindings.entries {
        var binding := dataBindings.entries[id];
        UpdateList(binding);
        UpdateBindingView(binding);
        return;
      }
      var binding := FindBindingForListProperty(dataBindings, propertyName);
      if binding.Some? {
        UpdateList(binding.value);
        return;
      }
    }

    /** `RemoveHandlers()`: each binding's table source handlers, then its mode's handler. */
    method RemoveHandlers()
      requires Valid()
      modifies this`trace, this`attached
      ensures Valid()
      ensures trace == old(trace) + UnsubscribeAll(dataBindings)
      ensures attached == old(attached) - HandlersIn(dataBindings, |dataBindings.keys|)
    {
      var t := dataBindings;
      var i := 0;
      while i < |t.keys|
        invariant 0 <= i <= |t.keys|
        invariant trace == old(trace) + ForEach(t, i, Unsubscribing)
        invariant attached == old(attached) - HandlersIn(t, i)
      {
        var binding := t.entries[t.keys[i]];
        RemoveListHandlers(binding);
        RemoveModeHandler(binding);
        SwitchSteps(binding, false);
        Difference3(old(attached), HandlersIn(t, i), Held(ListHandler(binding)), Held(ModeHandler(binding)));
        ForEachNext(old(trace), t, i, Unsubscribing);
        i := i + 1;
      }
    }

    /** `AddHandlers()`: each binding's table source handlers, then its mode's handler. */
    method AddHandlers()
      requires Valid()
      modifies this`trace, this`attached
      ensures Valid()
      ensures trace == old(trace) + SubscribeAll(dataBindings)
      ensures attached == old(attached) + HandlersIn(dataBindings, |dataBindings.keys|)
    {
      var t := dataBindings;
      var i := 0;
      while i < |t.keys|
        invariant 0 <= i <= |t.keys|
        invariant trace == old(trace) + ForEach(t, i, Subscribing)
        invariant attached == old(attached) + HandlersIn(t, i)
      {
        var binding := t.entries[t.keys[i]];
        AddListHandlers(binding);
        AddModeHandler(binding);
        SwitchSteps(binding, true);
        Union3(old(attached), HandlersIn(t, i), Held(ListHandler(binding)), Held(ModeHandler(binding)));
        ForEachNext(old(trace), t, i, Subscribing);
        i := i + 1;
      }
    }

    /** `RemoveListHandlers`. */
    method RemoveListHandlers(binding: DataBinding)
      modifies this`trace, this`attached
      ensures trace == old(trace) + Switched(ListHandler(binding), false)
      ensures attached == old(attached) - Held(ListHandler(binding))
    {
      if binding.TableViewSource.Some? {
        trace := trace + [Unsubscribed(ListHandlers(binding.TableViewSource.value.tableView))];
        attached := attached - multiset{ListHandlers(binding.TableViewSource.value.tableView)};
      }
    }

    /** `AddListHandlers`. */
    method AddListHandlers(binding: DataBinding)
      modifies this`trace, this`attached
      ensures trace == old(trace) + Switched(ListHandler(binding), true)
      ensures attached == old(attached) + Held(ListHandler(binding))
    {
      if binding.TableViewSource.Some? {
        trace := trace + [Subscribed(ListHandlers(binding.TableViewSource.value.tableView))];
        attached := attached + multiset{ListHandlers(binding.TableViewSource.value.tableView)};
      }
    }

    /** The mode switch of `RemoveHandlers`: `RemoveTwoWayHandler` or `RemoveCommandHandler`. */
    method RemoveModeHandler(binding: DataBinding)
      modifies this`trace, this`attached
      ensures trace == old(trace) + Switched(ModeHandler(binding), false)
      ensures attached == old(attached) - Held(ModeHandler(binding))
    {
      match binding.Mode {
        case TwoWay =>
          trace := trace + [Unsubscribed(TwoWayHandler(binding.View))];
          attached := attached - multiset{TwoWayHandler(binding.View)};
        case Command =>
          trace := trace + [Unsubscribed(CommandHandler(binding.View))];
          attached := attached - multiset{CommandHandler(binding.View)};
        case _ =>
      }
    }

    /** The mode switch of `AddHandlers` and `AddBinding`: `AddTwoWayHandler` or
        `AddCommandHandler`. */
    method AddModeHandler(binding: DataBinding)
      modifies this`trace, this`attached
      ensures trace == old(trace) + Switched(ModeHandler(binding), true)
      ensures attached == old(attached) + Held(ModeHandler(binding))
    {
      match binding.Mode {
        case TwoWay =>
          trace := trace + [Subscribed(TwoWayHandler(binding.View))];
          attached := attached + multiset{TwoWayHandler(binding.View)};
        case Command =>
          trace := trace + [Subscribed(CommandHandler(binding.View))];
          attached := attached + multiset{CommandHandler(binding.View)};
        case _ =>
      }
    }

    /** `AddBindings`: nothing for a null array; otherwise each record in turn, throwing for
        a view that is bound already or an id that is taken. */
    method AddBindings(bindingsParameters: Option<seq<BindingParameters>>, views: Views) returns (r: Outcome<Error>)
      requires Valid()
      requires bindingsParameters.Some? ==> ViewsKnown(ConfigFor(views), bindingsParameters.value)
      modifies this`dataBindings, this`trace, this`attached, views`source
      ensures Valid()
      ensures bindingsParameters.None? ==>
        && r == Pass && dataBindings == old(dataBindings) && trace == old(trace)
        && attached == old(attached) && views.source == old(views.source)
      ensures bindingsParameters.Some? ==>
        (State(dataBindings, views.source, trace, attached), r) ==
          AddAll(ConfigFor(views), State(old(dataBindings), old(views.source), old(trace), old(attached)), bindingsParameters.value)
    {
      if bindingsParameters.None? {
        return Pass;
      }
      var bps := bindingsParameters.value;
      ghost var c := ConfigFor(views);
      ghost var start := State(dataBindings, views.source, trace, attached);
      var i := 0;
      while i < |bps|
        invariant 0 <= i <= |bps|
        invariant Inv(dataBindings)
        invariant ViewsKnown(c, bps[i..])
        invariant AddAll(c, start, bps) == AddAll(c, State(dataBindings, views.source, trace, attached), bps[i..])
      {
        assert bps[i..][0] == bps[i] && bps[i..][1..] == bps[i + 1..];
        ViewsKnownTail(c, bps[i..]);
        r := AddRecord(bps[i], views);
        if r.Fail? {
          return;
        }
        i := i + 1;
      }
      assert bps[i..] == [];
      return Pass;
    }

    /** One iteration of `AddBindings`: the view check, the id check, then `AddBinding`. */
    method AddRecord(bp: BindingParameters, views: Views) returns (r: Outcome<Error>)
      requires Inv(dataBindings) && (bp.View.Some? ==> bp.View.value in views.info)
      modifies this`dataBindings, this`trace, this`attached, views`source
      ensures Inv(dataBindings)
      ensures
        var expected := AddOne(ConfigFor(views), State(old(dataBindings), old(views.source), old(trace), old(attached)), bp);
        && (r.Fail? <==> expected.Err?)
        && (r.Fail? ==> r.error == expected.error && dataBindings == old(dataBindings)
                          && views.source == old(views.source) && trace == old(trace)
                          && attached == old(attached))
        && (r.Pass? ==> State(dataBindings, views.source, trace, attached) == expected.value)
    {
      if bp.View.Some? && FindBindingForView(dataBindings, bp.View.value).Some? {
        return Fail(DuplicateView(bp.View.value));
      }
      var id := IdName(idPrefix, bp.ViewModelPropertyName);
      if id in dataBindings.entries {
        return Fail(DuplicateId(id));
      }
      var added := AddBinding(bp, views);
      if added.Err? {
        return Fail(added.error);
      }
      return Pass;
    }

    /** `AddBinding(bp)`: the binding built for the record, added under its id with its
        mode's handler attached; the table view's source is set when the binding made one. */
    method AddBinding(bp: BindingParameters, views: Views) returns (r: Result<Option<DataBinding>, Error>)
      requires Inv(dataBindings) && IdName(idPrefix, bp.ViewModelPropertyName) !in dataBindings.entries
      requires bp.View.Some? ==> bp.View.value in views.info
      modifies this`dataBindings, this`trace, this`attached, views`source
      ensures
        var expected := Added(ConfigFor(views), State(old(dataBindings), old(views.source), old(trace), old(attached)), bp);
        && (r.Err? <==> expected.Err?)
        && (r.Err? ==> r.error == expected.error && dataBindings == old(dataBindings)
                       && views.source == old(views.source) && trace == old(trace)
                       && attached == old(attached))
        && (r.Ok? ==> State(dataBindings, views.source, trace, attached) == expected.value)
      ensures r.Ok? ==> (r.value.None? <==> bp.View.None?)
      ensures r.Ok? && r.value.Some? ==>
        r.value.value == dataBindings.entries[IdName(idPrefix, bp.ViewModelPropertyName)]
    {
      if bp.View.None? {
        return Ok(None);
      }
      var built := NewBinding(ConfigFor(views), views.source, bp, bp.View.value);
      if built.Err? {
        return Err(built.error);
      }
      var binding := built.value;
      if binding.TableViewSource.Some? {
        views.source := views.source[binding.View := binding.TableViewSource.value];
      }
      AddModeHandler(binding);
      dataBindings := Insert(dataBindings, IdName(idPrefix, bp.ViewModelPropertyName), binding);
      return Ok(Some(binding));
    }

    /** `UpdateView(binding)`. */
    method UpdateBindingView(binding: DataBinding)
      modifies this`trace
      ensures trace == old(trace) + ViewRefresh(binding, viewModel, hasExtensionPoints)
    {
      if binding.Mode == OneWay || binding.Mode == TwoWay {
        var value := if binding.ViewModelPropertyInfo.None? then WholeModel(viewModel)
                     else PropertyValue(viewModel, binding.ViewModelPropertyInfo.value);
        trace := trace + [ViewUpdated(binding.View, binding.ViewMemberName, value, hasExtensionPoints)];
      }
    }

    /** `UpdateList(binding)`. */
    method UpdateList(binding: DataBinding)
      modifies this`trace
      ensures trace == old(trace) + ListRefresh(binding, viewModel)
    {
      if binding.ViewModelListPropertyInfo.Some? && binding.TableViewSource.Some? {
        trace := trace + [ListSet(binding.TableViewSource.value.tableView, viewModel, binding.ViewModelListPropertyInfo.value)];
      }
    }
  }

  /** `DataBinding.Command_CanExecuteChanged`: the bound view, when it is a control, is
      enabled exactly when the command is. */
  method CommandCanExecuteChanged(binding: DataBinding, views: Views, isEnabled: bool)
    modifies views`enabled
    ensures views.enabled ==
      if binding.View in views.info && views.info[binding.View].isControl
      then old(views.enabled)[binding.View := isEnabled] else old(views.enabled)
  {
    if binding.View in views.info && views.info[binding.View].isControl {
      views.enabled := views.enabled[binding.View := isEnabled];
    }
  }
}
