/**
 * Registration of binding strings found on views, grouped under each view's topmost
 * ancestor so that one ViewDataBindings instance can later take all the bindings under
 * one root (the static side of ViewDataBindings).
 */
module RootViews {
  import opened Wrappers
  import opened DotNetText
  import opened Host
  import opened Parameters

  /** The bindings parameters of one root, or an empty list when it has none yet. */
  function BindingsOf(rootViews: map<ViewId, seq<BindingParameters>>, root: ViewId): seq<BindingParameters> {
    if root in rootViews then rootViews[root] else []
  }

  /** What registration appends for a binding string: the parsed record with its view
      set, or the exception it throws. */
  function Registration(view: ViewId, bindingParameters: Option<string>, captures: seq<string>): (r: Result<BindingParameters, Error>)
    ensures r.Ok? ==> r.value.View == Some(view)
    ensures r.Ok? ==> !IsNullOrEmpty(r.value.ViewModelPropertyName) || !IsNullOrEmpty(r.value.ListPropertyName)
    ensures Parsed(bindingParameters, captures) == Ok(None) ==> r == Err(InvalidBindingParameters(bindingParameters))
    ensures Parsed(bindingParameters, captures).Err? ==> r == Err(Parsed(bindingParameters, captures).error)
    ensures r.Ok? ==> r.value == Parsed(bindingParameters, captures).value.value.(View := Some(view))
    ensures (Parsed(bindingParameters, captures).Ok? && Parsed(bindingParameters, captures).value.Some? &&
             var bp := Parsed(bindingParameters, captures).value.value;
             IsNullOrEmpty(bp.ViewModelPropertyName) && IsNullOrEmpty(bp.ListPropertyName)) ==>
      r == Err(MissingPropertyName(bindingParameters))
    ensures r.Ok? <==>
      Parsed(bindingParameters, captures).Ok? && Parsed(bindingParameters, captures).value.Some? &&
      var bp := Parsed(bindingParameters, captures).value.value;
      !(IsNullOrEmpty(bp.ViewModelPropertyName) && IsNullOrEmpty(bp.ListPropertyName))
  {
    match Parsed(bindingParameters, captures)
    case Err(e) => Err(e)
    case Ok(None) => Err(InvalidBindingParameters(bindingParameters))
    case Ok(Some(bp)) =>
      if IsNullOrEmpty(bp.ViewModelPropertyName) && IsNullOrEmpty(bp.ListPropertyName) then
        Err(MissingPropertyName(bindingParameters))
      else Ok(bp.(View := Some(view)))
  }

  /** The dictionary after a registration under `root`: unchanged when it threw;
      otherwise the root's list, empty if it had none, with the new record appended, and
      every other root's list as it was. */
  function Registered(rootViews: map<ViewId, seq<BindingParameters>>, root: ViewId, reg: Result<BindingParameters, Error>)
    : (r: map<ViewId, seq<BindingParameters>>)
    ensures reg.Err? ==> r == rootViews
    ensures reg.Ok? ==> r.Keys == rootViews.Keys + {root} && r[root] == BindingsOf(rootViews, root) + [reg.value]
    ensures forall v :: v in rootViews && v != root ==> v in r && r[v] == rootViews[v]
  {
    if reg.Err? then rootViews else rootViews[root := BindingsOf(rootViews, root) + [reg.value]]
  }

  /** The static dictionary `RootViewBindingParameters`. */
  class RootViewRegistry {
    var rootViewBindingParameters: map<ViewId, seq<BindingParameters>>

    /** `RegisterBindKey` starts from an empty dictionary. */
    constructor ()
      ensures rootViewBindingParameters == map[]
    {
      rootViewBindingParameters := map[];
    }

    /** `AddBinding(UIView, string)`: parse the binding string and append the parameters
        to the list of the view's root, creating that list when the root has none. */
    method AddBinding(views: Views, view: ViewId, bindingParameters: Option<string>, captures: seq<string>)
      returns (r: Outcome<Error>)
      requires views.Valid()
      modifies this`rootViewBindingParameters
      ensures var reg := Registration(view, bindingParameters, captures);
        && r == (if reg.Ok? then Pass else Fail(reg.error))
        && rootViewBindingParameters ==
             Registered(old(rootViewBindingParameters), RootOf(views.superview, views.depth, view), reg)
    {
      ghost var reg := Registration(view, bindingParameters, captures);
      var rootView := views.RootView(view);
      var parsed := ParseBindingParameters(bindingParameters, captures);
      if parsed.Err? {
        assert reg == Err(parsed.error);
        return Fail(parsed.error);
      }
      var bp := parsed.value;
      if bp.None? {
        assert reg == Err(InvalidBindingParameters(bindingParameters));
        return Fail(InvalidBindingParameters(bindingParameters));
      }
      if IsNullOrEmpty(bp.value.ViewModelPropertyName) && IsNullOrEmpty(bp.value.ListPropertyName) {
        assert reg == Err(MissingPropertyName(bindingParameters));
        return Fail(MissingPropertyName(bindingParameters));
      }
      var entry := bp.value.(View := Some(view));
      assert reg == Ok(entry);
      AppendToRoot(rootView, entry);
      r := Pass;
    }

    /** The dictionary update of `AddBinding(UIView, string)`: the root's list is created
        empty when missing, and the record appended to it. */
    method AppendToRoot(rootView: ViewId, entry: BindingParameters)
      modifies this`rootViewBindingParameters
      ensures rootViewBindingParameters == Registered(old(rootViewBindingParameters), rootView, Ok(entry))
    {
      ghost var before := rootViewBindingParameters;
      var bindingParametersList: seq<BindingParameters>;
      if rootView in rootViewBindingParameters {
        bindingParametersList := rootViewBindingParameters[rootView];
      } else {
        bindingParametersList := [];
        rootViewBindingParameters := rootViewBindingParameters[rootView := bindingParametersList];
      }
      assert bindingParametersList == BindingsOf(before, rootView);
      rootViewBindingParameters := rootViewBindingParameters[rootView := bindingParametersList + [entry]];
      assert rootViewBindingParameters == before[rootView := bindingParametersList + [entry]];
    }
  }
}
