/**
 * The part of the UIKit world the binding engine touches: views with their type name,
 * whether they are a UITableView or a UIControl, their superview chain, each table view's
 * `Source` property and each control's `Enabled` property.
 */
module Host {
  import opened Wrappers

  /** A view, identified by reference. */
  type ViewId = nat

  /** A view model, identified by reference. */
  type ModelRef = nat

  /** What the engine asks of a view's type: its full name (`GetType().FullName`), whether
      it is a `UITableView`, and whether it is a `UIControl`. */
  datatype ViewInfo = ViewInfo(typeName: string, isTableView: bool, isControl: bool)

  /** A `DataBindableUITableViewSource`, recorded by the arguments it was constructed with;
      its behaviour is defined outside this model. */
  datatype TableViewSource = TableViewSource(
    tableView: ViewId,
    itemTemplateName: string,
    viewModel: ModelRef,
    canEditItem: Option<string>,
    canMoveItem: Option<string>,
    itemSelectedPropertyName: Option<string>,
    removeItemCommandName: Option<string>,
    addItemCommandName: Option<string>,
    hasExtensionPoints: bool)

  /** A view is a root when it has no superview, or is its own superview. */
  predicate IsRoot(superview: map<ViewId, ViewId>, v: ViewId) {
    v !in superview || superview[v] == v
  }

  /** The superview chain is finite: stepping to a proper superview lowers the depth. */
  ghost predicate Ranked(superview: map<ViewId, ViewId>, depth: map<ViewId, nat>) {
    forall v :: v in superview && superview[v] != v ==>
      v in depth && superview[v] in depth && depth[superview[v]] < depth[v]
  }

  ghost function Rank(depth: map<ViewId, nat>, v: ViewId): nat {
    if v in depth then depth[v] else 0
  }

  /** `a` is `v` or one of its ancestors. */
  ghost predicate Reaches(superview: map<ViewId, ViewId>, depth: map<ViewId, nat>, v: ViewId, a: ViewId)
    requires Ranked(superview, depth)
    decreases Rank(depth, v)
  {
    v == a || (!IsRoot(superview, v) && Reaches(superview, depth, superview[v], a))
  }

  /** The topmost ancestor of `v`. */
  ghost function RootOf(superview: map<ViewId, ViewId>, depth: map<ViewId, nat>, v: ViewId): (r: ViewId)
    requires Ranked(superview, depth)
    ensures IsRoot(superview, r)
    ensures Reaches(superview, depth, v, r)
    decreases Rank(depth, v)
  {
    if IsRoot(superview, v) then v else RootOf(superview, depth, superview[v])
  }

  class Views {
    const info: map<ViewId, ViewInfo>
    /** `Superview` of each view that has one. */
    const superview: map<ViewId, ViewId>
    ghost const depth: map<ViewId, nat>
    /** `UITableView.Source` of each table view whose source is not null. */
    var source: map<ViewId, TableViewSource>
    /** `UIControl.Enabled` of each control. */
    var enabled: map<ViewId, bool>

    ghost predicate Valid() {
      Ranked(superview, depth)
    }

    constructor (info: map<ViewId, ViewInfo>, superview: map<ViewId, ViewId>, ghost depth: map<ViewId, nat>,
                 source: map<ViewId, TableViewSource>, enabled: map<ViewId, bool>)
      requires Ranked(superview, depth)
      ensures Valid()
      ensures this.info == info && this.superview == superview && this.depth == depth
      ensures this.source == source && this.enabled == enabled
    {
      this.info := info;
      this.superview := superview;
      this.depth := depth;
      this.source := source;
      this.enabled := enabled;
    }

    /** The walk up the superview chain that starts a root-view registration. */
    method RootView(view: ViewId) returns (root: ViewId)
      requires Valid()
      ensures root == RootOf(superview, depth, view)
      ensures IsRoot(superview, root) && Reaches(superview, depth, view, root)
    {
      root := view;
      while root in superview && superview[root] != root
        invariant RootOf(superview, depth, root) == RootOf(superview, depth, view)
        decreases Rank(depth, root)
      {
        root := superview[root];
      }
    }
  }
}
