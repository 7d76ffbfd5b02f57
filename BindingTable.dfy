/**
 * The `dataBindings` dictionary of a ViewDataBindings instance: DataBinding records keyed
 * by id name (`idPrefix` + view-model property name), enumerated in insertion order.
 */
module BindingTable {
  import opened Wrappers
  import opened Host
  import opened Parameters

  /** `DataBinding`. `View` and `ViewMemberName` make up `ViewProperty`; the two property
      infos are recorded by the name of the view-model property they reflect. */
  datatype DataBinding = DataBinding(
    Mode: BindingMode,
    View: ViewId,
    ViewMemberName: Option<string>,
    ViewModelPropertyInfo: Option<string>,
    ViewModelListPropertyInfo: Option<string>,
    TableViewSource: Option<TableViewSource>)

  /** A `Dictionary<string, DataBinding>` that is only ever added to: its keys in the order
      enumeration visits them, and the entries. */
  datatype Table = Table(keys: seq<string>, entries: map<string, DataBinding>)

  const Empty := Table([], map[])

  /** Every key enumerated has an entry. */
  ghost predicate KeysPresent(t: Table) {
    forall i :: 0 <= i < |t.keys| ==> t.keys[i] in t.entries
  }

  /** The dictionary's own consistency: each key once, the same keys in both. */
  ghost predicate Valid(t: Table) {
    && KeysPresent(t)
    && (forall i, j :: 0 <= i < j < |t.keys| ==> t.keys[i] != t.keys[j])
    && (forall k :: k in t.entries ==> k in t.keys)
  }

  /** No two bindings of one table target the same view. */
  ghost predicate DistinctViews(t: Table) {
    forall k1, k2 :: k1 in t.entries && k2 in t.entries && k1 != k2 ==>
      t.entries[k1].View != t.entries[k2].View
  }

  /** A binding's table source belongs to the binding's own view. */
  ghost predicate SourcesOnOwnView(t: Table) {
    forall k :: k in t.entries && t.entries[k].TableViewSource.Some? ==>
      t.entries[k].TableViewSource.value.tableView == t.entries[k].View
  }

  ghost predicate Inv(t: Table) {
    Valid(t) && DistinctViews(t) && SourcesOnOwnView(t)
  }

  /** `Dictionary.Add` of a key that is not there yet. */
  function Insert(t: Table, id: string, b: DataBinding): (r: Table)
    requires Valid(t) && id !in t.entries
    ensures Valid(r)
    ensures r.entries == t.entries[id := b] && r.keys == t.keys + [id]
  {
    Table(t.keys + [id], t.entries[id := b])
  }

  /** `IdName`: the prefix followed by the name; a null name adds nothing. */
  function IdName(idPrefix: string, name: Option<string>): (id: string)
    ensures |id| >= |idPrefix| && id[..|idPrefix|] == idPrefix
    ensures id[|idPrefix|..] == name.GetOr("")
  {
    idPrefix + name.GetOr("")
  }

  /** Stripping the prefix recovers the name, so two names give the same id exactly when
      they are equal; only null and "" share one. */
  lemma IdNameInjective(idPrefix: string, a: Option<string>, b: Option<string>)
    ensures IdName(idPrefix, a) == IdName(idPrefix, b) <==> a.GetOr("") == b.GetOr("")
  {
    if IdName(idPrefix, a) == IdName(idPrefix, b) {
      assert a.GetOr("") == IdName(idPrefix, a)[|idPrefix|..];
    }
  }

  /** The first position, from `i` on in enumeration order, whose binding satisfies `p`. */
  function FirstFrom(t: Table, p: DataBinding -> bool, i: nat): (r: Option<nat>)
    requires Valid(t) && i <= |t.keys|
    ensures r.Some? ==> i <= r.value < |t.keys| && p(t.entries[t.keys[r.value]])
    ensures r.Some? ==> forall j :: i <= j < r.value ==> !p(t.entries[t.keys[j]])
    ensures r.None? ==> forall j :: i <= j < |t.keys| ==> !p(t.entries[t.keys[j]])
    decreases |t.keys| - i
  {
    if i == |t.keys| then None
    else if p(t.entries[t.keys[i]]) then Some(i)
    else FirstFrom(t, p, i + 1)
  }

  /** `FirstOrDefault(p).Value` over the dictionary. */
  function FirstOrDefault(t: Table, p: DataBinding -> bool): (r: Option<DataBinding>)
    requires Valid(t)
    ensures r.Some? <==> exists k :: k in t.entries && p(t.entries[k])
    ensures r.Some? ==>
      exists j :: 0 <= j < |t.keys| && r.value == t.entries[t.keys[j]] && p(r.value)
        && forall i :: 0 <= i < j ==> !p(t.entries[t.keys[i]])
  {
    var first := FirstFrom(t, p, 0);
    if first.None? then
      assert forall k :: k in t.entries ==> !p(t.entries[k]) by {
        forall k | k in t.entries ensures !p(t.entries[k]) {
          var j :| 0 <= j < |t.keys| && t.keys[j] == k;
        }
      }
      None
    else Some(t.entries[t.keys[first.value]])
  }

  /** `FindBindingForView`: the binding whose view is `view`, if any. */
  function FindBindingForView(t: Table, view: ViewId): (r: Option<DataBinding>)
    requires Valid(t)
    ensures r.Some? <==> exists k :: k in t.entries && t.entries[k].View == view
    ensures r.Some? ==> r.value.View == view && r.value in t.entries.Values
  {
    FirstOrDefault(t, (b: DataBinding) => b.View == view)
  }

  /** Whether a binding takes its list from the property named `name`. */
  predicate IsListBindingFor(b: DataBinding, name: Option<string>) {
    b.ViewModelListPropertyInfo.Some? && Some(b.ViewModelListPropertyInfo.value) == name
  }

  /** `FindBindingForListProperty`: the first binding, in enumeration order, whose list
      property is named `name`; none for a null name. */
  function FindBindingForListProperty(t: Table, name: Option<string>): (r: Option<DataBinding>)
    requires Valid(t)
    ensures r.Some? <==> exists k :: k in t.entries && IsListBindingFor(t.entries[k], name)
    ensures r.Some? ==>
      exists j :: 0 <= j < |t.keys| && r.value == t.entries[t.keys[j]] && IsListBindingFor(r.value, name)
        && forall i :: 0 <= i < j ==> !IsListBindingFor(t.entries[t.keys[i]], name)
    ensures name.None? ==> r.None?
  {
    FirstOrDefault(t, (b: DataBinding) => IsListBindingFor(b, name))
  }
}
