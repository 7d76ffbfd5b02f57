# QuickCross data bindings (iOS), modelled in Dafny

This project models the binding engine of QuickCross on iOS, `ViewDataBindings`. The engine
reads a binding string attached to a `UIView`, such as
`{Binding Title, Mode=TwoWay} {List ItemTemplate=Row}`, and turns it into a
`BindingParameters` record. It groups those records under each view's root view. A
`ViewDataBindings` instance turns records into `DataBinding`s, keyed by id name
(`idPrefix` + view-model property name). It then keeps the views in step with the view model:
it attaches and detaches handlers, writes property values into views and hands lists to
table sources.

The model has three parts:

- **Parser** (`Parameters.dfy`, `DotNetText.dfy`). The parse loop is a fold over the
  assignment captures of the binding string (`AssignAll`), with an imperative
  `ParseBindingParameters` proved equal to it. The .NET pieces the loop uses are written out:
  `String.Trim`, `String.Split('=')` and `Enum.TryParse<BindingMode>(value, ignoreCase: true)`.
- **Registration** (`RootViews.dfy`, `BindingTable.dfy`, `Registration.dfy`). This covers the
  static root-view registry, the `dataBindings` dictionary with its keys in enumeration
  order, and `AddBindings`/`AddBinding` as pure functions (`AddAll`, `AddOne`, `NewBinding`)
  that the class methods are proved against.
- **Synchronisation** (`Synchronization.dfy`, `ViewDataBindings.dfy`). Every effect on views
  and handlers is an `Event` appended to a trace. The handlers currently attached are kept
  as a multiset. `Engine.ViewDataBindings` holds the state and the imperative loops.

The host side stands in as follows:

- Views are numbered references (`Host.ViewId`). Each has a type name and
  "is a `UITableView`" / "is a `UIControl`" flags.
- The views also carry a superview map, each table view's `Source` and each control's `Enabled`.
- Reflection on the view model's type is a map from property name to "implements `IList`".
- `ViewDefaultPropertyOrFieldName` is a map from view type name to member name.
- A C# `null` is `Option.None`, and a thrown `ArgumentException` is a `Result.Err` or
  `Outcome.Fail` carrying an `Error`.

Where the code behaves in ways a reader might not expect, the model follows the code:

- A property name the view model does not have is not an error. The property info is
  then null, and the binding writes the whole view model into its view (`PropertyInfo`,
  `ValueOf`).
- A table-view binding whose `ItemsSource` names its own scalar property keeps both the
  scalar property and the list property. The scalar property is dropped only when the list
  property asked for does not exist and the scalar one is a list (`NewBinding`).
- A `Mode=` value that `Enum.TryParse` rejects sets the mode back to OneWay, even after an
  earlier `Mode=TwoWay`. A number is accepted as a mode: `Mode=1` is TwoWay, and `Mode=7`
  is an unnamed mode that neither refreshes views nor attaches handlers (`ModeAssignment`,
  `TryParseMode`).
- `AddBindings` stops at the first error and keeps the bindings it added before it
  (`AddAllSplit`).
- A record with no view is skipped only after its id was checked against the table
  (`ViewlessRecordSkipped`).
- The parser never rejects malformed bracket syntax. Every part of the regular expression
  is optional, so any non-empty string yields a record.

## Model

| member | source | states |
|---|---|---|
| DotNetText.Trim | Examples/CloudAuction/CloudAuction.ios/QuickCross/ViewDataBindings.cs:275 | the result has no white space at either end, and it is empty exactly when the input is all white space |
| DotNetText.TrimPadded | Examples/CloudAuction/CloudAuction.ios/QuickCross/ViewDataBindings.cs:280-281 | white space around a name or value does not change what trimming yields, so `" Mode "` names the same parameter as `"Mode"` |
| DotNetText.Split | Examples/CloudAuction/CloudAuction.ios/QuickCross/ViewDataBindings.cs:272 | a capture with n '=' characters falls into n + 1 pieces, none of them containing '=' |
| DotNetText.JoinSplit | Examples/CloudAuction/CloudAuction.ios/QuickCross/ViewDataBindings.cs:272 | joining the pieces with '=' gives the capture back, so splitting loses nothing |
| DotNetText.SplitJoin | Examples/CloudAuction/CloudAuction.ios/QuickCross/ViewDataBindings.cs:272 | splitting '='-free pieces joined by '=' gives the pieces back |
| DotNetText.ParseInt32 | Examples/CloudAuction/CloudAuction.ios/QuickCross/ViewDataBindings.cs:291 | the numeric form `TryParse` accepts: it succeeds exactly on a non-empty run of ASCII digits, optionally signed, whose value fits an Int32, and returns that value |
| DotNetText.ParseInt32Decimal | Examples/CloudAuction/CloudAuction.ios/QuickCross/ViewDataBindings.cs:291 | every Int32 written in decimal, with a leading '-' when negative, parses back to itself |
| Parameters.TryParseMode | Examples/CloudAuction/CloudAuction.ios/QuickCross/ViewDataBindings.cs:291 | OneWay, TwoWay and Command are matched ignoring case, and 0, 1 and 2 name them too; any other Int32 n gives the unnamed mode n; parsing fails exactly when the value is neither a name nor an Int32 |
| Parameters.ModeNamesDistinct | Examples/CloudAuction/CloudAuction.ios/QuickCross/ViewDataBindings.cs:19 | a value matches at most one mode name and no mode name is a number, so the mode a value selects is unambiguous |
| Parameters.Classify | Examples/CloudAuction/CloudAuction.ios/QuickCross/ViewDataBindings.cs:272-286 | a capture is bare exactly when it has no '=', and it is ignored exactly when it has more than one '=' |
| Parameters.Assign | Examples/CloudAuction/CloudAuction.ios/QuickCross/ViewDataBindings.cs:273-300 | one assignment throws exactly when it is a `name=value` whose name is unknown, the error names that key, and the view is never touched |
| Parameters.AssignAllStopsAtError | Examples/CloudAuction/CloudAuction.ios/QuickCross/ViewDataBindings.cs:298 | once an assignment throws, later captures cannot undo the exception |
| Parameters.AssignAll | Examples/CloudAuction/CloudAuction.ios/QuickCross/ViewDataBindings.cs:270-302 | the parse loop over the assignments never sets the view, and the only exception it throws is an unknown parameter name |
| Parameters.Parsed | Examples/CloudAuction/CloudAuction.ios/QuickCross/ViewDataBindings.cs:255-308 | a null or empty string gives null; any other string gives a record with no view yet, or throws an unknown parameter name |
| Parameters.AssignNamed | Examples/CloudAuction/CloudAuction.ios/QuickCross/ViewDataBindings.cs:289-299 | the `switch` on a parameter name does what the fold's step does for a `name=value` assignment |
| Parameters.AssignCapture | Examples/CloudAuction/CloudAuction.ios/QuickCross/ViewDataBindings.cs:272-301 | the loop body (split, trim, dispatch) does what the fold's step does for that capture |
| Parameters.ParseBindingParameters | Examples/CloudAuction/CloudAuction.ios/QuickCross/ViewDataBindings.cs:255-308 | the loop computes the fold over the captures; a null or empty string gives null; a parsed record has no view yet |
| ParametersProperties.AssignWrites | Examples/CloudAuction/CloudAuction.ios/QuickCross/ViewDataBindings.cs:273-300 | one assignment changes exactly the fields it writes, and only those |
| ParametersProperties.LastWriteWins | Examples/CloudAuction/CloudAuction.ios/QuickCross/ViewDataBindings.cs:270-302 | each field of the parsed record holds the value of the last assignment that writes it, or its initial value |
| ParametersProperties.UnwrittenFieldKept | Examples/CloudAuction/CloudAuction.ios/QuickCross/ViewDataBindings.cs:270-302 | a field no assignment writes keeps its starting value |
| ParametersProperties.ModeDefaultsToOneWay | Examples/CloudAuction/CloudAuction.ios/QuickCross/ViewDataBindings.cs:26 | without a Mode assignment the parsed mode is OneWay |
| ParametersProperties.AssignAllError | Examples/CloudAuction/CloudAuction.ios/QuickCross/ViewDataBindings.cs:298 | parsing throws exactly when some assignment has an unknown name, and the error names the first one |
| ParametersProperties.AssignAllAppend | Examples/CloudAuction/CloudAuction.ios/QuickCross/ViewDataBindings.cs:270-302 | folding `s + t` is folding `s`, then `t` from that result, unless `s` threw |
| ParametersProperties.SwapPair | Examples/CloudAuction/CloudAuction.ios/QuickCross/ViewDataBindings.cs:273-300 | two known assignments that write different fields give the same record in either order |
| ParametersProperties.SwapIndependent | Examples/CloudAuction/CloudAuction.ios/QuickCross/ViewDataBindings.cs:270-302 | assignments to different fields may be swapped anywhere in the list: `{Binding ItemsSource=X, ItemTemplate=Y}` and `{Binding ItemTemplate=Y, ItemsSource=X}` parse alike |
| ParametersProperties.BareCapture | Examples/CloudAuction/CloudAuction.ios/QuickCross/ViewDataBindings.cs:273-277 | a capture without '=' sets the property name to its trimmed text, and a blank one changes nothing |
| ParametersProperties.PairCapture | Examples/CloudAuction/CloudAuction.ios/QuickCross/ViewDataBindings.cs:272 | `name=value` splits into exactly the two sides |
| ParametersProperties.MemberCapture | Examples/CloudAuction/CloudAuction.ios/QuickCross/ViewDataBindings.cs:282-286 | `.member=value` sets the view member to the text after the dot, and the property name only when the trimmed value is not empty |
| ParametersProperties.NamedCapture | Examples/CloudAuction/CloudAuction.ios/QuickCross/ViewDataBindings.cs:287-299 | any other `name=value` reaches the switch with both sides trimmed, and an unknown name throws naming that key |
| ParametersProperties.MalformedCapture | Examples/CloudAuction/CloudAuction.ios/QuickCross/ViewDataBindings.cs:272-278 | a capture with more than one '=' leaves the record unchanged |
| ParametersProperties.ModeAssignment | Examples/CloudAuction/CloudAuction.ios/QuickCross/ViewDataBindings.cs:291 | `Mode` is matched ignoring case, and a rejected value resets the mode to OneWay |
| Host.RootOf | Examples/CloudAuction/CloudAuction.ios/QuickCross/ViewDataBindings.cs:100-105 | the root view is an ancestor of the view (or the view) with no superview or itself as superview |
| Host.Views.RootView | Examples/CloudAuction/CloudAuction.ios/QuickCross/ViewDataBindings.cs:100-105 | the walk up the superview chain terminates at the topmost ancestor |
| RootViews.Registration | Examples/CloudAuction/CloudAuction.ios/QuickCross/ViewDataBindings.cs:108-113 | registration succeeds exactly when parsing yields a record with a property name or a list property name, and the record registered is the parsed one with its view set; a null result and an empty pair are rejected with their errors, and a parse error is passed on |
| RootViews.Registered | Examples/CloudAuction/CloudAuction.ios/QuickCross/ViewDataBindings.cs:115-122 | on success exactly one record is appended to the root's list, which is created empty if absent; every other root's list is unchanged; on failure nothing changes |
| RootViews.RootViewRegistry.constructor | Examples/CloudAuction/CloudAuction.ios/QuickCross/ViewDataBindings.cs:83 | the registry starts empty |
| RootViews.RootViewRegistry.AddBinding | Examples/CloudAuction/CloudAuction.ios/QuickCross/ViewDataBindings.cs:96-123 | the static `AddBinding(UIView, string)` throws what `Registration` says and otherwise updates the dictionary as `Registered` says, under the view's root |
| RootViews.RootViewRegistry.AppendToRoot | Examples/CloudAuction/CloudAuction.ios/QuickCross/ViewDataBindings.cs:115-122 | the TryGetValue/Add/Add sequence appends the record to the root's list, creating it when missing |
| BindingTable.Insert | Examples/CloudAuction/CloudAuction.ios/QuickCross/ViewDataBindings.cs:374 | `Dictionary.Add` of a new key adds exactly that entry and enumerates it last, keeping keys unique |
| BindingTable.IdName | Examples/CloudAuction/CloudAuction.ios/QuickCross/ViewDataBindings.cs:253 | the id starts with the prefix and the rest is the name, a null name adding nothing |
| BindingTable.IdNameInjective | Examples/CloudAuction/CloudAuction.ios/QuickCross/ViewDataBindings.cs:247 | two names have the same id exactly when they are equal, with null and "" sharing one |
| BindingTable.FirstOrDefault | Examples/CloudAuction/CloudAuction.ios/QuickCross/ViewDataBindings.cs:380 | `FirstOrDefault` finds a binding exactly when one satisfies the test, and it is the first in enumeration order |
| BindingTable.FindBindingForView | Examples/CloudAuction/CloudAuction.ios/QuickCross/ViewDataBindings.cs:378-381 | a binding is found exactly when some binding is on that view, and the one found is on it |
| BindingTable.FindBindingForListProperty | Examples/CloudAuction/CloudAuction.ios/QuickCross/ViewDataBindings.cs:383-386 | the first binding in enumeration order whose list property has that name; none when no binding has it or the name is null |
| Registration.PropertyInfo | Examples/CloudAuction/CloudAuction.ios/QuickCross/ViewDataBindings.cs:334 | the property is resolved exactly when its name is not null, empty or "." and the view model has it |
| Registration.ListName | Examples/CloudAuction/CloudAuction.ios/QuickCross/ViewDataBindings.cs:339 | the list property asked for is `ItemsSource`, else the property name followed by "List" |
| Registration.ViewMember | Examples/CloudAuction/CloudAuction.ios/QuickCross/ViewDataBindings.cs:315-321 | a OneWay/TwoWay binding without a member takes its view type's default, and throws naming the type when there is none |
| Registration.ListInfo | Examples/CloudAuction/CloudAuction.ios/QuickCross/ViewDataBindings.cs:339-347 | the list property is the one asked for when it exists, else the bound property when it is a list, else none; it always exists on the model |
| Registration.NewSource | Examples/CloudAuction/CloudAuction.ios/QuickCross/ViewDataBindings.cs:350-365 | a source is made only for a table view that has none, with the record's list options and the item template defaulting to the list name followed by "Item" |
| Registration.NewBinding | Examples/CloudAuction/CloudAuction.ios/QuickCross/ViewDataBindings.cs:311-366 | the binding built for a record: its view, mode and member; the scalar property, or its reuse as the list; a source exactly for a table view without one |
| Registration.SourcesAfter | Examples/CloudAuction/CloudAuction.ios/QuickCross/ViewDataBindings.cs:354 | a binding that made a source installs it as its table view's source; no other view's source changes, and a binding without one changes none |
| Registration.Added | Examples/CloudAuction/CloudAuction.ios/QuickCross/ViewDataBindings.cs:311-376 | a record with no view changes nothing; otherwise it fails exactly when its binding cannot be built, and on success that binding is added last under its id, its mode's handler attached and its source installed, with every earlier binding unchanged |
| Registration.AddedKeeps | Examples/CloudAuction/CloudAuction.ios/QuickCross/ViewDataBindings.cs:311-376 | adding a binding keeps views and ids unique and each source on its own view, and changes no binding or source already there |
| Registration.AddOne | Examples/CloudAuction/CloudAuction.ios/QuickCross/ViewDataBindings.cs:244-248 | a bound view and then a taken id are rejected; past both checks a record with a view fails exactly when its binding cannot be built, with that error; on success the key `IdName(name)` is added holding the built binding, its source is installed and its mode's handler attached; a record without a view changes nothing; nothing already there changes |
| Registration.AddAll | Examples/CloudAuction/CloudAuction.ios/QuickCross/ViewDataBindings.cs:240-251 | `AddBindings` keeps the table's invariant whatever the records |
| RegistrationProperties.AddOneAttachesModeHandler | Examples/CloudAuction/CloudAuction.ios/QuickCross/ViewDataBindings.cs:368-372 | adding a binding attaches its mode's handler only; its table source's handlers wait for the next `AddHandlers()` |
| RegistrationProperties.AddAllOwned | Examples/CloudAuction/CloudAuction.ios/QuickCross/ViewDataBindings.cs:240-251 | adding bindings never attaches a handler more often than the bindings own it |
| RegistrationProperties.AddAllSplit | Examples/CloudAuction/CloudAuction.ios/QuickCross/ViewDataBindings.cs:244-249 | `AddBindings` stops at the first exception and keeps what it added before it |
| RegistrationProperties.AddAllConsistent | Examples/CloudAuction/CloudAuction.ios/QuickCross/ViewDataBindings.cs:246-247 | after any batch, no two bindings share a view and every source is its table view's source |
| RegistrationProperties.AddAllKeeps | Examples/CloudAuction/CloudAuction.ios/QuickCross/ViewDataBindings.cs:240-251 | a batch never changes or drops a binding already there, nor replaces a table view's source |
| RegistrationProperties.AddAllAppends | Examples/CloudAuction/CloudAuction.ios/QuickCross/ViewDataBindings.cs:240-251 | a batch only appends to the enumeration order and to the events |
| RegistrationProperties.SecondBindingForViewFails | Examples/CloudAuction/CloudAuction.ios/QuickCross/ViewDataBindings.cs:246 | a second record for a bound view is rejected as a duplicate view |
| RegistrationProperties.SecondBindingForIdFails | Examples/CloudAuction/CloudAuction.ios/QuickCross/ViewDataBindings.cs:247 | a second record with the same property name is rejected, even on another view |
| RegistrationProperties.ViewlessRecordSkipped | Examples/CloudAuction/CloudAuction.ios/QuickCross/ViewDataBindings.cs:314 | a record without a view succeeds exactly when its id is free, and then changes nothing |
| Synchronization.ListRefresh | Examples/CloudAuction/CloudAuction.ios/QuickCross/ViewDataBindings.cs:398-405 | at most one effect, present exactly when the binding has both a list property and a source: that source is handed the list property of the given model |
| Synchronization.ViewRefresh | Examples/CloudAuction/CloudAuction.ios/QuickCross/ViewDataBindings.cs:388-396 | at most one effect, present exactly for a OneWay or TwoWay binding: the bound view member gets the property's value from the given model, or the whole model when there is no property |
| Synchronization.Refresh | Examples/CloudAuction/CloudAuction.ios/QuickCross/ViewDataBindings.cs:178-181 | a binding's list is handed over before its view is written, both from the given model, and nothing is attached or detached |
| Synchronization.RefreshAll | Examples/CloudAuction/CloudAuction.ios/QuickCross/ViewDataBindings.cs:174-182 | at most two effects per binding, each a list or view update that reads the given model |
| Synchronization.UnsubscribeAll | Examples/CloudAuction/CloudAuction.ios/QuickCross/ViewDataBindings.cs:202-214 | only detaches, at most two handlers per binding |
| Synchronization.SubscribeAll | Examples/CloudAuction/CloudAuction.ios/QuickCross/ViewDataBindings.cs:216-228 | only attaches, at most two handlers per binding |
| Synchronization.ModelSwap | Examples/CloudAuction/CloudAuction.ios/QuickCross/ViewDataBindings.cs:165-172 | after a model switch, every list or view update reads the new model |
| Synchronization.PropertyChanged | Examples/CloudAuction/CloudAuction.ios/QuickCross/ViewDataBindings.cs:184-200 | an id match refreshes exactly that binding, its list before its view; otherwise exactly the list refresh of the first binding, in enumeration order, whose list property has that name; no match at all has no effect |
| SynchronizationProperties.RefreshAllShowsModel | Examples/CloudAuction/CloudAuction.ios/QuickCross/ViewDataBindings.cs:388-396 | `UpdateView()` writes the current model's value into every OneWay/TwoWay view, the whole model when there is no property |
| SynchronizationProperties.RefreshAllSetsLists | Examples/CloudAuction/CloudAuction.ios/QuickCross/ViewDataBindings.cs:398-405 | `UpdateView()` hands every table source its list property of the current model |
| SynchronizationProperties.RefreshAllReadsModel | Examples/CloudAuction/CloudAuction.ios/QuickCross/ViewDataBindings.cs:174-182 | `UpdateView()` touches only bound views, reads only the current model and attaches or detaches nothing |
| SynchronizationProperties.DetachUndoesAttach | Examples/CloudAuction/CloudAuction.ios/QuickCross/ViewDataBindings.cs:202-228 | `RemoveHandlers()` after `AddHandlers()` over the same bindings detaches exactly the handlers that were attached, one for one and in the same order, and leaves the attached handlers as they were before |
| SynchronizationProperties.Reattach | Examples/CloudAuction/CloudAuction.ios/QuickCross/ViewDataBindings.cs:168-170 | detaching then attaching leaves each handler attached as often as owned (or as before if more), and a second switch changes nothing |
| SynchronizationProperties.ModelSwapOrder | Examples/CloudAuction/CloudAuction.ios/QuickCross/ViewDataBindings.cs:165-172 | a model switch detaches every handler before attaching any, and attaches all before writing any view |
| Engine.ViewDataBindings.constructor | Examples/CloudAuction/CloudAuction.ios/QuickCross/ViewDataBindings.cs:156-163 | a new instance has its model and prefix, no bindings, no events and no handlers |
| Engine.ViewDataBindings.SetViewModel | Examples/CloudAuction/CloudAuction.ios/QuickCross/ViewDataBindings.cs:165-172 | the same model changes nothing; otherwise remove handlers, swap, add handlers, full refresh against the new model, each binding's handlers ending attached once |
| Engine.ViewDataBindings.UpdateView | Examples/CloudAuction/CloudAuction.ios/QuickCross/ViewDataBindings.cs:174-182 | every binding in enumeration order, its list then its view |
| Engine.ViewDataBindings.UpdateViewOf | Examples/CloudAuction/CloudAuction.ios/QuickCross/ViewDataBindings.cs:184-200 | `UpdateView(propertyName)` appends exactly the events `PropertyChanged` gives |
| Engine.ViewDataBindings.RemoveHandlers | Examples/CloudAuction/CloudAuction.ios/QuickCross/ViewDataBindings.cs:202-214 | every binding's source handlers, then its mode's handler, are detached in order |
| Engine.ViewDataBindings.AddHandlers | Examples/CloudAuction/CloudAuction.ios/QuickCross/ViewDataBindings.cs:216-228 | every binding's source handlers, then its mode's handler, are attached in order; OneWay attaches only list handlers |
| Engine.ViewDataBindings.RemoveListHandlers | Examples/CloudAuction/CloudAuction.ios/QuickCross/ViewDataBindings.cs:230-233 | the table source's handlers are detached only when there is a source |
| Engine.ViewDataBindings.AddListHandlers | Examples/CloudAuction/CloudAuction.ios/QuickCross/ViewDataBindings.cs:235-238 | the table source's handlers are attached only when there is a source |
| Engine.ViewDataBindings.RemoveModeHandler | Examples/CloudAuction/CloudAuction.ios/QuickCross/ViewDataBindings.cs:208-212 | TwoWay detaches its change handler, Command its command handler, other modes nothing |
| Engine.ViewDataBindings.AddModeHandler | Examples/CloudAuction/CloudAuction.ios/QuickCross/ViewDataBindings.cs:222-226 | TwoWay attaches its change handler, Command its command handler, other modes nothing |
| Engine.ViewDataBindings.AddBindings | Examples/CloudAuction/CloudAuction.ios/QuickCross/ViewDataBindings.cs:240-251 | a null array changes nothing; otherwise the loop does what `AddAll` says and keeps the table's invariant |
| Engine.ViewDataBindings.AddRecord | Examples/CloudAuction/CloudAuction.ios/QuickCross/ViewDataBindings.cs:244-248 | one iteration does what `AddOne` says, and a rejected record changes nothing |
| Engine.ViewDataBindings.AddBinding | Examples/CloudAuction/CloudAuction.ios/QuickCross/ViewDataBindings.cs:311-376 | returns null for a record without a view; otherwise the built binding is added under its id, its mode's handler attached and the table view's source set when it made one |
| Engine.ViewDataBindings.UpdateBindingView | Examples/CloudAuction/CloudAuction.ios/QuickCross/ViewDataBindings.cs:388-396 | only OneWay/TwoWay bindings write their view, with the property's value or the whole model, through the extension points when there are any |
| Engine.ViewDataBindings.UpdateList | Examples/CloudAuction/CloudAuction.ios/QuickCross/ViewDataBindings.cs:398-405 | the list is handed over only when the binding has both a list property and a source |
| Engine.CommandCanExecuteChanged | Examples/CloudAuction/CloudAuction.ios/QuickCross/ViewDataBindings.cs:135-139 | a control bound to a command is enabled exactly when the command is; other views are left alone |

## Left out

- The Objective-C runtime patching that finds binding strings on views is not modelled:
  `SetValueForUndefinedKey`, `RegisterBindKey` and `ObjcMagic`. It is foreign interop.
  `RegisterBindKey` appears only as the empty registry it creates.
- The .NET regular expression that cuts a binding string into assignment captures is not
  modelled. The parser takes the captured strings as input, in capture order.
- Reflection is a map from property name to "is a list". This covers
  `GetType().GetProperty`, `GetValue` and `GetInterface("IList")`. Property values are
  symbolic `Value`s, and a list handed to a table source is named by its property.
- `PropertyReference.GetMemberName` is not modelled. The expression-valued setters of
  `BindingParameters` are not modelled either.
- `DataBindableUITableViewSource`, `AddTwoWayHandler`, `AddCommandHandler` and their
  removal counterparts are defined outside this model. `UIView` default member lookup and
  `IViewExtensionPoints.UpdateView` are outside it too. They appear only as events in the
  trace and as a multiset of attached handlers.
- `ExecuteCommand` is not modelled. It is private, its callers are outside this model, and
  `RelayCommand.Execute` is external.
- The constructor's `ArgumentNullException` for a null view model is not modelled, because
  a view-model reference here is never null.
- Console logging is not modelled.
- `StartsWith(".")` is modelled as an ordinal comparison. The culture-sensitive comparison
  that C# uses by default, which ignores some zero-width characters, is not modelled.
- Case-insensitive matching of mode names folds only ASCII letters. Non-ASCII case
  mappings are not modelled.
- Engine.ViewDataBindings.AddBindings: requires every view a record names to be a view the
  host knows (has a type name), since `GetType()` on a live view cannot fail.
- The view model's type is fixed for the life of an instance (`modelProperties`). The code
  reflects on the type of whatever model is current. After `SetViewModel` to a model of
  another type, reading a property through an earlier `PropertyInfo` throws
  `TargetException`. The model does not capture that exception and assumes one type.
- The `(IList)` cast in `UpdateList` is not modelled. It throws `InvalidCastException` when
  the list property's value is not a list. Like the code, the model takes any existing
  property of that name as the list property. It then records a `ListSet` where the code
  would throw.
- A null element of the array given to `AddBindings` is not modelled. The code throws a
  `NullReferenceException` on it, and the model's records are never null.
- Re-entrant changes to the binding table during an `UpdateView` sweep are not modelled. The
  engine is single-threaded.
