/**
 * Binding parameters and their parser. A binding string attached to a view, such as
 * `{Binding Title, Mode=TwoWay} {List ItemTemplate=Row}`, is cut by a regular expression
 * into assignment captures ("Title", " Mode=TwoWay", "ItemTemplate=Row"); the parser folds
 * those captures, in order, into one BindingParameters record.
 */
module Parameters {
  import opened Wrappers
  import opened DotNetText
  import opened Host

  /** `BindingMode`. `Enum.TryParse` also accepts numbers outside the three named values;
      the enum then holds an unnamed value, kept here as `Undefined`. */
  datatype BindingMode = OneWay | TwoWay | Command | Undefined(value: int)

  /** The argument exceptions registration throws, by the message they carry. */
  datatype Error =
    | UnknownBindingParameter(name: string)
    | InvalidBindingParameters(parameters: Option<string>)
    | MissingPropertyName(parameters: Option<string>)
    | NoDefaultViewMember(typeName: string)
    | DuplicateView(view: ViewId)
    | DuplicateId(id: string)

  /** `BindingParameters`: a `None` field is a C# null. */
  datatype BindingParameters = BindingParameters(
    ViewModelPropertyName: Option<string>,
    Mode: BindingMode,
    View: Option<ViewId>,
    ViewMemberName: Option<string>,
    ListPropertyName: Option<string>,
    ListItemTemplateName: Option<string>,
    ListAddItemCommandName: Option<string>,
    ListRemoveItemCommandName: Option<string>,
    ListCanEditItem: Option<string>,
    ListCanMoveItem: Option<string>)

  /** `new BindingParameters()`: every field null, Mode OneWay. */
  const Initial := BindingParameters(None, OneWay, None, None, None, None, None, None, None, None)

  /** A value matches at most one of the enum's names, and none of them is a number: the
      first characters tell them apart. */
  lemma ModeNamesDistinct(value: string)
    ensures EqualsIgnoreCase(value, "OneWay") ==>
      !EqualsIgnoreCase(value, "TwoWay") && !EqualsIgnoreCase(value, "Command") && ParseInt32(value).None?
    ensures EqualsIgnoreCase(value, "TwoWay") ==> !EqualsIgnoreCase(value, "Command") && ParseInt32(value).None?
    ensures EqualsIgnoreCase(value, "Command") ==> ParseInt32(value).None?
  {
    if |value| > 0 {
      var first := ToUpperAscii(value[0]);
      if EqualsIgnoreCase(value, "OneWay") {
        assert first == ToUpperAscii("OneWay"[0]) == 'O';
      }
      if EqualsIgnoreCase(value, "TwoWay") {
        assert first == ToUpperAscii("TwoWay"[0]) == 'T';
      }
      if EqualsIgnoreCase(value, "Command") {
        assert first == ToUpperAscii("Command"[0]) == 'C';
      }
    }
  }

  /** `Enum.TryParse<BindingMode>(value, true, out mode)`: `None` when it returns false. */
  function TryParseMode(value: string): (r: Option<BindingMode>)
    ensures EqualsIgnoreCase(value, "OneWay") ==> r == Some(OneWay)
    ensures EqualsIgnoreCase(value, "TwoWay") ==> r == Some(TwoWay)
    ensures EqualsIgnoreCase(value, "Command") ==> r == Some(Command)
    ensures ParseInt32(value) == Some(0) ==> r == Some(OneWay)
    ensures ParseInt32(value) == Some(1) ==> r == Some(TwoWay)
    ensures ParseInt32(value) == Some(2) ==> r == Some(Command)
    ensures ParseInt32(value).Some? && ParseInt32(value).value !in {0, 1, 2} ==>
      r == Some(Undefined(ParseInt32(value).value))
    ensures r.None? <==>
      && !EqualsIgnoreCase(value, "OneWay") && !EqualsIgnoreCase(value, "TwoWay")
      && !EqualsIgnoreCase(value, "Command") && ParseInt32(value).None?
  {
    ModeNamesDistinct(value);
    if EqualsIgnoreCase(value, "OneWay") then Some(OneWay)
    else if EqualsIgnoreCase(value, "TwoWay") then Some(TwoWay)
    else if EqualsIgnoreCase(value, "Command") then Some(Command)
    else
      match ParseInt32(value)
      case None => None
      case Some(n) => Some(if n == 0 then OneWay else if n == 1 then TwoWay else if n == 2 then Command else Undefined(n))
  }

  /** The mode a `Mode=value` assignment leaves behind: `TryParse` writes the default
      value, OneWay, into its out parameter when it fails. */
  function ModeAssigned(value: string): BindingMode {
    TryParseMode(value).GetOr(OneWay)
  }

  /** What one assignment capture says, once split at '=' and trimmed. */
  datatype Assignment =
    | Bare(value: string)                           // no '='
    | MemberAssignment(member: string, value: string) // ".member=value"
    | NamedAssignment(name: string, value: string)    // "name=value"
    | Malformed                                     // more than one '='

  function Classify(capture: string): (a: Assignment)
    ensures a.Bare? <==> '=' !in capture
    ensures a.Malformed? <==> multiset(capture)['='] > 1
  {
    var elements := Split(capture, '=');
    if |elements| == 1 then Bare(Trim(elements[0]))
    else if |elements| == 2 then
      var name := Trim(elements[0]);
      var value := Trim(elements[1]);
      if |name| > 0 && name[0] == '.' then MemberAssignment(name[1..], value)
      else NamedAssignment(name, value)
    else Malformed
  }

  /** The parameter names the `switch` knows. */
  predicate IsKnownName(name: string) {
    name in {"Mode", "ItemsSource", "ItemTemplate", "AddCommand", "RemoveCommand", "CanEdit", "CanMove"}
  }

  /** One iteration of the parse loop. */
  function Assign(bp: BindingParameters, a: Assignment): (r: Result<BindingParameters, Error>)
    ensures r.Ok? ==> r.value.View == bp.View
    ensures r.Err? <==> a.NamedAssignment? && !IsKnownName(a.name)
    ensures r.Err? ==> r.error == UnknownBindingParameter(a.name)
  {
    match a
    case Bare(value) =>
      Ok(if value != "" then bp.(ViewModelPropertyName := Some(value)) else bp)
    case MemberAssignment(member, value) =>
      Ok(bp.(ViewMemberName := Some(member),
             ViewModelPropertyName := if value != "" then Some(value) else bp.ViewModelPropertyName))
    case NamedAssignment(name, value) =>
      if name == "Mode" then Ok(bp.(Mode := ModeAssigned(value)))
      else if name == "ItemsSource" then Ok(bp.(ListPropertyName := Some(value)))
      else if name == "ItemTemplate" then Ok(bp.(ListItemTemplateName := Some(value)))
      else if name == "AddCommand" then Ok(bp.(ListAddItemCommandName := Some(value)))
      else if name == "RemoveCommand" then Ok(bp.(ListRemoveItemCommandName := Some(value)))
      else if name == "CanEdit" then Ok(bp.(ListCanEditItem := Some(value)))
      else if name == "CanMove" then Ok(bp.(ListCanMoveItem := Some(value)))
      else Err(UnknownBindingParameter(name))
    case Malformed => Ok(bp)
  }

  /** The captures, classified. */
  function Assignments(captures: seq<string>): (r: seq<Assignment>)
    ensures |r| == |captures|
    ensures forall i :: 0 <= i < |captures| ==> r[i] == Classify(captures[i])
  {
    seq(|captures|, i requires 0 <= i < |captures| => Classify(captures[i]))
  }

  /** The parse loop over the assignments, from a given record; the first unknown name
      throws. */
  function AssignAll(bp: BindingParameters, assignments: seq<Assignment>): (r: Result<BindingParameters, Error>)
    ensures r.Ok? ==> r.value.View == bp.View
    ensures r.Err? ==> r.error.UnknownBindingParameter?
    decreases |assignments|
  {
    if assignments == [] then Ok(bp)
    else
      match AssignAll(bp, assignments[..|assignments| - 1])
      case Err(e) => Err(e)
      case Ok(b) => Assign(b, assignments[|assignments| - 1])
  }

  /** The loop stops at the first exception: later assignments cannot undo it. */
  lemma {:induction false} AssignAllStopsAtError(bp: BindingParameters, assignments: seq<Assignment>, n: nat, e: Error)
    requires n <= |assignments|
    requires AssignAll(bp, assignments[..n]) == Err(e)
    ensures AssignAll(bp, assignments) == Err(e)
    decreases |assignments| - n
  {
    if n < |assignments| {
      assert assignments[..n + 1][..n] == assignments[..n];
      AssignAllStopsAtError(bp, assignments, n + 1, e);
    } else {
      assert assignments[..n] == assignments;
    }
  }

  lemma AssignAllStep(bp: BindingParameters, assignments: seq<Assignment>, i: nat, b: BindingParameters)
    requires i < |assignments|
    requires AssignAll(bp, assignments[..i]) == Ok(b)
    ensures AssignAll(bp, assignments[..i + 1]) == Assign(b, assignments[i])
  {
    assert assignments[..i + 1][..i] == assignments[..i];
  }

  /** What `ParseBindingParameters` returns (`Ok(None)` is a null result) or throws, given the
      binding string and the assignments the regular expression captured in it. */
  function Parsed(parameters: Option<string>, captures: seq<string>): (r: Result<Option<BindingParameters>, Error>)
    ensures IsNullOrEmpty(parameters) ==> r == Ok(None)
    ensures !IsNullOrEmpty(parameters) && r.Ok? ==> r.value.Some?
    ensures r.Ok? && r.value.Some? ==> r.value.value.View.None?
    ensures r.Err? ==> r.error.UnknownBindingParameter?
  {
    if parameters.None? || parameters.value == "" then Ok(None)
    else
      match AssignAll(Initial, Assignments(captures))
      case Err(e) => Err(e)
      case Ok(bp) => Ok(Some(bp))
  }

  /** The `switch` on a parameter name. */
  method AssignNamed(bp: BindingParameters, name: string, value: string) returns (r: Result<BindingParameters, Error>)
    ensures r == Assign(bp, NamedAssignment(name, value))
  {
    var b := bp;
    match name {
      case "Mode" =>
        var parsed := TryParseMode(value);
        b := b.(Mode := if parsed.Some? then parsed.value else OneWay);
      case "ItemsSource" => b := b.(ListPropertyName := Some(value));
      case "ItemTemplate" => b := b.(ListItemTemplateName := Some(value));
      case "AddCommand" => b := b.(ListAddItemCommandName := Some(value));
      case "RemoveCommand" => b := b.(ListRemoveItemCommandName := Some(value));
      case "CanEdit" => b := b.(ListCanEditItem := Some(value));
      case "CanMove" => b := b.(ListCanMoveItem := Some(value));
      case _ => return Err(UnknownBindingParameter(name));
    }
    r := Ok(b);
  }

  /** The body of the parse loop: one capture applied to the record built so far. */
  method AssignCapture(bp: BindingParameters, capture: string) returns (r: Result<BindingParameters, Error>)
    ensures r == Assign(bp, Classify(capture))
  {
    var b := bp;
    var assignmentElements := Split(capture, '=');
    if |assignmentElements| == 1 {
      var value := Trim(assignmentElements[0]);
      if value != "" { b := b.(ViewModelPropertyName := Some(value)); }
    } else if |assignmentElements| == 2 {
      var name := Trim(assignmentElements[0]);
      var value := Trim(assignmentElements[1]);
      if |name| > 0 && name[0] == '.' {
        b := b.(ViewMemberName := Some(name[1..]));
        if value != "" { b := b.(ViewModelPropertyName := Some(value)); }
      } else {
        r := AssignNamed(b, name, value);
        return;
      }
    }
    r := Ok(b);
  }

  /** `ParseBindingParameters`, with the regular expression's captures as input. */
  method ParseBindingParameters(parameters: Option<string>, captures: seq<string>)
    returns (r: Result<Option<BindingParameters>, Error>)
    ensures r == Parsed(parameters, captures)
    ensures parameters.None? || parameters == Some("") ==> r == Ok(None)
    ensures r.Ok? && r.value.Some? ==> r.value.value.View.None?
  {
    var bp: Option<BindingParameters> := None;
    if parameters.Some? && parameters.value != "" {
      var b := Initial;
      ghost var assignments := Assignments(captures);
      var i := 0;
      while i < |captures|
        invariant 0 <= i <= |captures|
        invariant AssignAll(Initial, assignments[..i]) == Ok(b)
        invariant b.View.None?
      {
        var next := AssignCapture(b, captures[i]);
        AssignAllStep(Initial, assignments, i, b);
        if next.Err? {
          AssignAllStopsAtError(Initial, assignments, i + 1, next.error);
          return Err(next.error);
        }
        b := next.value;
        i := i + 1;
      }
      assert assignments[..|captures|] == assignments;
      bp := Some(b);
    }
    r := Ok(bp);
  }
}

/** What the parser promises: each field ends up with the value of the last assignment
    that writes it, the first unknown name is the one reported, and assignments to
    different fields may come in any order. */
module ParametersProperties {
  import opened Wrappers
  import opened DotNetText
  import opened Parameters

  /** The fields of BindingParameters that an assignment can write. */
  datatype Field =
    | PropertyNameField | ModeField | ViewMemberField | ListPropertyField | ItemTemplateField
    | AddCommandField | RemoveCommandField | CanEditField | CanMoveField

  datatype FieldValue = Text(text: Option<string>) | ModeValue(mode: BindingMode)

  function Get(bp: BindingParameters, f: Field): FieldValue {
    match f
    case PropertyNameField => Text(bp.ViewModelPropertyName)
    case ModeField => ModeValue(bp.Mode)
    case ViewMemberField => Text(bp.ViewMemberName)
    case ListPropertyField => Text(bp.ListPropertyName)
    case ItemTemplateField => Text(bp.ListItemTemplateName)
    case AddCommandField => Text(bp.ListAddItemCommandName)
    case RemoveCommandField => Text(bp.ListRemoveItemCommandName)
    case CanEditField => Text(bp.ListCanEditItem)
    case CanMoveField => Text(bp.ListCanMoveItem)
  }

  /** The field a known parameter name writes. */
  function NamedField(name: string): Field
    requires IsKnownName(name)
  {
    if name == "Mode" then ModeField
    else if name == "ItemsSource" then ListPropertyField
    else if name == "ItemTemplate" then ItemTemplateField
    else if name == "AddCommand" then AddCommandField
    else if name == "RemoveCommand" then RemoveCommandField
    else if name == "CanEdit" then CanEditField
    else CanMoveField
  }

  /** The value an assignment writes into field `f`, if it writes `f` at all: a
      field-by-field reading of the parse loop's body. */
  function Writes(a: Assignment, f: Field): Option<FieldValue> {
    match a
    case Bare(value) =>
      if f == PropertyNameField && value != "" then Some(Text(Some(value))) else None
    case MemberAssignment(member, value) =>
      if f == ViewMemberField then Some(Text(Some(member)))
      else if f == PropertyNameField && value != "" then Some(Text(Some(value)))
      else None
    case NamedAssignment(name, value) =>
      if IsKnownName(name) && f == NamedField(name) then
        Some(if f == ModeField then ModeValue(ModeAssigned(value)) else Text(Some(value)))
      else None
    case Malformed => None
  }

  /** An assignment the parser throws on. */
  predicate IsUnknown(a: Assignment) {
    a.NamedAssignment? && !IsKnownName(a.name)
  }

  /** Two records that agree on View and on every field are equal. */
  lemma FieldsDetermineRecord(x: BindingParameters, y: BindingParameters)
    requires x.View == y.View
    requires forall f :: Get(x, f) == Get(y, f)
    ensures x == y
  {
    assert Get(x, PropertyNameField) == Get(y, PropertyNameField);
    assert Get(x, ModeField) == Get(y, ModeField);
    assert Get(x, ViewMemberField) == Get(y, ViewMemberField);
    assert Get(x, ListPropertyField) == Get(y, ListPropertyField);
    assert Get(x, ItemTemplateField) == Get(y, ItemTemplateField);
    assert Get(x, AddCommandField) == Get(y, AddCommandField);
    assert Get(x, RemoveCommandField) == Get(y, RemoveCommandField);
    assert Get(x, CanEditField) == Get(y, CanEditField);
    assert Get(x, CanMoveField) == Get(y, CanMoveField);
  }

  /** One assignment changes exactly the fields it writes. */
  lemma AssignWrites(bp: BindingParameters, a: Assignment, f: Field)
    requires Assign(bp, a).Ok?
    ensures Get(Assign(bp, a).value, f) == Writes(a, f).GetOr(Get(bp, f))
  {
    if a.NamedAssignment? {
      var name := a.name;
      assert IsKnownName(name);
      if name == "Mode" {
      } else if name == "ItemsSource" {
      } else if name == "ItemTemplate" {
      } else if name == "AddCommand" {
      } else if name == "RemoveCommand" {
      } else if name == "CanEdit" {
      } else {
        assert name == "CanMove";
      }
    }
  }

  /** The value of field `f` after the assignments: the value the last assignment that
      writes `f` writes, or the starting value when none does. */
  function LastWritten(bp: BindingParameters, assignments: seq<Assignment>, f: Field): FieldValue
    decreases |assignments|
  {
    if assignments == [] then Get(bp, f)
    else
      match Writes(assignments[|assignments| - 1], f)
      case Some(v) => v
      case None => LastWritten(bp, assignments[..|assignments| - 1], f)
  }

  /** Later assignments overwrite earlier ones, field by field. */
  lemma {:induction false} LastWriteWins(bp: BindingParameters, assignments: seq<Assignment>, f: Field)
    requires AssignAll(bp, assignments).Ok?
    ensures Get(AssignAll(bp, assignments).value, f) == LastWritten(bp, assignments, f)
    decreases |assignments|
  {
    if assignments != [] {
      var prefix := assignments[..|assignments| - 1];
      match AssignAll(bp, prefix)
      case Err(e) =>
      case Ok(b) =>
        LastWriteWins(bp, prefix, f);
        AssignWrites(b, assignments[|assignments| - 1], f);
    }
  }

  /** A field that no assignment writes keeps its starting value. */
  lemma {:induction false} UnwrittenFieldKept(bp: BindingParameters, assignments: seq<Assignment>, f: Field)
    requires forall i :: 0 <= i < |assignments| ==> Writes(assignments[i], f).None?
    ensures LastWritten(bp, assignments, f) == Get(bp, f)
    decreases |assignments|
  {
    if assignments != [] {
      var prefix := assignments[..|assignments| - 1];
      assert forall i :: 0 <= i < |prefix| ==> prefix[i] == assignments[i];
      assert Writes(assignments[|assignments| - 1], f).None?;
      UnwrittenFieldKept(bp, prefix, f);
    }
  }

  /** Without a Mode assignment the parsed mode is OneWay. */
  lemma ModeDefaultsToOneWay(assignments: seq<Assignment>)
    requires AssignAll(Initial, assignments).Ok?
    requires forall i :: 0 <= i < |assignments| ==> Writes(assignments[i], ModeField).None?
    ensures AssignAll(Initial, assignments).value.Mode == OneWay
  {
    LastWriteWins(Initial, assignments, ModeField);
    UnwrittenFieldKept(Initial, assignments, ModeField);
  }

  /** The parse throws exactly when some assignment has an unknown name, and it reports
      the first one. */
  lemma {:induction false} AssignAllError(bp: BindingParameters, assignments: seq<Assignment>)
    ensures AssignAll(bp, assignments).Err? <==> exists i :: 0 <= i < |assignments| && IsUnknown(assignments[i])
    ensures AssignAll(bp, assignments).Err? ==>
      exists i :: 0 <= i < |assignments| && IsUnknown(assignments[i])
        && (forall j :: 0 <= j < i ==> !IsUnknown(assignments[j]))
        && AssignAll(bp, assignments).error == UnknownBindingParameter(assignments[i].name)
    decreases |assignments|
  {
    if assignments != [] {
      var n := |assignments| - 1;
      var prefix := assignments[..n];
      assert forall i :: 0 <= i < n ==> prefix[i] == assignments[i];
      AssignAllError(bp, prefix);
      match AssignAll(bp, prefix)
      case Err(e) =>
        var i :| 0 <= i < n && IsUnknown(prefix[i])
          && (forall j :: 0 <= j < i ==> !IsUnknown(prefix[j]))
          && e == UnknownBindingParameter(prefix[i].name);
        assert AssignAll(bp, assignments) == Err(e);
        assert IsUnknown(assignments[i]);
      case Ok(b) =>
        assert AssignAll(bp, assignments) == Assign(b, assignments[n]);
    }
  }

  /** Running the loop over `s + t` is running it over `s`, then over `t`. */
  lemma {:induction false} AssignAllAppend(bp: BindingParameters, s: seq<Assignment>, t: seq<Assignment>)
    ensures AssignAll(bp, s + t) ==
      match AssignAll(bp, s)
      case Err(e) => Err(e)
      case Ok(b) => AssignAll(b, t)
    decreases |t|
  {
    if t == [] {
      assert s + t == s;
    } else {
      var t' := t[..|t| - 1];
      assert (s + t)[..|s + t| - 1] == s + t';
      assert (s + t)[|s + t| - 1] == t[|t| - 1];
      AssignAllAppend(bp, s, t');
    }
  }

  lemma AssignAllPair(b: BindingParameters, x: Assignment, y: Assignment)
    ensures AssignAll(b, [x, y]) ==
      match Assign(b, x)
      case Err(e) => Err(e)
      case Ok(b1) => Assign(b1, y)
  {
    assert [x, y][..1] == [x];
    assert [x][..0] == [];
    assert AssignAll(b, [x]) == Assign(b, x);
  }

  /** Two known assignments that write different fields commute. */
  lemma SwapPair(b: BindingParameters, x: Assignment, y: Assignment)
    requires !IsUnknown(x) && !IsUnknown(y)
    requires forall f :: Writes(x, f).None? || Writes(y, f).None?
    ensures AssignAll(b, [x, y]) == AssignAll(b, [y, x])
  {
    AssignAllPair(b, x, y);
    AssignAllPair(b, y, x);
    var afterX := Assign(b, x).value;
    var afterY := Assign(b, y).value;
    var bxy := Assign(afterX, y).value;
    var byx := Assign(afterY, x).value;
    forall f ensures Get(bxy, f) == Get(byx, f) {
      AssignWrites(b, x, f);
      AssignWrites(b, y, f);
      AssignWrites(afterX, y, f);
      AssignWrites(afterY, x, f);
    }
    FieldsDetermineRecord(bxy, byx);
  }

  /** The order of assignments to different fields does not matter:
      `{Binding ItemsSource=X, ItemTemplate=Y}` and `{Binding ItemTemplate=Y, ItemsSource=X}` parse alike. */
  lemma SwapIndependent(bp: BindingParameters, p: seq<Assignment>, x: Assignment, y: Assignment, q: seq<Assignment>)
    requires !IsUnknown(x) && !IsUnknown(y)
    requires forall f :: Writes(x, f).None? || Writes(y, f).None?
    ensures AssignAll(bp, p + [x, y] + q) == AssignAll(bp, p + [y, x] + q)
  {
    assert p + [x, y] + q == p + ([x, y] + q);
    assert p + [y, x] + q == p + ([y, x] + q);
    AssignAllAppend(bp, p, [x, y] + q);
    AssignAllAppend(bp, p, [y, x] + q);
    match AssignAll(bp, p)
    case Err(e) =>
    case Ok(b) =>
      AssignAllAppend(b, [x, y], q);
      AssignAllAppend(b, [y, x], q);
      SwapPair(b, x, y);
  }

  /** A capture without '=' names the view-model property, unless it is blank. */
  lemma BareCapture(bp: BindingParameters, capture: string)
    requires '=' !in capture
    ensures Assign(bp, Classify(capture)) ==
      Ok(if Trim(capture) != "" then bp.(ViewModelPropertyName := Some(Trim(capture))) else bp)
  {
    SplitNoSeparator(capture, '=');
  }

  /** `name=value` is split at its one '=' and both sides are trimmed. */
  lemma PairCapture(name: string, value: string)
    requires '=' !in name && '=' !in value
    ensures Split(name + "=" + value, '=') == [name, value]
  {
    SplitJoin([name, value], '=');
    assert [name, value][1..] == [value];
  }

  /** `.member=value` sets the view member to the text after the dot, and the view-model
      property only when the trimmed value is not empty. */
  lemma MemberCapture(bp: BindingParameters, name: string, value: string)
    requires '=' !in name && '=' !in value
    requires |Trim(name)| > 0 && Trim(name)[0] == '.'
    ensures Assign(bp, Classify(name + "=" + value)) ==
      Ok(bp.(ViewMemberName := Some(Trim(name)[1..]),
             ViewModelPropertyName := if Trim(value) != "" then Some(Trim(value)) else bp.ViewModelPropertyName))
  {
    PairCapture(name, value);
  }

  /** Any other `name=value` goes to the `switch`, which throws on an unknown name. */
  lemma NamedCapture(bp: BindingParameters, name: string, value: string)
    requires '=' !in name && '=' !in value
    requires !(|Trim(name)| > 0 && Trim(name)[0] == '.')
    ensures Classify(name + "=" + value) == NamedAssignment(Trim(name), Trim(value))
    ensures !IsKnownName(Trim(name)) ==>
      Assign(bp, Classify(name + "=" + value)) == Err(UnknownBindingParameter(Trim(name)))
  {
    PairCapture(name, value);
  }

  /** A capture with more than one '=' is skipped. */
  lemma MalformedCapture(bp: BindingParameters, capture: string)
    requires multiset(capture)['='] > 1
    ensures Assign(bp, Classify(capture)) == Ok(bp)
  {
  }

  /** The mode name is matched ignoring case, and a value TryParse rejects puts the mode
      back to OneWay instead of leaving it as it was. */
  lemma ModeAssignment(bp: BindingParameters, value: string)
    ensures EqualsIgnoreCase(value, "TwoWay") ==>
      Assign(bp, NamedAssignment("Mode", value)) == Ok(bp.(Mode := TwoWay))
    ensures EqualsIgnoreCase(value, "Command") ==>
      Assign(bp, NamedAssignment("Mode", value)) == Ok(bp.(Mode := Command))
    ensures TryParseMode(value).None? ==>
      Assign(bp, NamedAssignment("Mode", value)) == Ok(bp.(Mode := OneWay))
  {
  }
}
