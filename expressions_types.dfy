/**
 * The parse-tree containers of Alternator's expression parser.
 *
 * Every container is default-constructed first and filled in afterwards by
 * setters, so each one is a class whose setters state exactly which fields
 * change and which stay as they were. Arguments that the source takes by value
 * (a `path`, a `value`, a `set_rhs`) are passed here as objects and stored as
 * a snapshot datatype, which is how a C++ copy or move behaves: later changes
 * to the argument object do not reach the stored copy.
 */
module ParsedExpressions {

  /** A dereference operator of a path: an index such as `[2]` or a member such as `.xyz`. */
  datatype Operator = Index(index: nat) | Dot(name: string)

  /** The contents of a `path` object: a top-level attribute and its operators, in order. */
  datatype PathValue = PathValue(root: string, operators: seq<Operator>)

  /** The contents of a `value` object: exactly one of the three alternatives. */
  datatype ValueData =
    | Valref(valref: string)
    | PathRef(path: PathValue)
    | Call(call: FunctionCallData)

  /** The contents of `value::function_call`. */
  datatype FunctionCallData = FunctionCallData(functionName: string, parameters: seq<ValueData>)

  /** The contents of a `set_rhs` object. */
  datatype RhsValue = RhsValue(op: char, v1: ValueData, v2: ValueData)

  /** The alternatives of `update_expression::action::_action`. */
  datatype ActionKind =
    | SetKind(rhs: RhsValue)
    | RemoveKind
    | AddKind(valref: string)
    | DelKind(valref: string)

  /** The contents of an `update_expression::action` object. */
  datatype ActionValue = ActionValue(path: PathValue, action: ActionKind)

  /** The value a default-constructed `value` holds: the first alternative, an empty string. */
  const DefaultValue: ValueData := Valref("")

  /** An attribute path such as `a.b[3].c`, built up by the parser one operator at a time. */
  class Path {
    var root: string
    var operators: seq<Operator>

    function Contents(): PathValue
      reads this
    {
      PathValue(root, operators)
    }

    function Root(): string
      reads this
    {
      root
    }

    predicate HasOperators()
      reads this
    {
      |operators| != 0
    }

    constructor ()
      ensures root == "" && operators == []
      ensures !HasOperators()
    {
      root := "";
      operators := [];
    }

    method SetRoot(r: string)
      modifies this
      ensures root == r && Root() == r
      ensures operators == old(operators)
      ensures HasOperators() == old(HasOperators())
    {
      root := r;
    }

    method AddIndex(i: nat)
      modifies this
      ensures root == old(root)
      ensures operators == old(operators) + [Index(i)]
      ensures HasOperators()
    {
      operators := operators + [Index(i)];
    }

    method AddDot(name: string)
      modifies this
      ensures root == old(root)
      ensures operators == old(operators) + [Dot(name)]
      ensures HasOperators()
    {
      operators := operators + [Dot(name)];
    }
  }

  /** The right-hand side of an assignment: a value reference, a path or a function call. */
  class Value {
    var value: ValueData

    predicate IsValref()
      reads this
    {
      value.Valref?
    }

    predicate IsPath()
      reads this
    {
      value.PathRef?
    }

    predicate IsFunctionCall()
      reads this
    {
      value.Call?
    }

    function AsValref(): string
      reads this
      requires IsValref()
    {
      value.valref
    }

    function AsPath(): PathValue
      reads this
      requires IsPath()
    {
      value.path
    }

    function AsFunctionCall(): FunctionCallData
      reads this
      requires IsFunctionCall()
    {
      value.call
    }

    constructor ()
      ensures value == DefaultValue
      ensures IsValref() && !IsPath() && !IsFunctionCall() && AsValref() == ""
    {
      value := DefaultValue;
    }

    method SetValref(s: string)
      modifies this
      ensures value == Valref(s)
      ensures IsValref() && !IsPath() && !IsFunctionCall() && AsValref() == s
    {
      value := Valref(s);
    }

    method SetPath(p: Path)
      modifies this
      ensures value == PathRef(p.Contents())
      ensures IsPath() && !IsValref() && !IsFunctionCall() && AsPath() == p.Contents()
    {
      value := PathRef(p.Contents());
    }

    method SetFuncName(s: string)
      modifies this
      ensures value == Call(FunctionCallData(s, []))
      ensures IsFunctionCall() && !IsValref() && !IsPath()
      ensures AsFunctionCall().functionName == s && AsFunctionCall().parameters == []
    {
      value := Call(FunctionCallData(s, []));
    }

    /** Appends a parameter; `v` is copied before the append, so `v` may be this very object. */
    method AddFuncParameter(v: Value)
      requires IsFunctionCall()
      modifies this
      ensures IsFunctionCall() && !IsValref() && !IsPath()
      ensures AsFunctionCall().functionName == old(AsFunctionCall().functionName)
      ensures AsFunctionCall().parameters == old(AsFunctionCall().parameters) + [old(v.value)]
    {
      var call := value.call;
      value := Call(FunctionCallData(call.functionName, call.parameters + [v.value]));
    }
  }

  /** The right-hand side of SET: a single value (`'v'`), or value+value (`'+'`), or value-value (`'-'`). */
  class SetRhs {
    var op: char
    var v1: ValueData
    var v2: ValueData

    function Contents(): RhsValue
      reads this
    {
      RhsValue(op, v1, v2)
    }

    /** The operator of a default-constructed `set_rhs` is indeterminate; nothing is promised about it. */
    constructor ()
      ensures v1 == DefaultValue && v2 == DefaultValue
    {
      v1 := DefaultValue;
      v2 := DefaultValue;
    }

    method SetValue(v: Value)
      modifies this
      ensures op == 'v' && v1 == v.value
      ensures v2 == old(v2)
    {
      op := 'v';
      v1 := v.value;
    }

    method SetPlus(v: Value)
      modifies this
      ensures op == '+' && v2 == v.value
      ensures v1 == old(v1)
    {
      op := '+';
      v2 := v.value;
    }

    method SetMinus(v: Value)
      modifies this
      ensures op == '-' && v2 == v.value
      ensures v1 == old(v1)
    {
      op := '-';
      v2 := v.value;
    }
  }

  /** One action of an update expression: a path and what to do with it. */
  class Action {
    var path: PathValue
    var action: ActionKind

    predicate IsSet()
      reads this
    {
      action.SetKind?
    }

    predicate IsRemove()
      reads this
    {
      action.RemoveKind?
    }

    predicate IsAdd()
      reads this
    {
      action.AddKind?
    }

    predicate IsDel()
      reads this
    {
      action.DelKind?
    }

    function AsSet(): RhsValue
      reads this
      requires IsSet()
    {
      action.rhs
    }

    function AsAdd(): string
      reads this
      requires IsAdd()
    {
      action.valref
    }

    function AsDel(): string
      reads this
      requires IsDel()
    {
      action.valref
    }

    /** A default-constructed action holds an empty path and a SET of a default `set_rhs`. */
    constructor ()
      ensures path == PathValue("", [])
      ensures IsSet() && AsSet().v1 == DefaultValue && AsSet().v2 == DefaultValue
    {
      path := PathValue("", []);
      var rhs := new SetRhs();
      action := SetKind(rhs.Contents());
    }

    method AssignSet(p: Path, rhs: SetRhs)
      modifies this
      ensures path == p.Contents() && action == SetKind(rhs.Contents())
      ensures IsSet() && !IsRemove() && !IsAdd() && !IsDel()
    {
      path := p.Contents();
      action := SetKind(rhs.Contents());
    }

    method AssignRemove(p: Path)
      modifies this
      ensures path == p.Contents() && action == RemoveKind
      ensures IsRemove() && !IsSet() && !IsAdd() && !IsDel()
    {
      path := p.Contents();
      action := RemoveKind;
    }

    method AssignAdd(p: Path, v: string)
      modifies this
      ensures path == p.Contents() && action == AddKind(v)
      ensures IsAdd() && !IsSet() && !IsRemove() && !IsDel() && AsAdd() == v
    {
      path := p.Contents();
      action := AddKind(v);
    }

    method AssignDel(p: Path, v: string)
      modifies this
      ensures path == p.Contents() && action == DelKind(v)
      ensures IsDel() && !IsSet() && !IsRemove() && !IsAdd() && AsDel() == v
    {
      path := p.Contents();
      action := DelKind(v);
    }
  }

  /** A whole update expression: its sequence of actions. */
  class UpdateExpression {
    var actions: seq<ActionValue>

    predicate Empty()
      reads this
    {
      |actions| == 0
    }

    function Actions(): seq<ActionValue>
      reads this
    {
      actions
    }

    constructor ()
      ensures actions == [] && Actions() == [] && Empty()
    {
      actions := [];
    }
  }
}
