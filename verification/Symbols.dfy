/**
  The symbol table of alias.c: values of several kinds under one name, pushed
  on and popped from one chain of saved records, and removed when nothing is left.
 */
module Symbols {
  import opened JsonValues
  import opened SymbolSpec

  class Symbol {
    const name: string
    var variable: Content
    var command: Content
    var arglist: Option<string>
    var builtinCommand: Option<string>
    var builtinFunction: Option<string>
    var builtinExpando: Option<string>
    var builtinVariable: Option<string>
    var saved: seq<Saved>

    /** make_new_Symbol. */
    constructor (name: string)
      ensures this.name == name && Sound() && saved == [] && arglist == None
      ensures forall kind :: Current(kind) == NOTHING
      ensures builtinCommand == None && builtinVariable == None
    {
      this.name := name;
      variable, command, arglist := NOTHING, NOTHING, None;
      builtinCommand, builtinFunction, builtinExpando, builtinVariable := None, None, None, None;
      saved := [];
    }

    function Current(kind: Kind): Content
      reads this
    {
      match kind
      case Variable => variable
      case Command => command
      case Function => Content(builtinFunction, false, None)
      case Expando => Content(builtinExpando, false, None)
    }

    ghost predicate Sound()
      reads this
    {
      SymbolSpec.Sound(variable) && SymbolSpec.Sound(command) && forall i :: 0 <= i < |saved| ==> SoundRecord(saved[i])
    }

    /** The symbol is not garbage: it has a value or a saved record. */
    predicate InUse()
      reads this
    {
      variable.body.Some? || command.body.Some? || builtinCommand.Some? || builtinFunction.Some? ||
      builtinExpando.Some? || builtinVariable.Some? || saved != []
    }

    /** What the push functions copy into a new record. */
    function Copy(kind: Kind): Saved
      reads this
    {
      match kind
      case Variable => Saved(kind, variable, NOTHING, None, None, None)
      case Command => Saved(kind, NOTHING, command, arglist, None, None)
      case Function => Saved(kind, NOTHING, NOTHING, None, builtinFunction, None)
      case Expando => Saved(kind, NOTHING, NOTHING, None, None, builtinExpando)
    }

    ghost function State(kind: Kind): KindState
      reads this
    {
      KindState(Current(kind), StackOf(saved, kind))
    }

    /** The end of the push functions: a copy goes to the front of the chain. */
    method PushCopy(kind: Kind)
      requires Sound()
      modifies this`saved
      ensures Sound() && InUse() && State(kind) == Step(old(State(kind)), Push)
      ensures forall k :: k != kind ==> State(k) == old(State(k))
    {
      ghost var before := saved;
      var copy := Copy(kind);
      saved := [copy] + saved;
      forall k
        ensures StackOf(saved, k) == (if k == kind then [Current(k)] else []) + StackOf(before, k)
      {
        StackPush(copy, before, k);
      }
    }

    /** The latest record of a kind. */
    method FindRecord(kind: Kind) returns (i: int)
      ensures i >= 0 ==> i < |saved| && saved[i].hint == kind && forall k :: 0 <= k < i ==> saved[k].hint != kind
      ensures i < 0 ==> forall k :: 0 <= k < |saved| ==> saved[k].hint != kind
    {
      i := 0;
      while i < |saved|
        invariant 0 <= i <= |saved|
        invariant forall k :: 0 <= k < i ==> saved[k].hint != kind
      {
        if saved[i].hint == kind {
          return;
        }
        i := i + 1;
      }
      i := -1;
    }

    /** The middle of the pop functions: the record's content comes back and the record goes. */
    method PopRecord(i: nat)
      requires Sound() && i < |saved| && forall k :: 0 <= k < i ==> saved[k].hint != saved[i].hint
      modifies this`variable, this`command, this`builtinFunction, this`builtinExpando, this`saved
      ensures Sound() && State(old(saved)[i].hint) == Step(old(State(saved[i].hint)), Pop)
      ensures forall k :: k != old(saved)[i].hint ==> State(k) == old(State(k))
    {
      ghost var before := saved;
      var s := saved[i];
      forall k
        ensures StackOf(before, s.hint) != [] && StackOf(before, s.hint)[0] == SavedValue(s)
        ensures StackOf(Unlink(before, i), k) == if k == s.hint then StackOf(before, k)[1..] else StackOf(before, k)
      {
        StackUnlink(before, i, k);
      }
      Restore(s);
      saved := Unlink(saved, i);
    }

    method Set(kind: Kind, v: Content)
      requires Sound() && SymbolSpec.Sound(v) && (kind == Function || kind == Expando ==> !v.stub && v.package == None)
      modifies this`variable, this`command, this`builtinFunction, this`builtinExpando
      ensures Sound() && State(kind) == Step(old(State(kind)), Assign(v))
      ensures forall k :: k != kind ==> State(k) == old(State(k))
    {
      match kind {
        case Variable => variable := v;
        case Command => command := v;
        case Function => builtinFunction := v.body;
        case Expando => builtinExpando := v.body;
      }
    }

    /** What the pop functions copy back; the argument list stays as it is. */
    method Restore(s: Saved)
      modifies this`variable, this`command, this`builtinFunction, this`builtinExpando
      requires Sound() && SoundRecord(s)
      ensures Sound() && Current(s.hint) == SavedValue(s)
      ensures forall kind :: kind != s.hint ==> Current(kind) == old(Current(kind))
    {
      match s.hint {
        case Variable => variable := s.variable;
        case Command => command := s.command;
        case Function => builtinFunction := s.builtinFunction;
        case Expando => builtinExpando := s.builtinExpando;
      }
    }
  }

  /** A record once the pop functions have freed what they copied. */
  function Emptied(s: Saved): Saved {
    match s.hint
    case Variable => s.(variable := NOTHING)
    case Command => s.(command := NOTHING)
    case Function => s.(builtinFunction := None)
    case Expando => s.(builtinExpando := None)
  }

  /** GC_symbol of a record: nothing but the chain may still hang on it. */
  predicate IsGarbage(s: Saved) {
    s.variable.body.None? && s.command.body.None? && s.builtinFunction.None? && s.builtinExpando.None?
  }

  function Unlink(saved: seq<Saved>, i: nat): seq<Saved>
    requires i < |saved|
  {
    if IsGarbage(Emptied(saved[i])) then saved[..i] + saved[i + 1..] else saved[i := Emptied(saved[i])]
  }

  class SymbolTable {
    var table: map<string, Symbol>

    ghost predicate Valid()
      reads this, table.Values
    {
      forall name :: name in table ==> table[name].name == name && table[name].Sound() && table[name].InUse()
    }

    constructor ()
      ensures Valid() && table == map[]
    {
      table := map[];
    }

    // ----- what the table means -----

    ghost function State(name: string, kind: Kind): KindState
      reads this, table.Values
    {
      if name in table then table[name].State(kind) else KindState(NOTHING, [])
    }

    ghost function Arglist(name: string): Option<string>
      reads this, table.Values
    {
      if name in table then table[name].arglist else None
    }

    /** A builtin command or variable keeps the symbol whatever else becomes of it. */
    ghost predicate Pinned(name: string)
      reads this, table.Values
    {
      Builtins(name) != (None, None)
    }

    /** The builtin command and the builtin variable of that name. */
    ghost function Builtins(name: string): (Option<string>, Option<string>)
      reads this, table.Values
    {
      if name in table then (table[name].builtinCommand, table[name].builtinVariable) else (None, None)
    }

    ghost function Stacks(name: string): Stacks
      reads this, table.Values
    {
      SymbolSpec.Stacks(State(name, Variable), State(name, Command), State(name, Function), State(name, Expando))
    }

    /** find_alist_item and, unless it was an exact match, a new entry. */
    method FindOrMake(name: string) returns (item: Symbol)
      requires forall n :: n in table ==> table[n].name == n && table[n].Sound()
      modifies this
      ensures name in table && table[name] == item
      ensures forall n :: n in table ==> table[n].name == n && table[n].Sound()
      ensures if name in old(table) then table == old(table) else table == old(table)[name := item] && fresh(item)
      ensures forall n, kind :: State(n, kind) == old(State(n, kind))
      ensures forall n :: Arglist(n) == old(Arglist(n)) && Builtins(n) == old(Builtins(n))
    {
      if name in table {
        item := table[name];
      } else {
        item := new Symbol(name);
        table := table[name := item];
      }
    }

    /** GC_symbol on an entry of the table. */
    method Collect(name: string)
      requires name in table && forall n :: n in table ==> table[n].name == n && table[n].Sound()
      modifies `table
      ensures table == if old(table)[name].InUse() then old(table) else old(table) - {name}
      ensures forall n, kind :: State(n, kind) == old(State(n, kind))
      ensures forall n :: Builtins(n) == old(Builtins(n)) && (n != name || n in table ==> Arglist(n) == old(Arglist(n)))
    {
      if !table[name].InUse() {
        table := table - {name};
      }
    }

    // ----- stacks -----

    /** stack_push_*: the current value of one kind goes on top of its stack. */
    method Push(name: string, kind: Kind)
      requires Valid()
      modifies this, table.Values
      ensures Valid() && Affected(old(table), name) && name in table
      ensures if name in old(table) then table[name] == old(table)[name] else fresh(table[name])
      ensures State(name, kind) == Step(old(State(name, kind)), SymbolSpec.Push)
      ensures forall n, k :: n != name || k != kind ==> State(n, k) == old(State(n, k))
      ensures forall n :: Arglist(n) == old(Arglist(n)) && Builtins(n) == old(Builtins(n))
    {
      var item := FindOrMake(name);
      label made:
      item.PushCopy(kind);
      forall n, k | n != name || k != kind
        ensures State(n, k) == old@made(State(n, k))
      {
        if n != name && n in table { assert table[n].name != item.name; }
      }
    }

    /** Nothing but the named entry has come, gone or been replaced. */
    ghost predicate Affected(before: map<string, Symbol>, name: string)
      reads this
    {
      table - {name} == before - {name}
    }

    /** stack_pop_*: the top of the stack of one kind becomes the current value. */
    method Pop(name: string, kind: Kind) returns (result: int)
      requires Valid()
      modifies this, table.Values
      ensures Valid() && Affected(old(table), name)
      ensures result == if old(State(name, kind)).stack == [] then -1 else 0
      ensures State(name, kind) == Step(old(State(name, kind)), SymbolSpec.Pop)
      ensures forall n, k :: n != name || k != kind ==> State(n, k) == old(State(n, k))
      ensures name in table ==> name in old(table) && table[name] == old(table)[name]
      ensures forall n :: Builtins(n) == old(Builtins(n)) && (n != name || n in table ==> Arglist(n) == old(Arglist(n)))
    {
      if name !in table {
        return -1;
      }
      var item := table[name];
      NoneOfKind(item.saved, kind);
      var i := item.FindRecord(kind);
      if i < 0 {
        return -1;
      }
      PopFound(name, i);
      return 0;
    }

    /** The record is unlinked, and the symbol goes if nothing is left of it. */
    method PopFound(name: string, i: nat)
      requires Valid() && name in table && i < |table[name].saved|
      requires forall k :: 0 <= k < i ==> table[name].saved[k].hint != table[name].saved[i].hint
      modifies this, table.Values
      ensures Valid() && table == (if name in table then old(table) else old(table) - {name})
      ensures var kind := old(table[name].saved[i].hint);
        State(name, kind) == Step(old(State(name, kind)), SymbolSpec.Pop) &&
        forall n, k :: n != name || k != kind ==> State(n, k) == old(State(n, k))
      ensures forall n :: Builtins(n) == old(Builtins(n)) && (n != name || n in table ==> Arglist(n) == old(Arglist(n)))
    {
      var item := table[name];
      ghost var kind := item.saved[i].hint;
      item.PopRecord(i);
      forall n, k | n != name || k != kind
        ensures State(n, k) == old(State(n, k))
      {
        if n != name && n in table { assert table[n].name != item.name; }
      }
      forall n
        ensures Builtins(n) == old(Builtins(n)) && Arglist(n) == old(Arglist(n))
      {
        if n != name && n in table { assert table[n].name != item.name; }
      }
      Collect(name);
    }

    // ----- values -----

    /** What the add functions have in common: the symbol is made if there is none. */
    method Put(name: string, kind: Kind, v: Content)
      requires Valid() && v.body.Some? && (kind == Function || kind == Expando ==> !v.stub && v.package == None)
      modifies this, table.Values
      ensures Valid() && Affected(old(table), name) && name in table
      ensures if name in old(table) then table[name] == old(table)[name] else fresh(table[name])
      ensures State(name, kind) == Step(old(State(name, kind)), Assign(v))
      ensures forall n, k :: n != name || k != kind ==> State(n, k) == old(State(n, k))
      ensures forall n :: Arglist(n) == old(Arglist(n)) && Builtins(n) == old(Builtins(n))
    {
      var item := FindOrMake(name);
      label made:
      item.Set(kind, v);
      forall n, k | n != name || k != kind
        ensures State(n, k) == old@made(State(n, k))
      {
        if n != name && n in table { assert table[n].name != item.name; }
      }
      assert item.Current(kind) == v;
    }

    /** What the delete functions have in common: an empty symbol goes. */
    method Delete(name: string, kind: Kind)
      requires Valid()
      modifies this, table.Values
      ensures Valid() && Affected(old(table), name)
      ensures name in table ==> name in old(table) && table[name] == old(table)[name]
      ensures State(name, kind) == Step(old(State(name, kind)), Assign(NOTHING))
      ensures forall n, k :: n != name || k != kind ==> State(n, k) == old(State(n, k))
      ensures forall n :: Builtins(n) == old(Builtins(n)) && (n != name ==> Arglist(n) == old(Arglist(n)))
      ensures name in table ==> Arglist(name) == if kind == Command then None else old(Arglist(name))
    {
      if name in table {
        var item := table[name];
        item.Set(kind, NOTHING);
        if kind == Command {
          item.arglist := None;
        }
        forall n, k | n != name || k != kind
          ensures State(n, k) == old(State(n, k))
        {
          if n != name && n in table { assert table[n].name != item.name; }
        }
        forall n
          ensures Builtins(n) == old(Builtins(n))
          ensures Arglist(n) == if n == name && kind == Command then None else old(Arglist(n))
        {
          if n != name && n in table { assert table[n].name != item.name; }
        }
        Collect(name);
      }
    }

    /** add_var_alias for a global variable; assigning nothing deletes it. */
    method AddVarAlias(name: string, stuff: string, package: Option<string>)
      requires Valid()
      modifies this, table.Values
      ensures Valid() && Affected(old(table), name)
      ensures stuff == "" ==> State(name, Variable) == Step(old(State(name, Variable)), Assign(NOTHING))
      ensures stuff != "" ==>
        var v := Content(Some(stuff), false, if package.Some? then package else old(State(name, Variable)).value.package);
        State(name, Variable) == Step(old(State(name, Variable)), Assign(v))
      ensures forall n, k :: n != name || k != Variable ==> State(n, k) == old(State(n, k))
      ensures forall n :: Builtins(n) == old(Builtins(n)) && (n != name || n in table ==> Arglist(n) == old(Arglist(n)))
    {
      if stuff != "" {
        var old' := if name in table then table[name].variable.package else None;
        Put(name, Variable, Content(Some(stuff), false, if package.Some? then package else old'));
      } else {
        Delete(name, Variable);
      }
    }

    /** add_cmd_alias, on a name that is not a stub waiting to be loaded. */
    method AddCmdAlias(name: string, args: Option<string>, stuff: string, package: Option<string>)
      requires Valid() && !State(name, Command).value.stub && !State(name, Variable).value.stub
      modifies this, table.Values
      ensures Valid() && Affected(old(table), name) && name in table && Arglist(name) == args
      ensures name in old(table) ==> table[name] == old(table)[name]
      ensures var v := Content(Some(stuff), false, if package.Some? then package else old(State(name, Command)).value.package);
        State(name, Command) == Step(old(State(name, Command)), Assign(v))
      ensures forall n, k :: n != name || k != Command ==> State(n, k) == old(State(n, k))
      ensures forall n :: Builtins(n) == old(Builtins(n)) && (n != name ==> Arglist(n) == old(Arglist(n)))
    {
      var old' := if name in table then table[name].command.package else None;
      PutAlias(name, args, Content(Some(stuff), false, if package.Some? then package else old'));
    }

    /** The end of add_cmd_alias, once a stub has been loaded: the value and its argument list. */
    method PutAlias(name: string, args: Option<string>, v: Content)
      requires Valid() && v.body.Some?
      modifies this, table.Values
      ensures Valid() && Affected(old(table), name) && name in table && Arglist(name) == args
      ensures if name in old(table) then table[name] == old(table)[name] else fresh(table[name])
      ensures State(name, Command) == Step(old(State(name, Command)), Assign(v))
      ensures forall n, k :: n != name || k != Command ==> State(n, k) == old(State(n, k))
      ensures forall n :: Builtins(n) == old(Builtins(n)) && (n != name ==> Arglist(n) == old(Arglist(n)))
    {
      Put(name, Command, v);
      label put:
      table[name].arglist := args;
      forall n
        ensures forall k :: State(n, k) == old@put(State(n, k))
        ensures Builtins(n) == old@put(Builtins(n)) && (n != name ==> Arglist(n) == old@put(Arglist(n)))
      {
        if n != name && n in table { assert table[n].name != table[name].name; }
      }
    }

    /** add_builtin_cmd_alias. */
    method AddBuiltinCmdAlias(name: string, func: string)
      requires Valid()
      modifies this, table.Values
      ensures Valid() && Affected(old(table), name) && name in table
      ensures forall n, k :: State(n, k) == old(State(n, k))
      ensures Builtins(name) == (Some(func), old(Builtins(name)).1)
      ensures forall n :: (n != name ==> Builtins(n) == old(Builtins(n))) && Arglist(n) == old(Arglist(n))
    {
      var item := FindOrMake(name);
      label made:
      item.builtinCommand := Some(func);
      forall n, k
        ensures State(n, k) == old@made(State(n, k))
      {
        if n != name && n in table { assert table[n].name != item.name; }
      }
    }

    /** delete_builtin_command. */
    method DeleteBuiltinCommand(name: string)
      requires Valid()
      modifies this, table.Values
      ensures Valid() && Affected(old(table), name)
      ensures Builtins(name) == (None, old(Builtins(name)).1) && (name in table ==> Arglist(name) == old(Arglist(name)))
      ensures forall n, k :: State(n, k) == old(State(n, k))
      ensures forall n :: n != name ==> Builtins(n) == old(Builtins(n)) && Arglist(n) == old(Arglist(n))
    {
      if name in table {
        var item := table[name];
        item.builtinCommand := None;
        forall n, k
          ensures State(n, k) == old(State(n, k))
        {
          if n != name && n in table { assert table[n].name != item.name; }
        }
        Collect(name);
      }
    }

    /** A name is in the table exactly when it has a value or a saved record of some kind. */
    lemma InTable(name: string)
      requires Valid()
      ensures name in table <==> Pinned(name) || exists kind :: Stacks(name).Of(kind) != EMPTY
      ensures forall kind :: Stacks(name).Of(kind) == State(name, kind)
    {
      if name in table {
        var item := table[name];
        var kind := if item.saved != [] then item.saved[0].hint else if item.variable.body.Some? then Variable
          else if item.command.body.Some? then Command else if item.builtinFunction.Some? then Function else Expando;
        if item.saved != [] {
          assert StackOf(item.saved, kind) != [];
        }
        if !Pinned(name) {
          assert Stacks(name).Of(kind) == State(name, kind) != EMPTY;
        }
      }
    }
  }

  // ----- runs -----

  /**
    An operation on one kind of value of one name; assigning nothing is a deletion.
    An alias is the assignment of a command together with its argument list.
   */
  datatype Op =
    | Op(name: string, kind: Kind, action: Action)
    | Alias(name: string, args: Option<string>, value: Content)

  function KindOf(op: Op): Kind {
    if op.Alias? then Command else op.kind
  }

  function ActionOf(op: Op): Action {
    if op.Alias? then Assign(op.value) else op.action
  }

  ghost predicate Allowed(op: Op) {
    if op.Alias? then op.value.body.Some? else
      op.action.Assign? ==>
        Sound(op.action.value) && (op.kind == Function || op.kind == Expando ==> !op.action.value.stub && op.action.value.package == None)
  }

  /** The actions of a run that concern one kind of value of one name. */
  function Project(ops: seq<Op>, name: string, kind: Kind): seq<Action> {
    if ops == [] then [] else Own(ops[0], name, kind) + Project(ops[1..], name, kind)
  }

  function Own(op: Op, name: string, kind: Kind): seq<Action> {
    if op.name == name && KindOf(op) == kind then [ActionOf(op)] else []
  }

  /** What an operation makes of an argument list, as long as the symbol stays. */
  function NewList(op: Op, name: string, list: Option<string>): Option<string> {
    if op.name != name then list
    else if op.Alias? then op.args
    else if op.kind == Command && op.action == Assign(NOTHING) then None
    else list
  }

  /** What a run makes of the argument list of a name that starts out with these stacks. */
  ghost function ListAfter(list: Option<string>, st: Stacks, pinned: bool, ops: seq<Op>, name: string): Option<string>
    decreases |ops|
  {
    if ops == [] then list else
      var n := |ops| - 1;
      if pinned || InUse(st, ops, name) then NewList(ops[n], name, ListAfter(list, st, pinned, ops[..n], name)) else None
  }

  /** After the run the name has a value or a saved record of some kind. */
  ghost predicate InUse(st: Stacks, ops: seq<Op>, name: string) {
    exists kind :: RunKind(st.Of(kind), Project(ops, name, kind)) != EMPTY
  }

  lemma {:induction false} ProjectLast(ops: seq<Op>, op: Op, name: string, kind: Kind)
    ensures Project(ops + [op], name, kind) == Project(ops, name, kind) + Own(op, name, kind)
  {
    if ops == [] {
      assert ops + [op] == [op] && [op][1..] == [];
      assert Project([op][1..], name, kind) == [];
      assert Own(op, name, kind) + [] == Own(op, name, kind) && [] + Own(op, name, kind) == Own(op, name, kind);
    } else {
      hide Own;
      assert (ops + [op])[1..] == ops[1..] + [op];
      ProjectLast(ops[1..], op, name, kind);
      var first := Own(ops[0], name, kind);
      assert first + (Project(ops[1..], name, kind) + Own(op, name, kind)) ==
        (first + Project(ops[1..], name, kind)) + Own(op, name, kind);
    }
  }

  /** A run, for one kind of value of one name, one operation longer. */
  lemma RunLast(st: KindState, ops: seq<Op>, op: Op, name: string, kind: Kind)
    ensures RunKind(st, Project(ops + [op], name, kind)) ==
      if op.name == name && KindOf(op) == kind then Step(RunKind(st, Project(ops, name, kind)), ActionOf(op))
      else RunKind(st, Project(ops, name, kind))
  {
    ProjectLast(ops, op, name, kind);
    if op.name == name && KindOf(op) == kind {
      var action := ActionOf(op);
      RunAppend(st, Project(ops, name, kind), [action]);
      assert [action][1..] == [];
      var last := RunKind(st, Project(ops, name, kind));
      assert RunKind(last, [action]) == RunKind(Step(last, action), []);
    } else {
      assert Project(ops, name, kind) + [] == Project(ops, name, kind);
    }
  }

  method Perform(t: SymbolTable, op: Op)
    requires t.Valid() && Allowed(op)
    modifies t, t.table.Values
    ensures t.Valid() && forall o :: o in t.table.Values ==> o in old(t.table.Values) || fresh(o)
    ensures t.State(op.name, KindOf(op)) == Step(old(t.State(op.name, KindOf(op))), ActionOf(op))
    ensures forall n, k :: n != op.name || k != KindOf(op) ==> t.State(n, k) == old(t.State(n, k))
    ensures forall n :: t.Pinned(n) == old(t.Pinned(n))
    ensures forall n :: t.Arglist(n) == if n != op.name || n in t.table then NewList(op, n, old(t.Arglist(n))) else None
  {
    ghost var before := t.table;
    if op.Alias? {
      t.PutAlias(op.name, op.args, op.value);
    } else {
      match op.action {
        case Push =>
          t.Push(op.name, op.kind);
        case Pop =>
          var result := t.Pop(op.name, op.kind);
        case Assign(v) =>
          if v.body.Some? {
            t.Put(op.name, op.kind, v);
          } else {
            t.Delete(op.name, op.kind);
          }
      }
    }
    OtherSymbols(before, t.table, op.name);
  }

  lemma OtherSymbols(before: map<string, Symbol>, after: map<string, Symbol>, name: string)
    requires after - {name} == before - {name}
    ensures forall o :: o in after.Values ==> o in before.Values || (name in after && o == after[name])
  {
    forall o | o in after.Values
      ensures o in before.Values || (name in after && o == after[name])
    {
      var n :| n in after && after[n] == o;
      if n != name { assert n in after - {name} && n in before - {name}; }
    }
  }

  /**
    Over any run each kind of value of each name goes through exactly its own
    actions, as if the others were not on the same chain; and each argument list
    is what the last alias or deletion made it, unless the symbol was collected.
   */
  method Run(t: SymbolTable, ops: seq<Op>)
    requires t.Valid() && forall i :: 0 <= i < |ops| ==> Allowed(ops[i])
    modifies t, t.table.Values
    ensures t.Valid()
    ensures forall n, k :: t.State(n, k) == RunKind(old(t.State(n, k)), Project(ops, n, k))
    ensures forall n :: t.Pinned(n) == old(t.Pinned(n))
    ensures forall n :: t.Arglist(n) == ListAfter(old(t.Arglist(n)), old(t.Stacks(n)), old(t.Pinned(n)), ops, n)
    ensures forall o :: o in t.table.Values ==> o in old(t.table.Values) || fresh(o)
    decreases |ops|
  {
    hide ListAfter;
    hide NewList;
    hide InUse;
    hide RunKind;
    hide Project;
    NoOps();
    forall n, k
      ensures t.State(n, k) == t.Stacks(n).Of(k)
    {
    }
    if ops != [] {
      var last := |ops| - 1;
      Run(t, ops[..last]);
      Perform(t, ops[last]);
      assert ops == ops[..last] + [ops[last]];
      forall n, k
        ensures t.State(n, k) == RunKind(old(t.State(n, k)), Project(ops, n, k))
      {
        RunLast(old(t.State(n, k)), ops[..last], ops[last], n, k);
      }
      forall n
        ensures t.Arglist(n) == ListAfter(old(t.Arglist(n)), old(t.Stacks(n)), old(t.Pinned(n)), ops, n)
      {
        t.InTable(n);
        ListLast(old(t.Arglist(n)), old(t.Stacks(n)), old(t.Pinned(n)), ops[..last], ops[last], n, n in t.table);
      }
    }
  }

  lemma NoOps()
    ensures forall st :: RunKind(st, []) == st
    ensures forall name, kind :: Project([], name, kind) == []
    ensures forall list, st, pinned, name :: ListAfter(list, st, pinned, [], name) == list
  {
  }

  lemma ListLast(list: Option<string>, st: Stacks, pinned: bool, ops: seq<Op>, op: Op, name: string, present: bool)
    requires present <==> pinned || exists kind :: RunKind(st.Of(kind), Project(ops + [op], name, kind)) != EMPTY
    ensures ListAfter(list, st, pinned, ops + [op], name) ==
      if present then NewList(op, name, ListAfter(list, st, pinned, ops, name)) else None
  {
    assert (ops + [op])[..|ops|] == ops && (ops + [op])[|ops|] == op;
  }

  // ----- the argument list over a push and its pop -----

  /** What the last alias or deletion of a command in the run set its argument list to, if there is one. */
  function LastList(ops: seq<Op>, name: string): Option<Option<string>>
    decreases |ops|
  {
    if ops == [] then None else
      var op := ops[|ops| - 1];
      if op.name == name && op.Alias? then Some(op.args)
      else if op.name == name && op.kind == Command && op.action == Assign(NOTHING) then Some(None)
      else LastList(ops[..|ops| - 1], name)
  }

  /** As long as the symbol is in use throughout, the list is the one last set. */
  lemma {:induction false} ListKept(list: Option<string>, st: Stacks, pinned: bool, front: seq<Op>, ops: seq<Op>, name: string)
    requires forall i :: 0 < i <= |ops| ==> InUse(st, front + ops[..i], name)
    ensures ListAfter(list, st, pinned, front + ops, name) ==
      if LastList(ops, name).None? then ListAfter(list, st, pinned, front, name) else LastList(ops, name).value
    decreases |ops|
  {
    hide InUse;
    if ops == [] {
      assert front + ops == front;
    } else {
      var n := |ops| - 1;
      var less, all := ops[..n], front + ops;
      assert forall i :: 0 < i <= n ==> less[..i] == ops[..i];
      ListKept(list, st, pinned, front, less, name);
      assert ops[..n + 1] == ops && InUse(st, all, name);
      assert all[..|front| + n] == front + less && all[|front| + n] == ops[n];
      ListStep(list, st, pinned, all, name);
      hide ListAfter;
    }
  }

  lemma ListStep(list: Option<string>, st: Stacks, pinned: bool, ops: seq<Op>, name: string)
    requires ops != [] && InUse(st, ops, name)
    ensures ListAfter(list, st, pinned, ops, name) ==
      NewList(ops[|ops| - 1], name, ListAfter(list, st, pinned, ops[..|ops| - 1], name))
  {
  }

  lemma {:induction false} ProjectConcat(a: seq<Op>, b: seq<Op>, name: string, kind: Kind)
    ensures Project(a + b, name, kind) == Project(a, name, kind) + Project(b, name, kind)
    decreases |b|
  {
    if b == [] {
      assert a + b == a;
    } else {
      var n := |b| - 1;
      ProjectConcat(a, b[..n], name, kind);
      ProjectLast(a + b[..n], b[n], name, kind);
      ProjectLast(b[..n], b[n], name, kind);
      assert a + b == a + b[..n] + [b[n]] && b == b[..n] + [b[n]];
    }
  }

  lemma ProjectOne(op: Op)
    ensures Project([op], op.name, KindOf(op)) == [ActionOf(op)]
  {
    assert [op][1..] == [];
    assert Project([], op.name, KindOf(op)) == [];
  }

  /** Between a push and its pop the symbol is never collected: the record is there. */
  lemma InUseBetween(st: Stacks, between: seq<Op>, name: string, i: nat)
    requires Balanced(Project(between, name, Command), 0) && i <= |between|
    ensures InUse(st, [Op(name, Command, Push)] + between[..i], name)
  {
    var push, ops := Op(name, Command, Push), between[..i];
    var pushed := Step(st.command, Push);
    assert between == ops + between[i..];
    ProjectConcat(ops, between[i..], name, Command);
    ProjectConcat([push], ops, name, Command);
    ProjectOne(push);
    var own := Project(ops, name, Command);
    BalancedStaysAbove(pushed, own, Project(between[i..], name, Command), 0);
    assert ([Push] + own)[1..] == own;
    assert RunKind(st.Of(Command), [Push] + own) == RunKind(pushed, own);
  }

  /**
    After a push, any run that is balanced for that command, and the pop, the
    argument list is the one last set in between, or the old one if none was,
    unless the pop leaves nothing of the symbol; nothing takes it back.
   */
  lemma ListAfterPop(list: Option<string>, st: Stacks, pinned: bool, between: seq<Op>, name: string)
    requires Balanced(Project(between, name, Command), 0)
    ensures var ops := [Op(name, Command, Push)] + between + [Op(name, Command, Pop)];
      RunKind(st.command, Project(ops, name, Command)) == st.command && (st.command != EMPTY ==> InUse(st, ops, name)) &&
      ListAfter(list, st, pinned, ops, name) ==
        if !pinned && !InUse(st, ops, name) then None
        else if LastList(between, name).None? then list else LastList(between, name).value
  {
    var push, pop := Op(name, Command, Push), Op(name, Command, Pop);
    var ops := [push] + between + [pop];
    ProjectOne(push);
    ProjectOne(pop);
    ProjectConcat([push], between, name, Command);
    ProjectConcat([push] + between, [pop], name, Command);
    MatchedPopRestores(st.command, Project(between, name, Command));
    assert st.Of(Command) == st.command;
    assert st.command != EMPTY ==> InUse(st, ops, name);
    hide InUse;
    hide RunKind;
    hide Project;
    assert [push] + between[..0] == [push];
    forall i | 0 <= i <= |between|
      ensures InUse(st, [push] + between[..i], name)
    {
      InUseBetween(st, between, name, i);
    }
    PushKeeps(list, st, pinned, name);
    ListKept(list, st, pinned, [push], between, name);
    assert ops[..|ops| - 1] == [push] + between;
  }

  lemma PushKeeps(list: Option<string>, st: Stacks, pinned: bool, name: string)
    requires InUse(st, [Op(name, Command, Push)], name)
    ensures ListAfter(list, st, pinned, [Op(name, Command, Push)], name) == list
  {
    hide InUse;
    var ops := [Op(name, Command, Push)];
    assert ops[..0] == [];
    assert ListAfter(list, st, pinned, [], name) == list;
  }

  /**
    A pop gives a command, its stub mark and its package back after any run that
    pops what it pushed. The argument list is right again exactly if no alias and no
    deletion of the command came in between, or the last of them left the same list.
   */
  method ArglistAfterPop(t: SymbolTable, name: string, between: seq<Op>)
    requires t.Valid()
    requires Balanced(Project(between, name, Command), 0) && forall i :: 0 <= i < |between| ==> Allowed(between[i])
    modifies t, t.table.Values
    ensures t.Valid() && t.State(name, Command) == old(t.State(name, Command))
    ensures t.Arglist(name) ==
      if name !in t.table then None
      else if LastList(between, name).None? then old(t.Arglist(name)) else LastList(between, name).value
    ensures old(t.State(name, Command)).value.body.Some? ==> name in t.table && (t.Arglist(name) == old(t.Arglist(name)) <==>
      LastList(between, name) == None || LastList(between, name) == Some(old(t.Arglist(name))))
  {
    var ops := [Op(name, Command, Push)] + between + [Op(name, Command, Pop)];
    ListAfterPop(t.Arglist(name), t.Stacks(name), t.Pinned(name), between, name);
    hide ListAfter;
    hide RunKind;
    hide Project;
    Run(t, ops);
    t.InTable(name);
  }

  /** The shortest such run: one alias, which leaves its own argument list behind. */
  method ArglistAfterAlias(t: SymbolTable, name: string, args: Option<string>, stuff: string, package: Option<string>)
    requires t.Valid() && t.State(name, Command).value.body.Some?
    modifies t, t.table.Values
    ensures t.Valid() && name in t.table && t.Arglist(name) == args
    ensures t.State(name, Command) == old(t.State(name, Command))
  {
    var alias := Alias(name, args, Content(Some(stuff), false, package));
    ProjectOne(alias);
    assert [ActionOf(alias)][1..] == [];
    ArglistAfterPop(t, name, [alias]);
  }
}
