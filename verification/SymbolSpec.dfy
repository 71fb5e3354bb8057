/**
  The stacks of alias.c as they are meant: each kind of value of a symbol has a
  stack of its own.
 */
module SymbolSpec {
  import opened JsonValues

  /** The kinds of value that can be pushed. */
  datatype Kind = Variable | Command | Function | Expando

  /** A value of any kind: its text (or which function it is), whether it is a stub, and its package. */
  datatype Content = Content(body: Option<string>, stub: bool, package: Option<string>)

  const NOTHING := Content(None, false, None)

  /** Where there is no text there is no stub and no package. */
  predicate Sound(v: Content) {
    v.body.None? ==> v == NOTHING
  }

  /** One record of the `saved` chain: the fields of a symbol, of which only the hinted kind's are set. */
  datatype Saved = Saved(hint: Kind, variable: Content, command: Content, arglist: Option<string>,
                         builtinFunction: Option<string>, builtinExpando: Option<string>)

  function SavedValue(s: Saved): Content {
    match s.hint
    case Variable => s.variable
    case Command => s.command
    case Function => Content(s.builtinFunction, false, None)
    case Expando => Content(s.builtinExpando, false, None)
  }

  predicate SoundRecord(s: Saved) {
    Sound(SavedValue(s)) &&
    (s.hint != Variable ==> s.variable == NOTHING) && (s.hint != Command ==> s.command == NOTHING && s.arglist == None) &&
    (s.hint != Function ==> s.builtinFunction == None) && (s.hint != Expando ==> s.builtinExpando == None)
  }

  /** The records of one kind, the latest first. */
  function StackOf(saved: seq<Saved>, kind: Kind): seq<Content> {
    if saved == [] then []
    else (if saved[0].hint == kind then [SavedValue(saved[0])] else []) + StackOf(saved[1..], kind)
  }

  lemma StackPush(s: Saved, saved: seq<Saved>, kind: Kind)
    ensures StackOf([s] + saved, kind) == (if s.hint == kind then [SavedValue(s)] else []) + StackOf(saved, kind)
  {
    assert ([s] + saved)[1..] == saved;
  }

  /** The first record of a kind is the top of that stack, and unlinking it touches no other. */
  lemma {:induction false} StackUnlink(saved: seq<Saved>, i: nat, kind: Kind)
    requires i < |saved| && forall k :: 0 <= k < i ==> saved[k].hint != saved[i].hint
    ensures StackOf(saved, saved[i].hint) != [] && StackOf(saved, saved[i].hint)[0] == SavedValue(saved[i])
    ensures StackOf(saved[..i] + saved[i + 1..], kind) ==
      if kind == saved[i].hint then StackOf(saved, kind)[1..] else StackOf(saved, kind)
    decreases i
  {
    if i == 0 {
      assert saved[..0] + saved[1..] == saved[1..];
      assert StackOf(saved, saved[0].hint)[1..] == StackOf(saved[1..], saved[0].hint);
    } else {
      var rest := saved[1..];
      StackUnlink(rest, i - 1, kind);
      assert saved[..i] + saved[i + 1..] == [saved[0]] + (rest[..i - 1] + rest[i..]);
      StackPush(saved[0], rest[..i - 1] + rest[i..], kind);
    }
  }

  lemma {:induction false} NoneOfKind(saved: seq<Saved>, kind: Kind)
    ensures StackOf(saved, kind) == [] <==> forall k :: 0 <= k < |saved| ==> saved[k].hint != kind
  {
    if saved != [] {
      NoneOfKind(saved[1..], kind);
      assert forall k :: 0 < k < |saved| ==> saved[k] == saved[1..][k - 1];
    }
  }

  // ----- one kind on its own -----

  datatype Action = Push | Pop | Assign(value: Content)

  datatype KindState = KindState(value: Content, stack: seq<Content>)

  const EMPTY := KindState(NOTHING, [])

  /** What one name holds of each kind. */
  datatype Stacks = Stacks(variable: KindState, command: KindState, function': KindState, expando: KindState) {
    function Of(kind: Kind): KindState {
      match kind
      case Variable => variable
      case Command => command
      case Function => function'
      case Expando => expando
    }
  }

  function Step(st: KindState, a: Action): KindState {
    match a
    case Push => KindState(st.value, [st.value] + st.stack)
    case Pop => if st.stack == [] then st else KindState(st.stack[0], st.stack[1..])
    case Assign(v) => KindState(v, st.stack)
  }

  function RunKind(st: KindState, actions: seq<Action>): KindState
    decreases |actions|
  {
    if actions == [] then st else RunKind(Step(st, actions[0]), actions[1..])
  }

  /** As many pops as pushes, and at no point more pops than pushes: depth is how many are open. */
  predicate Balanced(actions: seq<Action>, depth: nat)
    decreases |actions|
  {
    if actions == [] then depth == 0
    else match actions[0]
      case Push => Balanced(actions[1..], depth + 1)
      case Pop => depth > 0 && Balanced(actions[1..], depth - 1)
      case Assign(_) => Balanced(actions[1..], depth)
  }

  /** Balanced actions leave what was on the stack before them. */
  lemma {:induction false} BalancedKeepsStack(st: KindState, actions: seq<Action>, depth: nat)
    requires depth <= |st.stack| && Balanced(actions, depth)
    ensures RunKind(st, actions).stack == st.stack[depth..]
    decreases |actions|
  {
    if actions != [] {
      match actions[0]
      case Push =>
        BalancedKeepsStack(Step(st, Push), actions[1..], depth + 1);
      case Pop =>
        BalancedKeepsStack(Step(st, Pop), actions[1..], depth - 1);
      case Assign(v) =>
        BalancedKeepsStack(Step(st, actions[0]), actions[1..], depth);
    }
  }

  /** Nor do they ever go below it on the way. */
  lemma {:induction false} BalancedStaysAbove(st: KindState, actions: seq<Action>, rest: seq<Action>, depth: nat)
    requires depth <= |st.stack| && Balanced(actions + rest, depth)
    ensures |RunKind(st, actions).stack| >= |st.stack| - depth
    decreases |actions|
  {
    if actions != [] {
      assert (actions + rest)[0] == actions[0] && (actions + rest)[1..] == actions[1..] + rest;
      BalancedStaysAbove(Step(st, actions[0]), actions[1..], rest,
                         if actions[0].Push? then depth + 1 else if actions[0].Pop? then depth - 1 else depth);
    }
  }

  lemma {:induction false} RunAppend(st: KindState, a: seq<Action>, b: seq<Action>)
    ensures RunKind(st, a + b) == RunKind(RunKind(st, a), b)
    decreases |a|
  {
    if a == [] {
      assert a + b == b;
    } else {
      assert (a + b)[1..] == a[1..] + b;
      RunAppend(Step(st, a[0]), a[1..], b);
    }
  }

  /** A pop restores the value and the stack of the push it matches. */
  lemma MatchedPopRestores(st: KindState, between: seq<Action>)
    requires Balanced(between, 0)
    ensures RunKind(st, [Push] + between + [Pop]) == st
  {
    var pushed := Step(st, Push);
    assert ([Push] + between + [Pop])[1..] == between + [Pop];
    RunAppend(pushed, between, [Pop]);
    BalancedKeepsStack(pushed, between, 0);
    var last := RunKind(pushed, between);
    assert [Pop][1..] == [];
    assert RunKind(last, [Pop]) == RunKind(Step(last, Pop), []);
  }
}
