/**
 * The bookkeeping of the random JavaScript program generator: a stack of
 * scopes of declared identifiers (the global scope at the bottom), the type
 * chosen for each identifier, and the set of global functions for which a
 * call still has to be appended to the program.
 */
module ScopeStacks {

  /** `ID_TYPES`. */
  datatype IdType = Func | Obj | Const

  /** What `calls_left_to_add` gives the grammar: `""` when no call is left, `None` otherwise, or the `KeyError` of an identifier without a type. */
  datatype CallsLeft = NoCallsLeft | CallsPending | MissingType(identifier: string)

  /** What `get_next_call` gives: `False` when no call is left, the call, or the `KeyError` of a call no longer in the global scope. */
  datatype NextCall = NoCall | Call(name: string) | NotInGlobalScope(name: string)

  /** The module-level state `SCOPE_STACK`, `ID_TYPE_MAP`, `CALLS_TO_ADD` and `is_calls_to_add_initialized`. */
  class ScopeStack {
    /** Bottom (global scope) first, innermost scope last. */
    var scopes: seq<set<string>>
    var idTypes: map<string, IdType>
    var callsToAdd: set<string>
    var callsInitialized: bool

    /** The stack always holds the global scope. */
    ghost predicate Valid()
      reads this
    {
      |scopes| >= 1
    }

    /** The innermost scope, `SCOPE_STACK[-1]`. */
    function Top(): (r: set<string>)
      reads this
      requires Valid()
      ensures r == scopes[|scopes| - 1]
    {
      scopes[|scopes| - 1]
    }

    /** The global functions: identifiers of the global scope whose type is `FUNC`. */
    function GlobalFunctions(): (r: set<string>)
      reads this
      requires Valid()
      ensures forall id :: id in r <==> id in scopes[0] && id in idTypes && idTypes[id] == Func
    {
      set id | id in scopes[0] && id in idTypes && idTypes[id] == Func
    }

    /** Every identifier of the global scope has a type, so looking its type up cannot fail. */
    predicate GlobalsTyped()
      reads this
      requires Valid()
    {
      forall id :: id in scopes[0] ==> id in idTypes
    }

    /** The initial state, which `reset` also restores. */
    constructor()
      ensures Valid() && scopes == [{}] && idTypes == map[] && callsToAdd == {} && !callsInitialized
    {
      scopes := [{}];
      idTypes := map[];
      callsToAdd := {};
      callsInitialized := false;
    }

    /** `reset`: a single empty scope, no types, no pending calls. */
    method Reset()
      modifies this
      ensures Valid() && scopes == [{}] && idTypes == map[] && callsToAdd == {} && !callsInitialized
    {
      scopes := [{}];
      idTypes := map[];
      callsToAdd := {};
      callsInitialized := false;
    }

    /** `add_scope`: pushes an empty scope. */
    method AddScope()
      requires Valid()
      modifies this
      ensures Valid() && scopes == old(scopes) + [{}] && Top() == {}
      ensures idTypes == old(idTypes) && callsToAdd == old(callsToAdd) && callsInitialized == old(callsInitialized)
    {
      scopes := scopes + [{}];
    }

    /**
     * `remove_scope`: pops the innermost scope unless it is the global one,
     * then declares the name of the closed function in the scope below.
     */
    method RemoveScope(scope: string)
      requires Valid()
      modifies this
      ensures Valid()
      ensures |old(scopes)| == 1 ==> scopes == [old(scopes)[0] + {scope}]
      ensures |old(scopes)| > 1 ==>
        scopes == old(scopes)[..|old(scopes)| - 2] + [old(scopes)[|old(scopes)| - 2] + {scope}]
      ensures scope in Top()
      ensures idTypes == old(idTypes) && callsToAdd == old(callsToAdd) && callsInitialized == old(callsInitialized)
    {
      if |scopes| == 1 {
        scopes := [scopes[0] + {scope}];
        return;
      }
      scopes := scopes[..|scopes| - 1];
      scopes := scopes[..|scopes| - 1] + [scopes[|scopes| - 1] + {scope}];
    }

    /** `remove_anonymous_scope`: pops the innermost scope unless it is the global one; always answers true. */
    method RemoveAnonymousScope() returns (b: bool)
      requires Valid()
      modifies this
      ensures b
      ensures Valid()
      ensures |old(scopes)| == 1 ==> scopes == old(scopes)
      ensures |old(scopes)| > 1 ==> scopes == old(scopes)[..|old(scopes)| - 1]
      ensures idTypes == old(idTypes) && callsToAdd == old(callsToAdd) && callsInitialized == old(callsInitialized)
    {
      if |scopes| == 1 {
        return true;
      }
      scopes := scopes[..|scopes| - 1];
      return true;
    }

    /**
     * `add_identifier`, `add_function_identifier` and `add_const_identifier`:
     * declares the identifier in the innermost scope with the given type
     * (`add_identifier` draws the type at random; here it is the argument).
     */
    method AddIdentifier(identifier: string, idType: IdType)
      requires Valid()
      modifies this
      ensures Valid() && |scopes| == |old(scopes)|
      ensures scopes == old(scopes)[..|old(scopes)| - 1] + [old(scopes)[|old(scopes)| - 1] + {identifier}]
      ensures idTypes == old(idTypes)[identifier := idType]
      ensures callsToAdd == old(callsToAdd) && callsInitialized == old(callsInitialized)
    {
      scopes := scopes[..|scopes| - 1] + [Top() + {identifier}];
      idTypes := idTypes[identifier := idType];
    }

    /** `add_function_identifier`. */
    method AddFunctionIdentifier(identifier: string)
      requires Valid()
      modifies this
      ensures Valid() && identifier in Top() && idTypes == old(idTypes)[identifier := Func]
      ensures scopes == old(scopes)[..|old(scopes)| - 1] + [old(scopes)[|old(scopes)| - 1] + {identifier}]
      ensures callsToAdd == old(callsToAdd) && callsInitialized == old(callsInitialized)
    {
      AddIdentifier(identifier, Func);
    }

    /** `add_const_identifier`. */
    method AddConstIdentifier(identifier: string)
      requires Valid()
      modifies this
      ensures Valid() && identifier in Top() && idTypes == old(idTypes)[identifier := Const]
      ensures scopes == old(scopes)[..|old(scopes)| - 1] + [old(scopes)[|old(scopes)| - 1] + {identifier}]
      ensures callsToAdd == old(callsToAdd) && callsInitialized == old(callsInitialized)
    {
      AddIdentifier(identifier, Const);
    }

    /** `remove_identifier`: removes the identifier from the innermost scope; a missing one is ignored. Its type stays. */
    method RemoveIdentifier(identifier: string)
      requires Valid()
      modifies this
      ensures Valid() && |scopes| == |old(scopes)|
      ensures scopes == old(scopes)[..|old(scopes)| - 1] + [old(scopes)[|old(scopes)| - 1] - {identifier}]
      ensures identifier !in Top()
      ensures identifier !in old(Top()) ==> scopes == old(scopes)
      ensures idTypes == old(idTypes) && callsToAdd == old(callsToAdd) && callsInitialized == old(callsInitialized)
    {
      if identifier !in Top() {
        assert Top() - {identifier} == Top();
        assert scopes == scopes[..|scopes| - 1] + [Top() - {identifier}];
        return;
      }
      scopes := scopes[..|scopes| - 1] + [Top() - {identifier}];
    }

    /**
     * `calls_left_to_add`: on its first use, adds every global function to
     * the pending calls (looking up the type of each global identifier, in
     * no fixed order, which raises for an identifier without one); then
     * reports whether any call is pending.
     */
    method CallsLeftToAdd() returns (outcome: CallsLeft)
      requires Valid()
      modifies this
      ensures Valid() && scopes == old(scopes) && idTypes == old(idTypes)
      ensures old(callsInitialized) ==> callsInitialized && callsToAdd == old(callsToAdd)
      ensures !old(callsInitialized) && GlobalsTyped() ==>
        callsInitialized && callsToAdd == old(callsToAdd) + GlobalFunctions()
      ensures !outcome.MissingType? ==> callsInitialized
      ensures !old(callsInitialized) && !GlobalsTyped() <==> outcome.MissingType?
      ensures outcome.MissingType? ==>
        outcome.identifier in scopes[0] && outcome.identifier !in idTypes && !callsInitialized &&
        old(callsToAdd) <= callsToAdd <= old(callsToAdd) + GlobalFunctions()
      ensures outcome.NoCallsLeft? <==> !outcome.MissingType? && callsToAdd == {}
    {
      if !callsInitialized {
        var typed, missing := AddGlobalFunctions();
        if !typed {
          return MissingType(missing);
        }
        callsInitialized := true;
      }
      if callsToAdd == {} {
        return NoCallsLeft;
      }
      return CallsPending;
    }

    /**
     * The loop of `calls_left_to_add`: adds the global functions to the
     * pending calls, visiting the global identifiers in no fixed order and
     * stopping at the first one without a type.
     */
    method AddGlobalFunctions() returns (typed: bool, missing: string)
      requires Valid()
      modifies this
      ensures scopes == old(scopes) && idTypes == old(idTypes) && callsInitialized == old(callsInitialized)
      ensures typed <==> GlobalsTyped()
      ensures typed ==> callsToAdd == old(callsToAdd) + GlobalFunctions()
      ensures !typed ==> missing in scopes[0] && missing !in idTypes
      ensures !typed ==> old(callsToAdd) <= callsToAdd <= old(callsToAdd) + GlobalFunctions()
    {
      var remaining := scopes[0];
      ghost var functions := GlobalFunctions();
      while remaining != {}
        invariant scopes == old(scopes) && idTypes == old(idTypes) && callsInitialized == old(callsInitialized)
        invariant remaining <= scopes[0]
        invariant forall id :: id in scopes[0] && id !in remaining ==> id in idTypes
        invariant callsToAdd == old(callsToAdd) + (functions - remaining)
        decreases |remaining|
      {
        var identifier :| identifier in remaining;
        if identifier !in idTypes {
          assert functions == GlobalFunctions();
          return false, identifier;
        }
        var next := remaining - {identifier};
        if idTypes[identifier] == Func {
          assert functions - next == (functions - remaining) + {identifier};
          callsToAdd := callsToAdd + {identifier};
        } else {
          assert functions - next == functions - remaining;
        }
        remaining := next;
      }
      assert functions - remaining == GlobalFunctions();
      return true, "";
    }

    /**
     * `get_next_call`: takes any pending call and removes it from the
     * pending calls and then from the global scope, which raises when the
     * name is no longer declared there.
     */
    method GetNextCall() returns (next: NextCall)
      requires Valid()
      modifies this
      ensures Valid() && |scopes| == |old(scopes)| && idTypes == old(idTypes) && callsInitialized == old(callsInitialized)
      ensures next.NoCall? <==> old(callsToAdd) == {}
      ensures next.NoCall? ==> callsToAdd == {} && scopes == old(scopes)
      ensures next.Call? ==>
        next.name in old(callsToAdd) && next.name in old(scopes)[0] &&
        callsToAdd == old(callsToAdd) - {next.name} &&
        scopes == [old(scopes)[0] - {next.name}] + old(scopes)[1..]
      ensures next.NotInGlobalScope? ==>
        next.name in old(callsToAdd) && next.name !in old(scopes)[0] &&
        callsToAdd == old(callsToAdd) - {next.name} && scopes == old(scopes)
    {
      if callsToAdd == {} {
        return NoCall;
      }
      var call :| call in callsToAdd;
      callsToAdd := callsToAdd - {call};
      if call !in scopes[0] {
        return NotInGlobalScope(call);
      }
      scopes := [scopes[0] - {call}] + scopes[1..];
      return Call(call);
    }
  }

  /** Opening a function's scope and closing it declares the function in the enclosing scope and leaves the outer scopes as they were. */
  method ScopeRoundTrip(stack: ScopeStack, name: string)
    requires stack.Valid()
    modifies stack
    ensures stack.Valid()
    ensures stack.scopes == old(stack.scopes)[..|old(stack.scopes)| - 1] + [old(stack.scopes)[|old(stack.scopes)| - 1] + {name}]
    ensures stack.idTypes == old(stack.idTypes)
  {
    stack.AddScope();
    stack.RemoveScope(name);
  }

  /** Opening an anonymous function's scope and closing it leaves the stack as it was. */
  method AnonymousScopeRoundTrip(stack: ScopeStack) returns (b: bool)
    requires stack.Valid()
    modifies stack
    ensures b && stack.Valid() && stack.scopes == old(stack.scopes) && stack.idTypes == old(stack.idTypes)
  {
    stack.AddScope();
    b := stack.RemoveAnonymousScope();
  }

  /** A call is appended for every global function exactly once: after initialisation, draining the pending calls removes every global function from the global scope. */
  method AddAllCalls(stack: ScopeStack) returns (calls: set<string>)
    requires stack.Valid() && stack.GlobalsTyped() && !stack.callsInitialized && stack.callsToAdd == {} && |stack.scopes| == 1
    modifies stack
    ensures stack.Valid() && stack.callsToAdd == {}
    ensures calls == old(stack.GlobalFunctions())
    ensures stack.scopes == [old(stack.scopes)[0] - calls]
  {
    var outcome := stack.CallsLeftToAdd();
    calls := {};
    ghost var functions := stack.GlobalFunctions();
    assert old(stack.scopes)[0] - calls == stack.scopes[0];
    assert stack.scopes == [old(stack.scopes)[0] - calls];
    while true
      invariant stack.Valid() && |stack.scopes| == 1 && stack.idTypes == old(stack.idTypes)
      invariant calls !! stack.callsToAdd && calls + stack.callsToAdd == functions
      invariant stack.callsToAdd <= stack.scopes[0]
      invariant stack.scopes == [old(stack.scopes)[0] - calls]
      decreases |stack.callsToAdd|
    {
      var next := stack.GetNextCall();
      if next.NoCall? {
        break;
      }
      if next.NotInGlobalScope? {
        assert false;
      }
      calls := calls + {next.name};
      assert stack.scopes[0] == old(stack.scopes)[0] - calls;
      assert stack.scopes == [old(stack.scopes)[0] - calls];
    }
  }
}
