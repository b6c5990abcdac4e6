/** The coroutine environment of a thread: the call stack of coroutines, and the pool of stack
    contexts that finished coroutines leave behind. */
module Coroutines {

  type Id = nat

  /** A stack context; allocations are numbered. */
  type Stack = nat

  datatype Slot = Free | Holds(stack: Stack)

  /** `_runtime` and `_context` of a coroutine. */
  datatype Coroutine = Coroutine(running: bool, exit: bool, context: Slot)

  /** Who owns a stack context. */
  datatype Owner = ByCoroutine(id: Id) | InPool(index: nat)

  const MAIN: Id := 0
  const POOL_SIZE := 255

  class Environment {
    var coroutines: map<Id, Coroutine>
    var cStack: seq<Id>
    var recycleStack: array<Slot>
    var recycleTop: nat
    var made: nat                       // stack contexts allocated so far
    ghost var owners: map<Stack, Owner>

    /** Every stack context has exactly one owner. */
    ghost predicate OneOwner()
      reads this`coroutines, this`recycleStack, this`made, this`owners, recycleStack
    {
      && (forall s: Stack :: s in owners <==> s < made)
      && (forall s :: s in owners ==> OwnerHolds(s, owners[s]))
      && (forall id :: id in coroutines && coroutines[id].context.Holds? ==>
            coroutines[id].context.stack in owners
            && owners[coroutines[id].context.stack] == ByCoroutine(id))
      && (forall k :: 0 <= k < recycleStack.Length && recycleStack[k].Holds? ==>
            recycleStack[k].stack in owners && owners[recycleStack[k].stack] == InPool(k))
    }

    ghost predicate OwnerHolds(s: Stack, o: Owner)
      reads this`coroutines, this`recycleStack, recycleStack
    {
      match o
      case ByCoroutine(id) => id in coroutines && coroutines[id].context == Holds(s)
      case InPool(k) => k < recycleStack.Length && recycleStack[k] == Holds(s)
    }

    /** The pool is filled exactly below its top. */
    ghost predicate PoolFilled()
      reads this`recycleStack, this`recycleTop, recycleStack
    {
      && recycleStack.Length == POOL_SIZE && recycleTop <= POOL_SIZE
      && forall k :: 0 <= k < POOL_SIZE ==> (recycleStack[k].Holds? <==> k < recycleTop)
    }

    /** Main is at the bottom of the call stack, every coroutine is on it at most once, and whatever
        is above main has started and has not exited. */
    ghost predicate StackOrdered()
      reads this`coroutines, this`cStack
    {
      && |cStack| > 0 && cStack[0] == MAIN && MAIN in coroutines
      && (forall i, j :: 0 <= i < j < |cStack| ==> cStack[i] != cStack[j])
      && (forall i :: 0 < i < |cStack| ==> cStack[i] in coroutines && coroutines[cStack[i]].running)
      && coroutines[MAIN].context.Holds? && !coroutines[MAIN].running && !coroutines[MAIN].exit
    }

    /** A running coroutine has a context and has not exited; one that has not started has none. */
    ghost predicate FlagsAgree()
      reads this`coroutines
    {
      forall id :: id in coroutines && id != MAIN ==>
        && (coroutines[id].running ==> coroutines[id].context.Holds? && !coroutines[id].exit)
        && (!coroutines[id].running && !coroutines[id].exit ==> coroutines[id].context.Free?)
    }

    ghost predicate Valid()
      reads this, recycleStack
    {
      OneOwner() && PoolFilled() && StackOrdered() && FlagsAgree()
    }

    constructor ()
      ensures Valid() && cStack == [MAIN] && coroutines.Keys == {MAIN} && fresh(recycleStack)
    {
      coroutines := map[MAIN := Coroutine(false, false, Holds(0))];
      cStack := [MAIN];
      recycleStack := new Slot[POOL_SIZE](_ => Free);
      recycleTop := 0;
      made := 1;
      owners := map[0 := ByCoroutine(MAIN)];
    }

    method Create(id: Id)
      requires Valid() && id !in coroutines
      modifies this`coroutines
      ensures Valid() && coroutines == old(coroutines)[id := Coroutine(false, false, Free)]
    {
      coroutines := coroutines[id := Coroutine(false, false, Free)];
    }

    /** The context that the next new coroutine gets: the one pooled last, else a new one. */
    ghost function NextContext(): Slot
      reads this`recycleStack, this`recycleTop, this`made, recycleStack
      requires PoolFilled()
    {
      if recycleTop > 0 then recycleStack[recycleTop - 1] else Holds(made)
    }

    /** The context for a coroutine's first resume: from the pool if there is one, else a new one. */
    method Provide(id: Id)
      requires OneOwner() && PoolFilled() && id in coroutines && coroutines[id].context.Free?
      modifies this`coroutines, this`recycleTop, this`made, this`owners, recycleStack
      ensures OneOwner() && PoolFilled()
      ensures coroutines == old(coroutines)[id := old(coroutines[id]).(context := old(NextContext()))]
      ensures old(recycleTop) > 0 ==> recycleTop == old(recycleTop) - 1 && made == old(made)
      ensures old(recycleTop) == 0 ==> recycleTop == 0 && made == old(made) + 1
    {
      if recycleTop > 0 {
        recycleTop := recycleTop - 1;
        var up := recycleStack[recycleTop];
        recycleStack[recycleTop] := Free;
        coroutines := coroutines[id := coroutines[id].(context := up)];
        owners := owners[up.stack := ByCoroutine(id)];
      } else {
        coroutines := coroutines[id := coroutines[id].(context := Holds(made))];
        owners := owners[made := ByCoroutine(id)];
        made := made + 1;
      }
    }

    /** The first resume of a coroutine. */
    method Start(id: Id)
      requires OneOwner() && PoolFilled() && FlagsAgree()
      requires id in coroutines && id != MAIN && !coroutines[id].running && !coroutines[id].exit
      modifies this`coroutines, this`recycleTop, this`made, this`owners, recycleStack
      ensures OneOwner() && PoolFilled() && FlagsAgree()
      ensures coroutines == old(coroutines)[id := Coroutine(true, false, old(NextContext()))]
    {
      Provide(id);
      coroutines := coroutines[id := coroutines[id].(running := true)];
    }

    /** `Coroutine::resume` of a coroutine that is not on the call stack.  An exited coroutine is not
        entered. */
    method Resume(id: Id)
      requires Valid() && id in coroutines && id !in cStack
      modifies this`coroutines, this`cStack, this`recycleTop, this`made, this`owners, recycleStack
      ensures Valid()
      ensures cStack == if old(coroutines[id].exit) then old(cStack) else old(cStack) + [id]
      ensures old(coroutines[id].exit || coroutines[id].running) ==>
                coroutines == old(coroutines) && recycleTop == old(recycleTop) && made == old(made)
      ensures !old(coroutines[id].exit || coroutines[id].running) ==>
                coroutines == old(coroutines)[id := Coroutine(true, false, old(NextContext()))]
    {
      if coroutines[id].exit {
        return;
      }
      if !coroutines[id].running {
        Start(id);
      }
      cStack := cStack + [id];
    }

    /** `Coroutine::yield`, called by a coroutine other than main. */
    method Yield()
      requires Valid() && |cStack| > 1
      modifies this`cStack
      ensures Valid() && cStack == old(cStack)[..|old(cStack)| - 1]
    {
      cStack := cStack[..|cStack| - 1];
    }

    /** Flips EXIT and RUNNING, and recycles the context if there is room. */
    method Exit(id: Id)
      requires OneOwner() && PoolFilled() && FlagsAgree()
      requires id in coroutines && id != MAIN && coroutines[id].running
      modifies this`coroutines, this`recycleTop, this`owners, recycleStack
      ensures OneOwner() && PoolFilled() && FlagsAgree()
      ensures var context := old(coroutines)[id].context;
              var pooled := old(recycleTop) < POOL_SIZE;
              && coroutines == old(coroutines)[id := Coroutine(false, true, if pooled then Free else context)]
              && recycleTop == (if pooled then old(recycleTop) + 1 else POOL_SIZE)
              && (pooled ==> recycleStack[old(recycleTop)] == context)
    {
      var c := coroutines[id];
      coroutines := coroutines[id := c.(exit := !c.exit, running := !c.running)];
      if recycleTop != POOL_SIZE {
        Recycle(id);
      }
    }

    /** The end of `routineWrapper`: flips EXIT and RUNNING, recycles the context if there is room,
        and yields for the last time. */
    method Finish()
      requires Valid() && |cStack| > 1
      modifies this`coroutines, this`cStack, this`recycleTop, this`owners, recycleStack
      ensures Valid()
      ensures cStack == old(cStack)[..|old(cStack)| - 1]
      ensures var id := old(cStack)[|old(cStack)| - 1];
              var context := old(coroutines)[id].context;
              var pooled := old(recycleTop) < POOL_SIZE;
              && coroutines == old(coroutines)[id := Coroutine(false, true, if pooled then Free else context)]
              && recycleTop == (if pooled then old(recycleTop) + 1 else POOL_SIZE)
              && (pooled ==> recycleStack[old(recycleTop)] == context)
    {
      var id := cStack[|cStack| - 1];
      Exit(id);
      cStack := cStack[..|cStack| - 1];
    }

    method Recycle(id: Id)
      requires OneOwner() && PoolFilled() && recycleTop < POOL_SIZE
      requires id in coroutines && coroutines[id].context.Holds?
      modifies this`coroutines, this`recycleTop, this`owners, recycleStack
      ensures OneOwner() && PoolFilled() && recycleTop == old(recycleTop) + 1
      ensures coroutines == old(coroutines)[id := old(coroutines[id]).(context := Free)]
      ensures recycleStack[old(recycleTop)] == old(coroutines[id].context)
    {
      var trash := coroutines[id].context;
      coroutines := coroutines[id := coroutines[id].(context := Free)];
      recycleStack[recycleTop] := trash;
      owners := owners[trash.stack := InPool(recycleTop)];
      recycleTop := recycleTop + 1;
    }
  }
}
