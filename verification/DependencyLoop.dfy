/** Loop-carried dependencies of one scf.for: the iteration argument and the yielded wait_all. */
module DependencyLoop {

  /** A token in a dependency list of the loop body: of another operation or loop of the body, of
      an operation before the loop, or the iteration argument. */
  datatype Token = InBody(item: nat) | Incoming(id: nat) | IterArg

  type DepLists = seq<seq<Token>>

  /** Only allocations and deallocations in the body use the token of item j. */
  ghost predicate OnlyUsedByNoCarryOps(carried: seq<bool>, deps: DepLists, j: nat)
    requires |carried| == |deps|
  {
    forall i :: 0 <= i < |deps| && InBody(j) in deps[i] ==> !carried[i]
  }

  /** The dependency list that replaces a list of the body: tokens from before the loop become
      the iteration argument, which every carried operation gets. */
  ghost predicate IsNewList(carried: bool, before: seq<Token>, after: seq<Token>) {
    forall t :: t in after <==>
      match t
      case InBody(_) => t in before
      case Incoming(_) => false
      case IterArg => carried || exists v :: v in before && !v.InBody?
  }

  /** What insertLoopCarriedDeps makes of a body: the new dependency lists, and the list of the
      wait_all that is yielded. It collects tokens of the body, and as an operation of the body
      that is neither allocation nor deallocation it gets the iteration argument itself. */
  ghost predicate IsLoopCarried(carried: seq<bool>, before: DepLists, after: DepLists, yielded: seq<Token>) {
    && |carried| == |before| == |after|
    && (forall i :: 0 <= i < |before| ==> IsNewList(carried[i], before[i], after[i]))
    && (forall t :: t in yielded <==>
          match t
          case InBody(j) => j < |before| && carried[j] && OnlyUsedByNoCarryOps(carried, before, j)
          case Incoming(_) => false
          case IterArg => true)
  }

  method IsOnlyUsedByNoLoopCarryOpsInBlock(carried: seq<bool>, deps: DepLists, j: nat) returns (r: bool)
    requires |carried| == |deps|
    ensures r <==> OnlyUsedByNoCarryOps(carried, deps, j)
  {
    r := true;
    for i := 0 to |deps|
      invariant r <==> forall k :: 0 <= k < i && InBody(j) in deps[k] ==> !carried[k]
    {
      if InBody(j) in deps[i] && carried[i] {
        r := false;
      }
    }
  }

  /** Replaces tokens from before the loop by the iteration argument. */
  method ReplaceIncoming(list: seq<Token>) returns (r: seq<Token>)
    ensures forall t :: t in r <==>
      (t.InBody? && t in list) || (t.IterArg? && exists v :: v in list && !v.InBody?)
  {
    r := [];
    for k := 0 to |list|
      invariant forall t :: t in r <==>
        (t.InBody? && t in list[..k]) || (t.IterArg? && exists v :: v in list[..k] && !v.InBody?)
    {
      assert list[..k + 1] == list[..k] + [list[k]];
      r := r + [if list[k].InBody? then list[k] else IterArg];
    }
    assert list[..|list|] == list;
  }

  /** The new list of an operation of the body. */
  method NewList(carried: bool, list: seq<Token>) returns (r: seq<Token>)
    ensures IsNewList(carried, list, r)
  {
    r := ReplaceIncoming(list);
    if carried && IterArg !in r {
      r := r + [IterArg];
    }
  }

  /** The tokens that the yielded wait_all collects. */
  method CollectYielded(carried: seq<bool>, deps: DepLists) returns (yielded: seq<Token>)
    requires |carried| == |deps|
    ensures forall t :: t in yielded <==>
      t.InBody? && t.item < |deps| && carried[t.item] && OnlyUsedByNoCarryOps(carried, deps, t.item)
  {
    yielded := [];
    for j := 0 to |deps|
      invariant forall t :: t in yielded <==>
        t.InBody? && t.item < j && carried[t.item] && OnlyUsedByNoCarryOps(carried, deps, t.item)
    {
      var only := IsOnlyUsedByNoLoopCarryOpsInBlock(carried, deps, j);
      if carried[j] && only {
        yielded := yielded + [InBody(j)];
      }
    }
  }

  /** The wait_all is put at the end of the body before the loop gets its iteration argument, so
      it is one of the operations whose lists are replaced. */
  method InsertLoopCarriedDeps(carried: seq<bool>, deps: DepLists) returns (newDeps: DepLists, yielded: seq<Token>)
    requires |carried| == |deps|
    ensures IsLoopCarried(carried, deps, newDeps, yielded)
  {
    yielded := CollectYielded(carried, deps);
    newDeps := [];
    for i := 0 to |deps|
      invariant |newDeps| == i
      invariant forall k :: 0 <= k < i ==> IsNewList(carried[k], deps[k], newDeps[k])
    {
      var list := NewList(carried[i], deps[i]);
      newDeps := newDeps + [list];
    }
    yielded := NewList(true, yielded);
  }
}
