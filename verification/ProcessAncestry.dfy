// Whether a process descends from one of a set of root processes, by a table
// of parents that may hold cycles.
module ProcessAncestry {

  type Parents = map<int, int>
  type Roots = map<int, bool>

  // A walk along the table through positive ids.
  ghost predicate IsChain(chain: seq<int>, parents: Parents) {
    && chain != []
    && (forall i :: 0 <= i < |chain| ==> chain[i] > 0)
    && (forall i :: 0 <= i < |chain| - 1 ==> chain[i] in parents && parents[chain[i]] == chain[i + 1])
  }

  ghost predicate Descends(pid: int, roots: Roots, parents: Parents) {
    exists chain :: IsChain(chain, parents) && chain[0] == pid && IsRoot(roots, chain[|chain| - 1])
  }

  // A process is a root if the table of roots says so.
  predicate IsRoot(roots: Roots, pid: int) {
    pid in roots && roots[pid]
  }

  // Places with no way out to a root.
  ghost predicate Closed(seen: set<int>, roots: Roots, parents: Parents) {
    forall x :: x in seen ==>
                  && !IsRoot(roots, x)
                  && (x in parents ==> parents[x] in seen || parents[x] <= 0)
  }

  lemma {:induction false} StaysInside(seen: set<int>, roots: Roots, parents: Parents, chain: seq<int>, i: nat)
    requires Closed(seen, roots, parents) && IsChain(chain, parents) && chain[0] in seen && i < |chain|
    ensures chain[i] in seen
  {
    if i > 0 {
      StaysInside(seen, roots, parents, chain, i - 1);
      assert chain[i - 1] in parents && parents[chain[i - 1]] == chain[i];
    }
  }

  lemma {:induction false} NoWayOut(seen: set<int>, roots: Roots, parents: Parents, pid: int)
    requires Closed(seen, roots, parents) && pid in seen
    ensures !Descends(pid, roots, parents)
  {
    forall chain | IsChain(chain, parents) && chain[0] == pid ensures !IsRoot(roots, chain[|chain| - 1]) {
      StaysInside(seen, roots, parents, chain, |chain| - 1);
    }
  }

  // isDescendantPID
  method IsDescendant(pid: int, roots: Roots, parents: Parents) returns (found: bool)
    ensures found <==> exists chain :: IsChain(chain, parents) && chain[0] == pid
                                       && chain[|chain| - 1] in roots && roots[chain[|chain| - 1]]
  {
    if pid <= 0 || roots == map[] {
      forall chain | IsChain(chain, parents) && chain[0] == pid ensures !IsRoot(roots, chain[|chain| - 1]) {
        assert chain[0] > 0;
      }
      return false;
    }
    var at := pid;
    var seen: set<int> := {};
    ghost var chain: seq<int> := [];
    while at > 0 && at !in seen
      invariant seen <= parents.Keys
      invariant seen == {} ==> at == pid
      invariant at > 0 ==> IsChain(chain + [at], parents)
      invariant (chain + [at])[0] == pid
      invariant forall x :: x in seen ==> !IsRoot(roots, x) && (parents[x] in seen || parents[x] == at)
      invariant seen != {} ==> pid in seen
      decreases parents.Keys - seen
    {
      if IsRoot(roots, at) {
        assert IsChain(chain + [at], parents);
        return true;
      }
      if at !in parents {
        assert Closed(seen + {at}, roots, parents);
        NoWayOut(seen + {at}, roots, parents, pid);
        return false;
      }
      seen := seen + {at};
      chain := chain + [at];
      at := parents[at];
    }
    assert Closed(seen, roots, parents);
    NoWayOut(seen, roots, parents, pid);
    return false;
  }
}
