/** The component search behind the cycle list of an event topology. */
module Cycles {
  import opened Order
  import opened Digraph
  import opened Text

  ghost predicate Finished(num: map<string, nat>, open: set<string>, x: string) {
    x in num && x !in open
  }

  /** The active path is stacked, stacked nodes are numbered, all numbers are used up. */
  ghost predicate Numbered(num: map<string, nat>, next: nat, open: set<string>, path: set<string>) {
    && path <= open <= num.Keys
    && forall x :: x in num ==> num[x] < next
  }

  /** A node whose call has returned has no edge to an unseen node. */
  ghost predicate NoUnseen(g: Graph, num: map<string, nat>, path: set<string>) {
    forall x, y {:trigger Edge(g, x, y)} :: x in num && x !in path && Edge(g, x, y) ==> y in num
  }

  /** A finished node has no edge back to the stack. */
  ghost predicate FinishedClosed(g: Graph, num: map<string, nat>, open: set<string>) {
    forall x, y {:trigger Edge(g, x, y)} :: Finished(num, open, x) && Edge(g, x, y) ==> Finished(num, open, y)
  }

  /** An active call reaches every stacked node that was numbered after it. */
  ghost predicate PathReachesUp(g: Graph, num: map<string, nat>, open: set<string>, path: set<string>)
    requires path <= open <= num.Keys
  {
    forall x, y {:trigger Reach(g, x, y)} :: x in path && y in open && num[x] <= num[y] ==> Reach(g, x, y)
  }

  ghost predicate Returns(g: Graph, num: map<string, nat>, path: set<string>, y: string, x: string)
    requires y in num && path <= num.Keys
  {
    x in path && num[x] <= num[y] && Reach(g, y, x)
  }

  ghost predicate ReturnsTo(g: Graph, num: map<string, nat>, path: set<string>, y: string)
    requires y in num && path <= num.Keys
  {
    exists x :: Returns(g, num, path, y, x)
  }

  /** Every stacked node returns to an active call numbered no later than it. */
  ghost predicate StackReturns(g: Graph, num: map<string, nat>, open: set<string>, path: set<string>)
    requires path <= open <= num.Keys
  {
    forall y {:trigger ReturnsTo(g, num, path, y)} :: y in open ==> ReturnsTo(g, num, path, y)
  }

  /** Every finished node is filed under its whole component, and so are the others in it. */
  ghost predicate ComponentsFiled(g: Graph, num: map<string, nat>, open: set<string>, comp: map<string, set<string>>) {
    && (forall x :: x in comp <==> Finished(num, open, x))
    && (forall x :: x in comp ==> Component(g, x, comp[x]))
    && (forall x, y {:trigger y in comp[x]} :: x in comp && y in comp[x] ==> y in comp && comp[y] == comp[x])
  }

  /** The search between two of its steps: `open` are the stacked nodes, `path` those whose calls are active. */
  ghost predicate SearchInv(g: Graph, num: map<string, nat>, next: nat, open: set<string>,
                            path: set<string>, comp: map<string, set<string>>) {
    && Numbered(num, next, open, path)
    && NoUnseen(g, num, path)
    && FinishedClosed(g, num, open)
    && PathReachesUp(g, num, open, path)
    && StackReturns(g, num, open, path)
    && ComponentsFiled(g, num, open, comp)
  }

  /** `low` bounds every edge from the stacked nodes after `node` back below `node`. */
  ghost predicate LowBound(g: Graph, num: map<string, nat>, open: set<string>, node: string, low: nat)
    requires node in num && open <= num.Keys
  {
    && low <= num[node]
    && forall x, y {:trigger Edge(g, x, y)} :: x in open && y in open && num[y] < num[node] < num[x] && Edge(g, x, y) ==> low <= num[y]
  }

  /** `low` is the number of a stacked node that `node` reaches. */
  ghost predicate Lowest(g: Graph, num: map<string, nat>, open: set<string>, node: string, low: nat, y: string)
    requires open <= num.Keys
  {
    y in open && num[y] == low && Reach(g, node, y)
  }

  ghost predicate LowWitness(g: Graph, num: map<string, nat>, open: set<string>, node: string, low: nat)
    requires open <= num.Keys
  {
    exists y :: Lowest(g, num, open, node, low, y)
  }

  /** The stack as a list: the open nodes in the order of their numbers. */
  ghost predicate InOrder(num: map<string, nat>, stack: seq<string>) {
    && (forall i :: 0 <= i < |stack| ==> stack[i] in num)
    && (forall i, j :: 0 <= i < j < |stack| ==> num[stack[i]] < num[stack[j]])
  }

  ghost predicate Cyclic(g: Graph, c: set<string>) {
    |c| > 1 || exists x {:trigger Edge(g, x, x)} :: x in c && Edge(g, x, x)
  }

  /** The reported list holds each cyclic component once, in sorted order, and nothing else. */
  ghost predicate Lists(g: Graph, comp: map<string, set<string>>, cycles: seq<seq<string>>) {
    && (forall i :: 0 <= i < |cycles| ==> StrictlySorted(cycles[i]) && cycles[i] != [])
    && (forall i, x {:trigger x in cycles[i]} :: 0 <= i < |cycles| && x in cycles[i] ==> ListedAs(g, comp, cycles[i], x))
    && (forall i, j, x {:trigger x in cycles[i], x in cycles[j]} ::
          0 <= i < |cycles| && 0 <= j < |cycles| && x in cycles[i] && x in cycles[j] ==> i == j)
    && (forall x {:trigger comp[x]} :: x in comp && Cyclic(g, comp[x]) ==> Listed(cycles, x))
  }

  ghost predicate ListedAs(g: Graph, comp: map<string, set<string>>, cycle: seq<string>, x: string) {
    x in comp && Elems(cycle) == comp[x] && Cyclic(g, comp[x])
  }

  ghost predicate Listed(cycles: seq<seq<string>>, x: string) {
    exists i :: 0 <= i < |cycles| && x in cycles[i]
  }

  lemma PushReturnsOne(g: Graph, num: map<string, nat>, next: nat, path: set<string>, node: string, y: string)
    requires path <= num.Keys && node !in num && y in num && ReturnsTo(g, num, path, y)
    ensures ReturnsTo(g, num[node := next], path + {node}, y)
  {
    var x :| Returns(g, num, path, y, x);
    assert Returns(g, num[node := next], path + {node}, y, x);
  }

  lemma PushReturns(g: Graph, num: map<string, nat>, next: nat, open: set<string>, path: set<string>, node: string)
    requires Numbered(num, next, open, path) && StackReturns(g, num, open, path) && node !in num
    ensures StackReturns(g, num[node := next], open + {node}, path + {node})
  {
    ReachSelf(g, node);
    assert Returns(g, num[node := next], path + {node}, node, node);
    forall y | y in open
      ensures ReturnsTo(g, num[node := next], path + {node}, y)
    {
      PushReturnsOne(g, num, next, path, node, y);
    }
  }

  lemma PushReaches(g: Graph, num: map<string, nat>, next: nat, open: set<string>, path: set<string>, node: string)
    requires Numbered(num, next, open, path) && PathReachesUp(g, num, open, path) && node !in num
    requires forall x :: x in path ==> Reach(g, x, node)
    ensures PathReachesUp(g, num[node := next], open + {node}, path + {node})
  {
    ReachSelf(g, node);
  }

  lemma Push(g: Graph, num: map<string, nat>, next: nat, open: set<string>, path: set<string>,
             comp: map<string, set<string>>, node: string)
    requires SearchInv(g, num, next, open, path, comp)
    requires node !in num && forall x :: x in path ==> Reach(g, x, node)
    ensures SearchInv(g, num[node := next], next + 1, open + {node}, path + {node}, comp)
    ensures LowBound(g, num[node := next], open + {node}, node, next)
    ensures LowWitness(g, num[node := next], open + {node}, node, next)
  {
    var num', open' := num[node := next], open + {node};
    PushReturns(g, num, next, open, path, node);
    PushReaches(g, num, next, open, path, node);
    assert forall x :: Finished(num', open', x) <==> Finished(num, open, x);
    ReachSelf(g, node);
    assert Lowest(g, num', open', node, next, node);
  }

  lemma RetreatOne(g: Graph, num: map<string, nat>, path: set<string>, node: string, x: string, z: string)
    requires path <= num.Keys && node in num && z in num && ReturnsTo(g, num, path + {node}, z)
    requires x in path && num[x] < num[node] && Reach(g, node, x)
    ensures ReturnsTo(g, num, path, z)
  {
    var w :| Returns(g, num, path + {node}, z, w);
    if w == node {
      ReachTrans(g, z, node, x);
      assert Returns(g, num, path, z, x);
    } else {
      assert Returns(g, num, path, z, w);
    }
  }

  lemma RetreatTarget(g: Graph, num: map<string, nat>, open: set<string>, path: set<string>, node: string, low: nat) returns (x: string)
    requires path + {node} <= open <= num.Keys && StackReturns(g, num, open, path + {node})
    requires LowWitness(g, num, open, node, low) && low < num[node]
    ensures x in path && num[x] < num[node] && Reach(g, node, x)
  {
    var y :| Lowest(g, num, open, node, low, y);
    assert ReturnsTo(g, num, path + {node}, y);
    x :| Returns(g, num, path + {node}, y, x);
    ReachTrans(g, node, y, x);
  }

  lemma RetreatReturns(g: Graph, num: map<string, nat>, open: set<string>, path: set<string>, node: string, low: nat)
    requires path + {node} <= open <= num.Keys && StackReturns(g, num, open, path + {node})
    requires LowWitness(g, num, open, node, low) && low < num[node]
    ensures StackReturns(g, num, open, path)
  {
    var x := RetreatTarget(g, num, open, path, node, low);
    forall z | z in open
      ensures ReturnsTo(g, num, path, z)
    {
      RetreatOne(g, num, path, node, x, z);
    }
  }

  /** `node` stays on the stack because it returns below itself: only its call ends. */
  lemma Retreat(g: Graph, num: map<string, nat>, next: nat, open: set<string>, path: set<string>,
                comp: map<string, set<string>>, node: string, low: nat)
    requires SearchInv(g, num, next, open, path + {node}, comp)
    requires forall y {:trigger Edge(g, node, y)} :: Edge(g, node, y) ==> y in num
    requires LowWitness(g, num, open, node, low) && low < num[node]
    ensures SearchInv(g, num, next, open, path, comp)
  {
    RetreatReturns(g, num, open, path, node, low);
  }

  /** The stacked nodes from `node` on. */
  ghost function Above(num: map<string, nat>, open: set<string>, node: string): set<string>
    requires node in num && open <= num.Keys
  {
    set x | x in open && num[x] >= num[node]
  }

  /** What holds when the call of `node` ends without a way back below it. */
  ghost predicate Settled(g: Graph, num: map<string, nat>, next: nat, open: set<string>, path: set<string>,
                          comp: map<string, set<string>>, node: string) {
    && SearchInv(g, num, next, open, path + {node}, comp)
    && (forall x :: x in path ==> num[x] < num[node])
    && (forall x :: x in open && x != node ==> num[x] != num[node])
    && (forall y {:trigger Edge(g, node, y)} :: Edge(g, node, y) ==> y in num && (y in open ==> num[node] <= num[y]))
    && LowBound(g, num, open, node, num[node])
  }

  lemma SettledClosed(g: Graph, num: map<string, nat>, next: nat, open: set<string>, path: set<string>,
                      comp: map<string, set<string>>, node: string, x: string, y: string)
    requires Settled(g, num, next, open, path, comp, node)
    requires x in num && x !in open - Above(num, open, node) && Edge(g, x, y)
    ensures y in num && y !in open - Above(num, open, node)
  {
  }

  /** Nothing reachable from the closed part lies outside it; nothing finished leads back into it. */
  lemma SettledReach(g: Graph, num: map<string, nat>, next: nat, open: set<string>, path: set<string>,
                     comp: map<string, set<string>>, node: string, x: string, y: string)
    requires Settled(g, num, next, open, path, comp, node)
    requires x in num && x !in open - Above(num, open, node) && Reach(g, x, y)
    ensures y in num && y !in open - Above(num, open, node)
    ensures x !in open ==> y !in open
  {
    var below := open - Above(num, open, node);
    forall u, v | u in num.Keys - below && Edge(g, u, v)
      ensures v in num.Keys - below
    {
      SettledClosed(g, num, next, open, path, comp, node, u, v);
    }
    ClosedReach(g, num.Keys - below, x, y);
    if x !in open {
      forall u, v | u in num.Keys - open && Edge(g, u, v)
        ensures v in num.Keys - open
      {
        assert Finished(num, open, u);
      }
      ClosedReach(g, num.Keys - open, x, y);
    }
  }

  lemma SettledMember(g: Graph, num: map<string, nat>, next: nat, open: set<string>, path: set<string>,
                      comp: map<string, set<string>>, node: string, x: string)
    requires Settled(g, num, next, open, path, comp, node) && x in Above(num, open, node)
    ensures Reach(g, node, x) && Reach(g, x, node)
  {
    assert Reach(g, node, x) by {
      assert node in path + {node};
    }
    assert ReturnsTo(g, num, path + {node}, x);
    var z :| Returns(g, num, path + {node}, x, z);
    SettledReach(g, num, next, open, path, comp, node, x, z);
  }

  /** The nodes popped together are one whole component. */
  lemma SettledComponent(g: Graph, num: map<string, nat>, next: nat, open: set<string>, path: set<string>,
                         comp: map<string, set<string>>, node: string, x: string)
    requires Settled(g, num, next, open, path, comp, node) && x in Above(num, open, node)
    ensures Component(g, x, Above(num, open, node))
  {
    SettledMember(g, num, next, open, path, comp, node, x);
    forall y
      ensures y in Above(num, open, node) <==> Mutual(g, x, y)
    {
      if y in Above(num, open, node) {
        SettledMember(g, num, next, open, path, comp, node, y);
        ReachTrans(g, x, node, y);
        ReachTrans(g, y, node, x);
      } else if Mutual(g, x, y) {
        SettledReach(g, num, next, open, path, comp, node, x, y);
        SettledReach(g, num, next, open, path, comp, node, y, x);
        assert false;
      }
    }
  }

  lemma PopReturns(g: Graph, num: map<string, nat>, next: nat, open: set<string>, path: set<string>,
                   comp: map<string, set<string>>, node: string)
    requires Settled(g, num, next, open, path, comp, node)
    ensures StackReturns(g, num, open - Above(num, open, node), path)
  {
    forall y | y in open - Above(num, open, node)
      ensures ReturnsTo(g, num, path, y)
    {
      assert ReturnsTo(g, num, path + {node}, y);
      var x :| Returns(g, num, path + {node}, y, x);
      assert Returns(g, num, path, y, x);
    }
  }

  /** Popping `node` and everything above it files them as one component. */
  lemma Pop(g: Graph, num: map<string, nat>, next: nat, open: set<string>, path: set<string>,
            comp: map<string, set<string>>, node: string)
    requires Settled(g, num, next, open, path, comp, node)
    ensures var c := Above(num, open, node);
            SearchInv(g, num, next, open - c, path, comp + map x | x in c :: c)
  {
    var c := Above(num, open, node);
    var comp' := comp + map x | x in c :: c;
    PopReturns(g, num, next, open, path, comp, node);
    forall x, y | Finished(num, open - c, x) && Edge(g, x, y)
      ensures Finished(num, open - c, y)
    {
      SettledClosed(g, num, next, open, path, comp, node, x, y);
    }
    forall x | x in comp'
      ensures Component(g, x, comp'[x])
    {
      if x in c {
        SettledComponent(g, num, next, open, path, comp, node, x);
      }
    }
    assert ComponentsFiled(g, num, open - c, comp');
  }

  /** The low number of a target carries over to the node that called it. */
  lemma AfterCall(g: Graph, num: map<string, nat>, num': map<string, nat>, open: set<string>, open': set<string>,
                  node: string, low: nat, target: string, targetLow: nat)
    requires open <= num.Keys && open' <= num'.Keys && open <= open' && node in num && target in num' && target !in num
    requires forall x :: x in num ==> x in num' && num'[x] == num[x] && num[x] < num'[target]
    requires forall x :: x in open' ==> x in open || (x !in num && (x == target || num'[x] > num'[target]))
    requires LowBound(g, num, open, node, low) && LowWitness(g, num, open, node, low)
    requires Edge(g, node, target) && ChildLow(g, num', open', target, targetLow)
    ensures var low' := if targetLow < low then targetLow else low;
            LowBound(g, num', open', node, low') && LowWitness(g, num', open', node, low')
  {
    var low' := if targetLow < low then targetLow else low;
    if targetLow < low {
      var y :| Lowest(g, num', open', target, targetLow, y);
      ReachEdge(g, node, target);
      ReachTrans(g, node, target, y);
      assert Lowest(g, num', open', node, low', y);
    } else {
      var y :| Lowest(g, num, open, node, low, y);
      assert Lowest(g, num', open', node, low', y);
    }
    forall x, y | x in open' && y in open' && num'[y] < num'[node] < num'[x] && Edge(g, x, y)
      ensures low' <= num'[y]
    {
    }
  }

  /** What a returned call says about its node: its low number bounds and witnesses every way back below it. */
  ghost predicate ChildLow(g: Graph, num: map<string, nat>, open: set<string>, node: string, low: nat)
    requires node in num && open <= num.Keys
  {
    && LowBound(g, num, open, node, low)
    && (forall y {:trigger Edge(g, node, y)} :: node in open && y in open && Edge(g, node, y) ==> low <= num[y])
    && (if node in open then LowWitness(g, num, open, node, low) else low == num[node])
  }

  lemma InOrderDistinct(num: map<string, nat>, stack: seq<string>)
    requires InOrder(num, stack)
    ensures Distinct(stack)
    ensures Elems(stack) <= num.Keys
    ensures forall x, y {:trigger num[x], num[y]} :: x in Elems(stack) && y in Elems(stack) && x != y ==> num[x] != num[y]
  {
    forall x, y | x in stack && y in stack && x != y
      ensures num[x] != num[y]
    {
      var i :| 0 <= i < |stack| && stack[i] == x;
      var j :| 0 <= j < |stack| && stack[j] == y;
      assert i < j || j < i;
    }
  }

  lemma StackTail(num: map<string, nat>, stack: seq<string>, k: nat, x: string)
    requires InOrder(num, stack) && k < |stack|
    ensures x in stack[k..] <==> x in stack && num[x] >= num[stack[k]]
  {
    if x in stack[k..] {
      var i :| 0 <= i < |stack[k..]| && stack[k..][i] == x;
      assert stack[k + i] == x;
    }
    if x in stack && num[x] >= num[stack[k]] {
      var i :| 0 <= i < |stack| && stack[i] == x;
      assert stack[k..][i - k] == x;
    }
  }

  lemma StackHead(num: map<string, nat>, stack: seq<string>, k: nat, x: string)
    requires InOrder(num, stack) && k < |stack|
    ensures x in stack[..k] <==> x in stack && num[x] < num[stack[k]]
  {
    if x in stack[..k] {
      var i :| 0 <= i < |stack[..k]| && stack[..k][i] == x;
      assert stack[i] == x;
    }
    if x in stack && num[x] < num[stack[k]] {
      var i :| 0 <= i < |stack| && stack[i] == x;
      assert stack[..k][i] == x;
    }
  }

  /** In an ordered stack the part from `node` on holds exactly the numbers from that of `node` on. */
  lemma SplitStack(num: map<string, nat>, base: seq<string>, stack: seq<string>, node: string)
    requires InOrder(num, stack) && base + [node] <= stack
    ensures node in num && Elems(stack) <= num.Keys && Elems(base) <= num.Keys
    ensures Elems(stack[|base|..]) == Above(num, Elems(stack), node)
    ensures Elems(base) == Elems(stack) - Above(num, Elems(stack), node)
    ensures forall x :: x in base ==> num[x] < num[node]
  {
    var k := |base|;
    assert stack[k] == (base + [node])[k] == node;
    assert base == stack[..k];
    forall x
      ensures x in stack[k..] <==> x in stack && num[x] >= num[node]
      ensures x in base <==> x in stack && num[x] < num[node]
    {
      StackTail(num, stack, k, x);
      StackHead(num, stack, k, x);
    }
  }

  lemma ListedMore(cycles: seq<seq<string>>, listed: seq<string>, x: string)
    requires Listed(cycles, x) || x in listed
    ensures Listed(cycles + [listed], x)
  {
    if x in listed {
      assert x in (cycles + [listed])[|cycles|];
    } else {
      var i :| 0 <= i < |cycles| && x in cycles[i];
      assert x in (cycles + [listed])[i];
    }
  }

  lemma FileCyclic(g: Graph, comp: map<string, set<string>>, comp': map<string, set<string>>, cycles: seq<seq<string>>, listed: seq<string>)
    requires Lists(g, comp, cycles) && (forall x :: x in listed ==> x !in comp) && listed != [] && StrictlySorted(listed)
    requires forall x :: x in comp' <==> x in comp || x in listed
    requires forall x :: x in comp' ==> comp'[x] == if x in comp then comp[x] else Elems(listed)
    requires Cyclic(g, Elems(listed))
    ensures Lists(g, comp', cycles + [listed])
  {
    var cycles' := cycles + [listed];
    forall i, x {:trigger x in cycles'[i]} | 0 <= i < |cycles'| && x in cycles'[i]
      ensures ListedAs(g, comp', cycles'[i], x)
    {
      if i < |cycles| {
        assert x in cycles[i];
        assert ListedAs(g, comp, cycles[i], x);
      }
    }
    forall x {:trigger comp'[x]} | x in comp' && Cyclic(g, comp'[x])
      ensures Listed(cycles', x)
    {
      assert x in comp ==> comp[x] == comp'[x];
      ListedMore(cycles, listed, x);
    }
    forall i, j, x {:trigger x in cycles'[i], x in cycles'[j]} |
        0 <= i < |cycles'| && 0 <= j < |cycles'| && x in cycles'[i] && x in cycles'[j]
      ensures i == j
    {
      if i < |cycles| {
        assert x in cycles[i];
        assert ListedAs(g, comp, cycles[i], x);
      }
      if j < |cycles| {
        assert x in cycles[j];
        assert ListedAs(g, comp, cycles[j], x);
      }
    }
  }

  lemma FilePlain(g: Graph, comp: map<string, set<string>>, comp': map<string, set<string>>, cycles: seq<seq<string>>, c: set<string>)
    requires Lists(g, comp, cycles) && c !! comp.Keys && !Cyclic(g, c)
    requires forall x :: x in comp' <==> x in comp || x in c
    requires forall x :: x in comp' ==> comp'[x] == if x in comp then comp[x] else c
    ensures Lists(g, comp', cycles)
  {
    forall i, x {:trigger x in cycles[i]} | 0 <= i < |cycles| && x in cycles[i]
      ensures ListedAs(g, comp', cycles[i], x)
    {
      assert ListedAs(g, comp, cycles[i], x);
    }
    forall x {:trigger comp'[x]} | x in comp' && Cyclic(g, comp'[x])
      ensures Listed(cycles, x)
    {
      assert comp[x] == comp'[x];
    }
  }

  /** One pop from a stack without repetitions. */
  lemma PopStep(full: seq<string>, n: nat)
    requires Distinct(full) && 0 < n <= |full|
    ensures Elems(full[n - 1..]) == Elems(full[n..]) + {full[n - 1]} && full[n - 1] !in Elems(full[n..])
    ensures Elems(full[..n - 1]) == Elems(full[..n]) - {full[n - 1]}
  {
    assert full[n - 1..] == [full[n - 1]] + full[n..];
    assert full[..n] == full[..n - 1] + [full[n - 1]];
  }

  /** The numbers, low numbers and stack of the search at one moment, with the active calls and the filed components. */
  datatype Snap = Snap(num: map<string, nat>, low: map<string, nat>, next: nat, stack: seq<string>,
                       path: set<string>, comp: map<string, set<string>>)

  ghost predicate Inv(g: Graph, s: Snap) {
    && s.low.Keys == s.num.Keys <= Vertices(g)
    && InOrder(s.num, s.stack)
    && SearchInv(g, s.num, s.next, Elems(s.stack), s.path, s.comp)
  }

  /** `node` is the innermost active call, and its low number is right so far. */
  ghost predicate Active(g: Graph, s: Snap, node: string) {
    && Inv(g, s)
    && node in s.path && (forall x :: x in s.path ==> s.num[x] <= s.num[node])
    && LowBound(g, s.num, Elems(s.stack), node, s.low[node])
    && LowWitness(g, s.num, Elems(s.stack), node, s.low[node])
  }

  /** Target y of `node` has been seen, and the low number of `node` accounts for it. */
  ghost predicate Accounted(s: Snap, node: string, y: string) {
    node in s.low && y in s.num && (y in Elems(s.stack) ==> s.low[node] <= s.num[y])
  }

  ghost predicate AllAccounted(g: Graph, s: Snap, node: string) {
    forall y {:trigger Edge(g, node, y)} :: Edge(g, node, y) ==> Accounted(s, node, y)
  }

  /** The search only grows: numbers and stack positions stay, and so do all low numbers but that of `node`. */
  ghost predicate Grown(a: Snap, b: Snap, node: string) {
    && a.stack <= b.stack && a.next <= b.next && Elems(a.stack) <= Elems(b.stack)
    && (forall x {:trigger a.num[x]} {:trigger b.num[x]} :: x in a.num ==> x in b.num && b.num[x] == a.num[x])
    && (forall x {:trigger a.low[x]} {:trigger b.low[x]} :: x in a.low && x != node ==> x in b.low && b.low[x] == a.low[x])
    && (forall x {:trigger b.num[x]} :: x in b.num && x !in a.num ==> b.num[x] >= a.next)
    && (forall x {:trigger x in Elems(b.stack)} :: x in Elems(b.stack) ==> x in Elems(a.stack) || x !in a.num)
  }

  lemma GrownTrans(a: Snap, b: Snap, c: Snap, n1: string, n2: string)
    requires Grown(a, b, n1) && Grown(b, c, n2) && (n1 == n2 || n2 !in a.low)
    ensures Grown(a, c, n1)
  {
    forall x | x in Elems(c.stack)
      ensures x in Elems(a.stack) || x !in a.num
    {
      assert x in a.num ==> a.num[x] == b.num[x];
    }
    forall x | x in c.num && x !in a.num
      ensures c.num[x] >= a.next
    {
      assert x in b.num ==> b.num[x] == c.num[x];
    }
    forall x | x in a.low && x != n1
      ensures x in c.low && c.low[x] == a.low[x]
    {
      assert a.low[x] == b.low[x];
    }
    forall x | x in a.num
      ensures x in c.num && c.num[x] == a.num[x]
    {
      assert a.num[x] == b.num[x];
    }
  }

  lemma GrownSelf(a: Snap, node: string)
    ensures Grown(a, a, node)
  {
  }

  lemma GrownKeys(a: Snap, b: Snap, node: string)
    requires Grown(a, b, node)
    ensures a.num.Keys <= b.num.Keys
  {
  }

  lemma ActiveFacts(g: Graph, s: Snap, node: string)
    requires Active(g, s, node)
    ensures s.low.Keys == s.num.Keys && node in s.num && Elems(s.stack) <= s.num.Keys
    ensures s.num.Keys <= Vertices(g)
  {
  }

  ghost function Entered(s: Snap, node: string): Snap {
    Snap(s.num[node := s.next], s.low[node := s.next], s.next + 1, s.stack + [node], s.path + {node}, s.comp)
  }

  lemma PushInOrder(num: map<string, nat>, next: nat, stack: seq<string>, node: string)
    requires InOrder(num, stack) && node !in num && forall x :: x in num ==> num[x] < next
    ensures InOrder(num[node := next], stack + [node])
    ensures Elems(stack + [node]) == Elems(stack) + {node}
  {
    ElemsAppend(stack, node);
  }

  /** Numbering and stacking an unseen node that every active call reaches. */
  lemma Enter(g: Graph, s: Snap, node: string)
    requires Inv(g, s) && node !in s.num && node in Vertices(g)
    requires forall x :: x in s.path ==> Reach(g, x, node)
    ensures Inv(g, Entered(s, node)) && Active(g, Entered(s, node), node) && Grown(s, Entered(s, node), node)
  {
    PushInOrder(s.num, s.next, s.stack, node);
    Push(g, s.num, s.next, Elems(s.stack), s.path, s.comp, node);
  }

  /** What a returned call says about its node. */
  ghost predicate Returned(g: Graph, s: Snap, before: Snap, node: string) {
    && Inv(g, s) && Grown(before, s, node) && s.path == before.path
    && node in s.num && s.num[node] == before.next
    && ChildLow(g, s.num, Elems(s.stack), node, s.low[node])
    && (node in Elems(s.stack) || s.stack == before.stack)
  }

  /** A call that ends with a way back below its node. */
  lemma LeaveOpen(g: Graph, before: Snap, s: Snap, node: string)
    requires Inv(g, before) && node !in before.num
    requires Grown(Entered(before, node), s, node) && Grown(before, s, node)
    requires Active(g, s, node) && s.path == before.path + {node} && AllAccounted(g, s, node) && s.low[node] != s.num[node]
    ensures Returned(g, s.(path := before.path), before, node)
  {
    assert Entered(before, node).num[node] == before.next;
    SplitStack(s.num, before.stack, s.stack, node);
    Retreat(g, s.num, s.next, Elems(s.stack), before.path, s.comp, node, s.low[node]);
  }

  ghost function Closed(before: Snap, s: Snap, component: seq<string>): Snap {
    s.(stack := before.stack, path := before.path, comp := Filed(s.comp, Elems(component)))
  }

  /** A call that ends without one pops its component. */
  lemma LeaveClosed(g: Graph, before: Snap, s: Snap, node: string, cycles: seq<seq<string>>, component: seq<string>)
    requires Inv(g, before) && node !in before.num && Lists(g, s.comp, cycles)
    requires Grown(Entered(before, node), s, node) && Grown(before, s, node)
    requires Active(g, s, node) && s.path == before.path + {node} && AllAccounted(g, s, node) && s.low[node] == s.num[node]
    requires Distinct(component) && Elems(component) == Elems(s.stack[|before.stack|..])
    ensures Returned(g, Closed(before, s, component), before, node)
    ensures Lists(g, Closed(before, s, component).comp, Reported(g, cycles, component))
  {
    assert Entered(before, node).num[node] == before.next;
    SplitStack(s.num, before.stack, s.stack, node);
    InOrderDistinct(s.num, s.stack);
    Close(g, s.num, s.next, before.stack, s.stack, before.path, s.comp, cycles, node, component);
    ClosedGrown(before, s, node, component);
  }

  lemma ClosedGrown(before: Snap, s: Snap, node: string, component: seq<string>)
    requires Grown(before, s, node)
    ensures Grown(before, Closed(before, s, component), node)
  {
  }

  lemma TargetFacts(g: Graph, a: Snap, b: Snap, node: string, target: string)
    requires Active(g, a, node) && target !in a.num && Returned(g, b, a, target)
    ensures target in b.low && node in b.low && b.low[node] == a.low[node] && node in b.num && b.num[node] == a.num[node]
    ensures b.path == a.path && b.num[target] == a.next && a.num[node] < a.next
  {
    assert node in a.low && a.low[node] == b.low[node] && a.num[node] == b.num[node];
  }

  lemma TargetSettled(s: Snap, node: string, target: string)
    requires node in s.low && target in s.num && (target in Elems(s.stack) ==> s.low[node] <= s.num[target])
    ensures Accounted(s, node, target) && Grown(s, s, node)
  {
  }

  lemma AccountAll(g: Graph, s: Snap, node: string, targets: seq<string>)
    requires Elems(targets) == Succ(g, node) && forall k :: 0 <= k < |targets| ==> Accounted(s, node, targets[k])
    ensures AllAccounted(g, s, node)
  {
    forall y {:trigger Edge(g, node, y)} | Edge(g, node, y)
      ensures Accounted(s, node, y)
    {
      var k := ElemsIndex(targets, y);
    }
  }

  /** Lowering the low number of an active node keeps everything else. */
  lemma Lowered(g: Graph, a: Snap, b: Snap, node: string, l: nat)
    requires Inv(g, b) && Grown(a, b, node) && node in b.num && node in a.low
    requires LowBound(g, b.num, Elems(b.stack), node, l) && LowWitness(g, b.num, Elems(b.stack), node, l)
    requires node in b.path && forall x :: x in b.path ==> b.num[x] <= b.num[node]
    ensures Active(g, b.(low := b.low[node := l]), node) && Grown(a, b.(low := b.low[node := l]), node)
    ensures Inv(g, b.(low := b.low[node := l]))
  {
  }

  lemma PathOrderKept(g: Graph, a: Snap, b: Snap, node: string, n: string)
    requires Active(g, a, node) && Inv(g, b) && Grown(a, b, n) && b.path == a.path
    ensures forall x :: x in b.path ==> b.num[x] <= b.num[node]
  {
    forall x | x in b.path
      ensures b.num[x] <= b.num[node]
    {
      assert a.num[x] == b.num[x] && a.num[node] == b.num[node];
    }
  }

  lemma TargetAbove(g: Graph, a: Snap, b: Snap, target: string)
    requires Inv(g, a) && target !in a.num && Returned(g, b, a, target)
    ensures forall x :: x in Elems(b.stack) ==> x in Elems(a.stack) || (x !in a.num && (x == target || b.num[x] > b.num[target]))
  {
    InOrderDistinct(b.num, b.stack);
    forall x | x in Elems(b.stack)
      ensures x in Elems(a.stack) || (x !in a.num && (x == target || b.num[x] > b.num[target]))
    {
      assert x in b.num && (x !in a.num ==> b.num[x] >= a.next);
    }
  }

  lemma TargetKeeps(g: Graph, a: Snap, b: Snap, target: string)
    requires Inv(g, a) && target !in a.num && Returned(g, b, a, target)
    ensures Elems(a.stack) <= Elems(b.stack)
    ensures forall x :: x in a.num ==> x in b.num && b.num[x] == a.num[x] && a.num[x] < b.num[target]
  {
  }

  lemma GrownThrough(a: Snap, b: Snap, node: string, target: string)
    requires Grown(a, b, target) && target !in a.low
    ensures Grown(a, b, node)
  {
  }

  /** The low number of a visited target, carried over to the node that called it. */
  lemma TargetReturned(g: Graph, a: Snap, b: Snap, node: string, target: string)
    requires Active(g, a, node) && Edge(g, node, target) && target !in a.num && Returned(g, b, a, target)
    requires target in b.low && node in b.low
    ensures var c := b.(low := b.low[node := if b.low[target] < b.low[node] then b.low[target] else b.low[node]]);
            Inv(g, c) && Active(g, c, node) && Grown(a, c, node) && Accounted(c, node, target) && c.low[node] <= a.low[node]
  {
    hide Inv, Grown, LowBound, LowWitness, Elems;
    var l := if b.low[target] < b.low[node] then b.low[target] else b.low[node];
    ActiveFacts(g, a, node);
    TargetFacts(g, a, b, node, target);
    TargetKeeps(g, a, b, target);
    TargetAbove(g, a, b, target);
    PathOrderKept(g, a, b, node, target);
    GrownThrough(a, b, node, target);
    ReturnedFacts(g, b, a, target);
    AfterCall(g, a.num, b.num, Elems(a.stack), Elems(b.stack), node, a.low[node], target, b.low[target]);
    Lowered(g, a, b, node, l);
  }

  lemma ReturnedFacts(g: Graph, s: Snap, before: Snap, node: string)
    requires Returned(g, s, before, node)
    ensures Elems(s.stack) <= s.num.Keys && s.low.Keys == s.num.Keys && s.low[node] <= s.num[node]
  {
  }

  /** A stacked target lowers the low number of the node that points to it. */
  lemma TargetStacked(g: Graph, a: Snap, node: string, target: string)
    requires Active(g, a, node) && Edge(g, node, target)
    requires target in Elems(a.stack) && a.num[target] < a.low[node]
    ensures var c := a.(low := a.low[node := a.num[target]]);
            Inv(g, c) && Active(g, c, node) && Grown(a, c, node) && Accounted(c, node, target)
  {
    ReachEdge(g, node, target);
    assert Lowest(g, a.num, Elems(a.stack), node, a.num[target], target);
  }

  lemma ActiveReach(g: Graph, s: Snap, node: string, target: string)
    requires Active(g, s, node) && Edge(g, node, target)
    ensures target in Vertices(g)
    ensures forall x :: x in s.path ==> Reach(g, x, target)
  {
    forall x | x in s.path
      ensures Reach(g, x, target)
    {
      assert Reach(g, x, node);
      ReachEdge(g, node, target);
      ReachTrans(g, x, node, target);
    }
  }

  lemma StillAccounted(a: Snap, b: Snap, node: string, y: string)
    requires Grown(a, b, node) && Accounted(a, node, y) && node in b.low && b.low[node] <= a.low[node]
    ensures Accounted(b, node, y)
  {
    assert a.num[y] == b.num[y];
  }

  /** Where the stack was when the call of `node` began. */
  lemma CloseAt(g: Graph, before: Snap, s: Snap, node: string)
    requires Inv(g, s) && Grown(Entered(before, node), s, node)
    ensures Distinct(s.stack) && |before.stack| < |s.stack| && s.stack[|before.stack|] == node
    ensures s.stack[..|before.stack|] == before.stack
  {
    InOrderDistinct(s.num, s.stack);
    assert s.stack[|before.stack|] == (before.stack + [node])[|before.stack|];
  }

  lemma InOrderPrefix(num: map<string, nat>, stack: seq<string>, k: nat)
    requires InOrder(num, stack) && k <= |stack|
    ensures InOrder(num, stack[..k])
  {
  }

  lemma FiledDisjoint(g: Graph, num: map<string, nat>, next: nat, open: set<string>, path: set<string>,
                      comp: map<string, set<string>>, c: set<string>)
    requires SearchInv(g, num, next, open, path, comp) && c <= open
    ensures c !! comp.Keys
  {
  }

  lemma CyclicSize(g: Graph, c: set<string>, listed: seq<string>)
    requires Elems(listed) == c && |c| == |listed| && c != {}
    ensures Cyclic(g, c) <==> |listed| > 1 || Edge(g, listed[0], listed[0])
  {
    assert listed[0] in c;
    if |listed| == 1 {
      assert forall x :: x in c ==> x == listed[0];
    }
  }

  ghost function Filed(comp: map<string, set<string>>, c: set<string>): map<string, set<string>> {
    comp + map x | x in c :: c
  }

  /** The reporting rule: a component of more than one node, or of one node with an edge to itself. */
  ghost function Reported(g: Graph, cycles: seq<seq<string>>, component: seq<string>): seq<seq<string>> {
    if |component| > 1 || (|component| == 1 && Edge(g, component[0], component[0]))
    then cycles + [SortBy(component, Leq)]
    else cycles
  }

  lemma ReportedLists(g: Graph, comp: map<string, set<string>>, cycles: seq<seq<string>>, component: seq<string>)
    requires Lists(g, comp, cycles) && Distinct(component) && component != [] && Elems(component) !! comp.Keys
    ensures Lists(g, Filed(comp, Elems(component)), Reported(g, cycles, component))
  {
    hide Cyclic, Lists;
    var c := Elems(component);
    ElemsEmpty(component);
    ElemsSize(component);
    CyclicSize(g, c, component);
    if Cyclic(g, c) {
      SortDistinct(component);
      FileCyclic(g, comp, Filed(comp, c), cycles, SortBy(component, Leq));
    } else {
      FilePlain(g, comp, Filed(comp, c), cycles, c);
    }
  }

  /** Closing the component of `node` leaves the search as it was before `node`, with the component filed and reported. */
  lemma Close(g: Graph, num: map<string, nat>, next: nat, base: seq<string>, full: seq<string>, path: set<string>,
              comp: map<string, set<string>>, cycles: seq<seq<string>>, node: string, component: seq<string>)
    requires InOrder(num, full) && base + [node] <= full && Elems(full) <= num.Keys
    requires Settled(g, num, next, Elems(full), path, comp, node) && Lists(g, comp, cycles)
    requires Distinct(component) && Elems(component) == Elems(full[|base|..])
    ensures Numbered(num, next, Elems(base), path) && InOrder(num, base)
    ensures SearchInv(g, num, next, Elems(base), path, Filed(comp, Elems(component)))
    ensures Lists(g, Filed(comp, Elems(component)), Reported(g, cycles, component))
  {
    SplitStack(num, base, full, node);
    assert Elems(component) == Above(num, Elems(full), node);
    Pop(g, num, next, Elems(full), path, comp, node);
    assert base == full[..|base|];
    InOrderPrefix(num, full, |base|);
    FiledDisjoint(g, num, next, Elems(full), path + {node}, comp, Elems(component));
    assert node in Elems(component);
    ReportedLists(g, comp, cycles, component);
  }

  /** The search state that the closure `visit` of the source captures and updates. */
  class CycleFinder {
    const adjacency: Graph
    var index: nat
    var indices: map<string, nat>
    var lowlink: map<string, nat>
    var onStack: map<string, bool>
    var stack: seq<string>
    var cycles: seq<seq<string>>
    ghost var path: set<string>
    ghost var comp: map<string, set<string>>

    constructor (adjacency: Graph)
      ensures this.adjacency == adjacency && Valid()
      ensures indices == map[] && stack == [] && path == {} && cycles == []
    {
      this.adjacency := adjacency;
      index, indices, lowlink, onStack, stack, cycles := 0, map[], map[], map[], [], [];
      path, comp := {}, map[];
    }

    predicate OnStack(x: string)
      reads `onStack
    {
      x in onStack && onStack[x]
    }

    ghost function Now(): Snap
      reads this
    {
      Snap(indices, lowlink, index, stack, path, comp)
    }

    ghost predicate StackFlags()
      reads `onStack, `stack
    {
      forall x :: OnStack(x) <==> x in Elems(stack)
    }

    ghost predicate Valid()
      reads this
    {
      Inv(adjacency, Now()) && StackFlags() && Lists(adjacency, comp, cycles)
    }

    /** The visit of one node: number it, visit its targets, and close its component if nothing leads below it. */
    method Visit(node: string)
      requires Valid() && node in Vertices(adjacency) && node !in indices
      requires forall x :: x in path ==> Reach(adjacency, x, node)
      modifies this
      ensures Valid() && Returned(adjacency, Now(), old(Now()), node)
      decreases Vertices(adjacency) - indices.Keys, 0
    {
      hide Inv, Active, Lists, Elems, Grown, Returned, AllAccounted, Entered;
      ghost var before := Now();
      EnterNode(node);
      ghost var entered := Now();
      VisitTargets(node);
      GrownTrans(before, entered, Now(), node, node);
      ActiveFacts(adjacency, Now(), node);
      if lowlink[node] != indices[node] {
        LeaveOpen(adjacency, before, Now(), node);
        path := before.path;
      } else {
        CloseComponent(node, before);
      }
    }

    /** Gives `node` the next number and stacks it. */
    method EnterNode(node: string)
      requires Valid() && node in Vertices(adjacency) && node !in indices
      requires forall x :: x in path ==> Reach(adjacency, x, node)
      modifies this
      ensures Now() == Entered(old(Now()), node) && cycles == old(cycles)
      ensures Valid() && Active(adjacency, Now(), node) && Grown(old(Now()), Now(), node)
      ensures path == old(path) + {node} && node in indices && old(indices).Keys <= indices.Keys
    {
      hide Inv, Active, Lists, Elems, Grown, Reach, Vertices;
      Enter(adjacency, Now(), node);
      ElemsAppend(stack, node);
      indices := indices[node := index];
      lowlink := lowlink[node := index];
      index := index + 1;
      stack := stack + [node];
      onStack := onStack[node := true];
      path := path + {node};
      assert StackFlags();
    }

    /** The loop over the sorted targets of the innermost active node. */
    method VisitTargets(node: string)
      requires Valid() && Active(adjacency, Now(), node)
      modifies this
      ensures Valid() && Active(adjacency, Now(), node) && AllAccounted(adjacency, Now(), node)
      ensures Grown(old(Now()), Now(), node) && path == old(path)
      decreases Vertices(adjacency) - indices.Keys, 2
    {
      hide Inv, Lists, Elems, Grown, Active, Accounted;
      var targets := SortedKeys(Succ(adjacency, node));
      GrownSelf(Now(), node);
      for i := 0 to |targets|
        invariant Valid() && Active(adjacency, Now(), node) && Grown(old(Now()), Now(), node) && path == old(path)
        invariant forall k :: 0 <= k < i ==> Accounted(Now(), node, targets[k])
      {
        ghost var before := Now();
        ElemsAt(targets, i);
        GrownKeys(old(Now()), before, node);
        VisitTarget(node, targets[i]);
        GrownTrans(old(Now()), before, Now(), node, node);
        ActiveFacts(adjacency, Now(), node);
        forall k | 0 <= k < i
          ensures Accounted(Now(), node, targets[k])
        {
          StillAccounted(before, Now(), node, targets[k]);
        }
      }
      AccountAll(adjacency, Now(), node, targets);
    }

    /** One target: an unseen one is visited, a stacked one lowers the low number. */
    method VisitTarget(node: string, target: string)
      requires Valid() && Active(adjacency, Now(), node) && Edge(adjacency, node, target)
      modifies this
      ensures Valid() && Active(adjacency, Now(), node) && Grown(old(Now()), Now(), node) && path == old(path)
      ensures Accounted(Now(), node, target) && lowlink[node] <= old(lowlink[node])
      decreases Vertices(adjacency) - indices.Keys, 1
    {
      hide Inv, Lists, Elems, Grown, Active, Accounted, Returned;
      ActiveFacts(adjacency, Now(), node);
      if target !in indices {
        ActiveReach(adjacency, Now(), node, target);
        Visit(target);
        TargetFacts(adjacency, old(Now()), Now(), node, target);
        TargetReturned(adjacency, old(Now()), Now(), node, target);
        assert lowlink == lowlink[node := lowlink[node]];
        if lowlink[target] < lowlink[node] {
          lowlink := lowlink[node := lowlink[target]];
        }
      } else if OnStack(target) && indices[target] < lowlink[node] {
        TargetStacked(adjacency, Now(), node, target);
        lowlink := lowlink[node := indices[target]];
      } else {
        TargetSettled(Now(), node, target);
      }
    }

    /** Pops the stack down to `node`, collecting what it pops. */
    method PopTo(node: string, ghost k: nat) returns (component: seq<string>)
      requires Distinct(stack) && k < |stack| && stack[k] == node
      requires StackFlags()
      modifies `stack, `onStack
      ensures stack == old(stack)[..k]
      ensures StackFlags()
      ensures Distinct(component) && Elems(component) == Elems(old(stack)[k..])
    {
      component := [];
      while |stack| > 0
        invariant k < |stack| <= |old(stack)| && stack == old(stack)[..|stack|]
        invariant Elems(component) == Elems(old(stack)[|stack|..]) && Distinct(component)
        invariant StackFlags()
      {
        var last := stack[|stack| - 1];
        PopStep(old(stack), |stack|);
        ElemsAppend(component, last);
        stack := stack[..|stack| - 1];
        onStack := onStack[last := false];
        component := component + [last];
        assert last == node ==> |stack| == k;
        if last == node {
          break;
        }
      }
    }

    /** Pops the component of `node` and reports it if it forms a cycle. */
    method CloseComponent(node: string, ghost before: Snap)
      requires Valid() && Inv(adjacency, before) && node !in before.num
      requires Grown(Entered(before, node), Now(), node) && Grown(before, Now(), node)
      requires Active(adjacency, Now(), node) && AllAccounted(adjacency, Now(), node) && path == before.path + {node}
      requires node in lowlink && node in indices && lowlink[node] == indices[node]
      modifies this
      ensures Valid() && Returned(adjacency, Now(), before, node)
    {
      hide Inv, Lists, Elems, Grown, Active, AllAccounted, Returned;
      CloseAt(adjacency, before, Now(), node);
      var component := PopTo(node, |before.stack|);
      LeaveClosed(adjacency, before, old(Now()), node, cycles, component);
      comp, path := Filed(comp, Elems(component)), before.path;
      if |component| > 1 || (|component| == 1 && Edge(adjacency, component[0], component[0])) {
        component := SortBy(component, Leq);
        cycles := cycles + [component];
      }
    }
  }

  /** By the joined names. */
  ghost predicate InJoinedOrder(cycles: seq<seq<string>>) {
    forall i, j :: 0 <= i < j < |cycles| ==> Leq(Joined(cycles[i]), Joined(cycles[j]))
  }

  predicate JoinedLeq(a: seq<string>, b: seq<string>) {
    Leq(Joined(a), Joined(b))
  }

  /** What the cycle list promises: the strongly connected components that hold a cycle, each once and in sorted order. */
  ghost predicate IsCycleList(g: Graph, cycles: seq<seq<string>>) {
    && Distinct(cycles)
    && (forall c :: c in cycles ==> c != [] && StrictlySorted(c))
    && (forall c, x :: c in cycles && x in c ==> OnCycle(g, x) && Component(g, x, Elems(c)))
    && (forall x :: OnCycle(g, x) ==> exists c :: c in cycles && x in c)
  }

  lemma CyclicOnCycle(g: Graph, x: string, c: set<string>)
    requires Component(g, x, c)
    ensures Cyclic(g, c) <==> OnCycle(g, x)
  {
    ReachSelf(g, x);
    assert x in c;
    if OnCycle(g, x) {
      var y :| Edge(g, x, y) && Reach(g, y, x);
      ReachEdge(g, x, y);
      assert Mutual(g, x, y) && {x, y} <= c;
      if x != y {
        assert |{x, y}| == 2;
        SubsetSize({x, y}, c);
      }
    }
    if Cyclic(g, c) {
      if c == {x} {
      } else {
        assert c - {x} != {};
        var y :| y in c - {x};
        assert Mutual(g, x, y);
        ReachFirstStep(g, x, y);
        var z :| Edge(g, x, z) && Reach(g, z, y);
        ReachTrans(g, z, y, x);
      }
    }
  }

  lemma SubsetSize<T>(a: set<T>, b: set<T>)
    requires a <= b
    ensures |a| <= |b|
  {
    assert b == a + (b - a);
  }

  lemma CycleListDone(g: Graph, comp: map<string, set<string>>, cycles: seq<seq<string>>)
    requires Lists(g, comp, cycles)
    requires forall x {:trigger comp[x]} :: x in comp ==> Component(g, x, comp[x])
    requires Vertices(g) <= comp.Keys
    ensures IsCycleList(g, cycles)
  {
    forall i, j | 0 <= i < j < |cycles|
      ensures cycles[i] != cycles[j]
    {
      var x := cycles[i][0];
      assert x in cycles[i];
      assert x !in cycles[j];
    }
    forall c, x | c in cycles && x in c
      ensures OnCycle(g, x) && Component(g, x, Elems(c))
    {
      var i :| 0 <= i < |cycles| && cycles[i] == c;
      assert x in cycles[i];
      assert ListedAs(g, comp, cycles[i], x);
      CyclicOnCycle(g, x, comp[x]);
    }
    forall x | OnCycle(g, x)
      ensures exists c :: c in cycles && x in c
    {
      assert x in Vertices(g);
      CyclicOnCycle(g, x, comp[x]);
      assert Listed(cycles, x);
      var i :| 0 <= i < |cycles| && x in cycles[i];
      assert cycles[i] in cycles;
    }
  }

  lemma CycleListPermuted(g: Graph, a: seq<seq<string>>, b: seq<seq<string>>)
    requires IsCycleList(g, a) && multiset(a) == multiset(b)
    ensures IsCycleList(g, b)
  {
    MultisetMembers(a, b);
    DistinctPermutation(a, b);
  }

  /** With no call active nothing is stacked, so every node of the graph is filed. */
  lemma AllFiled(g: Graph, s: Snap)
    requires Inv(g, s) && s.path == {} && g.Keys <= s.num.Keys
    ensures Vertices(g) <= s.comp.Keys
    ensures forall x {:trigger s.comp[x]} :: x in s.comp ==> Component(g, x, s.comp[x])
  {
    assert forall y :: y in Elems(s.stack) ==> ReturnsTo(g, s.num, s.path, y);
    assert Elems(s.stack) == {};
    forall x | x in Vertices(g)
      ensures x in s.comp
    {
      if x !in g {
        var w, y :| w in g && y in g[w] && y == x;
        assert Edge(g, w, x);
      }
      assert Finished(s.num, Elems(s.stack), x);
    }
  }

  lemma JoinedOrder()
    ensures Total(JoinedLeq) && Transitive(JoinedLeq)
  {
    LeqOrder();
  }

  /** The cycle list of a call graph, whatever its edges. */
  method TopologyCycles(adjacency: Graph) returns (cycles: seq<seq<string>>)
    ensures IsCycleList(adjacency, cycles)
    ensures InJoinedOrder(cycles)
  {
    hide Inv, Lists, IsCycleList, Returned;
    var finder := new CycleFinder(adjacency);
    var nodes := SortedKeys(adjacency.Keys);
    for i := 0 to |nodes|
      invariant finder.Valid() && finder.path == {} && fresh(finder) && finder.adjacency == adjacency
      invariant forall k :: 0 <= k < i ==> nodes[k] in finder.indices
    {
      ElemsAt(nodes, i);
      if nodes[i] !in finder.indices {
        ghost var before := finder.Now();
        finder.Visit(nodes[i]);
        ReturnedKeys(adjacency, finder.Now(), before, nodes[i]);
      }
    }
    forall x | x in adjacency.Keys
      ensures x in finder.indices
    {
      var k := ElemsIndex(nodes, x);
    }
    AllFiled(adjacency, finder.Now());
    CycleListDone(adjacency, finder.comp, finder.cycles);
    JoinedOrder();
    SortBySorts(finder.cycles, JoinedLeq);
    cycles := SortBy(finder.cycles, JoinedLeq);
    CycleListPermuted(adjacency, finder.cycles, cycles);
  }

  lemma ReturnedKeys(g: Graph, s: Snap, before: Snap, node: string)
    requires Returned(g, s, before, node)
    ensures before.num.Keys <= s.num.Keys && node in s.num && s.path == before.path
  {
  }

  /** The list does not depend on the order in which maps hand over their keys. */
  lemma CycleListUnique(g: Graph, a: seq<seq<string>>, b: seq<seq<string>>)
    requires IsCycleList(g, a) && IsCycleList(g, b)
    ensures forall c :: c in a <==> c in b
  {
    forall c | c in a
      ensures c in b
    {
      CycleListIncludes(g, a, b, c);
    }
    forall c | c in b
      ensures c in a
    {
      CycleListIncludes(g, b, a, c);
    }
  }

  lemma CycleListIncludes(g: Graph, a: seq<seq<string>>, b: seq<seq<string>>, c: seq<string>)
    requires IsCycleList(g, a) && IsCycleList(g, b) && c in a
    ensures c in b
  {
    var x := c[0];
    assert x in c;
    assert OnCycle(g, x);
    var d :| d in b && x in d;
    assert Component(g, x, Elems(c)) && Component(g, x, Elems(d));
    assert Elems(c) == Elems(d);
    StrictlySortedUnique(c, d);
  }
}
