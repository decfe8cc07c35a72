/**
 * The two searches of pegboard.py: the depth-first search with its parity
 * cut-off (class DFS) and the A* search over a priority queue (class
 * AStarSearch).
 *
 * Both keep their frontier in a field the search loop rewrites. Each loop
 * terminates because popping a state with n pegs and pushing its
 * successors, at most 128 of them with n - 1 pegs each, lowers the sum of
 * 129^pegs over the frontier.
 */
module PegSearch {
  import opened Common
  import opened Pegboard

  // ---------------------------------------------------------------------
  // Reachability and termination weights
  // ---------------------------------------------------------------------

  /** The state a sequence of jumps leads to from s, if each jump is applicable in turn. */
  function Play(s: State, acts: seq<Action>): Option<State>
    decreases |acts|
  {
    if acts == [] then Some(s)
    else if acts[0] in ApplicableActions(s) then Play(ApplyState(acts[0], s), acts[1..])
    else None
  }

  /** The goal can be reached from s by applicable jumps. */
  ghost predicate Solvable(s: State)
  {
    exists acts: seq<Action> :: Play(s, acts).Some? && Goal(Play(s, acts).value)
  }

  /** The goal is solvable. */
  lemma GoalSolvable(s: State)
    requires Goal(s)
    ensures Solvable(s)
  {
    assert Play(s, []) == Some(s);
  }

  /** A state with a solvable successor is solvable. */
  lemma SolvableStep(s: State, a: Action)
    requires a in ApplicableActions(s)
    ensures Solvable(ApplyState(a, s)) ==> Solvable(s)
  {
    if Solvable(ApplyState(a, s)) {
      var acts :| Play(ApplyState(a, s), acts).Some? && Goal(Play(ApplyState(a, s), acts).value);
      assert ([a] + acts)[1..] == acts;
      assert Play(s, [a] + acts) == Play(ApplyState(a, s), acts);
    }
  }

  /** A solvable state other than the goal has a solvable successor. */
  lemma SolvableSplit(s: State)
    requires Solvable(s) && !Goal(s)
    ensures exists a | a in ApplicableActions(s) :: Solvable(ApplyState(a, s))
  {
    var acts :| Play(s, acts).Some? && Goal(Play(s, acts).value);
    var rest := acts[1..];
    assert Play(ApplyState(acts[0], s), rest) == Play(s, acts);
  }

  /** Every jump listed by `applicableActions` has its precondition. */
  lemma ApplicablePreconditions(s: State)
    ensures forall j | 0 <= j < |ApplicableActions(s)| :: Precondition(ApplicableActions(s)[j], s)
  {
    forall j | 0 <= j < |ApplicableActions(s)|
      ensures Precondition(ApplicableActions(s)[j], s)
    {
      ApplicableRemovesOnePeg(s, ApplicableActions(s)[j]);
    }
  }

  function Pow129(n: nat): (r: nat)
    ensures r >= 1
  {
    if n == 0 then 1 else 129 * Pow129(n - 1)
  }

  lemma Pow129Step(n: nat)
    requires n >= 1
    ensures Pow129(n) == 129 * Pow129(n - 1)
  {
  }

  /** The termination weight of a state: 129 to the number of its pegs. */
  function StateWeight(s: State): nat
  {
    Pow129(|s.pegs|)
  }

  /** A successor weighs a 129th of its parent. */
  lemma SuccessorWeight(s: State, a: Action)
    requires a in ApplicableActions(s)
    ensures 129 * StateWeight(ApplyState(a, s)) == StateWeight(s)
  {
    ApplicableRemovesOnePeg(s, a);
    var n := |s.pegs|;
    assert |ApplyState(a, s).pegs| == n - 1;
    Pow129Step(n);
  }

  /** The summed weight of the states of a frontier. */
  function TotalWeight<T>(xs: seq<T>, stateOf: T -> State): nat
  {
    if xs == [] then 0 else TotalWeight(xs[..|xs| - 1], stateOf) + StateWeight(stateOf(xs[|xs| - 1]))
  }

  lemma {:induction false} TotalWeightAppend<T>(xs: seq<T>, ys: seq<T>, stateOf: T -> State)
    ensures TotalWeight(xs + ys, stateOf) == TotalWeight(xs, stateOf) + TotalWeight(ys, stateOf)
    decreases |ys|
  {
    if ys != [] {
      var zs := xs + ys;
      var init := ys[..|ys| - 1];
      assert zs[..|zs| - 1] == xs + init;
      assert zs[|zs| - 1] == ys[|ys| - 1];
      TotalWeightAppend(xs, init, stateOf);
      assert TotalWeight(zs, stateOf) == TotalWeight(zs[..|zs| - 1], stateOf) + StateWeight(stateOf(zs[|zs| - 1]));
    } else {
      assert xs + ys == xs;
    }
  }

  /** A frontier of one entry weighs that entry's state. */
  lemma TotalWeightSingle<T>(x: T, stateOf: T -> State)
    ensures TotalWeight([x], stateOf) == StateWeight(stateOf(x))
  {
    assert [x][..0] == [];
  }

  /** Pushing at most 128 entries, each a 129th of w, onto what is left after popping an entry of weight w lowers the total. */
  lemma WeightDrops(rest: nat, pushed: nat, w: nat, k: nat)
    requires 129 * pushed <= k * w && k <= 128 && w >= 1
    ensures rest + pushed < rest + w
  {
    assert k * w <= 128 * w;
  }

  // ---------------------------------------------------------------------
  // Depth-first search
  // ---------------------------------------------------------------------

  /** A stack or path entry `(state, chosen_action)`; the initial state comes with no action. */
  datatype Step = Step(state: State, action: Option<Action>)

  function StepState(e: Step): State
  {
    e.state
  }

  /**
   * The entries that expanding s pushes for the actions acts, in order: a
   * successor is pushed only when its value is not visited.
   */
  function Pushes(s: State, acts: seq<Action>, visited: set<nat>): seq<Step>
  {
    if acts == [] then []
    else
      var a := acts[|acts| - 1];
      var next := ApplyState(a, s);
      Pushes(s, acts[..|acts| - 1], visited) + (if Value(next) !in visited then [Step(next, Some(a))] else [])
  }

  /** Every pushed entry is the successor of s by one of the actions, and its value was not visited. */
  lemma {:induction false} PushesUnvisited(s: State, acts: seq<Action>, visited: set<nat>)
    ensures forall i | 0 <= i < |Pushes(s, acts, visited)| ::
      && Pushes(s, acts, visited)[i].action.Some?
      && Pushes(s, acts, visited)[i].action.value in acts
      && Pushes(s, acts, visited)[i].state == ApplyState(Pushes(s, acts, visited)[i].action.value, s)
      && Value(Pushes(s, acts, visited)[i].state) !in visited
    decreases |acts|
  {
    if acts != [] {
      var init := acts[..|acts| - 1];
      PushesUnvisited(s, init, visited);
      var r := Pushes(s, acts, visited);
      var prev := Pushes(s, init, visited);
      forall i | 0 <= i < |prev| ensures r[i] == prev[i] && prev[i].action.value in acts {
        assert prev[i].action.value in init;
      }
    }
  }

  /** The pushed successors weigh at most |acts| times a 129th of s. */
  lemma {:induction false} PushesWeight(s: State, acts: seq<Action>, visited: set<nat>)
    requires forall a | a in acts :: a in ApplicableActions(s)
    ensures 129 * TotalWeight(Pushes(s, acts, visited), StepState) <= |acts| * StateWeight(s)
    decreases |acts|
  {
    if acts != [] {
      var init := acts[..|acts| - 1];
      var a := acts[|acts| - 1];
      PushesWeight(s, init, visited);
      var next := ApplyState(a, s);
      var tail := if Value(next) !in visited then [Step(next, Some(a))] else [];
      TotalWeightAppend(Pushes(s, init, visited), tail, StepState);
      SuccessorWeight(s, a);
      if tail != [] {
        TotalWeightSingle(Step(next, Some(a)), StepState);
      }
      assert (|acts| - 1) * StateWeight(s) + StateWeight(s) == |acts| * StateWeight(s);
    }
  }

  /** The values of the states of a path. */
  function PathValues(path: seq<Step>): set<nat>
  {
    if path == [] then {} else PathValues(path[..|path| - 1]) + {Value(path[|path| - 1].state)}
  }

  /** Expanded state i has the parity of i + 1 pegs, and none is the goal. */
  predicate Alternates(path: seq<Step>)
  {
    forall i | 0 <= i < |path| :: Parity(path[i].state) == (i + 1) % 2 && !Goal(path[i].state)
  }

  /** No state on the stack can reach the goal unless the initial state can. */
  ghost predicate StackFrom(stack: seq<Step>, initial: State)
  {
    forall i | 0 <= i < |stack| :: Solvable(stack[i].state) ==> Solvable(initial)
  }

  /** Extending a path by a non-goal state of the next parity keeps it alternating and adds its value. */
  lemma PathExtend(path: seq<Step>, top: Step)
    requires Alternates(path) && Parity(top.state) == (|path| + 1) % 2 && !Goal(top.state)
    ensures Alternates(path + [top])
    ensures PathValues(path + [top]) == PathValues(path) + {Value(top.state)}
  {
    assert (path + [top])[..|path|] == path;
  }

  /** Popping the top of the stack takes away its weight and keeps the rest rooted. */
  lemma PopTop(stack: seq<Step>, initial: State)
    requires stack != [] && StackFrom(stack, initial)
    ensures StackFrom(stack[..|stack| - 1], initial)
    ensures Solvable(stack[|stack| - 1].state) ==> Solvable(initial)
    ensures TotalWeight(stack, StepState) == TotalWeight(stack[..|stack| - 1], StepState) + StateWeight(stack[|stack| - 1].state)
  {
  }

  /**
   * Pushing the unvisited successors of a state the initial state reaches
   * keeps the stack rooted, and weighs less than the state.
   */
  lemma ExpandStep(base: seq<Step>, s: State, visited: set<nat>, initial: State)
    requires StackFrom(base, initial) && (Solvable(s) ==> Solvable(initial))
    ensures StackFrom(base + Pushes(s, ApplicableActions(s), visited), initial)
    ensures TotalWeight(base + Pushes(s, ApplicableActions(s), visited), StepState) < TotalWeight(base, StepState) + StateWeight(s)
  {
    var acts := ApplicableActions(s);
    var pushed := Pushes(s, acts, visited);
    PushesUnvisited(s, acts, visited);
    forall i | 0 <= i < |base + pushed| && Solvable((base + pushed)[i].state)
      ensures Solvable(initial)
    {
      if i >= |base| {
        SolvableStep(s, pushed[i - |base|].action.value);
      }
    }
    PushesWeight(s, acts, visited);
    TotalWeightAppend(base, pushed, StepState);
    WeightDrops(TotalWeight(base, StepState), TotalWeight(pushed, StepState), StateWeight(s), |acts|);
  }

  /** Some entry of the stack holds s. */
  predicate OnStack(stack: seq<Step>, s: State)
  {
    exists j | 0 <= j < |stack| :: stack[j].state == s
  }

  /** Each successor of each visited state is visited or waiting on the stack. */
  ghost predicate Closed(visited: set<nat>, stack: seq<Step>)
  {
    forall x: State | Value(x) in visited ::
      forall a | a in ApplicableActions(x) :: Value(ApplyState(a, x)) in visited || OnStack(stack, ApplyState(a, x))
  }

  /** A successor of s by one of acts whose value is not visited is pushed. */
  lemma {:induction false} PushesComplete(s: State, acts: seq<Action>, visited: set<nat>, a: Action)
    requires a in acts && Value(ApplyState(a, s)) !in visited
    ensures OnStack(Pushes(s, acts, visited), ApplyState(a, s))
    decreases |acts|
  {
    var init := acts[..|acts| - 1];
    var prev := Pushes(s, init, visited);
    var r := Pushes(s, acts, visited);
    if a == acts[|acts| - 1] {
      assert r[|prev|].state == ApplyState(a, s);
    } else {
      assert acts == init + [acts[|acts| - 1]];
      PushesComplete(s, init, visited, a);
      var j :| 0 <= j < |prev| && prev[j].state == ApplyState(a, s);
      assert r[j] == prev[j];
    }
  }

  /**
   * Expanding the top of the stack without a cut-off keeps the visited
   * states closed: the popped state is now visited and its successors are
   * visited or pushed.
   */
  lemma ClosedAfterExpand(visited: set<nat>, rest: seq<Step>, top: Step)
    requires Closed(visited, rest + [top])
    ensures Closed(visited + {Value(top.state)},
                   rest + Pushes(top.state, ApplicableActions(top.state), visited + {Value(top.state)}))
  {
    var s := top.state;
    var v := visited + {Value(s)};
    var pushed := Pushes(s, ApplicableActions(s), v);
    var next := rest + pushed;
    forall x: State, a | Value(x) in v && a in ApplicableActions(x)
      ensures Value(ApplyState(a, x)) in v || OnStack(next, ApplyState(a, x))
    {
      var y := ApplyState(a, x);
      if Value(y) !in v {
        if Value(x) == Value(s) {
          ValueInjective(x, s);
          PushesComplete(s, ApplicableActions(s), v, a);
          var j :| 0 <= j < |pushed| && pushed[j].state == y;
          assert next[|rest| + j].state == y;
        } else {
          var j :| 0 <= j < |rest + [top]| && (rest + [top])[j].state == y;
          assert j < |rest| && next[j].state == y;
        }
      }
    }
  }

  /** Expanding the top of the stack keeps the initial state visited or stacked. */
  lemma InitialKept(visited: set<nat>, rest: seq<Step>, top: Step, pushed: seq<Step>, initial: State)
    requires Value(initial) in visited || OnStack(rest + [top], initial)
    ensures Value(initial) in visited + {Value(top.state)} || OnStack(rest + pushed, initial)
  {
    if Value(initial) !in visited + {Value(top.state)} {
      var j :| 0 <= j < |rest + [top]| && (rest + [top])[j].state == initial;
      assert j < |rest| && (rest + pushed)[j].state == initial;
    }
  }

  /** Once the stack is empty, no visited state can reach the goal unless the goal was visited. */
  lemma {:induction false} ClosedUnsolvable(visited: set<nat>, x: State)
    requires Closed(visited, []) && 512 !in visited && Value(x) in visited
    ensures !Solvable(x)
    decreases |x.pegs|
  {
    if Solvable(x) {
      SolvableSplit(x);
      var a :| a in ApplicableActions(x) && Solvable(ApplyState(a, x));
      ApplicableRemovesOnePeg(x, a);
      assert !OnStack([], ApplyState(a, x));
      ClosedUnsolvable(visited, ApplyState(a, x));
    }
  }

  /** A state with a jump into the goal is solvable. */
  lemma OneJumpSolvable(s: State, a: Action)
    requires a in ApplicableActions(s) && Goal(ApplyState(a, s))
    ensures Solvable(s)
  {
    assert Play(s, [a]) == Play(ApplyState(a, s), []);
  }

  /** A candidate whose precondition holds is listed. */
  lemma CandidateListed(s: State, a: Action, p: Slot, e: nat)
    requires e < 8 && Candidate(p, e) == Some(a) && Precondition(a, s)
    ensures a in ApplicableActions(s)
  {
    ApplicableIff(s, a);
  }

  /** Slot 11 jumps over 10 into 9 in the third direction of the scan. */
  lemma LeftwardCandidate(a: Action)
    requires a == Action(11, 10, 9)
    ensures Candidate(11, 2) == Some(a)
  {
    assert Directions[2] == (0, -1);
  }

  /** The jump 11 over 10 into 9 is listed on {10, 11}. */
  lemma TwoPegJumpListed(s: State, a: Action)
    requires s == State({10, 11}) && a == Action(11, 10, 9)
    ensures a in ApplicableActions(s)
  {
    LeftwardCandidate(a);
    CandidateListed(s, a, 11, 2);
  }

  /** The jump 11 over 10 into 9 leaves slot 9 alone on {10, 11}. */
  lemma TwoPegJumpLands(s: State, a: Action)
    requires s == State({10, 11}) && a == Action(11, 10, 9)
    ensures ApplyState(a, s) == State({9})
  {
    assert ApplyState(a, s).pegs == {9};
  }

  /** The start {10, 11} has an even number of pegs, and the jump 11 over 10 into 9 solves it. */
  lemma TwoPegStartSolvable(s: State)
    requires s == State({10, 11})
    ensures Parity(s) == 0 && Solvable(s)
  {
    assert |s.pegs| == 2;
    var a := Action(11, 10, 9);
    TwoPegJumpListed(s, a);
    TwoPegJumpLands(s, a);
    GoalIffOnlySlot9(ApplyState(a, s));
    OneJumpSolvable(s, a);
  }

  class DFS {
    var stack: seq<Step>
    var visited: set<nat>
    var path: seq<Step>
    var expandedNodes: nat
    /** The state the search started from. */
    ghost var initialState: State

    /**
     * The path holds the expanded states in order and alternates in parity,
     * the visited values are those of the path, and every state on the
     * stack is reachable from the initial state.
     */
    ghost predicate Valid()
      reads this
    {
      && |path| == expandedNodes
      && Alternates(path)
      && visited == PathValues(path)
      && StackFrom(stack, initialState)
    }

    /** Nothing is expanded yet and the stack holds at most the initial state of even parity. */
    ghost predicate OnlyEvenStart()
      reads this
    {
      && path == []
      && Parity(initialState) == 0
      && |stack| <= 1
      && (|stack| == 1 ==> stack[0].state == initialState)
    }

    /**
     * What a search without the parity cut-off keeps: the path and visited
     * values as in Valid, every stacked state reachable from the initial
     * state, the goal never visited, each visited state closed, and the
     * initial state visited or still stacked.
     */
    ghost predicate Explored()
      reads this
    {
      && |path| == expandedNodes
      && visited == PathValues(path)
      && StackFrom(stack, initialState)
      && 512 !in visited
      && Closed(visited, stack)
      && (Value(initialState) in visited || OnStack(stack, initialState))
    }

    /** `DFS.__init__`: the stack holds the initial state alone. */
    constructor (initialState: State)
      ensures Valid()
      ensures stack == [Step(initialState, None)] && visited == {} && path == [] && expandedNodes == 0
      ensures this.initialState == initialState
      ensures Explored()
    {
      stack := [Step(initialState, None)];
      visited := {};
      path := [];
      expandedNodes := 0;
      this.initialState := initialState;
      new;
      assert stack[0].state == initialState;
    }

    /** The `for action in actions` loop of `DFS.search`: pushes each successor of s whose value is not visited. */
    method PushSuccessors(s: State)
      modifies this
      ensures stack == old(stack) + Pushes(s, ApplicableActions(s), visited)
      ensures visited == old(visited) && path == old(path) && expandedNodes == old(expandedNodes)
      ensures initialState == old(initialState)
    {
      var actions := CollectActions(s);
      for j := 0 to |actions|
        invariant stack == old(stack) + Pushes(s, actions[..j], visited)
        invariant visited == old(visited) && path == old(path) && expandedNodes == old(expandedNodes)
        invariant initialState == old(initialState)
      {
        var action := actions[j];
        var newState := ApplyState(action, s);
        assert actions[..j + 1][..j] == actions[..j];
        if Value(newState) !in visited {
          stack := stack + [Step(newState, Some(action))];
        }
      }
      assert actions[..|actions|] == actions;
    }

    /**
     * The rest of one iteration of `DFS.search` once top is counted as
     * expanded and is not the goal: marks its value visited, pushes its
     * unvisited successors and appends it to the path.
     */
    method Expand(top: Step)
      requires expandedNodes == |path| + 1 && Alternates(path) && visited == PathValues(path)
      requires StackFrom(stack, initialState) && (Solvable(top.state) ==> Solvable(initialState))
      requires Parity(top.state) == (|path| + 1) % 2 && !Goal(top.state)
      modifies this
      ensures Valid() && initialState == old(initialState)
      ensures path == old(path) + [top] && visited == old(visited) + {Value(top.state)}
      ensures stack == old(stack) + Pushes(top.state, ApplicableActions(top.state), visited)
      ensures TotalWeight(stack, StepState) < old(TotalWeight(stack, StepState)) + StateWeight(top.state)
    {
      visited := visited + {Value(top.state)};
      ExpandStep(stack, top.state, visited, initialState);
      PushSuccessors(top.state);
      PathExtend(path, top);
      path := path + [top];
    }

    /**
     * The body of the `while` loop of `DFS.search` once top is popped: skip
     * top when its parity differs from that of the path length plus one;
     * otherwise count it as expanded and either record it as the goal
     * (done) or expand it.
     */
    method Visit(top: Step) returns (done: bool)
      requires Valid() && (Solvable(top.state) ==> Solvable(initialState))
      modifies this
      ensures initialState == old(initialState)
      ensures Parity(top.state) != (|old(path)| + 1) % 2 ==>
                !done && stack == old(stack) && path == old(path) && visited == old(visited) && expandedNodes == old(expandedNodes)
      ensures done ==> && |path| == expandedNodes && path == old(path) + [top]
                       && Goal(top.state) && Parity(top.state) == |path| % 2
                       && Alternates(old(path)) && Solvable(initialState)
      ensures !done ==> Valid() && TotalWeight(stack, StepState) < old(TotalWeight(stack, StepState)) + StateWeight(top.state)
    {
      if Parity(top.state) != (|path| + 1) % 2 {
        return false;
      }
      expandedNodes := expandedNodes + 1;
      if Goal(top.state) {
        GoalSolvable(top.state);
        path := path + [top];
        return true;
      }
      Expand(top);
      return false;
    }

    /**
     * `DFS.search`: pops states until one is the goal, skipping a state
     * whose parity differs from that of the path length plus one, and
     * pushing the successors whose values are not visited. On success the
     * result is the path of every expanded state, ending with the goal, and
     * the goal is reachable from the initial state. Started on its initial
     * state alone, with an even number of pegs, it skips that state and
     * fails.
     */
    method Search() returns (found: bool, result: seq<Step>)
      requires Valid()
      modifies this
      ensures initialState == old(initialState)
      ensures found ==> && result == path && |result| == expandedNodes && |result| > 0
                        && Goal(result[|result| - 1].state)
                        && Parity(result[|result| - 1].state) == |result| % 2
                        && Alternates(result[..|result| - 1])
                        && Solvable(initialState)
      ensures !found ==> result == [] && stack == [] && Valid()
      ensures old(stack) == [Step(initialState, None)] && old(path) == [] && Parity(initialState) == 0 ==> !found
    {
      ghost var evenStart := stack == [Step(initialState, None)] && path == [] && Parity(initialState) == 0;
      while stack != []
        invariant Valid()
        invariant initialState == old(initialState)
        invariant evenStart ==> OnlyEvenStart()
        decreases TotalWeight(stack, StepState)
      {
        PopTop(stack, initialState);
        var top := stack[|stack| - 1];
        stack := stack[..|stack| - 1];
        ghost var before := path;
        var done := Visit(top);
        if done {
          assert path[..|path| - 1] == before;
          return true, path;
        }
      }
      return false, [];
    }

    /**
     * The search with the parity test removed. Every popped state is either
     * the goal or expanded, so the search fails only when every state the
     * initial state reaches has been expanded, none of them the goal: it
     * reports success exactly when the goal is reachable.
     */
    method SearchWithoutCutoff() returns (found: bool, result: seq<Step>)
      requires Explored()
      modifies this
      ensures initialState == old(initialState)
      ensures found ==> && result == path && |result| == expandedNodes && |result| > 0
                        && Goal(result[|result| - 1].state)
      ensures found <==> Solvable(initialState)
      ensures !found ==> result == [] && stack == []
    {
      while stack != []
        invariant Explored()
        invariant initialState == old(initialState)
        decreases TotalWeight(stack, StepState)
      {
        PopTop(stack, initialState);
        var top := stack[|stack| - 1];
        var rest := stack[..|stack| - 1];
        assert stack == rest + [top];
        stack := rest;
        expandedNodes := expandedNodes + 1;
        if Goal(top.state) {
          GoalSolvable(top.state);
          path := path + [top];
          return true, path;
        }
        var next := visited + {Value(top.state)};
        ClosedAfterExpand(visited, rest, top);
        InitialKept(visited, rest, top, Pushes(top.state, ApplicableActions(top.state), next), initialState);
        visited := next;
        ExpandStep(stack, top.state, visited, initialState);
        PushSuccessors(top.state);
        assert (path + [top])[..|path|] == path;
        path := path + [top];
      }
      ClosedUnsolvable(visited, initialState);
      return false, [];
    }
  }

  /**
   * `DFS(State(3072)).search()` as written: the start {10, 11} is solvable,
   * yet its two pegs fail the parity test on the first pop and the search
   * reports failure.
   */
  method ParityCutoffMissesGoal() returns (found: bool)
    ensures !found && Solvable(State({10, 11}))
  {
    var start := State({10, 11});
    TwoPegStartSolvable(start);
    var dfs := new DFS(start);
    var result;
    found, result := dfs.Search();
  }

  /** Without the cut-off the same search finds the goal from {10, 11}. */
  method SearchWithoutCutoffFindsGoal() returns (found: bool)
    ensures found
  {
    var start := State({10, 11});
    TwoPegStartSolvable(start);
    var dfs := new DFS(start);
    var result;
    found, result := dfs.SearchWithoutCutoff();
  }

  // ---------------------------------------------------------------------
  // A* search
  // ---------------------------------------------------------------------

  /** The heuristic an A* search ranks states by. */
  datatype Heuristic = H1 | H2

  /** The value of the chosen heuristic on s. */
  function HeuristicValue(h: Heuristic, s: State): nat
  {
    match h
    case H1 => |ApplicableActions(s)|
    case H2 => DistanceSum(s.pegs, 16)
  }

  /** Calls the chosen heuristic on s. */
  method Evaluate(h: Heuristic, s: State) returns (v: nat)
    ensures v == HeuristicValue(h, s)
  {
    match h
    case H1 =>
      v := Heuristic1(s);
    case H2 =>
      v := Heuristic2(s);
  }

  /**
   * A priority-queue entry `(priority, counter, state)`; the counter also
   * stands for the identity of the state object, as no two entries share one.
   */
  datatype Entry = Entry(priority: nat, counter: nat, state: State)

  function EntryState(e: Entry): State
  {
    e.state
  }

  /** Tuple order on `(priority, counter)`, the part of an entry that `heapq` ever compares. */
  predicate EntryLe(a: Entry, b: Entry)
  {
    a.priority < b.priority || (a.priority == b.priority && a.counter <= b.counter)
  }

  /** The index of the entry `heapq.heappop` returns: the least one. */
  function MinIndex(q: seq<Entry>): (k: nat)
    requires q != []
    ensures k < |q|
    ensures forall i | 0 <= i < |q| :: EntryLe(q[k], q[i])
  {
    if |q| == 1 then 0
    else
      var k := MinIndex(q[..|q| - 1]);
      if EntryLe(q[k], q[|q| - 1]) then k else |q| - 1
  }

  /**
   * The entries that expanding s pushes for the actions acts, numbered from
   * counter + 1 on: one for each action whose precondition holds.
   */
  function Children(h: Heuristic, s: State, acts: seq<Action>, counter: nat): seq<Entry>
  {
    if acts == [] then []
    else
      var prev := Children(h, s, acts[..|acts| - 1], counter);
      var a := acts[|acts| - 1];
      var next := ApplyState(a, s);
      prev + (if Precondition(a, s) then [Entry(HeuristicValue(h, next), counter + |prev| + 1, next)] else [])
  }

  /**
   * When every action has its precondition, child j is the successor by
   * action j, ranked by the heuristic, with counter counter + j + 1.
   */
  lemma {:induction false} ChildrenShape(h: Heuristic, s: State, acts: seq<Action>, counter: nat)
    requires forall j | 0 <= j < |acts| :: Precondition(acts[j], s)
    ensures |Children(h, s, acts, counter)| == |acts|
    ensures forall j | 0 <= j < |acts| ::
      Children(h, s, acts, counter)[j] == Entry(HeuristicValue(h, ApplyState(acts[j], s)), counter + j + 1, ApplyState(acts[j], s))
    decreases |acts|
  {
    if acts != [] {
      var init := acts[..|acts| - 1];
      ChildrenShape(h, s, init, counter);
      forall j | 0 <= j < |init| ensures init[j] == acts[j] {
      }
    }
  }

  /** Every child of s contributes a 129th of the weight of s, for applicable actions. */
  lemma {:induction false} ChildrenWeight(h: Heuristic, s: State, acts: seq<Action>, counter: nat)
    requires forall a | a in acts :: a in ApplicableActions(s)
    ensures 129 * TotalWeight(Children(h, s, acts, counter), EntryState) <= |acts| * StateWeight(s)
    decreases |acts|
  {
    if acts != [] {
      var init := acts[..|acts| - 1];
      var a := acts[|acts| - 1];
      ChildrenWeight(h, s, init, counter);
      var prev := Children(h, s, init, counter);
      var next := ApplyState(a, s);
      var child := Entry(HeuristicValue(h, next), counter + |prev| + 1, next);
      var tail := if Precondition(a, s) then [child] else [];
      TotalWeightAppend(prev, tail, EntryState);
      SuccessorWeight(s, a);
      if tail != [] {
        TotalWeightSingle(child, EntryState);
      }
      assert (|acts| - 1) * StateWeight(s) + StateWeight(s) == |acts| * StateWeight(s);
    }
  }

  /** Entry i of q is ranked by the heuristic value of its state. */
  predicate RankedAt(h: Heuristic, q: seq<Entry>, i: nat)
    requires i < |q|
  {
    q[i].priority == HeuristicValue(h, q[i].state)
  }

  /** Every queued entry is ranked by the heuristic. */
  predicate Ranked(h: Heuristic, q: seq<Entry>)
  {
    forall i | 0 <= i < |q| :: RankedAt(h, q, i)
  }

  /** Entry i of q was queued before entry j: its counter is smaller. */
  predicate QueuedBefore(q: seq<Entry>, i: nat, j: nat)
    requires i < |q| && j < |q|
  {
    q[i].counter < q[j].counter
  }

  /**
   * The queued counters increase along the queue, were issued (are at most
   * counter) and were never expanded; every expanded counter was issued.
   */
  predicate Numbered(q: seq<Entry>, visited: set<nat>, counter: nat)
  {
    && (forall i, j | 0 <= i < j < |q| :: QueuedBefore(q, i, j))
    && (forall i | 0 <= i < |q| :: 1 <= q[i].counter <= counter && q[i].counter !in visited)
    && (forall v | v in visited :: 1 <= v <= counter)
  }

  /** No queued state reaches the goal unless the initial state does. */
  ghost predicate Sound(q: seq<Entry>, initial: State)
  {
    forall i | 0 <= i < |q| :: Solvable(q[i].state) ==> Solvable(initial)
  }

  /** If the initial state reaches the goal, some queued state does. */
  ghost predicate Complete(q: seq<Entry>, initial: State)
  {
    Solvable(initial) ==> exists i | 0 <= i < |q| :: Solvable(q[i].state)
  }

  /** Removing entry k from q leaves the other entries in order and takes away its weight. */
  lemma RemoveEntry(q: seq<Entry>, k: nat, rest: seq<Entry>)
    requires k < |q| && rest == q[..k] + q[k + 1..]
    ensures |rest| == |q| - 1
    ensures forall i | 0 <= i < |rest| :: rest[i] == q[if i < k then i else i + 1]
    ensures multiset(rest) + multiset{q[k]} == multiset(q)
    ensures TotalWeight(q, EntryState) == TotalWeight(rest, EntryState) + StateWeight(q[k].state)
  {
    RemoveEntryWeight(q, k);
  }

  /** Taking entry k out of a queue removes one occurrence of it and lightens the queue by its weight. */
  lemma RemoveEntryWeight(q: seq<Entry>, k: nat)
    requires k < |q|
    ensures multiset(q[..k] + q[k + 1..]) + multiset{q[k]} == multiset(q)
    ensures TotalWeight(q, EntryState) == TotalWeight(q[..k] + q[k + 1..], EntryState) + StateWeight(q[k].state)
  {
    SplitAt(q, k);
    RemovePiece(q[..k], q[k], q[k + 1..]);
  }

  /** A queue is its entries before k, entry k and its entries after k. */
  lemma SplitAt(q: seq<Entry>, k: nat)
    requires k < |q|
    ensures q == q[..k] + [q[k]] + q[k + 1..]
  {
    assert q[k..] == [q[k]] + q[k + 1..];
    assert q == q[..k] + q[k..];
  }

  /** Taking e out from between front and back removes one occurrence of it and lightens the queue by its weight. */
  lemma RemovePiece(front: seq<Entry>, e: Entry, back: seq<Entry>)
    ensures multiset(front + back) + multiset{e} == multiset(front + [e] + back)
    ensures TotalWeight(front + [e] + back, EntryState) == TotalWeight(front + back, EntryState) + StateWeight(e.state)
  {
    TotalWeightAppend(front + [e], back, EntryState);
    TotalWeightAppend(front, [e], EntryState);
    TotalWeightAppend(front, back, EntryState);
    TotalWeightSingle(e, EntryState);
  }

  /**
   * Popping entry k, leaving rest, and marking it expanded keeps the rest
   * ranked, numbered and sound, and leaves a solvable state queued unless
   * the popped one was the only one.
   */
  lemma PopEntry(h: Heuristic, q: seq<Entry>, k: nat, rest: seq<Entry>, visited: set<nat>, counter: nat, initial: State)
    requires k < |q| && rest == q[..k] + q[k + 1..]
    requires Ranked(h, q) && Numbered(q, visited, counter) && Sound(q, initial) && Complete(q, initial)
    ensures q[k].counter !in visited
    ensures Ranked(h, rest) && Numbered(rest, visited + {q[k].counter}, counter) && Sound(rest, initial)
    ensures Solvable(q[k].state) ==> Solvable(initial)
    ensures Solvable(initial) ==> Solvable(q[k].state) || exists i | 0 <= i < |rest| :: Solvable(rest[i].state)
  {
    RemoveEntry(q, k, rest);
    forall i, j | 0 <= i < j < |rest|
      ensures QueuedBefore(rest, i, j)
    {
      assert QueuedBefore(q, if i < k then i else i + 1, if j < k then j else j + 1);
    }
    forall i | 0 <= i < |rest|
      ensures RankedAt(h, rest, i)
    {
      assert RankedAt(h, q, if i < k then i else i + 1);
    }
    forall i | 0 <= i < |rest|
      ensures rest[i].counter != q[k].counter
    {
      if i < k {
        assert QueuedBefore(q, i, k);
      } else {
        assert QueuedBefore(q, k, i + 1);
      }
    }
    if Solvable(initial) && !Solvable(q[k].state) {
      var i :| 0 <= i < |q| && Solvable(q[i].state);
      assert rest[if i < k then i else i - 1] == q[i];
    }
  }

  /**
   * Queueing the children of an expanded state with fresh counters keeps
   * the queue ranked and numbered.
   */
  lemma QueueChildren(h: Heuristic, rest: seq<Entry>, s: State, visited: set<nat>, counter: nat)
    requires Ranked(h, rest) && Numbered(rest, visited, counter)
    ensures Ranked(h, rest + Children(h, s, ApplicableActions(s), counter))
    ensures Numbered(rest + Children(h, s, ApplicableActions(s), counter), visited, counter + |Children(h, s, ApplicableActions(s), counter)|)
  {
    var acts := ApplicableActions(s);
    ApplicablePreconditions(s);
    ChildrenShape(h, s, acts, counter);
    var all := rest + Children(h, s, acts, counter);
    forall i, j | 0 <= i < j < |all|
      ensures QueuedBefore(all, i, j)
    {
      if j < |rest| {
        assert QueuedBefore(rest, i, j);
      }
    }
    forall i | 0 <= i < |all|
      ensures RankedAt(h, all, i)
    {
      if i < |rest| {
        assert RankedAt(h, rest, i);
      }
    }
  }

  /** Every child of an expanded state the initial state reaches is one the initial state reaches. */
  lemma QueueChildrenSound(h: Heuristic, rest: seq<Entry>, s: State, counter: nat, initial: State)
    requires Sound(rest, initial) && (Solvable(s) ==> Solvable(initial))
    ensures Sound(rest + Children(h, s, ApplicableActions(s), counter), initial)
  {
    var acts := ApplicableActions(s);
    var q := rest + Children(h, s, acts, counter);
    ApplicablePreconditions(s);
    ChildrenShape(h, s, acts, counter);
    forall i | 0 <= i < |q| && Solvable(q[i].state)
      ensures Solvable(initial)
    {
      if i >= |rest| {
        SolvableStep(s, acts[i - |rest|]);
      }
    }
  }

  /** Replacing a solvable non-goal state by its children keeps a solvable state queued. */
  lemma QueueChildrenComplete(h: Heuristic, rest: seq<Entry>, s: State, counter: nat, initial: State)
    requires !Goal(s)
    requires Solvable(initial) ==> Solvable(s) || exists i | 0 <= i < |rest| :: Solvable(rest[i].state)
    ensures Complete(rest + Children(h, s, ApplicableActions(s), counter), initial)
  {
    var acts := ApplicableActions(s);
    var q := rest + Children(h, s, acts, counter);
    if Solvable(initial) {
      if i :| 0 <= i < |rest| && Solvable(rest[i].state) {
        assert q[i] == rest[i];
      } else {
        ApplicablePreconditions(s);
        ChildrenShape(h, s, acts, counter);
        SolvableSplit(s);
        var a :| a in acts && Solvable(ApplyState(a, s));
        var j :| 0 <= j < |acts| && acts[j] == a;
        assert q[|rest| + j].state == ApplyState(a, s);
      }
    }
  }

  /** The children of a state weigh less than the state. */
  lemma QueueChildrenLighter(h: Heuristic, rest: seq<Entry>, s: State, counter: nat)
    ensures TotalWeight(rest + Children(h, s, ApplicableActions(s), counter), EntryState) < TotalWeight(rest, EntryState) + StateWeight(s)
  {
    var acts := ApplicableActions(s);
    var kids := Children(h, s, acts, counter);
    ChildrenWeight(h, s, acts, counter);
    TotalWeightAppend(rest, kids, EntryState);
    WeightDrops(TotalWeight(rest, EntryState), TotalWeight(kids, EntryState), StateWeight(s), |acts|);
  }

  class AStarSearch {
    var counter: nat
    var initialState: State
    var heuristic: Heuristic
    /** The counters of the state objects already expanded. */
    var visited: set<nat>
    var priorityQueue: seq<Entry>
    /** The entries popped so far, in order. */
    ghost var popped: seq<Entry>

    /**
     * The queue is ranked and numbered, and holds a solvable state exactly
     * when the initial state is solvable.
     */
    ghost predicate Valid()
      reads this
    {
      && Ranked(heuristic, priorityQueue)
      && Numbered(priorityQueue, visited, counter)
      && Sound(priorityQueue, initialState)
      && Complete(priorityQueue, initialState)
    }

    /** `AStarSearch.__init__`: the queue holds the initial state with counter 1. */
    constructor (initialState: State, heuristic: Heuristic)
      ensures Valid()
      ensures this.initialState == initialState && this.heuristic == heuristic
      ensures counter == 1 && visited == {} && popped == []
      ensures priorityQueue == [Entry(HeuristicValue(heuristic, initialState), 1, initialState)]
    {
      counter := 0;
      this.initialState := initialState;
      this.heuristic := heuristic;
      visited := {};
      popped := [];
      priorityQueue := [];
      new;
      var entry := CalculatePriority(initialState);
      priorityQueue := [entry];
      assert priorityQueue[0].state == initialState;
    }

    /**
     * `calculate_priority`: issues the next counter and ranks s by the
     * heuristic plus the length of its path, which is always the empty
     * default.
     */
    method CalculatePriority(s: State) returns (entry: Entry)
      modifies this
      ensures counter == old(counter) + 1
      ensures entry == Entry(HeuristicValue(heuristic, s), counter, s)
      ensures initialState == old(initialState) && heuristic == old(heuristic) && visited == old(visited)
      ensures priorityQueue == old(priorityQueue) && popped == old(popped)
    {
      var hValue := Evaluate(heuristic, s);
      counter := counter + 1;
      entry := Entry(hValue + 0, counter, s);
    }

    /**
     * The `for action in applicableActions(current_state)` loop of
     * `AStarSearch.search`: queues each successor of s with a fresh counter.
     */
    method PushSuccessors(s: State)
      modifies this
      ensures priorityQueue == old(priorityQueue) + Children(heuristic, s, ApplicableActions(s), old(counter))
      ensures counter == old(counter) + |Children(heuristic, s, ApplicableActions(s), old(counter))|
      ensures initialState == old(initialState) && heuristic == old(heuristic) && visited == old(visited)
      ensures popped == old(popped)
    {
      var actions := CollectActions(s);
      for j := 0 to |actions|
        invariant priorityQueue == old(priorityQueue) + Children(heuristic, s, actions[..j], old(counter))
        invariant counter == old(counter) + |Children(heuristic, s, actions[..j], old(counter))|
        invariant initialState == old(initialState) && heuristic == old(heuristic) && visited == old(visited)
        invariant popped == old(popped)
      {
        var action := actions[j];
        assert actions[..j + 1][..j] == actions[..j];
        if Precondition(action, s) {
          var successor := ApplyState(action, s);
          // `successor not in self.visited` always holds: the successor is a new object.
          var entry := CalculatePriority(successor);
          priorityQueue := priorityQueue + [entry];
        }
      }
      assert actions[..|actions|] == actions;
    }

    /**
     * The rest of one iteration of `AStarSearch.search` once the popped
     * state s is marked expanded and is not the goal: queues its successors.
     */
    method Expand(current: Entry)
      requires Ranked(heuristic, priorityQueue) && Numbered(priorityQueue, visited + {current.counter}, counter)
      requires Sound(priorityQueue, initialState) && !Goal(current.state)
      requires Solvable(current.state) ==> Solvable(initialState)
      requires Solvable(initialState) ==> Solvable(current.state) || exists i | 0 <= i < |priorityQueue| :: Solvable(priorityQueue[i].state)
      modifies this
      ensures Valid()
      ensures visited == old(visited) + {current.counter}
      ensures priorityQueue == old(priorityQueue) + Children(heuristic, current.state, ApplicableActions(current.state), old(counter))
      ensures TotalWeight(priorityQueue, EntryState) < old(TotalWeight(priorityQueue, EntryState)) + StateWeight(current.state)
      ensures initialState == old(initialState) && heuristic == old(heuristic) && popped == old(popped)
    {
      visited := visited + {current.counter};
      var s := current.state;
      QueueChildren(heuristic, priorityQueue, s, visited, counter);
      QueueChildrenSound(heuristic, priorityQueue, s, counter, initialState);
      QueueChildrenComplete(heuristic, priorityQueue, s, counter, initialState);
      QueueChildrenLighter(heuristic, priorityQueue, s, counter);
      PushSuccessors(s);
    }

    /**
     * `heapq.heappop(self.priorityQueue)`: removes and returns an entry of
     * least priority, ties going to the least counter, and records it as
     * popped.
     */
    method Pop() returns (current: Entry)
      requires Valid() && priorityQueue != []
      modifies this
      ensures current in old(priorityQueue) && forall i | 0 <= i < |old(priorityQueue)| :: EntryLe(current, old(priorityQueue)[i])
      ensures multiset(priorityQueue) + multiset{current} == multiset(old(priorityQueue))
      ensures popped == old(popped) + [current]
      ensures current.counter !in visited
      ensures Ranked(heuristic, priorityQueue) && Numbered(priorityQueue, visited + {current.counter}, counter)
      ensures Sound(priorityQueue, initialState)
      ensures Solvable(current.state) ==> Solvable(initialState)
      ensures Solvable(initialState) ==> Solvable(current.state) || exists i | 0 <= i < |priorityQueue| :: Solvable(priorityQueue[i].state)
      ensures TotalWeight(priorityQueue, EntryState) + StateWeight(current.state) == old(TotalWeight(priorityQueue, EntryState))
      ensures initialState == old(initialState) && heuristic == old(heuristic)
      ensures visited == old(visited) && counter == old(counter)
    {
      var k := MinIndex(priorityQueue);
      current := priorityQueue[k];
      var rest := priorityQueue[..k] + priorityQueue[k + 1..];
      PopEntry(heuristic, priorityQueue, k, rest, visited, counter, initialState);
      RemoveEntry(priorityQueue, k, rest);
      priorityQueue := rest;
      popped := popped + [current];
    }

    /**
     * `AStarSearch.search`: pops the least entry until it is the goal and
     * returns that state's path, which is always empty; expands every other
     * popped state, queueing each successor. It finds a goal exactly when
     * the initial state is solvable, and returns at the first goal popped.
     */
    method Search() returns (result: Option<seq<Step>>)
      requires Valid()
      modifies this
      ensures result.Some? <==> Solvable(initialState)
      ensures result.Some? ==> result.value == [] && |popped| > 0 && Goal(popped[|popped| - 1].state)
      ensures forall i | |old(popped)| <= i < |popped| :: !Goal(popped[i].state) || (result.Some? && i == |popped| - 1)
      ensures |old(popped)| <= |popped| && popped[..|old(popped)|] == old(popped)
      ensures initialState == old(initialState)
    {
      while priorityQueue != []
        invariant Valid()
        invariant initialState == old(initialState) && heuristic == old(heuristic)
        invariant |old(popped)| <= |popped| && popped[..|old(popped)|] == old(popped)
        invariant forall i | |old(popped)| <= i < |popped| :: !Goal(popped[i].state)
        decreases TotalWeight(priorityQueue, EntryState)
      {
        var current := Pop();
        assert popped[..|old(popped)|] == old(popped);
        if Goal(current.state) {
          GoalSolvable(current.state);
          return Some([]);
        }
        // `current_state in self.visited` never holds: no counter is expanded twice.
        assert current.counter !in visited;
        Expand(current);
      }
      return None;
    }
  }
}
