/**
 * The peg-solitaire board of pegboard.py: a 4x4 board whose pegs are the
 * set bits of an integer value (slot i, of weight 2^i, is row i / 4 and
 * column i % 4), jumps over a neighbouring peg into an empty slot, the goal
 * of a single peg in slot 9, and the two heuristics the A* search uses.
 *
 * A state is kept as the set of its set bits: `value | (1 << p)` adds p,
 * `value & ~(1 << p)` removes it, `(value >> i) & 1` and
 * `value & (1 << i) != 0` test membership, and Value gives the integer back.
 */
module Pegboard {
  import opened Common

  /** A slot of the 4x4 board. */
  type Slot = i: nat | i < 16

  /** `State(value)`, by the slots whose bit is set. */
  datatype State = State(pegs: set<Slot>)

  /** `Action(jumper, goner, newpos)`: the peg in jumper jumps over goner into newpos. */
  datatype Action = Action(jumper: Slot, goner: Slot, newpos: Slot)

  function Pow2(n: nat): (r: nat)
    ensures r >= 1
  {
    if n == 0 then 1 else 2 * Pow2(n - 1)
  }

  /** The weight of the set bits below n. */
  function ValueBelow(pegs: set<Slot>, n: nat): nat
    requires n <= 16
    // pegs heads the decreases clause so that a call on an unknown set is not
    // unrolled all the way down just because its bound is a literal.
    decreases pegs, n
  {
    if n == 0 then 0 else ValueBelow(pegs, n - 1) + (if n - 1 in pegs then Pow2(n - 1) else 0)
  }

  /** `state.value`. */
  function Value(s: State): nat
  {
    ValueBelow(s.pegs, 16)
  }

  lemma {:induction false} ValueBelowBound(pegs: set<Slot>, n: nat)
    requires n <= 16
    ensures ValueBelow(pegs, n) < Pow2(n)
  {
    if n > 0 {
      ValueBelowBound(pegs, n - 1);
    }
  }

  /** Different sets of bits are different integers. */
  lemma {:induction false} ValueBelowInjective(p: set<Slot>, q: set<Slot>, n: nat)
    requires n <= 16 && ValueBelow(p, n) == ValueBelow(q, n)
    ensures forall i: Slot | i < n :: i in p <==> i in q
  {
    if n > 0 {
      ValueBelowBound(p, n - 1);
      ValueBelowBound(q, n - 1);
      ValueBelowInjective(p, q, n - 1);
    }
  }

  lemma ValueInjective(s: State, t: State)
    ensures Value(s) == Value(t) <==> s == t
  {
    if Value(s) == Value(t) {
      ValueBelowInjective(s.pegs, t.pegs, 16);
      assert s.pegs == t.pegs;
    }
  }

  /** Adding a bit that is clear adds its weight. */
  lemma {:induction false} ValueBelowAdd(pegs: set<Slot>, p: Slot, n: nat)
    requires n <= 16 && p !in pegs
    ensures ValueBelow(pegs + {p}, n) == ValueBelow(pegs, n) + (if p < n then Pow2(p) else 0)
  {
    if n > 0 {
      ValueBelowAdd(pegs, p, n - 1);
    }
  }

  /** Removing a bit that is set subtracts its weight. */
  lemma {:induction false} ValueBelowRemove(pegs: set<Slot>, p: Slot, n: nat)
    requires n <= 16 && p in pegs
    ensures ValueBelow(pegs - {p}, n) == ValueBelow(pegs, n) - (if p < n then Pow2(p) else 0)
  {
    if n > 0 {
      ValueBelowRemove(pegs, p, n - 1);
    }
  }

  /** The number of set bits below n: what `bin(value).count("1")` counts. */
  function CountBelow(pegs: set<Slot>, n: nat): (c: nat)
    requires n <= 16
    ensures c <= n
    decreases pegs, n
  {
    if n == 0 then 0 else CountBelow(pegs, n - 1) + (if n - 1 in pegs then 1 else 0)
  }

  lemma {:induction false} CountBelowIsSize(pegs: set<Slot>, n: nat)
    requires n <= 16
    ensures CountBelow(pegs, n) == |set i: Slot | i < n && i in pegs|
  {
    if n > 0 {
      CountBelowIsSize(pegs, n - 1);
      var below := set i: Slot | i < n - 1 && i in pegs;
      var upTo := set i: Slot | i < n && i in pegs;
      if n - 1 in pegs {
        assert upTo == below + {n - 1};
      } else {
        assert upTo == below;
      }
    }
  }

  /** `bin(state.value).count("1")`: the number of pegs, one per set bit. */
  function Pegs(s: State): nat
  {
    |s.pegs|
  }

  /** Counting the set bits of the value one position at a time gives the number of pegs. */
  lemma PegsCountsBits(s: State)
    ensures CountBelow(s.pegs, 16) == Pegs(s)
  {
    CountBelowIsSize(s.pegs, 16);
    assert (set i: Slot | i < 16 && i in s.pegs) == s.pegs;
  }

  /** `State.get_parity`. */
  function Parity(s: State): (p: nat)
    ensures p < 2 && (p == 0 <==> |s.pegs| % 2 == 0)
  {
    Pegs(s) % 2
  }

  // ---------------------------------------------------------------------
  // Actions
  // ---------------------------------------------------------------------

  /** `Action.applyState`: set newpos, then clear jumper, then clear goner. */
  function ApplyState(a: Action, s: State): State
  {
    State(s.pegs + {a.newpos} - {a.jumper} - {a.goner})
  }

  /** `Action.precondition`: pegs in jumper and goner, none in newpos. */
  predicate Precondition(a: Action, s: State)
  {
    a.jumper in s.pegs && a.goner in s.pegs && a.newpos !in s.pegs
  }

  /**
   * On the integer, a legal jump over a distinct peg adds the weight of
   * newpos and subtracts those of jumper and goner; every other bit stays.
   */
  lemma JumpValue(a: Action, s: State)
    requires Precondition(a, s) && a.jumper != a.goner
    ensures Value(ApplyState(a, s)) == Value(s) + Pow2(a.newpos) - Pow2(a.jumper) - Pow2(a.goner)
    ensures forall i: Slot | i != a.jumper && i != a.goner && i != a.newpos :: i in ApplyState(a, s).pegs <==> i in s.pegs
  {
    var p1 := s.pegs + {a.newpos};
    var p2 := p1 - {a.jumper};
    ValueBelowAdd(s.pegs, a.newpos, 16);
    ValueBelowRemove(p1, a.jumper, 16);
    ValueBelowRemove(p2, a.goner, 16);
  }

  /**
   * A legal jump over a distinct peg needs two pegs, removes exactly one,
   * and so flips the parity.
   */
  lemma JumpRemovesOnePeg(a: Action, s: State)
    requires Precondition(a, s) && a.jumper != a.goner
    ensures |s.pegs| >= 2
    ensures Pegs(ApplyState(a, s)) == Pegs(s) - 1
    ensures Parity(ApplyState(a, s)) != Parity(s)
  {
    assert a.goner in s.pegs - {a.jumper};
    var p1 := s.pegs + {a.newpos};
    var p2 := p1 - {a.jumper};
    assert |p1| == |s.pegs| + 1;
    assert |p2| == |p1| - 1;
    assert |p2 - {a.goner}| == |p2| - 1;
  }

  /** The eight directions `(dx, dy)`, in the order the source tries them. */
  const Directions: seq<(int, int)> := [(-1, 0), (1, 0), (0, -1), (0, 1), (-1, -1), (-1, 1), (1, -1), (1, 1)]

  /** `get_position`: the slot step steps from pos in direction (dx, dy), if on the board. */
  function GetPosition(pos: Slot, dx: int, dy: int, step: int): (r: Option<Slot>)
    ensures r.Some? <==> 0 <= pos / 4 + dx * step < 4 && 0 <= pos % 4 + dy * step < 4
    ensures r.Some? ==> r.value / 4 == pos / 4 + dx * step && r.value % 4 == pos % 4 + dy * step
  {
    var x := pos / 4;
    var y := pos % 4;
    var nx := x + dx * step;
    var ny := y + dy * step;
    if 0 <= nx < 4 && 0 <= ny < 4 then Some(nx * 4 + ny) else None
  }

  /**
   * The candidate action of slot pos in direction d of the list, when both
   * steps stay on the board.
   */
  function Candidate(pos: Slot, d: nat): Option<Action>
    requires d < 8
  {
    var dir := Directions[d];
    var goner := GetPosition(pos, dir.0, dir.1, 1);
    var newpos := GetPosition(pos, dir.0, dir.1, 2);
    if goner.Some? && newpos.Some? then Some(Action(pos, goner.value, newpos.value)) else None
  }

  /** The direction with slot offset `4 * dx + dy`. */
  function DirectionOf(offset: int): (d: nat)
    ensures d < 8
  {
    match offset
    case -4 => 0
    case 4 => 1
    case -1 => 2
    case 1 => 3
    case -5 => 4
    case -3 => 5
    case 3 => 6
    case _ => 7
  }

  /** Where a jump stands among the candidates: its slot, then its direction. */
  function JumpIndex(a: Action): nat
  {
    a.jumper * 8 + DirectionOf(a.goner - a.jumper)
  }

  /** A candidate jump starts at its slot, is found again from its index, jumps over a distinct slot, and lands two steps away. */
  lemma CandidateFacts(pos: Slot, d: nat)
    requires d < 8 && Candidate(pos, d).Some?
    ensures Candidate(pos, d).value.jumper == pos
    ensures JumpIndex(Candidate(pos, d).value) == pos * 8 + d
    ensures Candidate(pos, d).value.jumper != Candidate(pos, d).value.goner
    ensures Candidate(pos, d).value.newpos - Candidate(pos, d).value.goner == Candidate(pos, d).value.goner - Candidate(pos, d).value.jumper
  {
    var a := Candidate(pos, d).value;
    var (dx, dy) := Directions[d];
    assert a.goner == a.jumper + 4 * dx + dy;
    assert a.newpos == a.jumper + 8 * dx + 2 * dy;
  }

  /** Whether candidate c exists and its precondition holds in s. */
  predicate Applies(c: Option<Action>, s: State)
  {
    c.Some? && Precondition(c.value, s)
  }

  /**
   * The applicable candidates before slot pos, direction d: every direction
   * of the slots below pos, then the first d directions of slot pos.
   */
  function ApplicableBefore(s: State, pos: nat, d: nat): (r: seq<Action>)
    requires (pos < 16 && d <= 8) || (pos == 16 && d == 0)
    ensures |r| <= pos * 8 + d
    // As for ValueBelow, the state heads the decreases clause.
    decreases s, pos, d
  {
    if d == 0 then (if pos == 0 then [] else ApplicableBefore(s, pos - 1, 8))
    else ApplicableBefore(s, pos, d - 1) + (if Applies(Candidate(pos, d - 1), s) then [Candidate(pos, d - 1).value] else [])
  }

  /** Every listed action is a candidate whose precondition holds. */
  lemma {:induction false} ApplicableBeforeSound(s: State, pos: nat, d: nat)
    requires (pos < 16 && d <= 8) || (pos == 16 && d == 0)
    ensures forall i | 0 <= i < |ApplicableBefore(s, pos, d)| ::
      Precondition(ApplicableBefore(s, pos, d)[i], s)
      && exists p: Slot, e | e < 8 :: Candidate(p, e) == Some(ApplicableBefore(s, pos, d)[i])
    decreases pos, d
  {
    if d == 0 {
      if pos > 0 {
        ApplicableBeforeSound(s, pos - 1, 8);
      }
    } else {
      ApplicableBeforeSound(s, pos, d - 1);
      var r := ApplicableBefore(s, pos, d);
      var prev := ApplicableBefore(s, pos, d - 1);
      forall i | 0 <= i < |prev| ensures r[i] == prev[i] {
      }
      if Applies(Candidate(pos, d - 1), s) {
        assert Candidate(pos, d - 1) == Some(r[|prev|]);
      }
    }
  }

  /** The listed actions come in candidate order: their indices are below pos * 8 + d and strictly increase. */
  lemma {:induction false} ApplicableBeforeOrdered(s: State, pos: nat, d: nat)
    requires (pos < 16 && d <= 8) || (pos == 16 && d == 0)
    ensures forall i | 0 <= i < |ApplicableBefore(s, pos, d)| :: JumpIndex(ApplicableBefore(s, pos, d)[i]) < pos * 8 + d
    ensures forall i, j | 0 <= i < j < |ApplicableBefore(s, pos, d)| ::
      JumpIndex(ApplicableBefore(s, pos, d)[i]) < JumpIndex(ApplicableBefore(s, pos, d)[j])
    decreases pos, d
  {
    if d == 0 {
      if pos > 0 {
        ApplicableBeforeOrdered(s, pos - 1, 8);
      }
    } else {
      ApplicableBeforeOrdered(s, pos, d - 1);
      var r := ApplicableBefore(s, pos, d);
      var prev := ApplicableBefore(s, pos, d - 1);
      forall i | 0 <= i < |prev| ensures r[i] == prev[i] {
      }
      if Applies(Candidate(pos, d - 1), s) {
        CandidateFacts(pos, d - 1);
      }
    }
  }

  /** Every candidate before slot pos, direction d, whose precondition holds is listed. */
  lemma {:induction false} ApplicableBeforeComplete(s: State, pos: nat, d: nat)
    requires (pos < 16 && d <= 8) || (pos == 16 && d == 0)
    ensures forall p: Slot, e | e < 8 && p * 8 + e < pos * 8 + d ::
      Applies(Candidate(p, e), s) ==> Candidate(p, e).value in ApplicableBefore(s, pos, d)
    decreases pos, d
  {
    if d == 0 {
      if pos > 0 {
        ApplicableBeforeComplete(s, pos - 1, 8);
      }
    } else {
      ApplicableBeforeComplete(s, pos, d - 1);
      var r := ApplicableBefore(s, pos, d);
      var prev := ApplicableBefore(s, pos, d - 1);
      assert r == prev + (if Applies(Candidate(pos, d - 1), s) then [Candidate(pos, d - 1).value] else []);
      forall p: Slot, e | e < 8 && p * 8 + e < pos * 8 + d && Applies(Candidate(p, e), s)
        ensures Candidate(p, e).value in r
      {
        if p * 8 + e < pos * 8 + d - 1 {
          assert Candidate(p, e).value in prev;
        } else {
          assert p == pos && e == d - 1;
        }
      }
    }
  }

  /**
   * `applicableActions`: every candidate jump whose precondition holds,
   * ordered by the jumping slot and then by the direction list.
   */
  function ApplicableActions(s: State): seq<Action>
  {
    ApplicableBefore(s, 16, 0)
  }

  /** `applicableActions`, as the source computes it: slot by slot, direction by direction. */
  method CollectActions(s: State) returns (actions: seq<Action>)
    ensures actions == ApplicableActions(s)
  {
    actions := [];
    for pos := 0 to 16
      invariant actions == ApplicableBefore(s, pos, 0)
    {
      for d := 0 to 8
        invariant actions == ApplicableBefore(s, pos, d)
      {
        var candidate := Candidate(pos, d);
        if candidate.Some? {
          var action := candidate.value;
          if Precondition(action, s) {
            actions := actions + [action];
          }
        }
      }
    }
  }

  /** An action is applicable exactly when it is a candidate jump whose precondition holds. */
  lemma ApplicableIff(s: State, a: Action)
    ensures a in ApplicableActions(s) <==> Precondition(a, s) && exists p: Slot, e | e < 8 :: Candidate(p, e) == Some(a)
  {
    if a in ApplicableActions(s) {
      ApplicableBeforeSound(s, 16, 0);
      var i :| 0 <= i < |ApplicableActions(s)| && ApplicableActions(s)[i] == a;
    } else if Precondition(a, s) {
      ApplicableBeforeComplete(s, 16, 0);
    }
  }

  /** a comes before b among the candidates: a smaller jumping slot, or the same slot and an earlier direction. */
  predicate InCandidateOrder(a: Action, b: Action)
  {
    a.jumper < b.jumper || (a.jumper == b.jumper && DirectionOf(a.goner - a.jumper) < DirectionOf(b.goner - b.jumper))
  }

  /** A smaller index means an earlier slot, or the same slot and an earlier direction. */
  lemma IndexOrder(a: Action, b: Action)
    requires JumpIndex(a) < JumpIndex(b)
    ensures InCandidateOrder(a, b)
  {
  }

  /** Applicable actions come in candidate order: by jumping slot, then by direction. */
  lemma ApplicableOrdered(s: State)
    ensures forall i, j | 0 <= i < j < |ApplicableActions(s)| :: InCandidateOrder(ApplicableActions(s)[i], ApplicableActions(s)[j])
  {
    var r := ApplicableActions(s);
    ApplicableBeforeOrdered(s, 16, 0);
    forall i, j | 0 <= i < j < |r| ensures InCandidateOrder(r[i], r[j]) {
      IndexOrder(r[i], r[j]);
    }
  }

  /** Every applicable jump needs two pegs, removes exactly one and flips the parity. */
  lemma ApplicableRemovesOnePeg(s: State, a: Action)
    requires a in ApplicableActions(s)
    ensures a.jumper != a.goner && Precondition(a, s) && |s.pegs| >= 2
    ensures Pegs(ApplyState(a, s)) == Pegs(s) - 1 && Parity(ApplyState(a, s)) != Parity(s)
  {
    ApplicableIff(s, a);
    var p: Slot, e :| e < 8 && Candidate(p, e) == Some(a);
    CandidateFacts(p, e);
    JumpRemovesOnePeg(a, s);
  }

  // ---------------------------------------------------------------------
  // Goal and heuristics
  // ---------------------------------------------------------------------

  /** `goal`: the value is 0b0000001000000000. */
  predicate Goal(s: State)
  {
    Value(s) == 512
  }

  lemma {:induction false} ValueBelowSingle(p: Slot, n: nat)
    requires n <= 16
    ensures ValueBelow({p}, n) == if p < n then Pow2(p) else 0
  {
    if n > 0 {
      ValueBelowSingle(p, n - 1);
    }
  }

  /** The goal is the board whose only peg is in slot 9. */
  lemma GoalIffOnlySlot9(s: State)
    ensures Goal(s) <==> s.pegs == {9}
  {
    ValueBelowSingle(9, 16);
    assert Pow2(9) == 512;
    ValueInjective(s, State({9}));
  }

  /** `heuristic1`: the number of applicable actions. */
  method Heuristic1(s: State) returns (h: nat)
    ensures h == |ApplicableActions(s)| && h <= 128
  {
    var actions := CollectActions(s);
    h := |actions|;
  }

  /** With fewer than two pegs there is nothing to jump, so heuristic1 is 0; in particular at the goal. */
  lemma FewPegsNoJumps(s: State)
    requires |s.pegs| < 2 || Goal(s)
    ensures ApplicableActions(s) == []
  {
    GoalIffOnlySlot9(s);
    if ApplicableActions(s) != [] {
      var a := ApplicableActions(s)[0];
      ApplicableRemovesOnePeg(s, a);
    }
  }

  /** `manhattan_distance`. */
  function ManhattanDistance(p1: (int, int), p2: (int, int)): (d: nat)
    ensures d == 0 <==> p1 == p2
    ensures d >= p1.0 - p2.0 && d >= p2.0 - p1.0 && d >= p1.1 - p2.1 && d >= p2.1 - p1.1
  {
    var dx := if p1.0 >= p2.0 then p1.0 - p2.0 else p2.0 - p1.0;
    var dy := if p1.1 >= p2.1 then p1.1 - p2.1 else p2.1 - p1.1;
    dx + dy
  }

  /** The slot heuristic2 measures towards: row 2, column 1 (slot 9). */
  const Target: (int, int) := (2, 1)

  /** The distance term of slot i. */
  function SlotDistance(i: Slot): nat
  {
    ManhattanDistance((i / 4, i % 4), Target)
  }

  /** The sum of the distances to the target of the pegs in slots 0 .. n-1. */
  function DistanceSum(pegs: set<Slot>, n: nat): nat
    requires n <= 16
    decreases pegs, n
  {
    if n == 0 then 0 else DistanceSum(pegs, n - 1) + (if n - 1 in pegs then SlotDistance(n - 1) else 0)
  }

  /** `heuristic2`. */
  method Heuristic2(s: State) returns (totalDistance: nat)
    ensures totalDistance == DistanceSum(s.pegs, 16)
  {
    totalDistance := 0;
    for i := 0 to 16
      invariant totalDistance == DistanceSum(s.pegs, i)
    {
      if i in s.pegs {
        totalDistance := totalDistance + ManhattanDistance((i / 4, i % 4), Target);
      }
    }
  }

  /** heuristic2 is 0 exactly when no peg stands outside slot 9. */
  lemma {:induction false} DistanceSumZeroIff(pegs: set<Slot>, n: nat)
    requires n <= 16
    ensures DistanceSum(pegs, n) == 0 <==> forall i: Slot | i < n :: i in pegs ==> i == 9
  {
    if n > 0 {
      DistanceSumZeroIff(pegs, n - 1);
      assert SlotDistance(n - 1) == 0 <==> n - 1 == 9;
    }
  }

  /** heuristic2 is 0 at the goal. */
  lemma GoalHeuristic2Zero(s: State)
    requires Goal(s)
    ensures DistanceSum(s.pegs, 16) == 0
  {
    GoalIffOnlySlot9(s);
    DistanceSumZeroIff(s.pegs, 16);
  }

  /**
   * Every peg outside slot 9 adds at least 1 to heuristic2, so it is at
   * least the number of pegs not in slot 9.
   */
  lemma {:induction false} DistanceSumCountsPegs(pegs: set<Slot>, n: nat)
    requires n <= 16
    ensures DistanceSum(pegs, n) + (if n > 9 && 9 in pegs then 1 else 0) >= CountBelow(pegs, n)
  {
    if n > 0 {
      DistanceSumCountsPegs(pegs, n - 1);
      assert n - 1 != 9 ==> SlotDistance(n - 1) >= 1;
    }
  }
}
