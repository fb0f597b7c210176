/**
  The B-tree height calculator (db/btheight.c): levels and blocks of a tree that holds n records
  with given numbers of records per leaf and pointers per node, in 64-bit arithmetic.
*/
module BtHeight {
  import opened Arith

  // ---------------------------------------------------------------------------
  // What the answer should be
  // ---------------------------------------------------------------------------

  /** How many records a tree of k + 1 levels can hold. */
  function Capacity(leaf: nat, node: nat, k: nat): nat {
    if k == 0 then leaf else Capacity(leaf, node, k - 1) * node
  }

  /** The least number of levels that can hold n records. */
  ghost predicate IsHeight(n: nat, leaf: nat, node: nat, levels: nat) {
    if n == 0 then levels == 0
    else levels > 0 && n <= Capacity(leaf, node, levels - 1) && (levels > 1 ==> Capacity(leaf, node, levels - 2) < n)
  }

  function Ceil(n: nat, d: nat): nat
    requires d > 0
  {
    (n + (d - 1)) / d
  }

  /** The blocks of the lowest levels: level k has one block per Capacity(k) records. */
  ghost function TotalBlocks(n: nat, leaf: nat, node: nat, levels: nat): nat
    requires leaf > 0 && node > 0
  {
    if levels == 0 then 0
    else
      CapacityPositive(leaf, node, levels - 1);
      TotalBlocks(n, leaf, node, levels - 1) + Ceil(n, Capacity(leaf, node, levels - 1))
  }

  lemma {:induction false} CapacityPositive(leaf: nat, node: nat, k: nat)
    requires leaf > 0 && node > 0
    ensures Capacity(leaf, node, k) > 0
  {
    if k > 0 {
      CapacityPositive(leaf, node, k - 1);
      MulAtLeast(Capacity(leaf, node, k - 1), node);
    }
  }

  // ---------------------------------------------------------------------------
  // Rounded-up division
  // ---------------------------------------------------------------------------

  /** q is n divided by d, rounded up. */
  ghost predicate CeilIs(n: nat, d: nat, q: nat) {
    q >= 1 && (q - 1) * d < n <= q * d
  }

  lemma {:induction false} CeilSpec(n: nat, d: nat)
    requires n > 0 && d > 0
    ensures CeilIs(n, d, Ceil(n, d))
  {
    var x := n + (d - 1);
    var q, r := x / d, x % d;
    assert x == q * d + r;
    assert (q - 1) * d == q * d - d;
  }

  lemma {:induction false} CeilUnique(n: nat, d: nat, q: nat)
    requires d > 0 && CeilIs(n, d, q)
    ensures Ceil(n, d) == q
  {
    var r := n - 1 - (q - 1) * d;
    assert q * d == (q - 1) * d + d;
    assert n + (d - 1) == q * d + r;
    MulDivMod(q, d, r);
  }

  lemma {:induction false} MulMono(a: int, b: int, d: nat)
    requires a <= b
    ensures a * d <= b * d
  {
    assert (b - a) * d == b * d - a * d;
  }

  lemma {:induction false} MulReassoc(x: int, y: int, z: int)
    ensures (x * y) * z == x * (z * y)
  {
  }

  lemma {:induction false} CeilNested(n: nat, a: nat, b: nat, p: nat, r: nat)
    requires CeilIs(n, a, p) && CeilIs(p, b, r)
    ensures CeilIs(n, a * b, r)
  {
    MulMono((r - 1) * b, p - 1, a);
    MulMono(p, r * b, a);
    MulReassoc(r - 1, b, a);
    MulReassoc(r, b, a);
  }

  /** Rounding up twice is rounding up once. */
  lemma {:induction false} CeilCeil(n: nat, a: nat, b: nat)
    requires n > 0 && a > 0 && b > 0
    ensures a * b > 0 && Ceil(Ceil(n, a), b) == Ceil(n, a * b)
  {
    MulAtLeast(a, b);
    CeilSpec(n, a);
    CeilSpec(Ceil(n, a), b);
    CeilNested(n, a, b, Ceil(n, a), Ceil(Ceil(n, a), b));
    CeilUnique(n, a * b, Ceil(Ceil(n, a), b));
  }

  lemma {:induction false} CeilOne(n: nat, d: nat)
    requires n > 0 && d > 0
    ensures Ceil(n, d) == 1 <==> n <= d
  {
    CeilSpec(n, d);
    if n <= d { CeilUnique(n, d, 1); }
  }

  lemma {:induction false} CeilSmaller(n: nat, d: nat)
    requires n > 1 && d >= 2
    ensures 1 <= Ceil(n, d) < n
  {
    CeilSpec(n, d);
    MulMono(2, d, n - 1);
    assert (n - 1) * d == d * (n - 1);
    if Ceil(n, d) >= n { MulMono(n - 1, Ceil(n, d) - 1, d); }
  }

  lemma {:induction false} CeilHalves(n: nat, d: nat)
    requires n > 0 && d >= 2
    ensures 2 * (Ceil(n, d) - 1) < n
  {
    CeilSpec(n, d);
    MulMono(2, d, Ceil(n, d) - 1);
    assert (Ceil(n, d) - 1) * d == d * (Ceil(n, d) - 1);
  }

  // ---------------------------------------------------------------------------
  // calc_height
  // ---------------------------------------------------------------------------

  /** The blocks of a level, as 64-bit arithmetic computes them. */
  function LevelBlocks(n: nat, rpb: nat): nat
    requires rpb > 0
  {
    (n + rpb - 1) % U64 / rpb
  }

  lemma {:induction false} LevelBlocksIs(n: nat, rpb: nat)
    requires 0 < n < U64 && 0 < rpb < U32
    ensures LevelBlocks(n, rpb) == if n + rpb - 1 < U64 then Ceil(n, rpb) else 0
  {
    if n + rpb - 1 >= U64 {
      var x := n + rpb - 1 - U64;
      assert (n + rpb - 1) % U64 == x;
      MulDivMod(0, rpb, x);
    }
  }

  /** Only the sums of the two lowest levels can overflow. */
  predicate NoWrap(n: nat, leaf: nat, node: nat)
    requires leaf > 0
  {
    n + leaf - 1 < U64 && (Ceil(n, leaf) <= 1 || Ceil(n, leaf) + node - 1 < U64)
  }

  /** The loop is at this level, with `left` blocks below it to point to. */
  ghost predicate AtLevel(n: nat, leaf: nat, node: nat, level: nat, left: nat)
    requires leaf > 0 && node > 0
  {
    && 0 < left < U64 && 0 < n < U64
    && (level > 0 ==> n + leaf - 1 < U64) && (level > 1 ==> Ceil(n, leaf) + node - 1 < U64)
    && if level == 0 then left == n
       else CapacityPositive(leaf, node, level - 1); left > 1 && left == Ceil(n, Capacity(leaf, node, level - 1))
  }

  /** The level above, when the sum does not overflow. */
  lemma {:induction false} LevelUp(n: nat, leaf: nat, node: nat, level: nat, left: nat, blocks: nat)
    requires 0 < leaf && 2 <= node && AtLevel(n, leaf, node, level, left)
    requires blocks == Ceil(left, if level == 0 then leaf else node)
    ensures Capacity(leaf, node, level) > 0 && blocks == Ceil(n, Capacity(leaf, node, level))
    ensures 1 <= blocks <= left && (level > 0 ==> blocks < left)
    ensures blocks == 1 ==> IsHeight(n, leaf, node, level + 1)
  {
    CapacityPositive(leaf, node, level);
    CeilOne(n, Capacity(leaf, node, level));
    if level > 0 {
      CapacityPositive(leaf, node, level - 1);
      CeilCeil(n, Capacity(leaf, node, level - 1), node);
      CeilOne(n, Capacity(leaf, node, level - 1));
      CeilSmaller(left, node);
    } else {
      CeilSpec(n, leaf);
      CeilAtMost(n, leaf);
    }
  }

  lemma {:induction false} CeilAtMost(n: nat, d: nat)
    requires n > 0 && d > 0
    ensures 1 <= Ceil(n, d) <= n
  {
    if d == 1 { CeilUnique(n, 1, n); } else if n == 1 { CeilUnique(1, d, 1); } else { CeilSmaller(n, d); }
  }

  /** Two levels up the numbers are too small to overflow. */
  lemma {:induction false} HighLevelsFit(n: nat, leaf: nat, node: nat, level: nat, left: nat)
    requires 0 < leaf && 2 <= node < U32 && level >= 2 && AtLevel(n, leaf, node, level, left)
    ensures left + node - 1 < U64
  {
    CapacityPositive(leaf, node, level - 2);
    MulAtLeast(Capacity(leaf, node, level - 2), node);
    CeilHalves(n, Capacity(leaf, node, level - 1));
  }

  /** When the sum overflows the loop stops at once, too low. */
  lemma {:induction false} WrappedIsWrong(n: nat, leaf: nat, node: nat, level: nat, left: nat)
    requires 0 < leaf < U32 && 2 <= node < U32 && AtLevel(n, leaf, node, level, left)
    requires left + (if level == 0 then leaf else node) - 1 >= U64
    ensures !IsHeight(n, leaf, node, level + 1) && !NoWrap(n, leaf, node)
  {
    if level >= 2 {
      HighLevelsFit(n, leaf, node, level, left);
    } else if level == 1 {
      CeilSpec(n, leaf);
      MulMono(node, left - 1, leaf);
      assert node * leaf == leaf * node;
    }
  }

  /** What the loop keeps; `wrapped` tells whether a sum has overflowed. */
  ghost predicate LoopOk(n: nat, leaf: nat, node: nat, level: nat, left: nat, total: nat, wrapped: bool)
    requires leaf > 0 && node > 0
  {
    if wrapped then left == 0 && !IsHeight(n, leaf, node, level) && !NoWrap(n, leaf, node)
    else
      && total == TotalBlocks(n, leaf, node, level) % U64
      && if left == 0 then IsHeight(n, leaf, node, level) && NoWrap(n, leaf, node)
         else AtLevel(n, leaf, node, level, left)
  }

  lemma {:induction false} ModAdd(a: nat, b: nat)
    ensures (a % U64 + b) % U64 == (a + b) % U64
  {
  }

  /** The level above is complete: either it is the top, or the loop goes on from it. */
  lemma {:induction false} LoopUp(n: nat, leaf: nat, node: nat, level: nat, left: nat, blocks: nat, total: nat)
    requires 0 < leaf < U32 && 2 <= node < U32 && AtLevel(n, leaf, node, level, left)
    requires var rpb := if level == 0 then leaf else node; left + rpb - 1 < U64 && blocks == Ceil(left, rpb)
    requires total == TotalBlocks(n, leaf, node, level) % U64
    ensures LoopOk(n, leaf, node, level + 1, if blocks == 1 then 0 else blocks, (total + blocks) % U64, false)
  {
    LevelUp(n, leaf, node, level, left, blocks);
    CapacityPositive(leaf, node, level);
    assert TotalBlocks(n, leaf, node, level + 1) == TotalBlocks(n, leaf, node, level) + blocks;
    ModAdd(TotalBlocks(n, leaf, node, level), blocks);
  }

  /**
    calc_height: its level count is the least number of levels that hold n records if and only if no
    sum overflows, and then the total is the sum over the levels of the records divided by the
    level's capacity, rounded up, modulo 2^64.
  */
  method CalcHeight(n: nat, leaf: nat, node: nat) returns (level: nat, total: nat)
    requires n < U64 && 1 <= leaf < U32 && 2 <= node < U32
    ensures IsHeight(n, leaf, node, level) <==> NoWrap(n, leaf, node)
    ensures NoWrap(n, leaf, node) ==> total == TotalBlocks(n, leaf, node, level) % U64
  {
    level, total := 0, 0;
    var left: nat := n;
    ghost var wrapped := false;
    if n == 0 { MulDivMod(0, leaf, leaf - 1); }
    while left != 0
      invariant LoopOk(n, leaf, node, level, left, total, wrapped)
      decreases level == 0, left
    {
      var rpb := if level == 0 then leaf else node;
      var blocks := LevelBlocks(left, rpb);
      LevelBlocksIs(left, rpb);
      if left + rpb - 1 < U64 {
        LevelUp(n, leaf, node, level, left, blocks);
        LoopUp(n, leaf, node, level, left, blocks, total);
      } else {
        WrappedIsWrong(n, leaf, node, level, left);
        wrapped := true;
      }
      total := (total + blocks) % U64;
      left := if blocks == 1 then 0 else blocks;
      level := level + 1;
    }
  }

  /** The sums do overflow: the most records there can be, two to a leaf, are reported as one empty level. */
  lemma {:induction false} WrapExample()
    ensures LevelBlocks(U64 - 1, 2) == 0 && !NoWrap(U64 - 1, 2, 4) && !IsHeight(U64 - 1, 2, 4, 1)
  {
    LevelBlocksIs(U64 - 1, 2);
  }

  // ---------------------------------------------------------------------------
  // report
  // ---------------------------------------------------------------------------

  lemma {:induction false} CapacityGrows(leaf: nat, node: nat, k: nat, k': nat)
    requires leaf > 0 && node > 0 && k <= k'
    ensures Capacity(leaf, node, k) <= Capacity(leaf, node, k')
  {
    if k < k' {
      CapacityGrows(leaf, node, k, k' - 1);
      CapacityPositive(leaf, node, k' - 1);
      MulMono(1, node, Capacity(leaf, node, k' - 1));
    }
  }

  lemma {:induction false} CapacityMono(leaf: nat, node: nat, leaf': nat, node': nat, k: nat)
    requires leaf' <= leaf && node' <= node
    ensures Capacity(leaf', node', k) <= Capacity(leaf, node, k)
  {
    if k > 0 {
      CapacityMono(leaf, node, leaf', node', k - 1);
      MulMono(Capacity(leaf', node', k - 1), Capacity(leaf, node, k - 1), node');
      MulMono(node', node, Capacity(leaf, node, k - 1));
    }
  }

  /** Fuller blocks never make a tree taller. */
  lemma {:induction false} HeightMono(n: nat, leaf: nat, node: nat, leaf': nat, node': nat, levels: nat, levels': nat)
    requires 0 < leaf' <= leaf && 0 < node' <= node
    requires IsHeight(n, leaf, node, levels) && IsHeight(n, leaf', node', levels')
    ensures levels <= levels'
  {
    if levels > levels' && n > 0 {
      CapacityMono(leaf, node, leaf', node', levels' - 1);
      CapacityGrows(leaf, node, levels' - 1, levels - 2);
    }
  }

  datatype Outcome = Outcome(leaf: nat, node: nat, levels: nat, total: nat)

  /** A scenario that was calculated, with a usable geometry. */
  ghost predicate OutcomeOk(n: nat, r: Outcome) {
    && 1 <= r.leaf < U32 && 2 <= r.node < U32
    && (IsHeight(n, r.leaf, r.node, r.levels) <==> NoWrap(n, r.leaf, r.node))
    && (NoWrap(n, r.leaf, r.node) ==> r.total == TotalBlocks(n, r.leaf, r.node, r.levels) % U64)
  }

  ghost predicate AllOk(n: nat, runs: seq<Outcome>) {
    forall i :: 0 <= i < |runs| ==> OutcomeOk(n, runs[i])
  }

  /** No scenario so far has emptier blocks than this. */
  ghost predicate NoneEmptier(runs: seq<Outcome>, leaf: nat, node: nat) {
    forall i :: 0 <= i < |runs| ==> leaf <= runs[i].leaf && node <= runs[i].node
  }

  /** Later scenarios are not shorter than earlier ones. */
  ghost predicate Ascending(n: nat, runs: seq<Outcome>)
    requires AllOk(n, runs)
  {
    forall i, j ::
      0 <= i < j < |runs| && NoWrap(n, runs[i].leaf, runs[i].node) && NoWrap(n, runs[j].leaf, runs[j].node) ==>
      runs[i].levels <= runs[j].levels
  }

  lemma {:induction false} AscendingMore(n: nat, runs: seq<Outcome>, r: Outcome)
    requires AllOk(n, runs) && OutcomeOk(n, r) && Ascending(n, runs) && NoneEmptier(runs, r.leaf, r.node)
    ensures AllOk(n, runs + [r]) && Ascending(n, runs + [r])
  {
    forall i | 0 <= i < |runs| && NoWrap(n, runs[i].leaf, runs[i].node) && NoWrap(n, r.leaf, r.node)
      ensures runs[i].levels <= r.levels
    {
      assert OutcomeOk(n, runs[i]);
      HeightMono(n, runs[i].leaf, runs[i].node, r.leaf, r.node, runs[i].levels, r.levels);
    }
  }

  /** What report has calculated; `small` tells whether three times the geometry fits in 32 bits. */
  ghost predicate RunsOk(n: nat, runs: seq<Outcome>, small: bool, leaf: nat, node: nat) {
    AllOk(n, runs) && (small ==> Ascending(n, runs) && NoneEmptier(runs, leaf, node))
  }

  lemma {:induction false} Emptier(n: nat, runs: seq<Outcome>, small: bool, leaf: nat, node: nat, leaf': nat,
                                   node': nat)
    requires RunsOk(n, runs, small, leaf, node) && (small ==> leaf' <= leaf && node' <= node)
    ensures RunsOk(n, runs, small, leaf', node')
  {
  }

  /** In 32 bits. */
  function ThreeQuarters(x: nat): (r: nat)
    ensures r < U32 && (3 * x < U32 ==> 4 * r <= 3 * x < 4 * r + 4)
  {
    x * 3 % U32 / 4
  }

  /** A scenario: the records per leaf and per node, and the least of each that it takes. */
  datatype Case = Case(leaf: nat, node: nat, minLeaf: nat, minNode: nat) {
    predicate Enough() { leaf >= minLeaf && node >= minNode }
  }

  function BestCase(best: bool, leaf: nat, node: nat): seq<Case> {
    if best then [Case(leaf, node, 2, 4)] else []
  }

  function AverageCase(average: bool, leaf: nat, node: nat): seq<Case> {
    if average then [Case(ThreeQuarters(leaf), ThreeQuarters(node), 2, 4)] else []
  }

  function WorstCase(average: bool, worst: bool, leaf: nat, node: nat): seq<Case> {
    if !worst then []
    else if average then [Case(ThreeQuarters(leaf) / 2, ThreeQuarters(node) / 2, 1, 2)]
    else [Case(leaf / 2, node / 2, 1, 2)]
  }

  /** The scenarios asked for: full blocks, three quarters of that, and half of what came before. */
  function Planned(best: bool, average: bool, worst: bool, leaf: nat, node: nat): seq<Case> {
    BestCase(best, leaf, node) + AverageCase(average, leaf, node) + WorstCase(average, worst, leaf, node)
  }

  /**
    The geometry of every scenario and when it is enough, for a geometry whose threefold fits in
    32 bits: full blocks, three quarters rounded down, and half of the last, rounded down again.
  */
  lemma {:induction false} PlanIs(best: bool, average: bool, worst: bool, leaf: nat, node: nat, plan: seq<Case>)
    requires 3 * leaf < 0x1_0000_0000 && 3 * node < 0x1_0000_0000 && plan == Planned(best, average, worst, leaf, node)
    ensures |plan| == (if best then 1 else 0) + (if average then 1 else 0) + (if worst then 1 else 0)
    ensures best ==> plan[0].leaf == leaf && plan[0].node == node && (plan[0].Enough() <==> leaf >= 2 && node >= 4)
    ensures average ==> var c := plan[if best then 1 else 0];
              && 4 * c.leaf <= 3 * leaf < 4 * c.leaf + 4 && 4 * c.node <= 3 * node < 4 * c.node + 4
              && (c.Enough() <==> c.leaf >= 2 && c.node >= 4)
    ensures average && worst ==> var c, c' := plan[|plan| - 2], plan[|plan| - 1];
              c.leaf - 1 <= 2 * c'.leaf <= c.leaf && c.node - 1 <= 2 * c'.node <= c.node
    ensures !average && worst ==> var c := plan[|plan| - 1];
              leaf - 1 <= 2 * c.leaf <= leaf && node - 1 <= 2 * c.node <= node
    ensures worst ==> var c := plan[|plan| - 1]; c.Enough() <==> c.leaf >= 1 && c.node >= 2
  {
    assert BestCase(best, leaf, node) <= plan;
  }

  /** The scenarios calculated are those planned, up to the first that takes more than there is. */
  ghost predicate Follows(runs: seq<Outcome>, plan: seq<Case>) {
    && |runs| <= |plan|
    && (forall k :: 0 <= k < |runs| ==>
          runs[k].leaf == plan[k].leaf && runs[k].node == plan[k].node && plan[k].Enough())
    && (|runs| < |plan| ==> !plan[|runs|].Enough())
  }

  lemma {:induction false} FollowsMore(runs: seq<Outcome>, plan: seq<Case>, more: seq<Case>)
    requires Follows(runs, plan) && (|runs| < |plan| || more == [])
    ensures Follows(runs, plan + more)
  {
  }

  /** One scenario, if its guards let it through. */
  method Calculate(n: nat, c: Case, runs0: seq<Outcome>, ghost plan: seq<Case>, ghost small: bool)
    returns (runs: seq<Outcome>, ok: bool)
    requires n < U64 && c.leaf < U32 && c.node < U32 && c.minLeaf >= 1 && c.minNode >= 2
    requires RunsOk(n, runs0, small, c.leaf, c.node) && Follows(runs0, plan) && |runs0| == |plan|
    ensures RunsOk(n, runs, small, c.leaf, c.node) && Follows(runs, plan + [c])
    ensures ok <==> |runs| == |plan + [c]|
  {
    ok, runs := c.leaf >= c.minLeaf && c.node >= c.minNode, runs0;
    if ok {
      var levels, total := CalcHeight(n, c.leaf, c.node);
      var r := Outcome(c.leaf, c.node, levels, total);
      runs := runs0 + [r];
      if small { AscendingMore(n, runs0, r); }
    }
  }

  /** A scenario, if it is asked for and none has been refused before. */
  method Scenario(asked: bool, ok0: bool, n: nat, c: Case, runs0: seq<Outcome>, ghost plan: seq<Case>,
                  ghost more: seq<Case>, ghost small: bool)
    returns (runs: seq<Outcome>, ok: bool)
    requires n < U64 && c.leaf < U32 && c.node < U32 && c.minLeaf >= 1 && c.minNode >= 2
    requires RunsOk(n, runs0, small, c.leaf, c.node) && Follows(runs0, plan) && (ok0 <==> |runs0| == |plan|)
    requires more == if asked then [c] else []
    ensures RunsOk(n, runs, small, c.leaf, c.node) && Follows(runs, plan + more) && (ok <==> |runs| == |plan + more|)
  {
    runs, ok := runs0, ok0;
    if asked && ok0 {
      runs, ok := Calculate(n, c, runs0, plan, small);
    } else {
      FollowsMore(runs0, plan, more);
    }
  }

  /**
    report: the scenarios asked for, in order, until one is refused. Each guard ensures that the
    calculation makes sense, and a later scenario is never shorter than an earlier one, provided that
    three times the geometry fits in 32 bits.
  */
  method Report(best: bool, average: bool, worst: bool, n: nat, leaf0: nat, node0: nat) returns (runs: seq<Outcome>)
    requires n < U64 && leaf0 < U32 && node0 < U32
    ensures AllOk(n, runs) && Follows(runs, Planned(best, average, worst, leaf0, node0))
    ensures 3 * leaf0 < U32 && 3 * node0 < U32 ==> Ascending(n, runs)
  {
    ghost var small := 3 * leaf0 < U32 && 3 * node0 < U32;
    ghost var p1, p2 := BestCase(best, leaf0, node0), AverageCase(average, leaf0, node0);
    var leaf, node, ok := leaf0, node0, true;
    runs := [];
    assert [] + p1 == p1;
    runs, ok := Scenario(best, ok, n, Case(leaf, node, 2, 4), runs, [], p1, small);
    if average {
      Emptier(n, runs, small, leaf, node, ThreeQuarters(leaf), ThreeQuarters(node));
      leaf, node := ThreeQuarters(leaf), ThreeQuarters(node);
    }
    runs, ok := Scenario(average, ok, n, Case(leaf, node, 2, 4), runs, p1, p2, small);
    if worst {
      Emptier(n, runs, small, leaf, node, leaf / 2, node / 2);
      leaf, node := leaf / 2, node / 2;
    }
    runs, ok := Scenario(worst, ok, n, Case(leaf, node, 1, 2), runs, p1 + p2, WorstCase(average, worst, leaf0, node0),
                         small);
  }
}
