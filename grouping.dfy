/**
 * The greedy grouping loop shared by the translator's sentence grouper and the
 * TTS pause-aware chunker: items are added to the current group while the
 * running weight stays within the budget; an item that would exceed it closes
 * the current group (when non-empty) and starts a new one on its own.
 */
module Grouping {
  import SeqUtil

  /** Sum of the weights of the items of g. */
  function Weight<T>(g: seq<T>, w: T -> nat): nat
  {
    if g == [] then 0 else w(g[0]) + Weight(g[1..], w)
  }

  lemma {:induction false} WeightAppend<T>(g: seq<T>, x: T, w: T -> nat)
    ensures Weight(g + [x], w) == Weight(g, w) + w(x)
  {
    if g == [] {
      assert [] + [x] == [x];
      assert [x][1..] == [];
    } else {
      assert (g + [x])[1..] == g[1..] + [x];
      WeightAppend(g[1..], x, w);
    }
  }

  /**
   * The groups produced from the remaining items, given the open group cur
   * and its running weight curW.
   */
  function GreedyFrom<T>(items: seq<T>, w: T -> nat, max: int, cur: seq<T>, curW: int): seq<seq<T>>
    decreases |items|
  {
    if items == [] then (if cur == [] then [] else [cur])
    else
      var x := items[0];
      if curW + w(x) > max then
        (if cur == [] then [] else [cur]) + GreedyFrom(items[1..], w, max, [x], w(x))
      else
        GreedyFrom(items[1..], w, max, cur + [x], curW + w(x))
  }

  /** The groups of the whole list, starting with an empty group. */
  function Greedy<T>(items: seq<T>, w: T -> nat, max: int): seq<seq<T>>
  {
    GreedyFrom(items, w, max, [], 0)
  }

  /**
   * One iteration of the grouping loop, with the groups closed so far in
   * front: an item that exceeds the budget closes the open group (when
   * non-empty) and opens its own; otherwise it joins the open group.
   */
  lemma GreedyStep<T>(groups: seq<seq<T>>, items: seq<T>, w: T -> nat, max: int, cur: seq<T>, curW: int)
    requires items != []
    ensures var x := items[0];
      curW + w(x) > max ==>
        groups + GreedyFrom(items, w, max, cur, curW)
        == (groups + (if cur == [] then [] else [cur])) + GreedyFrom(items[1..], w, max, [x], w(x))
    ensures var x := items[0];
      curW + w(x) <= max ==>
        groups + GreedyFrom(items, w, max, cur, curW)
        == groups + GreedyFrom(items[1..], w, max, cur + [x], curW + w(x))
  {
    var x := items[0];
    if curW + w(x) > max {
      SeqUtil.ConcatAssoc(groups, if cur == [] then [] else [cur], GreedyFrom(items[1..], w, max, [x], w(x)));
    }
  }

  /** A group that respects the budget, or a single item that alone exceeds it. */
  predicate WithinBudget<T>(g: seq<T>, w: T -> nat, max: int)
  {
    Weight(g, w) <= max || |g| == 1
  }

  /** Concatenating the groups gives back the open group followed by the items. */
  lemma {:induction false} GreedyFromFlatten<T>(items: seq<T>, w: T -> nat, max: int, cur: seq<T>, curW: int)
    ensures SeqUtil.Flatten(GreedyFrom(items, w, max, cur, curW)) == cur + items
    decreases |items|
  {
    if items == [] {
      if cur != [] {
        assert SeqUtil.Flatten([cur]) == cur + SeqUtil.Flatten([cur][1..]);
        assert [cur][1..] == [];
      }
      assert cur + items == cur;
    } else {
      var x := items[0];
      assert items == [x] + items[1..];
      if curW + w(x) > max {
        var rest := GreedyFrom(items[1..], w, max, [x], w(x));
        GreedyFromFlatten(items[1..], w, max, [x], w(x));
        if cur != [] {
          SeqUtil.FlattenAppend([cur], rest);
          assert SeqUtil.Flatten([cur]) == cur + SeqUtil.Flatten([cur][1..]);
          assert [cur][1..] == [];
        } else {
          assert [] + rest == rest;
        }
      } else {
        GreedyFromFlatten(items[1..], w, max, cur + [x], curW + w(x));
      }
    }
  }

  /** Concatenating the groups gives back the input list, in order. */
  lemma GreedyFlatten<T>(items: seq<T>, w: T -> nat, max: int)
    ensures SeqUtil.Flatten(Greedy(items, w, max)) == items
  {
    GreedyFromFlatten(items, w, max, [], 0);
  }

  /**
   * Every group is non-empty and within budget, provided the open group is
   * within budget and its running weight is its true weight.
   */
  lemma {:induction false} GreedyFromGroups<T>(items: seq<T>, w: T -> nat, max: int, cur: seq<T>, curW: int)
    requires curW == Weight(cur, w) && (cur == [] || WithinBudget(cur, w, max))
    ensures forall k :: 0 <= k < |GreedyFrom(items, w, max, cur, curW)| ==>
      GreedyFrom(items, w, max, cur, curW)[k] != [] && WithinBudget(GreedyFrom(items, w, max, cur, curW)[k], w, max)
    decreases |items|
  {
    if items != [] {
      var x := items[0];
      if curW + w(x) > max {
        assert Weight([x], w) == w(x) by { assert [x][1..] == []; }
        GreedyFromGroups(items[1..], w, max, [x], w(x));
      } else {
        WeightAppend(cur, x, w);
        GreedyFromGroups(items[1..], w, max, cur + [x], curW + w(x));
      }
    }
  }

  /**
   * Every group is non-empty, and its weight is within the budget unless it
   * is a single item that exceeds the budget on its own.
   */
  lemma GreedyGroups<T>(items: seq<T>, w: T -> nat, max: int)
    ensures forall k :: 0 <= k < |Greedy(items, w, max)| ==>
      Greedy(items, w, max)[k] != [] && WithinBudget(Greedy(items, w, max)[k], w, max)
  {
    GreedyFromGroups(items, w, max, [], 0);
  }

  /**
   * Groups are maximal: the first item of each group but the first would
   * have pushed the previous group over the budget.
   */
  predicate Maximal<T>(gs: seq<seq<T>>, w: T -> nat, max: int)
  {
    forall k :: 1 <= k < |gs| ==> gs[k] != [] && Weight(gs[k - 1], w) + w(gs[k][0]) > max
  }

  lemma {:induction false} GreedyFromMaximal<T>(items: seq<T>, w: T -> nat, max: int, cur: seq<T>, curW: int)
    requires curW == Weight(cur, w)
    ensures Maximal(GreedyFrom(items, w, max, cur, curW), w, max)
    decreases |items|
  {
    var gs := GreedyFrom(items, w, max, cur, curW);
    if items != [] {
      var x := items[0];
      if curW + w(x) > max {
        var rest := GreedyFrom(items[1..], w, max, [x], w(x));
        assert Weight([x], w) == w(x) by { assert [x][1..] == []; }
        GreedyFromMaximal(items[1..], w, max, [x], w(x));
        GreedyFromStartsWith(items[1..], w, max, [x], w(x));
        if cur != [] {
          assert gs == [cur] + rest;
          forall k | 1 <= k < |gs| ensures gs[k] != [] && Weight(gs[k - 1], w) + w(gs[k][0]) > max {
            if k == 1 {
              assert gs[1] == rest[0];
              assert rest[0][0] == x;
            } else {
              assert gs[k - 1] == rest[k - 2] && gs[k] == rest[k - 1];
            }
          }
        } else {
          assert gs == rest;
        }
      } else {
        WeightAppend(cur, x, w);
        GreedyFromMaximal(items[1..], w, max, cur + [x], curW + w(x));
      }
    }
  }

  /** A non-empty open group is a prefix of the first group produced. */
  lemma {:induction false} GreedyFromStartsWith<T>(items: seq<T>, w: T -> nat, max: int, cur: seq<T>, curW: int)
    requires cur != []
    ensures var gs := GreedyFrom(items, w, max, cur, curW);
      |gs| >= 1 && |gs[0]| >= |cur| && gs[0][..|cur|] == cur
    decreases |items|
  {
    if items != [] {
      var x := items[0];
      if curW + w(x) <= max {
        GreedyFromStartsWith(items[1..], w, max, cur + [x], curW + w(x));
        var g0 := GreedyFrom(items[1..], w, max, cur + [x], curW + w(x))[0];
        assert g0[..|cur|] == g0[..|cur + [x]|][..|cur|];
      }
    }
  }

  lemma GreedyMaximal<T>(items: seq<T>, w: T -> nat, max: int)
    ensures Maximal(Greedy(items, w, max), w, max)
  {
    GreedyFromMaximal(items, w, max, [], 0);
  }
}
