/**
 * The schedule of src/te/schedule/schedule_lang.cc as far as groups go: the least
 * common ancestor of two groups, `create_group` (which puts a set of stages under a new
 * group stage between them and their common parent group), and the copy of a schedule
 * with its stage references remapped.
 */
module Sched {
  import opened Wrappers
  import opened Ir
  import opened Positions
  import opened StageSched

  // ---------------------------------------------------------------- least common ancestor

  /** `LeastCommonAncestor`: the two walks along group links of `Lca`. */
  method LeastCommonAncestor(g1: Option<Stage>, g2: Option<Stage>, ghost S: set<Stage>) returns (r: Option<Stage>)
    requires GroupsOk(S) && (g1.Some? ==> g1.value in S) && (g2.Some? ==> g2.value in S)
    ensures r == Lca(g1, g2, S)
  {
    if g1.None? {
      return g1;
    }
    if g2.None? {
      return g2;
    }
    if g1 == g2 {
      return g1;
    }
    var found := OnChain(g2.value, g1, S);
    if found {
      return g2;
    }
    found := OnChain(g1.value, g2, S);
    if found {
      return g1;
    }
    return None;
  }

  /** The groups of `ms`, in order. */
  ghost function GroupsOf(ms: seq<Stage>): (r: seq<Option<Stage>>)
    reads set m | m in ms
    ensures |r| == |ms| && forall k :: 0 <= k < |ms| ==> r[k] == ms[k].group
  {
    seq(|ms|, k requires 0 <= k < |ms| reads set m | m in ms => ms[k].group)
  }

  /**
   * The parent group `create_group` computes: the group of the first member, then the
   * least common ancestor of the result so far and each further member's group.
   */
  ghost function LcaFold(gs: seq<Option<Stage>>, S: set<Stage>): (r: Option<Stage>)
    requires GroupsOk(S) && forall k :: 0 <= k < |gs| && gs[k].Some? ==> gs[k].value in S
    reads S`group, S`depth
    ensures r.Some? ==> r.value in S
    decreases |gs|
  {
    if |gs| == 0 then None
    else if |gs| == 1 then gs[0]
    else
      var r := Lca(LcaFold(gs[..|gs| - 1], S), gs[|gs| - 1], S);
      assert r.Some? ==> r.value in Chain(gs[|gs| - 1], S);
      r
  }

  /** The parent group lies on every member's group chain: it contains all of them. */
  lemma {:induction false} LcaFoldCommon(gs: seq<Option<Stage>>, S: set<Stage>)
    requires GroupsOk(S) && forall k :: 0 <= k < |gs| && gs[k].Some? ==> gs[k].value in S
    ensures LcaFold(gs, S).Some? ==> forall k :: 0 <= k < |gs| ==> LcaFold(gs, S).value in Chain(gs[k], S)
    decreases |gs|
  {
    var r := LcaFold(gs, S);
    if |gs| == 1 && r.Some? {
      assert Chain(gs[0], S)[0] == r.value;
    } else if |gs| > 1 && r.Some? {
      var init := gs[..|gs| - 1];
      var a := LcaFold(init, S);
      LcaFoldCommon(init, S);
      assert r.value in Chain(a, S);
      forall k | 0 <= k < |gs| ensures r.value in Chain(gs[k], S) {
        if k < |gs| - 1 {
          assert init[k] == gs[k];
          ChainTransitive(r.value, a.value, gs[k], S);
        }
      }
    }
  }

  /** One step of the parent-group loop: the fold over one more member. */
  method ParentStep(pg: Option<Stage>, ms: seq<Stage>, i: nat, ghost S: set<Stage>) returns (pg': Option<Stage>)
    requires GroupsOk(S) && i < |ms| && forall k :: 0 <= k < |ms| ==> ms[k] in S
    requires pg == LcaFold(GroupsOf(ms)[..i], S)
    ensures pg' == LcaFold(GroupsOf(ms)[..i + 1], S)
  {
    ghost var gs := GroupsOf(ms);
    assert gs[..i + 1][..i] == gs[..i];
    assert gs[..i + 1][i] == ms[i].group;
    if i == 0 {
      pg' := ms[i].group;
    } else {
      pg' := LeastCommonAncestor(pg, ms[i].group, S);
    }
  }

  /** The parent-group loop of `create_group`. */
  method ParentGroup(ms: seq<Stage>, ghost S: set<Stage>) returns (pg: Option<Stage>)
    requires GroupsOk(S) && forall k :: 0 <= k < |ms| ==> ms[k] in S
    ensures pg == LcaFold(GroupsOf(ms), S)
  {
    pg := None;
    var i := 0;
    while i < |ms|
      invariant 0 <= i <= |ms|
      invariant pg == LcaFold(GroupsOf(ms)[..i], S)
    {
      pg := ParentStep(pg, ms, i, S);
      i := i + 1;
    }
    assert GroupsOf(ms)[..i] == GroupsOf(ms);
  }

  // ---------------------------------------------------------------- create_group: counting

  /** The groups that contain one of `gs`: the union of their group chains. */
  ghost function Above(gs: seq<Option<Stage>>, S: set<Stage>): (r: set<Stage>)
    requires GroupsOk(S) && forall k :: 0 <= k < |gs| && gs[k].Some? ==> gs[k].value in S
    reads S`group, S`depth
    ensures r <= S
    ensures forall k :: 0 <= k < |gs| && gs[k].Some? ==> gs[k].value in r
    decreases |gs|
  {
    if |gs| == 0 then {}
    else Above(gs[..|gs| - 1], S) + Elems(Chain(gs[|gs| - 1], S))
  }

  /** A group above one of `gs` has its own group above them too. */
  lemma {:induction false} AboveClosed(gs: seq<Option<Stage>>, S: set<Stage>, h: Stage)
    requires GroupsOk(S) && forall k :: 0 <= k < |gs| && gs[k].Some? ==> gs[k].value in S
    requires h in Above(gs, S) && h.group.Some?
    ensures h.group.value in Above(gs, S)
    decreases |gs|
  {
    var init := gs[..|gs| - 1];
    if h in Above(init, S) {
      AboveClosed(init, S, h);
    } else {
      var c := gs[|gs| - 1];
      assert Chain(Some(h), S)[1] == h.group.value;
      ChainTransitive(h.group.value, h, c, S);
    }
  }

  /**
   * The first loop of `create_group` as far as counting goes: for every group that
   * directly contains members, the number of members in it. `keys` lists the groups in
   * the order they were first met.
   */
  method CountMembers(ms: seq<Stage>) returns (counter: map<Stage, int>, keys: seq<Stage>)
    ensures Distinct(keys) && counter.Keys == Elems(keys)
    ensures forall h :: h in counter <==> Some(h) in GroupsOf(ms)
    ensures forall h :: h in counter ==> counter[h] == multiset(GroupsOf(ms))[Some(h)]
  {
    ghost var gs := GroupsOf(ms);
    counter, keys := map[], [];
    var i := 0;
    while i < |ms|
      invariant 0 <= i <= |ms|
      invariant Distinct(keys) && counter.Keys == Elems(keys)
      invariant forall h :: h in counter <==> Some(h) in gs[..i]
      invariant forall h :: h in counter ==> counter[h] == multiset(gs[..i])[Some(h)]
    {
      assert gs[..i + 1] == gs[..i] + [gs[i]];
      var og := ms[i].group;
      if og.Some? {
        var h := og.value;
        if h in counter {
          counter := counter[h := counter[h] + 1];
        } else {
          DistinctAppend(keys, [h]);
          keys := keys + [h];
          counter := counter[h := 1];
        }
      }
      i := i + 1;
    }
    assert gs[..i] == gs;
  }

  /** The total depth of the stages on a work stack: a bound for the propagation. */
  ghost function Weight(st: seq<Stage>): nat
    reads set s | s in st
  {
    if |st| == 0 then 0 else Weight(st[..|st| - 1]) + st[|st| - 1].depth + 1
  }

  /**
   * The propagation of `create_group`: a group all of whose children are counted is
   * full, and a full group other than `pg` counts once more in its own group. Starting
   * from the member counts, it returns the counts it reached (`touched`, listed by
   * `keys'` in the order they were first met).
   */
  method Propagate(counter: map<Stage, int>, keys: seq<Stage>, pg: Option<Stage>,
                   ghost gs: seq<Option<Stage>>, ghost S: set<Stage>)
    returns (touched: map<Stage, int>, keys': seq<Stage>)
    requires GroupsOk(S) && forall k :: 0 <= k < |gs| && gs[k].Some? ==> gs[k].value in S
    requires Distinct(keys) && counter.Keys == Elems(keys) && forall h :: h in keys ==> h in Above(gs, S)
    ensures Distinct(keys') && touched.Keys == Elems(keys') && |keys| <= |keys'| && keys'[..|keys|] == keys
    ensures Elems(keys') <= Above(gs, S)
    ensures forall h :: h in counter ==> counter[h] <= touched[h]
    ensures forall h :: h in touched && h !in counter ==> Some(h) != pg
  {
    touched, keys' := counter, keys;
    var stack: seq<Stage> := [];
    var i := 0;
    while i < |keys|
      invariant 0 <= i <= |keys|
      invariant Elems(stack) <= Above(gs, S)
    {
      var h := keys[i];
      if Some(h) != pg && h.numChildStages == counter[h] {
        stack := stack + [h];
      }
      i := i + 1;
    }
    while |stack| > 0
      invariant Distinct(keys') && touched.Keys == Elems(keys') && |keys| <= |keys'| && keys'[..|keys|] == keys
      invariant Elems(keys') <= Above(gs, S) && Elems(stack) <= Above(gs, S)
      invariant forall h :: h in counter ==> counter[h] <= touched[h]
      invariant forall h :: h in touched && h !in counter ==> Some(h) != pg
      decreases Weight(stack)
    {
      stack, touched, keys' := PropagateStep(stack, touched, keys', counter, keys, pg, gs, S);
    }
  }

  /** `p`, a group other than `pg`, counts once more, and is listed when first met. */
  method CountOnce(p: Stage, touched: map<Stage, int>, keys': seq<Stage>, counter: map<Stage, int>,
                   keys: seq<Stage>, pg: Option<Stage>, ghost gs: seq<Option<Stage>>, ghost S: set<Stage>)
    returns (touched': map<Stage, int>, keys'': seq<Stage>)
    requires GroupsOk(S) && forall k :: 0 <= k < |gs| && gs[k].Some? ==> gs[k].value in S
    requires p in Above(gs, S) && Some(p) != pg && counter.Keys == Elems(keys)
    requires Distinct(keys') && touched.Keys == Elems(keys') && |keys| <= |keys'| && keys'[..|keys|] == keys
    requires Elems(keys') <= Above(gs, S)
    requires forall h :: h in counter ==> counter[h] <= touched[h]
    requires forall h :: h in touched && h !in counter ==> Some(h) != pg
    ensures Distinct(keys'') && touched'.Keys == Elems(keys'') && |keys| <= |keys''| && keys''[..|keys|] == keys
    ensures Elems(keys'') <= Above(gs, S) && p in touched'
    ensures forall h :: h in counter ==> counter[h] <= touched'[h]
    ensures forall h :: h in touched' && h !in counter ==> Some(h) != pg
  {
    if p in touched {
      touched' := touched[p := touched[p] + 1];
      keys'' := keys';
    } else {
      DistinctAppend(keys', [p]);
      assert (keys' + [p])[..|keys|] == keys'[..|keys|];
      keys'' := keys' + [p];
      touched' := touched[p := 1];
    }
  }

  /**
   * One step of the propagation: the last full group on the stack counts once more in
   * its own group, which is stacked in turn once all its children are counted.
   */
  method PropagateStep(stack: seq<Stage>, touched: map<Stage, int>, keys': seq<Stage>, counter: map<Stage, int>,
                       keys: seq<Stage>, pg: Option<Stage>, ghost gs: seq<Option<Stage>>, ghost S: set<Stage>)
    returns (stack': seq<Stage>, touched': map<Stage, int>, keys'': seq<Stage>)
    requires GroupsOk(S) && forall k :: 0 <= k < |gs| && gs[k].Some? ==> gs[k].value in S
    requires |stack| > 0 && counter.Keys == Elems(keys)
    requires Distinct(keys') && touched.Keys == Elems(keys') && |keys| <= |keys'| && keys'[..|keys|] == keys
    requires Elems(keys') <= Above(gs, S) && Elems(stack) <= Above(gs, S)
    requires forall h :: h in counter ==> counter[h] <= touched[h]
    requires forall h :: h in touched && h !in counter ==> Some(h) != pg
    ensures Distinct(keys'') && touched'.Keys == Elems(keys'') && |keys| <= |keys''| && keys''[..|keys|] == keys
    ensures Elems(keys'') <= Above(gs, S) && Elems(stack') <= Above(gs, S)
    ensures forall h :: h in counter ==> counter[h] <= touched'[h]
    ensures forall h :: h in touched' && h !in counter ==> Some(h) != pg
    ensures Weight(stack') < Weight(stack)
  {
    var h := stack[|stack| - 1];
    stack', touched', keys'' := stack[..|stack| - 1], touched, keys';
    assert Weight(stack) == Weight(stack') + h.depth + 1;
    if h.group.Some? && h.group != pg {
      var p := h.group.value;
      AboveClosed(gs, S, h);
      touched', keys'' := CountOnce(p, touched', keys'', counter, keys, pg, gs, S);
      if touched'[p] == p.numChildStages {
        var st := stack' + [p];
        assert st[..|st| - 1] == stack';
        assert Weight(st) == Weight(stack') + p.depth + 1 && p.depth < h.depth;
        stack' := st;
      }
    }
  }

  // ---------------------------------------------------------------- create_group: regrouping

  /**
   * The state of the group tree while `create_group` moves stages from the parent group
   * `pg` into the new group `g`, against the group links `before` and the child counts
   * `counts` it started from: the moved stages are exactly those now in `g`, each came
   * from `pg`, `g` counts them and `pg` counts `g` in their place. The depth bound puts
   * `g` strictly between `pg` and its former children.
   */
  ghost predicate Regrouping(S: set<Stage>, pg: Option<Stage>, g: Stage, before: map<Stage, Option<Stage>>,
                             counts: map<Stage, int>, moved: set<Stage>)
    reads S`group, S`depth, S`numChildStages, g`group, g`depth, g`numChildStages
  {
    Placed(S, pg, g) && Moves(S, pg, g, before, moved) && Counted(S, pg, g, counts, moved)
  }

  /** `g` hangs below `pg`, and the depth bound has room for it between `pg` and any child of `pg`. */
  ghost predicate Placed(S: set<Stage>, pg: Option<Stage>, g: Stage)
    reads S`group, S`depth, g`group, g`depth
  {
    && g !in S && (pg.Some? ==> pg.value in S)
    && GroupsOk(S + {g}) && g.group == pg
    && (forall s :: s in S ==> s.depth % 2 == 0 && s.depth >= 2)
    && g.depth == (if pg.Some? then pg.value.depth + 1 else 1)
  }

  /** The moved stages are exactly those in `g`; each was in `pg`, and every other stage keeps its group. */
  ghost predicate Moves(S: set<Stage>, pg: Option<Stage>, g: Stage, before: map<Stage, Option<Stage>>, moved: set<Stage>)
    reads S`group
  {
    && before.Keys == S && moved <= S
    && (forall s :: s in S ==>
          (s !in moved && s.group == before[s]) || (s in moved && before[s] == pg && s.group == Some(g)))
  }

  /** `g` counts the moved stages, `pg` counts `g` in their place, and no other count changes. */
  ghost predicate Counted(S: set<Stage>, pg: Option<Stage>, g: Stage, counts: map<Stage, int>, moved: set<Stage>)
    reads S`numChildStages, g`numChildStages
  {
    && counts.Keys == S
    && g.numChildStages == |moved|
    && (forall s :: s in S && Some(s) != pg ==> s.numChildStages == counts[s])
    && (pg.Some? ==> pg.value in S && pg.value.numChildStages == counts[pg.value] + 1 - |moved|)
  }

  /** Moves one child `x` of the parent group into the new group. */
  method Reparent(x: Stage, pg: Option<Stage>, g: Stage, ghost S: set<Stage>, ghost before: map<Stage, Option<Stage>>,
                  ghost counts: map<Stage, int>, ghost moved: set<Stage>) returns (ghost moved': set<Stage>)
    requires x in S && x.group == pg && Regrouping(S, pg, g, before, counts, moved)
    modifies x`group, g`numChildStages, S`numChildStages
    ensures x.group == Some(g) && moved' == moved + {x} && x !in moved
    ensures Regrouping(S, pg, g, before, counts, moved')
  {
    Relink(x, pg, g, S, before, moved);
    Recount(x, pg, g, S, counts, moved);
    moved' := moved + {x};
  }

  /** The counts of `Reparent`: one more child for `g`, one fewer for `pg`. */
  method Recount(x: Stage, pg: Option<Stage>, g: Stage, ghost S: set<Stage>, ghost counts: map<Stage, int>,
                 ghost moved: set<Stage>)
    requires x in S && x !in moved && g !in S && Counted(S, pg, g, counts, moved)
    modifies g`numChildStages, S`numChildStages
    ensures Counted(S, pg, g, counts, moved + {x})
  {
    g.numChildStages := g.numChildStages + 1;
    if pg.Some? {
      pg.value.numChildStages := pg.value.numChildStages - 1;
    }
  }

  /** The group link of `Reparent`: `x` moves from `pg` to `g`, below `g` in the depth bound. */
  method Relink(x: Stage, pg: Option<Stage>, g: Stage, ghost S: set<Stage>, ghost before: map<Stage, Option<Stage>>,
                ghost moved: set<Stage>)
    requires x in S && x.group == pg && Placed(S, pg, g) && Moves(S, pg, g, before, moved)
    modifies x`group
    ensures x.group == Some(g) && x !in moved
    ensures Placed(S, pg, g) && Moves(S, pg, g, before, moved + {x})
  {
    assert x !in moved && g.depth < x.depth by {
      if pg.Some? {
        assert pg.value.depth < x.depth && pg.value.depth % 2 == 0 && x.depth % 2 == 0;
      }
    }
    x.group := Some(g);
    forall s | s in S + {g} && s.group.Some?
      ensures s.group.value in S + {g} && s.group.value.depth < s.depth
    {
      if s != x {
        assert s.group == old(s.group);
      }
    }
  }

  /**
   * The verification loop of `create_group`: every counted group other than the parent
   * must be full, and the full ones directly under the parent move into the new group.
   */
  method RemapKeys(keys: seq<Stage>, touched: map<Stage, int>, pg: Option<Stage>, g: Stage, ghost S: set<Stage>,
                   ghost before: map<Stage, Option<Stage>>, ghost counts: map<Stage, int>)
    returns (r: Outcome<StageError>, ghost moved: set<Stage>)
    requires Elems(keys) <= S && Elems(keys) <= touched.Keys
    requires Regrouping(S, pg, g, before, counts, {}) && AttachOk(S + {g})
    modifies S`group, S`numChildStages, g`numChildStages
    ensures Regrouping(S, pg, g, before, counts, moved)
    ensures AttachOk(S + {g}) && forall s :: s in S ==> s.attachType == old(s.attachType)
    ensures r.Pass? <==> forall s :: s in keys && Some(s) != pg ==> counts[s] == touched[s]
    ensures r.Fail? ==> r.error == GroupIntersects
    ensures r.Pass? ==> forall s :: s in moved <==> s in keys && before[s] == pg
  {
    moved := {};
    ghost var attach := AttachOk(S + {g});
    var i := 0;
    while i < |keys|
      invariant 0 <= i <= |keys|
      invariant attach == AttachOk(S + {g})
      invariant Regrouping(S, pg, g, before, counts, moved)
      invariant forall s :: s in keys[..i] && Some(s) != pg ==> counts[s] == touched[s]
      invariant forall s :: s in moved <==> s in keys[..i] && before[s] == pg
    {
      var h := keys[i];
      assert keys[..i + 1] == keys[..i] + [h];
      var ok;
      ok, moved := RemapKey(h, touched, pg, g, S, before, counts, moved);
      if !ok {
        return Fail(GroupIntersects), moved;
      }
      i := i + 1;
    }
    assert keys[..i] == keys;
    return Pass, moved;
  }

  /** One key of the verification loop: fails on a group that is not full, moves a full child of `pg`. */
  method RemapKey(h: Stage, touched: map<Stage, int>, pg: Option<Stage>, g: Stage, ghost S: set<Stage>,
                  ghost before: map<Stage, Option<Stage>>, ghost counts: map<Stage, int>, ghost moved: set<Stage>)
    returns (ok: bool, ghost moved': set<Stage>)
    requires h in S && h in touched && Regrouping(S, pg, g, before, counts, moved)
    modifies h`group, S`numChildStages, g`numChildStages
    ensures ok <==> Some(h) == pg || counts[h] == touched[h]
    ensures Regrouping(S, pg, g, before, counts, moved')
    ensures ok ==> forall s :: s in moved' <==> s in moved || (s == h && before[h] == pg)
  {
    moved' := moved;
    assert Some(h) == pg ==> before[h] != pg by {
      assert Placed(S, pg, g) && Moves(S, pg, g, before, moved);
    }
    if Some(h) == pg {
      return true, moved';
    }
    assert h.numChildStages == counts[h] by {
      assert Counted(S, pg, g, counts, moved);
    }
    if h.numChildStages != touched[h] {
      return false, moved';
    }
    assert h.group == pg <==> h !in moved && before[h] == pg by {
      assert Placed(S, pg, g) && Moves(S, pg, g, before, moved);
    }
    if h.group == pg {
      moved' := Reparent(h, pg, g, S, before, counts, moved);
    }
    return true, moved';
  }

  /** The member remap loop of `create_group`: members directly under the parent move into the new group. */
  method RemapMembers(ms: seq<Stage>, pg: Option<Stage>, g: Stage, ghost S: set<Stage>,
                      ghost before: map<Stage, Option<Stage>>, ghost counts: map<Stage, int>, ghost moved0: set<Stage>)
    returns (ghost moved: set<Stage>)
    requires Elems(ms) <= S && Regrouping(S, pg, g, before, counts, moved0) && AttachOk(S + {g})
    modifies S`group, S`numChildStages, g`numChildStages
    ensures Regrouping(S, pg, g, before, counts, moved)
    ensures AttachOk(S + {g}) && forall s :: s in S ==> s.attachType == old(s.attachType)
    ensures forall s :: s in moved <==> s in moved0 || (s in ms && before[s] == pg)
  {
    moved := moved0;
    ghost var attach := AttachOk(S + {g});
    var i := 0;
    while i < |ms|
      invariant 0 <= i <= |ms|
      invariant attach == AttachOk(S + {g})
      invariant Regrouping(S, pg, g, before, counts, moved)
      invariant forall s :: s in moved <==> s in moved0 || (s in ms[..i] && before[s] == pg)
    {
      moved := RemapMember(ms, i, pg, g, S, before, counts, moved0, moved);
      i := i + 1;
    }
    assert ms[..i] == ms;
  }

  /** One member of the member remap loop: a member directly under the parent moves into the new group. */
  method RemapMember(ms: seq<Stage>, i: nat, pg: Option<Stage>, g: Stage, ghost S: set<Stage>,
                     ghost before: map<Stage, Option<Stage>>, ghost counts: map<Stage, int>,
                     ghost moved0: set<Stage>, ghost moved: set<Stage>)
    returns (ghost moved': set<Stage>)
    requires i < |ms| && Elems(ms) <= S && Regrouping(S, pg, g, before, counts, moved)
    requires forall s :: s in moved <==> s in moved0 || (s in ms[..i] && before[s] == pg)
    modifies {ms[i]}`group, S`numChildStages, g`numChildStages
    ensures Regrouping(S, pg, g, before, counts, moved')
    ensures forall s :: s in moved' <==> s in moved0 || (s in ms[..i + 1] && before[s] == pg)
  {
    var m := ms[i];
    assert ms[..i + 1] == ms[..i] + [m];
    moved' := moved;
    assert m.group == pg <==> m !in moved && before[m] == pg by {
      assert Placed(S, pg, g) && Moves(S, pg, g, before, moved);
    }
    if m.group == pg {
      moved' := Reparent(m, pg, g, S, before, counts, moved);
    }
  }

  // ---------------------------------------------------------------- create_group: attachments

  /** Every stage of `S` attached by scope is attached to a stage of `S`. */
  ghost predicate AttachOk(S: set<Stage>)
    reads S`attachType, S`attachStage
  {
    forall s :: s in S && s.attachType == Scope ==> s.attachStage.Some? && s.attachStage.value in S
  }

  /** The least common ancestor of a group and `g` is `g` exactly when `g` contains that group. */
  lemma LcaWithGroup(a: Option<Stage>, g: Stage, S: set<Stage>)
    requires GroupsOk(S) && g in S && (a.Some? ==> a.value in S)
    ensures Lca(a, Some(g), S) == Some(g) <==> g in Chain(a, S)
  {
    if a.Some? {
      assert Chain(a, S)[0] == a.value;
    }
  }

  /** `s` is computed at a stage whose group is not inside `g`. */
  ghost predicate AttachedOutside(s: Stage, g: Stage, S: set<Stage>)
    requires GroupsOk(S) && g in S
    reads s`attachStage, S`group, S`depth
  {
    s.attachStage.Some? && s.attachStage.value in S && g !in Chain(s.attachStage.value.group, S)
  }

  /**
   * The attach correction of `create_group`: a member computed at a stage whose group is
   * not inside `g` is computed at its group root instead.
   */
  method CorrectAttach(ms: seq<Stage>, g: Stage, ghost S: set<Stage>, ghost t0: map<Stage, AttachType>)
    requires Elems(ms) <= S && g in S && GroupsOk(S) && AttachOk(S)
    requires t0.Keys == S && forall s :: s in S ==> s.attachType == t0[s]
    modifies S`attachType
    ensures AttachOk(S)
    ensures forall s :: s in S ==>
      s.attachType == if s in ms && t0[s] == Scope && AttachedOutside(s, g, S) then GroupRoot else t0[s]
  {
    ghost var want := map s | s in S :: if s in ms && t0[s] == Scope && AttachedOutside(s, g, S) then GroupRoot else t0[s];
    var i := 0;
    while i < |ms|
      invariant 0 <= i <= |ms|
      invariant AttachOk(S)
      invariant forall s :: s in S ==> s.attachType == if s in ms[..i] then want[s] else t0[s]
    {
      assert ms[i] in ms;
      CorrectNext(ms, i, g, S, t0, want);
      i := i + 1;
    }
    assert ms[..i] == ms;
  }

  /** One member of the attach correction loop, with the attach types before the loop in `t0`. */
  method CorrectNext(ms: seq<Stage>, i: nat, g: Stage, ghost S: set<Stage>, ghost t0: map<Stage, AttachType>,
                     ghost want: map<Stage, AttachType>)
    requires i < |ms| && Elems(ms) <= S && g in S && GroupsOk(S) && AttachOk(S)
    requires t0.Keys == S && want.Keys == S
    requires want[ms[i]] == if t0[ms[i]] == Scope && AttachedOutside(ms[i], g, S) then GroupRoot else t0[ms[i]]
    requires forall s :: s in S ==> s.attachType == if s in ms[..i] then want[s] else t0[s]
    modifies {ms[i]}`attachType
    ensures AttachOk(S)
    ensures forall s :: s in S ==> s.attachType == if s in ms[..i + 1] then want[s] else t0[s]
  {
    var m := ms[i];
    assert ms[..i + 1] == ms[..i] + [m];
    CorrectOne(m, g, S, t0[m], want[m]);
  }

  /** One step of `CorrectAttach`; visiting a member again changes nothing. */
  method CorrectOne(m: Stage, g: Stage, ghost S: set<Stage>, ghost t0: AttachType, ghost want: AttachType)
    requires m in S && g in S && GroupsOk(S) && AttachOk(S)
    requires want == if t0 == Scope && AttachedOutside(m, g, S) then GroupRoot else t0
    requires m.attachType == t0 || m.attachType == want
    modifies m`attachType
    ensures AttachOk(S) && m.attachType == want
  {
    if m.attachType == Scope {
      var cg := LeastCommonAncestor(m.attachStage.value.group, Some(g), S);
      LcaWithGroup(m.attachStage.value.group, g, S);
      if cg != Some(g) {
        var _ := m.ComputeRoot();
      }
    }
  }

  // ---------------------------------------------------------------- create_group: the whole

  /**
   * The counting half of `create_group`: the members' common parent group `pg`, and the
   * counts of the member groups after propagation through full groups (`touched`, listed
   * by `keys`). A group is counted only if it contains a member, and counts at least its
   * direct members.
   */
  method GroupCounts(ms: seq<Stage>, ghost S: set<Stage>)
    returns (pg: Option<Stage>, keys: seq<Stage>, touched: map<Stage, int>)
    requires GroupsOk(S) && Elems(ms) <= S
    ensures pg == old(LcaFold(GroupsOf(ms), S))
    ensures Counting(S, GroupsOf(ms), keys, touched)
    ensures Distinct(keys) && Elems(keys) <= S
  {
    ghost var gs := GroupsOf(ms);
    MemberGroupsIn(ms, S);
    pg := ParentGroup(ms, S);
    var counter, keys0 := CountMembers(ms);
    DirectAbove(gs, Elems(keys0), S);
    var t, ks := Propagate(counter, keys0, pg, gs, S);
    touched, keys := t, ks;
    assert GroupsOf(ms) == gs;
  }

  /**
   * The counting facts of `create_group` for the member groups `gs`: every counted group
   * (`keys`, with counts `touched`) contains one of them, and each member group is counted,
   * at least once per member directly in it.
   */
  ghost predicate Counting(S: set<Stage>, gs: seq<Option<Stage>>, keys: seq<Stage>, touched: map<Stage, int>)
    reads S`group, S`depth
  {
    && GroupsOk(S) && (forall k :: 0 <= k < |gs| && gs[k].Some? ==> gs[k].value in S)
    && touched.Keys == Elems(keys) && Elems(keys) <= Above(gs, S)
    && (forall k :: 0 <= k < |gs| && gs[k].Some? ==> gs[k].value in touched && multiset(gs)[gs[k]] <= touched[gs[k].value])
  }

  /** The groups of stages of `S` are in `S`. */
  lemma MemberGroupsIn(ms: seq<Stage>, S: set<Stage>)
    requires GroupsOk(S) && Elems(ms) <= S
    ensures forall k :: 0 <= k < |ms| && ms[k].group.Some? ==> ms[k].group.value in S
  {
    forall k | 0 <= k < |ms| && ms[k].group.Some? ensures ms[k].group.value in S {
      assert ms[k] in Elems(ms);
    }
  }

  /** The groups that directly contain one of `gs` are above them. */
  lemma DirectAbove(gs: seq<Option<Stage>>, hs: set<Stage>, S: set<Stage>)
    requires GroupsOk(S) && forall k :: 0 <= k < |gs| && gs[k].Some? ==> gs[k].value in S
    requires forall h :: h in hs ==> Some(h) in gs
    ensures hs <= Above(gs, S)
  {
    forall h | h in hs ensures h in Above(gs, S) {
      var k :| 0 <= k < |gs| && gs[k] == Some(h);
    }
  }

  /**
   * The regrouping half of `create_group`: the new group `g` hangs under the parent
   * group `pg` and takes over every member and every counted group that was directly in
   * `pg`, and members computed at a stage outside `g` are computed at their group root.
   * Fails when a counted group other than the parent is not full, that is when the
   * members would cut through an existing group; the state is then left half changed.
   */
  method Regroup(ms: seq<Stage>, pg: Option<Stage>, keys: seq<Stage>, touched: map<Stage, int>, ghost S: set<Stage>,
                 ghost before: map<Stage, Option<Stage>>, ghost counts: map<Stage, int>, ghost types: map<Stage, AttachType>)
    returns (r: Outcome<StageError>, g: Stage, ghost moved: set<Stage>)
    requires GroupsOk(S) && AttachOk(S) && Elems(ms) <= S && (pg.Some? ==> pg.value in S)
    requires Elems(keys) <= S && touched.Keys == Elems(keys)
    requires Snapshot(S, before, counts, types)
    modifies S`group, S`numChildStages, S`attachType, S`depth
    ensures fresh(g)
    ensures r.Pass? <==> forall h :: h in keys && Some(h) != pg ==> counts[h] == touched[h]
    ensures r.Fail? ==> r.error == GroupIntersects
    ensures r.Pass? ==> Grouped(S, ms, keys, pg, g, moved, before, counts, types)
  {
    g := NewGroup(pg, S, before, counts);
    r, moved := Rehang(ms, pg, keys, touched, g, S, before, counts, types);
  }

  /** `before`, `counts` and `types` hold the group, child count and attach type of every stage of `S`. */
  ghost predicate Snapshot(S: set<Stage>, before: map<Stage, Option<Stage>>, counts: map<Stage, int>,
                           types: map<Stage, AttachType>)
    reads S`group, S`numChildStages, S`attachType
  {
    && before.Keys == S && counts.Keys == S && types.Keys == S
    && forall s :: s in S ==> before[s] == s.group && counts[s] == s.numChildStages && types[s] == s.attachType
  }

  /** The group of each stage of `S`. */
  ghost function GroupLinks(S: set<Stage>): map<Stage, Option<Stage>>
    reads S`group
  {
    map s | s in S :: s.group
  }

  /** The number of direct children of each stage of `S`. */
  ghost function ChildCounts(S: set<Stage>): map<Stage, int>
    reads S`numChildStages
  {
    map s | s in S :: s.numChildStages
  }

  /** The attach type of each stage of `S`. */
  ghost function AttachTypes(S: set<Stage>): map<Stage, AttachType>
    reads S`attachType
  {
    map s | s in S :: s.attachType
  }

  /**
   * The stages of `S` after `create_group` made `g` for the members `ms`, given their group
   * links `before`, child counts `counts` and attach types `types` before it: `g` hangs under
   * `pg`; the stages moved into `g` are exactly the members and counted groups (`keys`) that
   * were directly in `pg`, and every other stage keeps its group; `g` counts the moved stages,
   * `pg` counts `g` in their place and no other count changes; and a member attached by
   * scope to a stage whose group is not inside `g` is now a group root, every other attach
   * type being unchanged.
   */
  ghost predicate Grouped(S: set<Stage>, ms: seq<Stage>, keys: seq<Stage>, pg: Option<Stage>, g: Stage, moved: set<Stage>,
                          before: map<Stage, Option<Stage>>, counts: map<Stage, int>, types: map<Stage, AttachType>)
    reads S`group, S`depth, S`numChildStages, S`attachType, S`attachStage, g`group, g`depth, g`numChildStages
  {
    && Regrouping(S, pg, g, before, counts, moved) && types.Keys == S
    && (forall s :: s in S ==> (s in moved <==> before[s] == pg && (s in keys || s in ms)))
    && (forall s :: s in S ==>
          s.attachType == if s in ms && types[s] == Scope && AttachedOutside(s, g, S + {g}) then GroupRoot else types[s])
  }

  /** `Regroup` once the new group exists: the verification, remap and attach loops. */
  method Rehang(ms: seq<Stage>, pg: Option<Stage>, keys: seq<Stage>, touched: map<Stage, int>, g: Stage,
                ghost S: set<Stage>, ghost before: map<Stage, Option<Stage>>, ghost counts: map<Stage, int>,
                ghost types: map<Stage, AttachType>)
    returns (r: Outcome<StageError>, ghost moved: set<Stage>)
    requires Elems(ms) <= S && Elems(keys) <= S && Elems(keys) <= touched.Keys
    requires Regrouping(S, pg, g, before, counts, {}) && AttachOk(S + {g})
    requires types.Keys == S && forall s :: s in S ==> s.attachType == types[s]
    modifies S`group, S`numChildStages, S`attachType, g`numChildStages, g`attachType
    ensures r.Pass? <==> forall h :: h in keys && Some(h) != pg ==> counts[h] == touched[h]
    ensures r.Fail? ==> r.error == GroupIntersects
    ensures r.Pass? ==> Grouped(S, ms, keys, pg, g, moved, before, counts, types)
  {
    r, moved := RemapKeys(keys, touched, pg, g, S, before, counts);
    if r.Fail? {
      return;
    }
    moved := RemapMembers(ms, pg, g, S, before, counts, moved);
    assert Placed(S, pg, g);
    ghost var regrouped := Regrouping(S, pg, g, before, counts, moved);
    CorrectAttach(ms, g, S + {g}, types[g := g.attachType]);
    assert regrouped == Regrouping(S, pg, g, before, counts, moved);
  }

  /**
   * The new group stage of `create_group`, hung under `pg`, which counts it as a child.
   * The depth bound is renumbered so that `g` fits strictly between `pg` and its children.
   */
  method NewGroup(pg: Option<Stage>, ghost S: set<Stage>, ghost before: map<Stage, Option<Stage>>,
                  ghost counts: map<Stage, int>) returns (g: Stage)
    requires GroupsOk(S) && (pg.Some? ==> pg.value in S)
    requires before.Keys == S && counts.Keys == S
    requires forall s :: s in S ==> before[s] == s.group && counts[s] == s.numChildStages
    modifies S`numChildStages, S`depth
    ensures fresh(g) && g.op == None && g.attachType == GroupRoot
    ensures Regrouping(S, pg, g, before, counts, {})
    ensures AttachOk(S) ==> AttachOk(S + {g})
  {
    g := new Stage.Group();
    g.group := pg;
    if pg.Some? {
      pg.value.numChildStages := pg.value.numChildStages + 1;
    }
    assert Counted(S, pg, g, counts, {}) && Moves(S, pg, g, before, {});
    Deepen(S, pg, g);
  }

  /** Renumbers the depth bound of `S` so that `g` fits strictly between `pg` and its children. */
  ghost method Deepen(S: set<Stage>, pg: Option<Stage>, g: Stage)
    requires GroupsOk(S) && g !in S && g.group == pg && (pg.Some? ==> pg.value in S)
    modifies S`depth, g`depth
    ensures Placed(S, pg, g)
  {
    forall s | s in S {
      s.depth := 2 * s.depth + 2;
    }
    g.depth := if pg.Some? then pg.value.depth + 1 else 1;
    forall s | s in S ensures s.depth % 2 == 0 && s.depth >= 2 {
      assert s.depth == 2 * old(s.depth) + 2;
    }
    forall s | s in S + {g} && s.group.Some?
      ensures s.group.value in S + {g} && s.group.value.depth < s.depth
    {
      if s != g {
        var p := s.group.value;
        assert p in S && old(p.depth) < old(s.depth);
        assert p.depth == 2 * old(p.depth) + 2 && s.depth == 2 * old(s.depth) + 2;
      }
    }
  }

  // ---------------------------------------------------------------- the schedule

  /** Every stage has an operation and no two stages share one: the check of `InitCache`. */
  predicate CacheOk(ss: seq<Stage>)
    reads Elems(ss)`op
  {
    forall i, j :: 0 <= i < |ss| && 0 <= j < |ss| ==> ss[i].op.Some? && (i != j ==> ss[i].op != ss[j].op)
  }

  /** Some stage of `ss` is the stage of `op`. */
  ghost predicate HasStage(ss: seq<Stage>, op: Operation)
    reads Elems(ss)`op
  {
    exists j :: 0 <= j < |ss| && ss[j].op == Some(op)
  }

  /**
   * `InitCache`: the operation-to-stage cache has one entry per stage exactly when every
   * stage has an operation and no two share one.
   */
  method CheckCache(ss: seq<Stage>) returns (ok: bool)
    ensures ok == CacheOk(ss)
  {
    var seen: set<Operation> := {};
    var i := 0;
    while i < |ss|
      invariant 0 <= i <= |ss|
      invariant CacheOk(ss[..i])
      invariant forall o :: o in seen <==> exists j :: 0 <= j < i && ss[j].op == Some(o)
    {
      var s := ss[i];
      if s.op.None? {
        return false;
      }
      if s.op.value in seen {
        var j :| 0 <= j < i && ss[j].op == s.op;
        assert ss[j].op == ss[i].op;
        return false;
      }
      seen := seen + {s.op.value};
      assert forall a, b :: 0 <= a < i + 1 && 0 <= b < i + 1 ==> ss[..i + 1][a] == ss[a] && ss[..i + 1][b] == ss[b];
      i := i + 1;
    }
    assert ss[..i] == ss;
    return true;
  }

  /** The stage of `op` among `ss`: what the operation-to-stage cache finds for it. */
  function StageOf(ss: seq<Stage>, op: Operation): (r: Option<Stage>)
    reads Elems(ss)`op
    ensures r.Some? <==> HasStage(ss, op)
    ensures r.Some? ==> r.value in ss && r.value.op == Some(op)
    decreases |ss|
  {
    if |ss| == 0 then None
    else if ss[0].op == Some(op) then Some(ss[0])
    else
      var r := StageOf(ss[1..], op);
      assert HasStage(ss, op) ==> ss[0].op == Some(op) || HasStage(ss[1..], op);
      r
  }

  /** The stage of every operation of `ops`, in order, or `StageNotFound` when one has none. */
  function StagesOf(ss: seq<Stage>, ops: seq<Operation>): (r: Result<seq<Stage>, StageError>)
    reads Elems(ss)`op
    ensures r.Ok? <==> forall k :: 0 <= k < |ops| ==> HasStage(ss, ops[k])
    ensures r.Err? ==> r.error == StageNotFound
    ensures r.Ok? ==> |r.value| == |ops| && forall k :: 0 <= k < |ops| ==> r.value[k] in ss && r.value[k].op == Some(ops[k])
    decreases |ops|
  {
    if |ops| == 0 then Ok([])
    else
      match StageOf(ss, ops[0])
      case None => Err(StageNotFound)
      case Some(s) =>
        match StagesOf(ss, ops[1..])
        case Err(e) => Err(e)
        case Ok(rest) =>
          assert forall k :: 1 <= k < |ops| ==> ops[k] == ops[1..][k - 1];
          Ok([s] + rest)
  }

  /**
   * The member stages of `create_group`: the cache check, then the stage of every
   * operation, in order.
   */
  function MemberStages(ss: seq<Stage>, ops: seq<Operation>): (r: Result<seq<Stage>, StageError>)
    reads Elems(ss)`op
    ensures !CacheOk(ss) ==> r == Err(CacheMismatch)
    ensures CacheOk(ss) ==>
      (r.Ok? <==> forall k :: 0 <= k < |ops| ==> HasStage(ss, ops[k])) && (r.Err? ==> r.error == StageNotFound)
    ensures r.Ok? ==> |r.value| == |ops| && forall k :: 0 <= k < |ops| ==> r.value[k] in ss && r.value[k].op == Some(ops[k])
  {
    if !CacheOk(ss) then Err(CacheMismatch) else StagesOf(ss, ops)
  }

  /** Under the cache check, an operation has one stage only. */
  lemma CachedStageUnique(ss: seq<Stage>, a: Stage, b: Stage)
    requires CacheOk(ss) && a in ss && b in ss && a.op == b.op
    ensures a == b
  {
    var i :| 0 <= i < |ss| && ss[i] == a;
    var j :| 0 <= j < |ss| && ss[j] == b;
  }

  // ---------------------------------------------------------------- copying a schedule

  /** Every field of `c` but its attach stage and its group equals that field of `s`. */
  ghost predicate SameBody(c: Stage, s: Stage)
    reads {c, s}`op, {c, s}`originOp, {c, s}`allIterVars, {c, s}`leafIterVars, {c, s}`envThreads
    reads {c, s}`relations, {c, s}`iterVarAttrs, {c, s}`attachType, {c, s}`attachIvar
    reads {c, s}`numChildStages, {c, s}`isOutput, {c, s}`doubleBuffer, {c, s}`decompStack
  {
    && c.op == s.op && c.originOp == s.originOp
    && c.allIterVars == s.allIterVars && c.leafIterVars == s.leafIterVars
    && c.envThreads == s.envThreads && c.relations == s.relations && c.iterVarAttrs == s.iterVarAttrs
    && c.attachType == s.attachType && c.attachIvar == s.attachIvar
    && c.numChildStages == s.numChildStages && c.isOutput == s.isOutput
    && c.doubleBuffer == s.doubleBuffer && c.decompStack == s.decompStack
  }

  /** A stage reference that is absent or one of `known`. */
  predicate Known(ref: Option<Stage>, known: set<Stage>)
  {
    ref.Some? ==> ref.value in known
  }

  /** A stage reference sent through `smap`. */
  function Remap(ref: Option<Stage>, smap: map<Stage, Stage>): (r: Option<Stage>)
    requires Known(ref, smap.Keys)
    ensures r.Some? <==> ref.Some?
    ensures Known(r, smap.Values)
  {
    if ref.None? then None else Some(smap[ref.value])
  }

  /** Position `j` of `olds` holds the last occurrence of its stage. */
  ghost predicate LastCopy(olds: seq<Stage>, j: int)
    requires 0 <= j < |olds|
  {
    forall k :: j < k < |olds| ==> olds[k] != olds[j]
  }

  /**
   * `smap` sends each stage of `olds` to its copy in `news`, a stage listed twice to its
   * later copy.
   */
  ghost predicate CopyMapOf(smap: map<Stage, Stage>, olds: seq<Stage>, news: seq<Stage>)
    requires |olds| == |news|
  {
    && smap.Keys == Elems(olds)
    && smap.Values <= Elems(news)
    && forall j :: 0 <= j < |olds| && LastCopy(olds, j) ==> smap[olds[j]] == news[j]
  }

  /** `c` is `s` with its attach stage and its group sent through `smap`. */
  ghost predicate Copied(c: Stage, s: Stage, smap: map<Stage, Stage>)
    reads {c, s}`op, {c, s}`originOp, {c, s}`allIterVars, {c, s}`leafIterVars, {c, s}`envThreads
    reads {c, s}`relations, {c, s}`iterVarAttrs, {c, s}`attachType, {c, s}`attachIvar
    reads {c, s}`numChildStages, {c, s}`isOutput, {c, s}`doubleBuffer, {c, s}`decompStack
    reads {c, s}`attachStage, {c, s}`group
  {
    && SameBody(c, s)
    && Known(s.attachStage, smap.Keys) && c.attachStage == Remap(s.attachStage, smap)
    && Known(s.group, smap.Keys) && c.group == Remap(s.group, smap)
  }

  /** The attach stage and the group of every stage of `pool` are absent or in `known`. */
  predicate RefsKnown(pool: seq<Stage>, known: set<Stage>)
    reads Elems(pool)`attachStage, Elems(pool)`group
  {
    forall k :: 0 <= k < |pool| ==> Known(pool[k].attachStage, known) && Known(pool[k].group, known)
  }

  /** Every stage reference held by the stages of `pool` or by `stageMap` is a stage of `pool`. */
  predicate Closed(pool: seq<Stage>, stageMap: map<Operation, Stage>)
    reads Elems(pool)`attachStage, Elems(pool)`group
  {
    (forall op :: op in stageMap ==> stageMap[op] in pool) && RefsKnown(pool, Elems(pool))
  }

  /** Copying one more stage extends the copy map by that stage's new copy. */
  lemma CopyMapStep(smap: map<Stage, Stage>, olds: seq<Stage>, news: seq<Stage>, o: Stage, c: Stage)
    requires |olds| == |news| && CopyMapOf(smap, olds, news)
    ensures CopyMapOf(smap[o := c], olds + [o], news + [c])
  {
    var m, os, ns := smap[o := c], olds + [o], news + [c];
    forall v | v in m.Values ensures v in Elems(ns) {
      var k :| k in m && m[k] == v;
      if k != o {
        assert smap[k] in smap.Values;
      }
    }
    forall j | 0 <= j < |os| && LastCopy(os, j) ensures m[os[j]] == ns[j] {
      if j < |olds| {
        assert os[|olds|] == o;
        assert LastCopy(olds, j) by {
          forall k | j < k < |olds| ensures olds[k] != olds[j] {
            assert os[k] == olds[k];
          }
        }
      }
    }
  }

  /**
   * The copy loops of `Schedule::copy` over `pool`: a new field-by-field copy of each
   * stage, and the map from each stage to its copy.
   */
  method CopyStages(pool: seq<Stage>) returns (news: seq<Stage>, smap: map<Stage, Stage>)
    ensures |news| == |pool| && Distinct(news)
    ensures forall k :: 0 <= k < |news| ==> fresh(news[k])
    ensures CopyMapOf(smap, pool, news)
    ensures forall k :: 0 <= k < |news| ==> RawCopy(news[k], pool[k])
  {
    news, smap := [], map[];
    var i := 0;
    while i < |pool|
      invariant 0 <= i <= |pool| && |news| == i && Distinct(news)
      invariant forall k :: 0 <= k < i ==> fresh(news[k])
      invariant CopyMapOf(smap, pool[..i], news)
      invariant forall k :: 0 <= k < i ==> RawCopy(news[k], pool[k])
    {
      news, smap := CopyNext(pool, i, news, smap);
      i := i + 1;
    }
    assert pool[..i] == pool;
  }

  /** One step of the copy loops: a new copy of the `i`-th stage, recorded in the copy map. */
  method CopyNext(pool: seq<Stage>, i: nat, news: seq<Stage>, smap: map<Stage, Stage>)
    returns (news': seq<Stage>, smap': map<Stage, Stage>)
    requires i < |pool| && |news| == i && Distinct(news) && CopyMapOf(smap, pool[..i], news)
    requires forall k :: 0 <= k < i ==> RawCopy(news[k], pool[k])
    ensures |news'| == i + 1 && Distinct(news') && CopyMapOf(smap', pool[..i + 1], news')
    ensures forall k :: 0 <= k < i ==> news'[k] == news[k]
    ensures fresh(news'[i]) && forall k :: 0 <= k <= i ==> RawCopy(news'[k], pool[k])
  {
    var c := new Stage.Copy(pool[i]);
    assert c !in news;
    assert pool[..i + 1] == pool[..i] + [pool[i]];
    CopyMapStep(smap, pool[..i], news, pool[i], c);
    smap' := smap[pool[i] := c];
    news' := news + [c];
    assert RawCopy(news'[i], pool[i]);
  }

  /** `c` is a field-by-field copy of `s` whose stage references are not remapped yet. */
  ghost predicate RawCopy(c: Stage, s: Stage)
    reads c, s
  {
    SameBody(c, s) && c.attachStage == s.attachStage && c.group == s.group
  }

  /** The first `n` stages of `news` are the copies of those of `pool`. */
  ghost predicate CopiedUpTo(news: seq<Stage>, pool: seq<Stage>, smap: map<Stage, Stage>, n: nat)
    requires n <= |news| == |pool|
    reads Elems(news[..n]), Elems(pool[..n])
  {
    forall k :: 0 <= k < n ==> Copied(news[k], pool[k], smap)
  }

  /** The stages of `news` from position `n` on are raw copies of those of `pool`. */
  ghost predicate RawFrom(news: seq<Stage>, pool: seq<Stage>, n: nat)
    requires n <= |news| == |pool|
    reads Elems(news[n..]), Elems(pool[n..])
  {
    forall k :: n <= k < |news| ==> RawCopy(news[k], pool[k])
  }

  /**
   * The remapping loops of `Schedule::copy`: the attach stage and the group of every
   * copy of `pool` sent through `smap`, failing on a reference `smap` does not know.
   */
  method RelinkCopies(news: seq<Stage>, pool: seq<Stage>, smap: map<Stage, Stage>) returns (ok: bool)
    requires |news| == |pool| && Distinct(news) && Elems(news) !! Elems(pool)
    requires forall k :: 0 <= k < |news| ==> RawCopy(news[k], pool[k])
    modifies Elems(news)`attachStage, Elems(news)`group
    ensures ok <==> old(RefsKnown(pool, smap.Keys))
    ensures ok ==> CopiedUpTo(news, pool, smap, |news|)
  {
    var i := 0;
    assert RawFrom(news, pool, 0);
    while i < |news|
      invariant 0 <= i <= |news|
      invariant CopiedUpTo(news, pool, smap, i) && RawFrom(news, pool, i)
      invariant forall k :: 0 <= k < i ==> old(Known(pool[k].attachStage, smap.Keys) && Known(pool[k].group, smap.Keys))
    {
      var s := news[i];
      assert RawCopy(s, pool[i]);
      if !Known(s.attachStage, smap.Keys) || !Known(s.group, smap.Keys) {
        return false;
      }
      RelinkOne(news, pool, smap, i);
      i := i + 1;
    }
    return true;
  }

  /** One step of the remapping loops: the `i`-th copy's references sent through `smap`. */
  method RelinkOne(news: seq<Stage>, pool: seq<Stage>, smap: map<Stage, Stage>, i: nat)
    requires i < |news| == |pool| && Distinct(news) && Elems(news) !! Elems(pool)
    requires CopiedUpTo(news, pool, smap, i) && RawFrom(news, pool, i)
    requires Known(news[i].attachStage, smap.Keys) && Known(news[i].group, smap.Keys)
    modifies {news[i]}`attachStage, {news[i]}`group
    ensures CopiedUpTo(news, pool, smap, i + 1) && RawFrom(news, pool, i + 1)
  {
    var s := news[i];
    assert RawCopy(s, pool[i]);
    ghost var done := CopiedUpTo(news, pool, smap, i);
    ghost var rest := RawFrom(news, pool, i + 1);
    assert rest;
    assert s !in Elems(news[..i]) && s !in Elems(news[i + 1..]) && s !in Elems(pool);
    s.attachStage := Remap(s.attachStage, smap);
    s.group := Remap(s.group, smap);
    assert done == CopiedUpTo(news, pool, smap, i);
    assert rest == RawFrom(news, pool, i + 1);
    assert Copied(s, pool[i], smap);
  }

  /**
   * The stage map of the copy: each operation's stage sent through `smap`, failing on a
   * stage `smap` does not know.
   */
  method RemapStageMap(stageMap: map<Operation, Stage>, smap: map<Stage, Stage>) returns (r: Option<map<Operation, Stage>>)
    ensures r.Some? <==> forall op :: op in stageMap ==> stageMap[op] in smap
    ensures r.Some? ==> r.value == map op | op in stageMap :: smap[stageMap[op]]
  {
    var out := map[];
    var todo := stageMap.Keys;
    while todo != {}
      invariant todo <= stageMap.Keys
      invariant forall op :: op in stageMap && op !in todo ==> stageMap[op] in smap
      invariant out == map op | op in stageMap && op !in todo :: smap[stageMap[op]]
      decreases todo
    {
      var op :| op in todo;
      if stageMap[op] !in smap {
        return None;
      }
      out := out[op := smap[stageMap[op]]];
      todo := todo - {op};
    }
    return Some(out);
  }

  /** `news` are copies of `pool`, one for one, each sent its stage references through `smap`. */
  ghost predicate CopyOf(news: seq<Stage>, pool: seq<Stage>, smap: map<Stage, Stage>)
    reads Elems(news), Elems(pool)
  {
    && |news| == |pool| && Distinct(news) && CopyMapOf(smap, pool, news)
    && forall k :: 0 <= k < |news| ==> Copied(news[k], pool[k], smap)
  }

  /**
   * The body of `Schedule::copy` on the stages and groups `pool` and the operation-to-stage
   * map: the copies, the map from each stage to its copy, and the remapped stage map with
   * the copies relinked, or nothing when a reference leaves `pool`.
   */
  method CopyPool(pool: seq<Stage>, stageMap: map<Operation, Stage>)
    returns (news: seq<Stage>, sm: Option<map<Operation, Stage>>, ghost smap: map<Stage, Stage>)
    ensures |news| == |pool| && Distinct(news) && (forall k :: 0 <= k < |news| ==> fresh(news[k]))
    ensures CopyMapOf(smap, pool, news)
    ensures sm.Some? <==> old(Closed(pool, stageMap))
    ensures sm.Some? ==> sm.value == (map op | op in stageMap :: smap[stageMap[op]]) && CopiedUpTo(news, pool, smap, |news|)
  {
    ghost var closed := Closed(pool, stageMap);
    var m;
    news, m := CopyStages(pool);
    smap := m;
    assert closed == Closed(pool, stageMap);
    assert Elems(news) !! Elems(pool);
    sm := RelinkPool(news, pool, stageMap, m);
  }

  /**
   * The remapping half of `CopyPool`: the stage map and the copies' references sent
   * through `smap`, which knows exactly the stages of `pool`; it fails when a reference
   * leaves `pool`.
   */
  method RelinkPool(news: seq<Stage>, pool: seq<Stage>, stageMap: map<Operation, Stage>, smap: map<Stage, Stage>)
    returns (sm: Option<map<Operation, Stage>>)
    requires |news| == |pool| && Distinct(news) && Elems(news) !! Elems(pool) && smap.Keys == Elems(pool)
    requires forall k :: 0 <= k < |news| ==> RawCopy(news[k], pool[k])
    modifies Elems(news)`attachStage, Elems(news)`group
    ensures sm.Some? <==> Closed(pool, stageMap)
    ensures sm.Some? ==> sm.value == (map op | op in stageMap :: smap[stageMap[op]]) && CopiedUpTo(news, pool, smap, |news|)
  {
    ghost var known := RefsKnown(pool, smap.Keys);
    sm := RemapStageMap(stageMap, smap);
    if sm.None? {
      return;
    }
    var ok := RelinkCopies(news, pool, smap);
    assert known == RefsKnown(pool, smap.Keys);
    if !ok {
      sm := None;
    }
  }

  /**
   * A copy is self-contained: every stage reference of the copies and of the remapped
   * stage map is one of the copies.
   */
  lemma CopyClosed(pool: seq<Stage>, news: seq<Stage>, smap: map<Stage, Stage>, stageMap: map<Operation, Stage>)
    requires |news| == |pool| && CopyMapOf(smap, pool, news)
    requires forall k :: 0 <= k < |news| ==> Copied(news[k], pool[k], smap)
    requires forall op :: op in stageMap ==> stageMap[op] in smap
    ensures Closed(news, map op | op in stageMap :: smap[stageMap[op]])
  {
    forall k | 0 <= k < |news| ensures Known(news[k].attachStage, Elems(news)) && Known(news[k].group, Elems(news)) {
      assert Copied(news[k], pool[k], smap);
    }
    forall op | op in stageMap ensures smap[stageMap[op]] in news {
      assert smap[stageMap[op]] in smap.Values;
    }
  }

  /** A schedule: its output operations, its stages, its group stages and the stage of each operation. */
  class Schedule {
    var outputs: seq<Operation>
    var stages: seq<Stage>
    var groups: seq<Stage>
    var stageMap: map<Operation, Stage>

    constructor (outputs: seq<Operation>, stages: seq<Stage>, groups: seq<Stage>, stageMap: map<Operation, Stage>)
      ensures this.outputs == outputs && this.stages == stages && this.groups == groups && this.stageMap == stageMap
    {
      this.outputs := outputs;
      this.stages := stages;
      this.groups := groups;
      this.stageMap := stageMap;
    }

    /**
     * `create_group` for the member operations `ops`: their stages `ms` are found through
     * the cache, the counting facts hold of their groups before the call, the call passes
     * exactly when every counted group other than the parent is full, and then the new
     * group joins `groups` and the stages are regrouped as `Grouped` says.
     */
    method CreateGroup(ops: seq<Operation>, ghost S: set<Stage>)
      returns (r: Result<Stage, StageError>, ghost ms: seq<Stage>, ghost parent: Option<Stage>,
               ghost keys: seq<Stage>, ghost touched: map<Stage, int>, ghost moved: set<Stage>)
      requires GroupsOk(S) && AttachOk(S) && Elems(stages) <= S
      modifies this`groups, S`group, S`numChildStages, S`attachType, S`depth
      ensures !old(CacheOk(stages)) ==> r == Err(CacheMismatch)
      ensures old(CacheOk(stages)) && (exists k :: 0 <= k < |ops| && !old(HasStage(stages, ops[k]))) ==> r == Err(StageNotFound)
      ensures r == Err(CacheMismatch) || r == Err(StageNotFound) ==> groups == old(groups) && unchanged(S)
      ensures r.Ok? || r == Err(GroupIntersects) ==>
        |ms| == |ops| && forall k :: 0 <= k < |ops| ==> ms[k] in old(stages) && old(ms[k].op) == Some(ops[k])
      ensures r.Ok? || r == Err(GroupIntersects) ==>
        (forall k :: 0 <= k < |keys| ==> keys[k] in S) && Elems(keys) <= S && touched.Keys == Elems(keys) && (parent.Some? ==> parent.value in S)
      ensures r.Ok? || r == Err(GroupIntersects) ==>
        parent == old(LcaFold(GroupsOf(ms), S)) && old(Counting(S, GroupsOf(ms), keys, touched))
      ensures r.Ok? || r == Err(GroupIntersects) ==>
        (r.Ok? <==> forall h :: h in keys && Some(h) != parent ==> old(ChildCounts(S))[h] == touched[h])
      ensures r.Ok? ==> fresh(r.value) && groups == old(groups) + [r.value]
      ensures r.Ok? ==> Grouped(S, ms, keys, parent, r.value, moved, old(GroupLinks(S)), old(ChildCounts(S)), old(AttachTypes(S)))
    {
      ghost var links, kids, kinds := GroupLinks(S), ChildCounts(S), AttachTypes(S);
      var found := MemberStages(stages, ops);
      if found.Err? {
        return Err(found.error), [], None, [], map[], {};
      }
      var members := found.value;
      ms := members;
      assert Elems(members) <= S;
      r, parent, keys, touched, moved := Group(members, S, links, kids, kinds);
    }

    /** `create_group` once its member stages `ms` are known. */
    method Group(ms: seq<Stage>, ghost S: set<Stage>, ghost before: map<Stage, Option<Stage>>,
                 ghost counts: map<Stage, int>, ghost types: map<Stage, AttachType>)
      returns (r: Result<Stage, StageError>, ghost parent: Option<Stage>, ghost keys: seq<Stage>,
               ghost touched: map<Stage, int>, ghost moved: set<Stage>)
      requires GroupsOk(S) && AttachOk(S) && Elems(ms) <= S && Snapshot(S, before, counts, types)
      modifies this`groups, S`group, S`numChildStages, S`attachType, S`depth
      ensures && (forall k :: 0 <= k < |keys| ==> keys[k] in S) && Elems(keys) <= S && touched.Keys == Elems(keys)
              && (parent.Some? ==> parent.value in S)
              && parent == old(LcaFold(GroupsOf(ms), S)) && old(Counting(S, GroupsOf(ms), keys, touched))
      ensures r.Ok? <==> forall h :: h in keys && Some(h) != parent ==> counts[h] == touched[h]
      ensures r.Err? ==> r.error == GroupIntersects
      ensures r.Ok? ==> fresh(r.value) && groups == old(groups) + [r.value]
      ensures r.Ok? ==> Grouped(S, ms, keys, parent, r.value, moved, before, counts, types)
    {
      var pg, ks, tc := GroupCounts(ms, S);
      parent, keys, touched := pg, ks, tc;
      assert forall k :: 0 <= k < |ks| ==> ks[k] in S;
      assert old(Counting(S, GroupsOf(ms), ks, tc));
      r, moved := AddGroup(ms, pg, ks, tc, S, before, counts, types);
    }

    /** `Regroup`, then the new group joins `groups`. */
    method AddGroup(ms: seq<Stage>, pg: Option<Stage>, keys: seq<Stage>, touched: map<Stage, int>, ghost S: set<Stage>,
                    ghost before: map<Stage, Option<Stage>>, ghost counts: map<Stage, int>, ghost types: map<Stage, AttachType>)
      returns (r: Result<Stage, StageError>, ghost moved: set<Stage>)
      requires GroupsOk(S) && AttachOk(S) && Elems(ms) <= S && (pg.Some? ==> pg.value in S)
      requires Elems(keys) <= S && touched.Keys == Elems(keys)
      requires Snapshot(S, before, counts, types)
      modifies this`groups, S`group, S`numChildStages, S`attachType, S`depth
      ensures r.Ok? <==> forall h :: h in keys && Some(h) != pg ==> counts[h] == touched[h]
      ensures r.Err? ==> r.error == GroupIntersects
      ensures r.Ok? ==> fresh(r.value) && groups == old(groups) + [r.value]
      ensures r.Ok? ==> Grouped(S, ms, keys, pg, r.value, moved, before, counts, types)
    {
      var c, g;
      c, g, moved := Regroup(ms, pg, keys, touched, S, before, counts, types);
      if c.Fail? {
        return Err(c.error), moved;
      }
      ghost var grouped := Grouped(S, ms, keys, pg, g, moved, before, counts, types);
      groups := groups + [g];
      assert grouped == Grouped(S, ms, keys, pg, g, moved, before, counts, types);
      r := Ok(g);
    }

    /**
     * `Schedule::copy`: a new schedule whose stages and groups are new copies of these,
     * with every stage reference sent to the copy; it fails when a reference leaves the
     * schedule. No existing object changes.
     */
    method Copy() returns (r: Result<Schedule, StageError>, ghost smap: map<Stage, Stage>)
      ensures r.Ok? <==> old(Closed(stages + groups, stageMap))
      ensures r.Err? ==> r.error == StageNotFound
      ensures r.Ok? ==> fresh(r.value) && r.value.outputs == outputs
      ensures r.Ok? ==> |r.value.stages| == |stages| && |r.value.groups| == |groups|
      ensures r.Ok? ==> forall k :: 0 <= k < |r.value.stages + r.value.groups| ==> fresh((r.value.stages + r.value.groups)[k])
      ensures r.Ok? ==> CopyOf(r.value.stages + r.value.groups, stages + groups, smap)
      ensures r.Ok? ==> r.value.stageMap == map op | op in stageMap :: smap[stageMap[op]]
    {
      var pool := stages + groups;
      var news, sm;
      news, sm, smap := CopyPool(pool, stageMap);
      if sm.None? {
        return Err(StageNotFound), smap;
      }
      var copies, groupCopies := news[..|stages|], news[|stages|..];
      assert copies + groupCopies == news;
      ghost var copyOf := CopyOf(news, pool, smap);
      var n := new Schedule(outputs, copies, groupCopies, sm.value);
      assert copyOf == CopyOf(news, pool, smap);
      assert n.stages + n.groups == news;
      r := Ok(n);
    }
  }
}
