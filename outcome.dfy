/** What `cleanUseless` decides after a whole run of `Packr.prototype.pack`
    over a planned manifest (index.js:317-326), with the loop as evidently
    intended: the run leaves every flag unset, so the mark phase retains
    exactly the packs that include something (their ids are the ones pushed
    onto dependency lists) and marks for deletion the packs that include
    nothing and are included by a pack whose packer has `virtualChildren`. */
module Outcome {
  import opened Dicts
  import opened Seqs
  import opened Executor
  import opened Runs
  import opened Driver
  import opened Pruner
  import Planner

  /** Some pack whose packer has `virtualChildren` includes `k`. */
  ghost predicate AbsorbedChild(env: Env, k: string)
  {
    exists q :: q in env.shapes && VirtualParent(env, q) && k in env.shapes[q].includes
  }

  /** No pack with a shape carries a pruner flag yet. */
  ghost predicate Unflagged(env: Env, packs: map<string, Pack>)
  {
    forall k :: k in env.shapes && k in packs ==> packs[k].virtual == Unset
  }

  lemma FinishUnflagged(env: Env, st: State, id: string, rank: map<string, nat>)
    requires Static(env, rank) && Wf(env, st.packs) && id in env.shapes && Unflagged(env, st.packs)
    ensures Unflagged(env, Finish(env, st, id, rank).packs)
  {
    var p := Finished(env, st, id);
    var r := Finish(env, st, id, rank);
    assert DepsOnly(st.packs[id := p], r.packs);
    forall k | k in env.shapes && k in r.packs ensures r.packs[k].virtual == Unset {
      if k != id {
        assert st.packs[id := p][k] == st.packs[k];
      }
    }
  }

  /** `packIt` writes no flag. */
  lemma {:induction false} ExecUnflagged(env: Env, st: State, id: string, rank: map<string, nat>)
    requires Static(env, rank) && Wf(env, st.packs) && Unflagged(env, st.packs) && id in env.shapes
    ensures Unflagged(env, Exec(env, st, id, rank).packs)
    decreases rank[id], 1
  {
    var files := JoinAll(env.join, env.srcDir, st.packs[id].files);
    var st1 := WithFiles(st, id, files);
    ExecIncludesUnflagged(env, st1, id, 0, rank);
    var st2 := ExecIncludes(env, st1, id, 0, rank);
    FinishUnflagged(env, st2, id, rank);
    assert Exec(env, st, id, rank) == Finish(env, st2, id, rank);
  }

  lemma {:induction false} ExecIncludesUnflagged(env: Env, st: State, id: string, i: nat, rank: map<string, nat>)
    requires Static(env, rank) && Wf(env, st.packs) && Unflagged(env, st.packs)
    requires id in env.shapes && i <= |env.shapes[id].includes|
    ensures Unflagged(env, ExecIncludes(env, st, id, i, rank).packs)
    decreases rank[id], 0, |env.shapes[id].includes| - i
  {
    var incs := env.shapes[id].includes;
    if i < |incs| {
      var inc := incs[i];
      if !IsPacked(st, inc) {
        ExecUnflagged(env, st, inc, rank);
      }
      var st1 := RunInclude(env, st, id, inc, rank);
      AbsorbUnflagged(env, st1, id, inc);
      var st2 := Absorb(env, st1, id, inc);
      ExecIncludesUnflagged(env, st2, id, i + 1, rank);
      ExecIncludesStep(env, st, id, i, rank);
    } else {
      ExecIncludesDone(env, st, id, rank);
    }
  }

  lemma AbsorbUnflagged(env: Env, st: State, id: string, inc: string)
    requires Wf(env, st.packs) && id in env.shapes && inc in env.shapes && Unflagged(env, st.packs)
    ensures Unflagged(env, Absorb(env, st, id, inc).packs)
  {
  }

  lemma {:induction false} RunGuardedUnflagged(env: Env, st: State, ids: seq<string>, rank: map<string, nat>)
    requires Static(env, rank) && Wf(env, st.packs) && Unflagged(env, st.packs)
    requires forall k :: k in ids ==> k in env.shapes
    ensures Unflagged(env, RunGuarded(env, st, ids, rank).packs)
    decreases |ids|
  {
    if ids != [] {
      var n := |ids| - 1;
      assert forall k :: k in ids[..n] ==> k in ids;
      RunGuardedUnflagged(env, st, ids[..n], rank);
      var st1 := RunGuarded(env, st, ids[..n], rank);
      UnlessPackedUnflagged(env, st1, ids[n], rank);
      assert RunGuarded(env, st, ids, rank) == RunUnlessPacked(env, st1, ids[n], rank);
    }
  }

  lemma UnlessPackedUnflagged(env: Env, st: State, id: string, rank: map<string, nat>)
    requires Static(env, rank) && Wf(env, st.packs) && Unflagged(env, st.packs) && id in env.shapes
    ensures Unflagged(env, RunUnlessPacked(env, st, id, rank).packs)
  {
    if !IsPacked(st, id) {
      ExecUnflagged(env, st, id, rank);
    }
  }

  /** After the corrected run over a planned manifest, the pruner may visit
      every pack; a pack is retained exactly when it includes some pack, and
      marked for deletion exactly when it includes none and some pack whose
      packer has `virtualChildren` includes it. */
  lemma PruneAfterRun(env: Env, plan: Planner.Plan, rank: map<string, nat>)
    requires env.shapes == Shapes(plan) && Planner.PlanInv(env.packers, plan) && Static(env, rank)
    ensures var r := RunGuarded(env, Initial(plan), plan.packs.keys, rank);
      && Pruner.Closed(env, r.packs, plan.packs.keys)
      && (forall k :: k in env.shapes ==>
            && (Marked(env, r.packs, plan.packs.keys, k) == Retained <==> env.shapes[k].includes != [])
            && (Marked(env, r.packs, plan.packs.keys, k) == Virtual <==>
                  env.shapes[k].includes == [] && AbsorbedChild(env, k)))
  {
    var ids := plan.packs.keys;
    RunEdges(env, plan, rank);
    var r := RunGuarded(env, Initial(plan), ids, rank);
    assert Pruner.Closed(env, r.packs, ids);
    forall k | k in env.shapes
      ensures (Marked(env, r.packs, ids, k) == Retained <==> env.shapes[k].includes != [])
      ensures (Marked(env, r.packs, ids, k) == Virtual <==>
                 env.shapes[k].includes == [] && AbsorbedChild(env, k))
    {
      MarkedFromEdges(env, r.packs, ids, k);
    }
  }

  /** The corrected run leaves every flag unset and every dependency list
      holding the includers of its pack and nothing else. */
  lemma RunEdges(env: Env, plan: Planner.Plan, rank: map<string, nat>)
    requires env.shapes == Shapes(plan) && Planner.PlanInv(env.packers, plan) && Static(env, rank)
    ensures var r := RunGuarded(env, Initial(plan), plan.packs.keys, rank);
      && Wf(env, r.packs) && Unflagged(env, r.packs)
      && (forall p, q :: p in env.shapes && q in env.shapes ==>
            Count(r.packs[q].dependencies, p) == Count(env.shapes[p].includes, q))
      && (forall q, j :: q in env.shapes && 0 <= j < |r.packs[q].dependencies| ==> r.packs[q].dependencies[j] in env.shapes)
  {
    var ids := plan.packs.keys;
    var st := Initial(plan);
    assert forall k :: k in ids ==> k in env.shapes;
    GuardedRun(env, plan, rank);
    RunGuardedUnflagged(env, st, ids, rank);
    var r := RunGuarded(env, st, ids, rank);
    forall q, j | q in env.shapes && 0 <= j < |r.packs[q].dependencies|
      ensures r.packs[q].dependencies[j] in env.shapes
    {
      EdgesKnown(env, r.calls, q, r.packs[q].dependencies[j]);
    }
  }

  /** Only packs with a shape push edges. */
  lemma {:induction false} EdgesKnown(env: Env, calls: seq<string>, k: string, x: string)
    requires x in EdgesTo(env, calls, k)
    ensures x in env.shapes
  {
    if calls != [] {
      var n := |calls| - 1;
      if x in EdgesTo(env, calls[..n], k) {
        EdgesKnown(env, calls[..n], k, x);
      }
    }
  }

  /** Over unset flags and dependency lists that hold the includers and
      nothing else, with every pack visited, Marked retains the includers
      and marks the included leaves of `virtualChildren` packers. */
  lemma MarkedFromEdges(env: Env, packs: map<string, Pack>, ids: seq<string>, k: string)
    requires (forall q :: q in ids <==> q in env.shapes) && Wf(env, packs) && Unflagged(env, packs) && k in env.shapes
    requires forall k :: k in env.shapes ==> forall j :: 0 <= j < |env.shapes[k].includes| ==> env.shapes[k].includes[j] in env.shapes
    requires forall p, q :: p in env.shapes && q in env.shapes ==>
      Count(packs[q].dependencies, p) == Count(env.shapes[p].includes, q)
    requires forall q, j :: q in env.shapes && 0 <= j < |packs[q].dependencies| ==> packs[q].dependencies[j] in env.shapes
    ensures Marked(env, packs, ids, k) == Retained <==> env.shapes[k].includes != []
    ensures Marked(env, packs, ids, k) == Virtual <==>
      env.shapes[k].includes == [] && AbsorbedChild(env, k)
  {
    DependedIffIncludes(env, packs, ids, k);
    VirtualChildIff(env, ids, k);
  }

  /** A pack is on some visited dependency list exactly when it includes
      something, once the lists hold the includers and nothing else. */
  lemma DependedIffIncludes(env: Env, packs: map<string, Pack>, ids: seq<string>, k: string)
    requires (forall q :: q in ids <==> q in env.shapes) && Wf(env, packs) && k in env.shapes
    requires forall k :: k in env.shapes ==> forall j :: 0 <= j < |env.shapes[k].includes| ==> env.shapes[k].includes[j] in env.shapes
    requires forall p, q :: p in env.shapes && q in env.shapes ==>
      Count(packs[q].dependencies, p) == Count(env.shapes[p].includes, q)
    requires forall q, j :: q in env.shapes && 0 <= j < |packs[q].dependencies| ==> packs[q].dependencies[j] in env.shapes
    ensures Depended(packs, ids, k) <==> env.shapes[k].includes != []
  {
    var incs := env.shapes[k].includes;
    if incs != [] {
      var q := incs[0];
      assert Count(incs, q) > 0;
      assert Count(packs[q].dependencies, k) > 0;
      assert q in ids;
    }
    if Depended(packs, ids, k) {
      var q :| q in ids && q in packs && k in packs[q].dependencies;
      assert Count(packs[q].dependencies, k) > 0;
    }
  }

  lemma VirtualChildIff(env: Env, ids: seq<string>, k: string)
    requires forall q :: q in ids <==> q in env.shapes
    ensures VirtualChild(env, ids, k) <==> AbsorbedChild(env, k)
  {
  }
}
