/** `Packr.prototype.pack` (index.js:300-319) up to the pruner: the manifest
    loaded as packs, then every pack run in manifest order; and what the
    loop as written does differently from the loop it evidently means. */
module Driver {
  import opened Dicts
  import opened Seqs
  import Planner
  import Tree
  import opened Executor
  import opened Runs

  /** The packer type and includes of every pack of a manifest. */
  function Shapes(plan: Planner.Plan): (r: map<string, Shape>)
    ensures forall k :: k in r <==> k in plan.packs.m
  {
    map k | k in plan.packs.m :: Shape(plan.packs.m[k].packerType, plan.packs.m[k].includes)
  }

  /** The packs as `yaml.safeLoad` hands them over (index.js:305-310):
      nothing packed, no manifest entries, no packer called. */
  function Initial(plan: Planner.Plan): (st: State)
    ensures forall k :: k in st.packs <==> k in plan.packs.m
  {
    State(map k | k in plan.packs.m :: Loaded(plan.packs.m[k]), map[], [])
  }

  /** Every pack names a registered packer and includes only packs that
      exist. */
  ghost predicate Closed(env: Env)
  {
    forall k :: k in env.shapes ==>
      && env.shapes[k].packerType in env.packers
      && (forall j :: 0 <= j < |env.shapes[k].includes| ==> env.shapes[k].includes[j] in env.shapes)
  }

  /** A planned manifest loads into a state that satisfies the run invariant,
      over packs that can all be handed to their packers. */
  lemma InitialInv(env: Env, plan: Planner.Plan)
    requires env.shapes == Shapes(plan) && Planner.PlanInv(env.packers, plan)
    ensures Inv(env, Initial(plan)) && Closed(env)
  {
    var st := Initial(plan);
    forall k | k in env.shapes
      ensures st.packs[k].dependencies == EdgesTo(env, st.calls, k)
      ensures env.shapes[k].packerType in env.packers
      ensures forall j :: 0 <= j < |env.shapes[k].includes| ==> env.shapes[k].includes[j] in env.shapes
    {
      assert env.shapes[k].includes == plan.packs.m[k].includes;
    }
  }

  /** A run ends with a call of the pack it was started on. */
  lemma ExecEndsWith(env: Env, st: State, id: string, rank: map<string, nat>)
    requires Static(env, rank) && Wf(env, st.packs) && id in env.shapes
    ensures var c := Exec(env, st, id, rank).calls; st.calls <= c && |st.calls| < |c| && c[|c| - 1] == id
  {
    var files := JoinAll(env.join, env.srcDir, st.packs[id].files);
    var st1 := WithFiles(st, id, files);
    var st2 := ExecIncludes(env, st1, id, 0, rank);
    assert Exec(env, st, id, rank) == Finish(env, st2, id, rank);
  }

  /** The loop as written keeps the run invariant. */
  lemma {:induction false} RunAllInv(env: Env, st: State, ids: seq<string>, rank: map<string, nat>)
    requires Static(env, rank) && Inv(env, st) && forall k :: k in ids ==> k in env.shapes
    ensures Inv(env, RunAll(env, st, ids, rank))
    decreases |ids|
  {
    if ids != [] {
      var n := |ids| - 1;
      assert forall k :: k in ids[..n] ==> k in ids;
      RunAllInv(env, st, ids[..n], rank);
      ExecInv(env, RunAll(env, st, ids[..n], rank), ids[n], rank);
    }
  }

  /** The packer calls of the first turns of the loop are the start of the
      calls of the whole loop: later turns only add calls. */
  lemma {:induction false} RunAllPrefix(env: Env, st: State, ids: seq<string>, i: nat, rank: map<string, nat>)
    requires Static(env, rank) && Wf(env, st.packs) && (forall k :: k in ids ==> k in env.shapes) && i <= |ids|
    ensures RunAll(env, st, ids[..i], rank).calls <= RunAll(env, st, ids, rank).calls
    decreases |ids| - i
  {
    if i < |ids| {
      RunAllTurn(env, st, ids, i, rank);
      RunAllPrefix(env, st, ids, i + 1, rank);
    } else {
      assert ids[..i] == ids;
    }
  }

  /** The loop as written (index.js:317-319) runs a pack again when a pack
      listed before it includes it: the include is packed while its includer
      runs, and the loop then calls `packIt` on it regardless, so by the end
      of its own turn its packer has been called at two different points. */
  lemma RunAllRepeats(env: Env, st: State, ids: seq<string>, a: nat, b: nat, rank: map<string, nat>)
    returns (i: nat, j: nat)
    requires Static(env, rank) && Inv(env, st) && forall k :: k in ids ==> k in env.shapes
    requires a < b < |ids| && ids[b] in env.shapes[ids[a]].includes
    ensures var c := RunAll(env, st, ids[..b + 1], rank).calls; i < j < |c| && c[i] == ids[b] && c[j] == ids[b]
  {
    i := CalledBefore(env, st, ids, a, b, rank);
    RunAllTurn(env, st, ids, b, rank);
    j := |RunAll(env, st, ids[..b + 1], rank).calls| - 1;
  }

  /** Before the loop reaches `ids[b]`, it has run an includer of it, and so
      `ids[b]` itself. */
  lemma CalledBefore(env: Env, st: State, ids: seq<string>, a: nat, b: nat, rank: map<string, nat>) returns (i: nat)
    requires Static(env, rank) && Inv(env, st) && forall k :: k in ids ==> k in env.shapes
    requires a < b < |ids| && ids[b] in env.shapes[ids[a]].includes
    ensures var c := RunAll(env, st, ids[..b], rank).calls; i < |c| && c[i] == ids[b]
  {
    assert forall k :: k in ids[..b] ==> k in ids;
    RunAllInv(env, st, ids[..b], rank);
    assert ids[a] in ids[..b];
    i := IncludeCalled(env, RunAll(env, st, ids[..b], rank), ids[a], ids[b]);
  }

  /** An include of a packed pack has been called. */
  lemma IncludeCalled(env: Env, s: State, p: string, q: string) returns (i: nat)
    requires PackedIsCalled(env, s) && IncludesFirst(env, s.calls)
    requires p in env.shapes && IsPacked(s, p) && q in env.shapes[p].includes
    ensures i < |s.calls| && s.calls[i] == q
  {
    var j :| 0 <= j < |s.calls| && s.calls[j] == p;
    assert IncludedEarlier(env, s.calls, j);
    i :| 0 <= i < j && s.calls[..j][i] == q;
  }

  /** The turn of the loop on `ids[b]` calls its packer after all calls
      before it. */
  lemma RunAllTurn(env: Env, st: State, ids: seq<string>, b: nat, rank: map<string, nat>)
    requires Static(env, rank) && Wf(env, st.packs) && (forall k :: k in ids ==> k in env.shapes) && b < |ids|
    ensures var c0 := RunAll(env, st, ids[..b], rank).calls; var c1 := RunAll(env, st, ids[..b + 1], rank).calls;
      c0 <= c1 && |c0| < |c1| && c1[|c1| - 1] == ids[b]
  {
    RunAllStep(env, st, ids, b, rank);
    ExecEndsWith(env, RunAll(env, st, ids[..b], rank), ids[b], rank);
  }

  /** So the reverse edges are pushed twice as well: a pack included by a
      pack that is run twice lists its includer at least twice. */
  lemma RunAllDuplicatesEdges(env: Env, st: State, ids: seq<string>, a: nat, b: nat, leaf: string,
                              rank: map<string, nat>)
    requires Static(env, rank) && Inv(env, st) && forall k :: k in ids ==> k in env.shapes
    requires a < b < |ids| && ids[b] in env.shapes[ids[a]].includes
    requires leaf in env.shapes[ids[b]].includes
    ensures var r := RunAll(env, st, ids[..b + 1], rank);
      leaf in r.packs && Count(r.packs[leaf].dependencies, ids[b]) >= 2
  {
    var q := ids[b];
    var r := RunAll(env, st, ids[..b + 1], rank);
    var i, j := RunAllRepeats(env, st, ids, a, b, rank);
    CountTwo(r.calls, i, j, q);
    assert forall k :: k in ids[..b + 1] ==> k in ids;
    RunAllInv(env, st, ids[..b + 1], rank);
    assert leaf in env.shapes by {
      var x :| 0 <= x < |env.shapes[q].includes| && env.shapes[q].includes[x] == leaf;
    }
    EdgesCount(env, r.calls, leaf, q);
    MulAtLeastTwice(Count(r.calls, q), Count(env.shapes[q].includes, leaf));
  }

  lemma MulAtLeastTwice(c: nat, m: nat)
    requires c >= 2 && m >= 1
    ensures c * m >= 2
  {
  }

  /** A pack without includes keeps its files through a run, made absolute
      against the source directory. */
  lemma ExecFilesAlone(env: Env, st: State, id: string, rank: map<string, nat>)
    requires Static(env, rank) && Wf(env, st.packs) && id in env.shapes && env.shapes[id].includes == []
    ensures Exec(env, st, id, rank).packs[id].files == JoinAll(env.join, env.srcDir, st.packs[id].files)
  {
    var files := JoinAll(env.join, env.srcDir, st.packs[id].files);
    var st1 := WithFiles(st, id, files);
    FilesOnly(env, st, id, files, rank);
    ExecIncludesDone(env, st1, id, rank);
    var r := Finish(env, st1, id, rank);
    assert DepsOnly(st1.packs[id := Finished(env, st1, id)], r.packs);
    assert Exec(env, st, id, rank) == r;
  }

  /** Running such a pack a second time, as the loop as written does, joins
      its already absolute paths onto the source directory again, and its
      packer is handed those paths. */
  lemma ReexecJoinsTwice(env: Env, st: State, id: string, rank: map<string, nat>)
    requires Static(env, rank) && Wf(env, st.packs) && id in env.shapes && env.shapes[id].includes == []
    ensures var st1 := Exec(env, st, id, rank);
      Exec(env, st1, id, rank).packs[id].files
        == JoinAll(env.join, env.srcDir, JoinAll(env.join, env.srcDir, st.packs[id].files))
  {
    var st1 := Exec(env, st, id, rank);
    ExecFilesAlone(env, st, id, rank);
    ExecFilesAlone(env, st1, id, rank);
  }

  /** The guarded loop keeps the run invariant and calls no packer twice. */
  lemma {:induction false} RunGuardedInv(env: Env, st: State, ids: seq<string>, rank: map<string, nat>)
    requires Static(env, rank) && Inv(env, st) && NoDuplicates(st.calls)
    requires forall k :: k in ids ==> k in env.shapes
    ensures var r := RunGuarded(env, st, ids, rank); Inv(env, r) && NoDuplicates(r.calls)
    decreases |ids|
  {
    if ids != [] {
      var n := |ids| - 1;
      assert forall k :: k in ids[..n] ==> k in ids;
      RunGuardedInv(env, st, ids[..n], rank);
      var st1 := RunGuarded(env, st, ids[..n], rank);
      if !IsPacked(st1, ids[n]) {
        ExecInv(env, st1, ids[n], rank);
        ExecOnce(env, st1, ids[n], rank);
      }
    }
  }

  /** The loop as evidently intended, over a planned manifest: every pack is
      packed with its packer called exactly once; a pack's dependency list
      holds each includer once per time it lists the pack among its includes;
      every pack has its manifest entry; and includes were packed before
      their includers. */
  lemma GuardedRun(env: Env, plan: Planner.Plan, rank: map<string, nat>)
    requires env.shapes == Shapes(plan) && Planner.PlanInv(env.packers, plan) && Static(env, rank)
    ensures var r := RunGuarded(env, Initial(plan), plan.packs.keys, rank);
      && Inv(env, r)
      && (forall k :: k in env.shapes ==> IsPacked(r, k) && Count(r.calls, k) == 1)
      && (forall p, q :: p in env.shapes && q in env.shapes ==>
            Count(r.packs[q].dependencies, p) == Count(env.shapes[p].includes, q))
      && (forall k :: k in env.shapes ==>
            k in r.assets && r.assets[k] == Asset(env.shapes[k].packerType, env.shapes[k].includes, r.packs[k].outputFiles))
  {
    var ids := plan.packs.keys;
    InitialInv(env, plan);
    RunGuardedInv(env, Initial(plan), ids, rank);
    var r := RunGuarded(env, Initial(plan), ids, rank);
    forall k | k in env.shapes
      ensures IsPacked(r, k) && Count(r.calls, k) == 1
    {
      CountUnique(r.calls, k);
    }
    forall p, q | p in env.shapes && q in env.shapes
      ensures Count(r.packs[q].dependencies, p) == Count(env.shapes[p].includes, q)
    {
      assert r.packs[q].dependencies == EdgesTo(env, r.calls, q);
      CountUnique(r.calls, p);
      EdgesOnce(env, r.calls, q, p);
    }
  }

  /** With each pack called once, a dependency list holds each includer
      once per time it lists the pack. */
  lemma EdgesOnce(env: Env, calls: seq<string>, k: string, x: string)
    requires x in env.shapes && Count(calls, x) == 1
    ensures Count(EdgesTo(env, calls, k), x) == Count(env.shapes[x].includes, k)
  {
    EdgesCount(env, calls, k, x);
  }

  /** The manifest planned from the tree `image#raw/sub#json/c.png#image`
      admits no ranking with includes below their includers, so none of the
      runs above applies to it: there `packIt` goes from "image" to
      "image-sub" and back without end, `packed` being set only once a
      pack's includes are done. */
  lemma CyclicPlanHasNoRank(env: Env, s1: string, s2: string, s3: string, rank: map<string, nat>)
    requires "raw" in env.packers && "json" in env.packers && "image" in env.packers && "" !in env.packers
    requires var c := Tree.Node("image", false, s3, []);
      var sub := Tree.Node("json", true, s2, [Tree.Child("c", c)]);
      var image := Tree.Node("raw", true, s1, [Tree.Child("sub", sub)]);
      env.shapes == Shapes(Planner.PlanTree(env.packers, [Tree.Child("image", image)]))
    ensures !Static(env, rank)
  {
    Planner.LoneFileCycle(env.packers, s1, s2, s3);
    assert env.shapes["image"].includes[0] == "image-sub";
    assert env.shapes["image-sub"].includes[0] == "image";
  }
}
