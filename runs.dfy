/** What a run of the executor leaves behind, proved once for `packIt` and
    carried through both top-level loops: every pack is packed exactly when
    its packer has been called, each call recorded its reverse edges and its
    manifest entry, and includes are called before their includers. */
module Runs {
  import opened Dicts
  import opened Seqs
  import opened Executor

  /** The ids the calls `calls` have pushed onto the dependency list of `k`,
      in push order: each call's id once per occurrence of `k` among its
      includes. */
  ghost function EdgesTo(env: Env, calls: seq<string>, k: string): seq<string>
  {
    if calls == [] then []
    else
      var n := |calls| - 1;
      EdgesTo(env, calls[..n], k) + Pushed(env, calls[n], k)
  }

  /** The edges one call of `c` pushes onto `k`'s list. */
  ghost function Pushed(env: Env, c: string, k: string): seq<string>
  {
    if c in env.shapes then Repeat(c, Count(env.shapes[c].includes, k)) else []
  }

  /** A pack is packed exactly when it has been called. */
  ghost predicate PackedIsCalled(env: Env, st: State)
  {
    forall k :: k in env.shapes ==> (IsPacked(st, k) <==> k in st.calls)
  }

  /** Each pack's dependency list holds the edges the calls pushed onto it. */
  ghost predicate EdgesRecorded(env: Env, st: State)
    requires Wf(env, st.packs)
  {
    forall k :: k in env.shapes ==> st.packs[k].dependencies == EdgesTo(env, st.calls, k)
  }

  /** A called pack, and only a called pack, has a manifest entry, holding its
      type, its includes and its current outputs. */
  ghost predicate AssetsRecorded(env: Env, st: State)
    requires Wf(env, st.packs)
  {
    forall k :: k in env.shapes ==>
      && (k in st.assets <==> k in st.calls)
      && (k in st.assets ==>
            st.assets[k] == Asset(env.shapes[k].packerType, env.shapes[k].includes, st.packs[k].outputFiles))
  }

  /** Every include of the `a`-th call was called before it. */
  ghost predicate IncludedEarlier(env: Env, calls: seq<string>, a: nat)
    requires a < |calls|
  {
    calls[a] in env.shapes ==> forall x :: x in env.shapes[calls[a]].includes ==> x in calls[..a]
  }

  /** Every include of a call was called before it. */
  ghost predicate IncludesFirst(env: Env, calls: seq<string>)
  {
    forall a :: 0 <= a < |calls| ==> IncludedEarlier(env, calls, a)
  }

  /** Everything a run keeps. */
  ghost predicate Inv(env: Env, st: State)
  {
    && Wf(env, st.packs)
    && PackedIsCalled(env, st)
    && EdgesRecorded(env, st)
    && AssetsRecorded(env, st)
    && IncludesFirst(env, st.calls)
  }

  /** A pack's reverse edges, counted: `P` occurs in the dependency list of
      `Q` once per call of `P` per occurrence of `Q` among `P`'s includes. */
  lemma {:induction false} EdgesCount(env: Env, calls: seq<string>, k: string, x: string)
    requires x in env.shapes
    ensures Count(EdgesTo(env, calls, k), x) == Count(calls, x) * Count(env.shapes[x].includes, k)
  {
    if calls != [] {
      var n := |calls| - 1;
      var c := calls[n];
      EdgesCount(env, calls[..n], k, x);
      CountAppend(EdgesTo(env, calls[..n], k), Pushed(env, c, k), x);
      if c in env.shapes {
        CountRepeat(c, Count(env.shapes[c].includes, k), x);
      }
      assert calls == calls[..n] + [c];
      CountSnoc(calls[..n], c, x);
      if c == x {
        MulSucc(Count(calls[..n], x), Count(env.shapes[x].includes, k));
      }
    }
  }

  lemma MulSucc(a: nat, m: nat)
    ensures (a + 1) * m == a * m + m
  {
  }

  /** `P` depends-on-edge into `Q` exactly when `P` has been called and
      includes `Q`. */
  lemma EdgesMember(env: Env, calls: seq<string>, k: string, x: string)
    requires x in env.shapes
    ensures x in EdgesTo(env, calls, k) <==> x in calls && k in env.shapes[x].includes
  {
    EdgesCount(env, calls, k, x);
    var a, m := Count(calls, x), Count(env.shapes[x].includes, k);
    assert a * m > 0 <==> a > 0 && m > 0;
  }

  /** The reverse edges `PushFrom` adds: `from` once per occurrence of `k`
      among the includes from the `i`-th on. */
  lemma {:induction false} PushFromSpec(packs: map<string, Pack>, from: string, incs: seq<string>, i: nat, k: string)
    requires i <= |incs| && (forall j :: 0 <= j < |incs| ==> incs[j] in packs) && k in packs
    ensures PushFrom(packs, from, incs, i)[k].dependencies == packs[k].dependencies + Repeat(from, Count(incs[i..], k))
    decreases |incs| - i
  {
    if i < |incs| {
      var q := packs[incs[i]];
      var packs' := packs[incs[i] := q.(dependencies := q.dependencies + [from])];
      PushFromSpec(packs', from, incs, i + 1, k);
      assert incs[i..][1..] == incs[i + 1..];
    }
  }

  /** Rewriting a pack's files keeps each part of the invariant. */
  lemma FilesKeep(env: Env, st: State, id: string, files: Dict<string>)
    requires Wf(env, st.packs) && id in env.shapes
    ensures var r := WithFiles(st, id, files);
      && Wf(env, r.packs)
      && (PackedIsCalled(env, st) ==> PackedIsCalled(env, r))
      && (EdgesRecorded(env, st) ==> EdgesRecorded(env, r))
      && (AssetsRecorded(env, st) ==> AssetsRecorded(env, r))
      && r.calls == st.calls
  {
    var r := WithFiles(st, id, files);
    forall k | k in env.shapes
      ensures r.packs[k].dependencies == st.packs[k].dependencies
      ensures r.packs[k].outputFiles == st.packs[k].outputFiles
      ensures IsPacked(r, k) == IsPacked(st, k)
    {
    }
  }

  /** Absorbing an include's outputs rewrites the includer's files only. */
  lemma AbsorbKeeps(env: Env, st: State, id: string, inc: string)
    requires Wf(env, st.packs) && id in env.shapes && inc in env.shapes
    ensures var r := Absorb(env, st, id, inc);
      && Wf(env, r.packs)
      && (PackedIsCalled(env, st) ==> PackedIsCalled(env, r))
      && (EdgesRecorded(env, st) ==> EdgesRecorded(env, r))
      && (AssetsRecorded(env, st) ==> AssetsRecorded(env, r))
      && r.calls == st.calls
  {
    var q := st.packs[inc];
    var files := AbsorbFrom(st.packs[id].files, q.outputFiles, AbsoluteFiles(env, q), 0);
    FilesKeep(env, st, id, files);
    assert Absorb(env, st, id, inc) == WithFiles(st, id, files);
  }

  /** The reverse edges after Finish: those of one more call. */
  lemma FinishEdges(env: Env, st: State, id: string, rank: map<string, nat>)
    requires Static(env, rank) && Wf(env, st.packs) && EdgesRecorded(env, st) && id in env.shapes
    ensures EdgesRecorded(env, Finish(env, st, id, rank))
  {
    var incs := env.shapes[id].includes;
    var p := Finished(env, st, id);
    var r := Finish(env, st, id, rank);
    assert r.packs == PushFrom(st.packs[id := p], id, incs, 0);
    assert r.calls[..|st.calls|] == st.calls;
    forall k | k in env.shapes
      ensures r.packs[k].dependencies == EdgesTo(env, r.calls, k)
    {
      PushFromSpec(st.packs[id := p], id, incs, 0, k);
      assert incs[0..] == incs;
    }
  }

  /** The manifest entries after Finish: one more, for `id`. */
  lemma FinishAssets(env: Env, st: State, id: string, rank: map<string, nat>)
    requires Static(env, rank) && Wf(env, st.packs) && AssetsRecorded(env, st) && id in env.shapes
    ensures AssetsRecorded(env, Finish(env, st, id, rank))
  {
    var p := Finished(env, st, id);
    var r := Finish(env, st, id, rank);
    assert DepsOnly(st.packs[id := p], r.packs);
    forall k | k in env.shapes && k != id
      ensures r.packs[k].outputFiles == st.packs[k].outputFiles
    {
      assert st.packs[id := p][k] == st.packs[k];
    }
  }

  /** The packed flags after Finish: one more, for `id`. */
  lemma FinishPacked(env: Env, st: State, id: string, rank: map<string, nat>)
    requires Static(env, rank) && Wf(env, st.packs) && PackedIsCalled(env, st) && id in env.shapes
    ensures PackedIsCalled(env, Finish(env, st, id, rank))
  {
    var p := Finished(env, st, id);
    var r := Finish(env, st, id, rank);
    assert DepsOnly(st.packs[id := p], r.packs);
    forall k | k in env.shapes && k != id
      ensures IsPacked(r, k) == IsPacked(st, k)
    {
      assert st.packs[id := p][k] == st.packs[k];
    }
  }

  /** The call order after Finish, once every include of `id` is called. */
  lemma FinishOrder(env: Env, calls: seq<string>, id: string)
    requires IncludesFirst(env, calls) && id in env.shapes
    requires forall j :: 0 <= j < |env.shapes[id].includes| ==> env.shapes[id].includes[j] in calls
    ensures IncludesFirst(env, calls + [id])
  {
    var r := calls + [id];
    forall a | 0 <= a < |r|
      ensures IncludedEarlier(env, r, a)
    {
      if a < |calls| {
        assert IncludedEarlier(env, calls, a);
        assert r[..a] == calls[..a];
      } else {
        assert r[..a] == calls;
      }
    }
  }

  /** `packIt` keeps packed flags and calls in step. */
  lemma {:induction false} ExecPacked(env: Env, st: State, id: string, rank: map<string, nat>)
    requires Static(env, rank) && Wf(env, st.packs) && PackedIsCalled(env, st) && id in env.shapes
    ensures PackedIsCalled(env, Exec(env, st, id, rank))
    decreases rank[id], 1
  {
    var files := JoinAll(env.join, env.srcDir, st.packs[id].files);
    FilesKeep(env, st, id, files);
    var st1 := WithFiles(st, id, files);
    ExecIncludesPacked(env, st1, id, 0, rank);
    var st2 := ExecIncludes(env, st1, id, 0, rank);
    FinishPacked(env, st2, id, rank);
    assert Exec(env, st, id, rank) == Finish(env, st2, id, rank);
  }

  lemma {:induction false} ExecIncludesPacked(env: Env, st: State, id: string, i: nat, rank: map<string, nat>)
    requires Static(env, rank) && Wf(env, st.packs) && PackedIsCalled(env, st)
    requires id in env.shapes && i <= |env.shapes[id].includes|
    ensures PackedIsCalled(env, ExecIncludes(env, st, id, i, rank))
    decreases rank[id], 0, |env.shapes[id].includes| - i, 1
  {
    var incs := env.shapes[id].includes;
    if i < |incs| {
      var inc := incs[i];
      TurnPacked(env, st, id, i, rank);
      var st2 := Absorb(env, RunInclude(env, st, id, inc, rank), id, inc);
      ExecIncludesPacked(env, st2, id, i + 1, rank);
      ExecIncludesStep(env, st, id, i, rank);
    } else {
      ExecIncludesDone(env, st, id, rank);
    }
  }

  /** One turn of the include loop keeps this: a packed pack has been called. */
  lemma TurnPacked(env: Env, st: State, id: string, i: nat, rank: map<string, nat>)
    requires Static(env, rank) && Wf(env, st.packs) && PackedIsCalled(env, st)
    requires id in env.shapes && i < |env.shapes[id].includes|
    ensures var inc := env.shapes[id].includes[i];
      var r := Absorb(env, RunInclude(env, st, id, inc, rank), id, inc);
      PackedIsCalled(env, r)
    decreases rank[id], 0, |env.shapes[id].includes| - i, 0
  {
    var inc := env.shapes[id].includes[i];
    if !IsPacked(st, inc) {
      ExecPacked(env, st, inc, rank);
    }
    AbsorbKeeps(env, RunInclude(env, st, id, inc, rank), id, inc);
  }

  /** `packIt` keeps the reverse edges in step with the calls. */
  lemma {:induction false} ExecEdges(env: Env, st: State, id: string, rank: map<string, nat>)
    requires Static(env, rank) && Wf(env, st.packs) && EdgesRecorded(env, st) && id in env.shapes
    ensures EdgesRecorded(env, Exec(env, st, id, rank))
    decreases rank[id], 1
  {
    var files := JoinAll(env.join, env.srcDir, st.packs[id].files);
    FilesKeep(env, st, id, files);
    var st1 := WithFiles(st, id, files);
    ExecIncludesEdges(env, st1, id, 0, rank);
    var st2 := ExecIncludes(env, st1, id, 0, rank);
    FinishEdges(env, st2, id, rank);
    assert Exec(env, st, id, rank) == Finish(env, st2, id, rank);
  }

  lemma {:induction false} ExecIncludesEdges(env: Env, st: State, id: string, i: nat, rank: map<string, nat>)
    requires Static(env, rank) && Wf(env, st.packs) && EdgesRecorded(env, st)
    requires id in env.shapes && i <= |env.shapes[id].includes|
    ensures EdgesRecorded(env, ExecIncludes(env, st, id, i, rank))
    decreases rank[id], 0, |env.shapes[id].includes| - i, 1
  {
    var incs := env.shapes[id].includes;
    if i < |incs| {
      var inc := incs[i];
      TurnEdges(env, st, id, i, rank);
      var st2 := Absorb(env, RunInclude(env, st, id, inc, rank), id, inc);
      ExecIncludesEdges(env, st2, id, i + 1, rank);
      ExecIncludesStep(env, st, id, i, rank);
    } else {
      ExecIncludesDone(env, st, id, rank);
    }
  }

  /** One turn of the include loop keeps this: the dependency lists hold the reverse edges of the calls. */
  lemma TurnEdges(env: Env, st: State, id: string, i: nat, rank: map<string, nat>)
    requires Static(env, rank) && Wf(env, st.packs) && EdgesRecorded(env, st)
    requires id in env.shapes && i < |env.shapes[id].includes|
    ensures var inc := env.shapes[id].includes[i];
      var r := Absorb(env, RunInclude(env, st, id, inc, rank), id, inc);
      EdgesRecorded(env, r)
    decreases rank[id], 0, |env.shapes[id].includes| - i, 0
  {
    var inc := env.shapes[id].includes[i];
    if !IsPacked(st, inc) {
      ExecEdges(env, st, inc, rank);
    }
    AbsorbKeeps(env, RunInclude(env, st, id, inc, rank), id, inc);
  }

  /** `packIt` keeps the manifest entries in step with the calls. */
  lemma {:induction false} ExecAssets(env: Env, st: State, id: string, rank: map<string, nat>)
    requires Static(env, rank) && Wf(env, st.packs) && AssetsRecorded(env, st) && id in env.shapes
    ensures AssetsRecorded(env, Exec(env, st, id, rank))
    decreases rank[id], 1
  {
    var files := JoinAll(env.join, env.srcDir, st.packs[id].files);
    FilesKeep(env, st, id, files);
    var st1 := WithFiles(st, id, files);
    ExecIncludesAssets(env, st1, id, 0, rank);
    var st2 := ExecIncludes(env, st1, id, 0, rank);
    FinishAssets(env, st2, id, rank);
    assert Exec(env, st, id, rank) == Finish(env, st2, id, rank);
  }

  lemma {:induction false} ExecIncludesAssets(env: Env, st: State, id: string, i: nat, rank: map<string, nat>)
    requires Static(env, rank) && Wf(env, st.packs) && AssetsRecorded(env, st)
    requires id in env.shapes && i <= |env.shapes[id].includes|
    ensures AssetsRecorded(env, ExecIncludes(env, st, id, i, rank))
    decreases rank[id], 0, |env.shapes[id].includes| - i, 1
  {
    var incs := env.shapes[id].includes;
    if i < |incs| {
      var inc := incs[i];
      TurnAssets(env, st, id, i, rank);
      var st2 := Absorb(env, RunInclude(env, st, id, inc, rank), id, inc);
      ExecIncludesAssets(env, st2, id, i + 1, rank);
      ExecIncludesStep(env, st, id, i, rank);
    } else {
      ExecIncludesDone(env, st, id, rank);
    }
  }

  /** One turn of the include loop keeps this: the assets entries hold what the calls recorded. */
  lemma TurnAssets(env: Env, st: State, id: string, i: nat, rank: map<string, nat>)
    requires Static(env, rank) && Wf(env, st.packs) && AssetsRecorded(env, st)
    requires id in env.shapes && i < |env.shapes[id].includes|
    ensures var inc := env.shapes[id].includes[i];
      var r := Absorb(env, RunInclude(env, st, id, inc, rank), id, inc);
      AssetsRecorded(env, r)
    decreases rank[id], 0, |env.shapes[id].includes| - i, 0
  {
    var inc := env.shapes[id].includes[i];
    if !IsPacked(st, inc) {
      ExecAssets(env, st, inc, rank);
    }
    AbsorbKeeps(env, RunInclude(env, st, id, inc, rank), id, inc);
  }

  /** `packIt` keeps every include called before its includer. */
  lemma {:induction false} ExecOrder(env: Env, st: State, id: string, rank: map<string, nat>)
    requires Static(env, rank) && Wf(env, st.packs) && PackedIsCalled(env, st) && IncludesFirst(env, st.calls) && id in env.shapes
    ensures IncludesFirst(env, Exec(env, st, id, rank).calls)
    decreases rank[id], 1
  {
    var files := JoinAll(env.join, env.srcDir, st.packs[id].files);
    FilesKeep(env, st, id, files);
    var st1 := WithFiles(st, id, files);
    ExecIncludesOrder(env, st1, id, 0, rank);
    var st2 := ExecIncludes(env, st1, id, 0, rank);
    ExecIncludesPacked(env, st1, id, 0, rank);
    FinishOrder(env, st2.calls, id);
    assert Exec(env, st, id, rank) == Finish(env, st2, id, rank);
  }

  lemma {:induction false} ExecIncludesOrder(env: Env, st: State, id: string, i: nat, rank: map<string, nat>)
    requires Static(env, rank) && Wf(env, st.packs) && PackedIsCalled(env, st) && IncludesFirst(env, st.calls)
    requires id in env.shapes && i <= |env.shapes[id].includes|
    ensures IncludesFirst(env, ExecIncludes(env, st, id, i, rank).calls)
    decreases rank[id], 0, |env.shapes[id].includes| - i, 1
  {
    var incs := env.shapes[id].includes;
    if i < |incs| {
      var inc := incs[i];
      TurnOrder(env, st, id, i, rank);
      var st2 := Absorb(env, RunInclude(env, st, id, inc, rank), id, inc);
      ExecIncludesOrder(env, st2, id, i + 1, rank);
      ExecIncludesStep(env, st, id, i, rank);
    } else {
      ExecIncludesDone(env, st, id, rank);
    }
  }

  /** One turn of the include loop keeps this: each called pack's includes were called before it. */
  lemma TurnOrder(env: Env, st: State, id: string, i: nat, rank: map<string, nat>)
    requires Static(env, rank) && Wf(env, st.packs) && PackedIsCalled(env, st) && IncludesFirst(env, st.calls)
    requires id in env.shapes && i < |env.shapes[id].includes|
    ensures var inc := env.shapes[id].includes[i];
      var r := Absorb(env, RunInclude(env, st, id, inc, rank), id, inc);
      IncludesFirst(env, r.calls) && PackedIsCalled(env, r)
    decreases rank[id], 0, |env.shapes[id].includes| - i, 0
  {
    var inc := env.shapes[id].includes[i];
    if !IsPacked(st, inc) {
      ExecOrder(env, st, inc, rank);
      ExecPacked(env, st, inc, rank);
    }
    AbsorbKeeps(env, RunInclude(env, st, id, inc, rank), id, inc);
  }

  /** `packIt` keeps everything a run keeps. */
  lemma ExecInv(env: Env, st: State, id: string, rank: map<string, nat>)
    requires Static(env, rank) && Inv(env, st) && id in env.shapes
    ensures Inv(env, Exec(env, st, id, rank))
  {
    ExecPacked(env, st, id, rank);
    ExecEdges(env, st, id, rank);
    ExecAssets(env, st, id, rank);
    ExecOrder(env, st, id, rank);
  }

  /** A pack not called before a run whose calls all rank below it is not
      called after it either. */
  lemma NotCalledBelow(a: State, b: State, id: string, bound: nat, rank: map<string, nat>)
    requires Frame(a, b, bound, rank) && id in rank && bound <= rank[id] && id !in a.calls
    ensures id !in b.calls
  {
    forall j | 0 <= j < |b.calls| ensures b.calls[j] != id {
      if j < |a.calls| {
        assert b.calls[j] == a.calls[j];
      }
    }
  }

  /** `packIt` on a pack not yet packed calls no packer twice: the includes
      it runs are unpacked ones, and none of them can reach the pack itself. */
  lemma {:induction false} ExecOnce(env: Env, st: State, id: string, rank: map<string, nat>)
    requires Static(env, rank) && Wf(env, st.packs) && PackedIsCalled(env, st) && NoDuplicates(st.calls)
    requires id in env.shapes && !IsPacked(st, id)
    ensures NoDuplicates(Exec(env, st, id, rank).calls)
    decreases rank[id], 1
  {
    var files := JoinAll(env.join, env.srcDir, st.packs[id].files);
    FilesKeep(env, st, id, files);
    var st1 := WithFiles(st, id, files);
    ExecIncludesOnce(env, st1, id, 0, rank);
    var st2 := ExecIncludes(env, st1, id, 0, rank);
    NotCalledBelow(st1, st2, id, rank[id], rank);
    NoDuplicatesSnoc(st2.calls, id);
    assert Exec(env, st, id, rank) == Finish(env, st2, id, rank);
  }

  lemma {:induction false} ExecIncludesOnce(env: Env, st: State, id: string, i: nat, rank: map<string, nat>)
    requires Static(env, rank) && Wf(env, st.packs) && PackedIsCalled(env, st) && NoDuplicates(st.calls)
    requires id in env.shapes && i <= |env.shapes[id].includes|
    ensures NoDuplicates(ExecIncludes(env, st, id, i, rank).calls)
    decreases rank[id], 0, |env.shapes[id].includes| - i, 1
  {
    var incs := env.shapes[id].includes;
    if i < |incs| {
      var inc := incs[i];
      TurnOnce(env, st, id, i, rank);
      var st2 := Absorb(env, RunInclude(env, st, id, inc, rank), id, inc);
      ExecIncludesOnce(env, st2, id, i + 1, rank);
      ExecIncludesStep(env, st, id, i, rank);
    } else {
      ExecIncludesDone(env, st, id, rank);
    }
  }

  /** One turn of the include loop keeps this: no packer has been called twice. */
  lemma TurnOnce(env: Env, st: State, id: string, i: nat, rank: map<string, nat>)
    requires Static(env, rank) && Wf(env, st.packs) && PackedIsCalled(env, st) && NoDuplicates(st.calls)
    requires id in env.shapes && i < |env.shapes[id].includes|
    ensures var inc := env.shapes[id].includes[i];
      var r := Absorb(env, RunInclude(env, st, id, inc, rank), id, inc);
      NoDuplicates(r.calls) && PackedIsCalled(env, r)
    decreases rank[id], 0, |env.shapes[id].includes| - i, 0
  {
    var inc := env.shapes[id].includes[i];
    if !IsPacked(st, inc) {
      ExecOnce(env, st, inc, rank);
      ExecPacked(env, st, inc, rank);
    }
    AbsorbKeeps(env, RunInclude(env, st, id, inc, rank), id, inc);
  }
}
