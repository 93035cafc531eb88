/** The pack executor (packIt, index.js:173-227, and the loop that drives it
    at index.js:307-319): packs are run depth first, includes before their
    includer, each run rewriting its own files, calling its packer and
    recording the reverse dependency edges. */
module Executor {
  import opened Dicts
  import opened Seqs
  import opened Packers
  import Planner

  /** The three states of a pack's `virtual` field: never assigned, `true`
      and `false`. */
  datatype Flag = Unset | Virtual | Retained

  /** The fields of a pack that a run never writes: its packer type and the
      packs it includes. */
  datatype Shape = Shape(packerType: string, includes: seq<string>)

  /** The fields of a pack that a run writes: its files, the packs that
      depend on it, whether it has been packed, its outputs and the pruner's
      flag. The absolute paths of the outputs are not stored: they are
      always the outputs joined onto the destination directory
      (AbsoluteFiles). */
  datatype Pack = Pack(files: Dict<string>, dependencies: seq<string>, packed: bool,
                       outputFiles: Dict<string>, virtual: Flag)

  /** The manifest entry of a pack (`assets.packs[id]`). Its dependency list
      is the pack's own array, so it is read from the pack and not kept
      twice. */
  datatype Asset = Asset(packerType: string, includes: seq<string>, files: Dict<string>)

  /** The shared state of a run: the packs by id, the manifest entries by
      id, and the ids whose packer has been called, in call order. */
  datatype State = State(packs: map<string, Pack>, assets: map<string, Asset>, calls: seq<string>)

  /** What a run reads and never writes: the source and destination
      directories (already resolved), `path.join`, the packer registry and
      the shapes of the packs. */
  datatype Env = Env(srcDir: string, destDir: string, join: (string, string) -> string, packers: Registry,
                     shapes: map<string, Shape>)

  /** The pack a manifest entry loads as: its planned files and
      dependencies, not yet packed, no outputs, no flag. */
  function Loaded(p: Planner.PlanPack): Pack
  {
    Pack(p.files, p.dependencies, false, Empty(), Unset)
  }

  /** `path.join(dir, v)` applied to every value, keys and order kept. */
  function JoinAll(join: (string, string) -> string, dir: string, d: Dict<string>): (r: Dict<string>)
    ensures r.keys == d.keys
    ensures forall k :: k in r.m <==> k in d.m
    ensures forall k :: k in d.m ==> r.m[k] == join(dir, d.m[k])
  {
    RawDict(d.keys, map k | k in d.m :: join(dir, d.m[k]))
  }

  /** Every pack's packer is registered, every include exists and has a
      lower rank than its includer: the includes graph has no cycle. */
  ghost predicate Static(env: Env, rank: map<string, nat>)
  {
    && (forall k :: k in env.shapes ==> k in rank && env.shapes[k].packerType in env.packers)
    && (forall k, j :: k in env.shapes && 0 <= j < |env.shapes[k].includes| ==>
          env.shapes[k].includes[j] in env.shapes && rank[env.shapes[k].includes[j]] < rank[k])
  }

  /** Every pack with a shape has its state. */
  ghost predicate Wf(env: Env, packs: map<string, Pack>)
  {
    forall k :: k in env.shapes ==> k in packs
  }

  /** `pack.absoluteFiles` (index.js:207-210): each output joined onto the
      destination directory. */
  function AbsoluteFiles(env: Env, p: Pack): (r: Dict<string>)
    ensures r.keys == p.outputFiles.keys
    ensures forall k :: k in p.outputFiles.m ==> k in r.m && r.m[k] == env.join(env.destDir, p.outputFiles.m[k])
  {
    JoinAll(env.join, env.destDir, p.outputFiles)
  }

  /** The pack `k` has been packed. */
  predicate IsPacked(st: State, k: string)
  {
    k in st.packs && st.packs[k].packed
  }

  /** What a run guarantees about the state it leaves: flags of `packed`
      stay set, and the calls only grow, every new call having a rank below
      `bound`. */
  ghost predicate Frame(a: State, b: State, bound: nat, rank: map<string, nat>)
  {
    && (forall k :: IsPacked(a, k) ==> IsPacked(b, k))
    && a.calls <= b.calls
    && (forall j :: |a.calls| <= j < |b.calls| ==> b.calls[j] in rank && rank[b.calls[j]] < bound)
  }

  lemma FrameTrans(a: State, b: State, c: State, b1: nat, b2: nat, rank: map<string, nat>)
    requires b1 <= b2 && Frame(a, b, b1, rank) && Frame(b, c, b2, rank)
    ensures Frame(a, c, b2, rank)
  {
    forall j | |a.calls| <= j < |c.calls| ensures c.calls[j] in rank && rank[c.calls[j]] < b2 {
      if j < |b.calls| {
        assert c.calls[j] == b.calls[j];
      }
    }
  }

  /** `pack.files[outputFiles[k]] = absoluteFiles[k]` for the outputs of
      one include from the `i`-th on, in the include's output order
      (index.js:194-198); `abs` is the include's AbsoluteFiles. */
  function AbsorbFrom(files: Dict<string>, out: Dict<string>, abs: Dict<string>, i: nat): Dict<string>
    requires abs.keys == out.keys && i <= |out.keys|
    decreases |out.keys| - i
  {
    if i == |out.keys| then files
    else
      var k := out.keys[i];
      AbsorbFrom(Put(files, out.m[k], abs.m[k]), out, abs, i + 1)
  }

  /** `b` is `a` with at most the dependency lists changed. */
  ghost predicate DepsOnly(a: map<string, Pack>, b: map<string, Pack>)
  {
    && (forall k :: k in b ==> k in a)
    && (forall k :: k in a ==>
          && k in b && b[k].files == a[k].files && b[k].packed == a[k].packed && b[k].virtual == a[k].virtual
          && b[k].outputFiles == a[k].outputFiles)
  }

  /** `assets.packs[refId].dependencies.push(from)` for each include from the
      `i`-th on (index.js:221-226). */
  function PushFrom(packs: map<string, Pack>, from: string, incs: seq<string>, i: nat): (r: map<string, Pack>)
    requires i <= |incs| && forall j :: 0 <= j < |incs| ==> incs[j] in packs
    ensures DepsOnly(packs, r)
    decreases |incs| - i
  {
    if i == |incs| then packs
    else
      var q := packs[incs[i]];
      var next := packs[incs[i] := q.(dependencies := q.dependencies + [from])];
      assert DepsOnly(packs, next);
      PushFrom(next, from, incs, i + 1)
  }

  /** The end of `packIt` (index.js:203-225): the packer called on the
      pack's current files, the pack marked packed with its outputs and
      their absolute paths, its manifest entry written, and the reverse
      edges pushed. */
  function Finish(env: Env, st: State, id: string, rank: map<string, nat>): (r: State)
    requires Static(env, rank) && Wf(env, st.packs) && id in env.shapes
    ensures Wf(env, r.packs) && Frame(st, r, rank[id] + 1, rank) && IsPacked(r, id)
  {
    var s, p' := env.shapes[id], Finished(env, st, id);
    var r := State(PushFrom(st.packs[id := p'], id, s.includes, 0),
                   st.assets[id := Asset(s.packerType, s.includes, p'.outputFiles)], st.calls + [id]);
    DepsOnlyPacked(st, id, p', r);
    OneCall(st.calls, r.calls, id, rank);
    r
  }

  /** The pack `id` once its packer has run on its current files: packed,
      with the packer's outputs and their paths under the destination
      directory. */
  function Finished(env: Env, st: State, id: string): (p: Pack)
    requires id in env.shapes && id in st.packs && env.shapes[id].packerType in env.packers
    ensures p.packed
    ensures p.files == st.packs[id].files && p.dependencies == st.packs[id].dependencies
    ensures p.outputFiles == env.packers[env.shapes[id].packerType].pack(id, st.packs[id].files, env.destDir)
  {
    var p := st.packs[id];
    var out := env.packers[env.shapes[id].packerType].pack(id, p.files, env.destDir);
    p.(outputFiles := out, packed := true)
  }

  /** One more call, to `id`, grows the calls within `id`'s rank. */
  lemma OneCall(a: seq<string>, b: seq<string>, id: string, rank: map<string, nat>)
    requires id in rank && b == a + [id]
    ensures a <= b
    ensures forall j :: |a| <= j < |b| ==> b[j] in rank && rank[b[j]] < rank[id] + 1
  {
  }

  lemma DepsOnlyPacked(st: State, id: string, p: Pack, r: State)
    requires p.packed && DepsOnly(st.packs[id := p], r.packs)
    ensures forall k :: IsPacked(st, k) ==> IsPacked(r, k)
    ensures IsPacked(r, id)
  {
    forall k | IsPacked(st, k) ensures IsPacked(r, k) {
      if k != id {
        assert st.packs[id := p][k] == st.packs[k];
      }
    }
  }

  /** The state with only the files of `id` replaced. */
  function WithFiles(st: State, id: string, files: Dict<string>): State
    requires id in st.packs
  {
    st.(packs := st.packs[id := st.packs[id].(files := files)])
  }

  /** Replacing the files of one pack keeps everything a run guarantees. */
  lemma FilesOnly(env: Env, st: State, id: string, files: Dict<string>, rank: map<string, nat>)
    requires Wf(env, st.packs) && id in st.packs
    ensures Wf(env, WithFiles(st, id, files).packs) && Frame(st, WithFiles(st, id, files), 0, rank)
  {
  }

  /** `packIt(packs, id, ...)` (index.js:173-227) on the state `st`: the
      pack's files made absolute against the source directory, its includes
      handled in order, then Finish. */
  function Exec(env: Env, st: State, id: string, rank: map<string, nat>): (r: State)
    requires Static(env, rank) && Wf(env, st.packs) && id in env.shapes
    ensures Wf(env, r.packs) && Frame(st, r, rank[id] + 1, rank) && IsPacked(r, id)
    decreases rank[id], 1
  {
    var files := JoinAll(env.join, env.srcDir, st.packs[id].files);
    var st1 := WithFiles(st, id, files);
    FilesOnly(env, st, id, files, rank);
    var st2 := ExecIncludes(env, st1, id, 0, rank);
    FrameTrans(st, st1, st2, 0, rank[id], rank);
    var r := Finish(env, st2, id, rank);
    FrameTrans(st, st2, r, rank[id], rank[id] + 1, rank);
    r
  }

  /** The include loop of `packIt` (index.js:184-200) from the `i`-th
      include on: an include not yet packed is run first, then its outputs
      are added to the includer's files under their output names. */
  function ExecIncludes(env: Env, st: State, id: string, i: nat, rank: map<string, nat>): (r: State)
    requires Static(env, rank) && Wf(env, st.packs) && id in env.shapes && i <= |env.shapes[id].includes|
    ensures Wf(env, r.packs) && Frame(st, r, rank[id], rank)
    ensures forall j :: i <= j < |env.shapes[id].includes| ==> IsPacked(r, env.shapes[id].includes[j])
    decreases rank[id], 0, |env.shapes[id].includes| - i
  {
    var incs := env.shapes[id].includes;
    if i == |incs| then st
    else
      var inc := incs[i];
      var st1 := RunInclude(env, st, id, inc, rank);
      var st2 := Absorb(env, st1, id, inc);
      var r := ExecIncludes(env, st2, id, i + 1, rank);
      IncludeStep(env, st, st1, st2, r, id, i, rank[inc] + 1, rank);
      r
  }

  /** `if (!include.packed) packIt(...)` (index.js:189-191). */
  function RunInclude(env: Env, st: State, id: string, inc: string, rank: map<string, nat>): (r: State)
    requires Static(env, rank) && Wf(env, st.packs) && id in env.shapes && inc in env.shapes
    requires rank[inc] < rank[id]
    ensures Wf(env, r.packs) && Frame(st, r, rank[inc] + 1, rank) && IsPacked(r, inc)
    decreases rank[id], 0, 0
  {
    if IsPacked(st, inc) then st else Exec(env, st, inc, rank)
  }

  /** The outputs of the packed include `inc` added to the files of `id`
      (index.js:194-198). */
  function Absorb(env: Env, st: State, id: string, inc: string): (r: State)
    requires Wf(env, st.packs) && id in env.shapes && inc in env.shapes
    ensures Wf(env, r.packs) && Frame(st, r, 0, map[])
  {
    var q := st.packs[inc];
    var files := AbsorbFrom(st.packs[id].files, q.outputFiles, AbsoluteFiles(env, q), 0);
    FilesOnly(env, st, id, files, map[]);
    WithFiles(st, id, files)
  }

  /** How one turn of the include loop composes with the rest of it. */
  lemma IncludeStep(env: Env, st: State, st1: State, st2: State, r: State, id: string, i: nat,
                    bound: nat, rank: map<string, nat>)
    requires Static(env, rank) && id in env.shapes && i < |env.shapes[id].includes|
    requires Wf(env, st.packs) && Wf(env, st1.packs) && Wf(env, st2.packs) && Wf(env, r.packs)
    requires bound <= rank[id] && Frame(st, st1, bound, rank) && IsPacked(st1, env.shapes[id].includes[i])
    requires Frame(st1, st2, 0, map[]) && Frame(st2, r, rank[id], rank)
    requires forall j :: i + 1 <= j < |env.shapes[id].includes| ==> IsPacked(r, env.shapes[id].includes[j])
    ensures Frame(st, r, rank[id], rank)
    ensures forall j :: i <= j < |env.shapes[id].includes| ==> IsPacked(r, env.shapes[id].includes[j])
  {
    assert Frame(st1, st2, 0, rank);
    FrameTrans(st, st1, st2, bound, bound, rank);
    FrameTrans(st, st2, r, bound, rank[id], rank);
  }

  /** What a run keeps: flags of `packed` stay set and calls only grow. */
  ghost predicate Grows(a: State, b: State)
  {
    (forall k :: IsPacked(a, k) ==> IsPacked(b, k)) && a.calls <= b.calls
  }

  /** The loop of `Packr.prototype.pack` as written (index.js:317-319):
      `packIt` on every id in manifest order, packed or not. */
  function RunAll(env: Env, st: State, ids: seq<string>, rank: map<string, nat>): (r: State)
    requires Static(env, rank) && Wf(env, st.packs) && forall k :: k in ids ==> k in env.shapes
    ensures Wf(env, r.packs) && Grows(st, r)
    ensures forall k :: k in ids ==> IsPacked(r, k)
    decreases |ids|
  {
    if ids == [] then st
    else
      var n := |ids| - 1;
      var st1 := RunAll(env, st, ids[..n], rank);
      var r := Exec(env, st1, ids[n], rank);
      FrameGrows(st1, r, rank[ids[n]] + 1, rank);
      RunStep(st, st1, r, ids);
      r
  }

  /** The same loop with the test `packIt` applies to includes: a pack
      already packed through an includer is not run again. */
  function RunGuarded(env: Env, st: State, ids: seq<string>, rank: map<string, nat>): (r: State)
    requires Static(env, rank) && Wf(env, st.packs) && forall k :: k in ids ==> k in env.shapes
    ensures Wf(env, r.packs) && Grows(st, r)
    ensures forall k :: k in ids ==> IsPacked(r, k)
    decreases |ids|
  {
    if ids == [] then st
    else
      var n := |ids| - 1;
      var st1 := RunGuarded(env, st, ids[..n], rank);
      var r := RunUnlessPacked(env, st1, ids[n], rank);
      RunStep(st, st1, r, ids);
      r
  }

  /** `if (!pack.packed) packIt(...)`, as `packIt` guards its includes. */
  function RunUnlessPacked(env: Env, st: State, id: string, rank: map<string, nat>): (r: State)
    requires Static(env, rank) && Wf(env, st.packs) && id in env.shapes
    ensures Wf(env, r.packs) && Grows(st, r) && IsPacked(r, id)
  {
    if IsPacked(st, id) then st
    else
      var r := Exec(env, st, id, rank);
      FrameGrows(st, r, rank[id] + 1, rank);
      r
  }

  lemma FrameGrows(a: State, b: State, bound: nat, rank: map<string, nat>)
    requires Frame(a, b, bound, rank)
    ensures Grows(a, b)
  {
  }

  /** One more turn of a top-level loop composes with the turns before it. */
  lemma RunStep(st: State, st1: State, r: State, ids: seq<string>)
    requires ids != [] && Grows(st, st1) && Grows(st1, r) && IsPacked(r, ids[|ids| - 1])
    requires forall k :: k in ids[..|ids| - 1] ==> IsPacked(st1, k)
    ensures Grows(st, r) && forall k :: k in ids ==> IsPacked(r, k)
  {
    assert ids == ids[..|ids| - 1] + [ids[|ids| - 1]];
  }

  /** One turn of the include loop, unfolded. */
  lemma ExecIncludesStep(env: Env, st: State, id: string, i: nat, rank: map<string, nat>)
    requires Static(env, rank) && Wf(env, st.packs) && id in env.shapes && i < |env.shapes[id].includes|
    ensures var inc := env.shapes[id].includes[i];
      ExecIncludes(env, st, id, i, rank) == ExecIncludes(env, Absorb(env, RunInclude(env, st, id, inc, rank), id, inc), id, i + 1, rank)
  {
  }

  /** One more turn of the loop as written runs `packIt` on the next pack. */
  lemma RunAllStep(env: Env, st: State, ids: seq<string>, i: nat, rank: map<string, nat>)
    requires Static(env, rank) && Wf(env, st.packs) && (forall k :: k in ids ==> k in env.shapes) && i < |ids|
    ensures forall k :: k in ids[..i + 1] ==> k in env.shapes
    ensures RunAll(env, st, ids[..i + 1], rank) == Exec(env, RunAll(env, st, ids[..i], rank), ids[i], rank)
  {
    assert ids[..i + 1][..i] == ids[..i];
  }

  /** One more turn of the corrected loop runs `packIt` on the next pack
      unless it is packed. */
  lemma RunGuardedStep(env: Env, st: State, ids: seq<string>, i: nat, rank: map<string, nat>)
    requires Static(env, rank) && Wf(env, st.packs) && (forall k :: k in ids ==> k in env.shapes) && i < |ids|
    ensures forall k :: k in ids[..i + 1] ==> k in env.shapes
    ensures RunGuarded(env, st, ids[..i + 1], rank) == RunUnlessPacked(env, RunGuarded(env, st, ids[..i], rank), ids[i], rank)
  {
    assert ids[..i + 1][..i] == ids[..i];
  }

  /** The include loop ends where the includes do. */
  lemma ExecIncludesDone(env: Env, st: State, id: string, rank: map<string, nat>)
    requires Static(env, rank) && Wf(env, st.packs) && id in env.shapes
    ensures ExecIncludes(env, st, id, |env.shapes[id].includes|, rank) == st
  {
  }
}
