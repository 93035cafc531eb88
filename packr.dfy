/** `packIt` and the loop of `Packr.prototype.pack` that drives it
    (index.js:173-227, 317-319), step by step as the code runs them: the
    shared packs dictionary and manifest are threaded through each call, and
    every loop is proved to compute what Executor specifies. */
module Packr {
  import opened Dicts
  import opened Executor

  /** `for (var id in pack.files) pack.files[id] = path.join(srcDir, file)`
      (index.js:178-181): every value rewritten in place, in key order. */
  method MakeAbsolute(join: (string, string) -> string, dir: string, files: Dict<string>) returns (r: Dict<string>)
    ensures r == JoinAll(join, dir, files)
  {
    r := files;
    var i := 0;
    while i < |files.keys|
      invariant i <= |files.keys| && r.keys == files.keys
      invariant forall k :: k in r.m <==> k in files.m
      invariant forall j :: 0 <= j < i ==> r.m[files.keys[j]] == join(dir, files.m[files.keys[j]])
      invariant forall j :: i <= j < |files.keys| ==> r.m[files.keys[j]] == files.m[files.keys[j]]
    {
      var k := files.keys[i];
      r := Put(r, k, join(dir, r.m[k]));
      i := i + 1;
    }
    forall k | k in files.m ensures r.m[k] == join(dir, files.m[k]) {
      var j :| 0 <= j < |files.keys| && files.keys[j] == k;
    }
    assert r.m == JoinAll(join, dir, files).m;
  }

  /** `pack.files[file] = absoluteFile` for every output of one include, in
      the include's output order (index.js:194-198). */
  method AbsorbOutputs(files: Dict<string>, out: Dict<string>, abs: Dict<string>) returns (r: Dict<string>)
    requires abs.keys == out.keys
    ensures r == AbsorbFrom(files, out, abs, 0)
  {
    r := files;
    var i := 0;
    while i < |out.keys|
      invariant i <= |out.keys|
      invariant AbsorbFrom(r, out, abs, i) == AbsorbFrom(files, out, abs, 0)
    {
      var k := out.keys[i];
      r := Put(r, out.m[k], abs.m[k]);
      i := i + 1;
    }
  }

  /** `assets.packs[refId].dependencies.push(pack.id)` for every include, in
      order (index.js:221-226); the manifest entry's list is the pack's own. */
  method PushEdges(packs: map<string, Pack>, from: string, incs: seq<string>) returns (r: map<string, Pack>)
    requires forall j :: 0 <= j < |incs| ==> incs[j] in packs
    ensures r == PushFrom(packs, from, incs, 0)
  {
    r := packs;
    var i := 0;
    while i < |incs|
      invariant i <= |incs| && forall j :: 0 <= j < |incs| ==> incs[j] in r
      invariant PushFrom(r, from, incs, i) == PushFrom(packs, from, incs, 0)
    {
      var q := r[incs[i]];
      r := r[incs[i] := q.(dependencies := q.dependencies + [from])];
      i := i + 1;
    }
  }

  /** `packIt(packs, id, srcDir, destDir, assets, packers)`. */
  method PackIt(env: Env, st: State, id: string, rank: map<string, nat>) returns (r: State)
    requires Static(env, rank) && Wf(env, st.packs) && id in env.shapes
    ensures r == Exec(env, st, id, rank)
    decreases rank[id], 1
  {
    var files := MakeAbsolute(env.join, env.srcDir, st.packs[id].files);
    var cur := st.(packs := st.packs[id := st.packs[id].(files := files)]);
    FilesOnly(env, st, id, files, rank);
    cur := PackIncludes(env, cur, id, rank);
    r := Complete(env, cur, id, rank);
  }

  /** The include loop of `packIt` (index.js:184-200). */
  method PackIncludes(env: Env, st: State, id: string, rank: map<string, nat>) returns (r: State)
    requires Static(env, rank) && Wf(env, st.packs) && id in env.shapes
    ensures r == ExecIncludes(env, st, id, 0, rank)
    decreases rank[id], 0, 1
  {
    r := st;
    var incs := env.shapes[id].includes;
    var i := 0;
    while i < |incs|
      invariant i <= |incs| && Wf(env, r.packs)
      invariant ExecIncludes(env, r, id, i, rank) == ExecIncludes(env, st, id, 0, rank)
    {
      ExecIncludesStep(env, r, id, i, rank);
      r := IncludeTurn(env, r, id, incs[i], rank);
      i := i + 1;
    }
    ExecIncludesDone(env, r, id, rank);
  }

  /** One turn of the include loop of `packIt` (index.js:186-199): the
      include packed first unless it already is, then its outputs added to
      the includer's files. */
  method IncludeTurn(env: Env, st: State, id: string, inc: string, rank: map<string, nat>) returns (r: State)
    requires Static(env, rank) && Wf(env, st.packs) && id in env.shapes && inc in env.shapes
    requires rank[inc] < rank[id]
    ensures r == Absorb(env, RunInclude(env, st, id, inc, rank), id, inc)
    decreases rank[id], 0, 0
  {
    r := st;
    if !IsPacked(r, inc) {
      r := PackIt(env, r, inc, rank);
    }
    var q := r.packs[inc];
    var absorbed := AbsorbOutputs(r.packs[id].files, q.outputFiles, AbsoluteFiles(env, q));
    r := r.(packs := r.packs[id := r.packs[id].(files := absorbed)]);
  }

  /** The end of `packIt` (index.js:203-225): the packer called, the pack
      marked packed with its outputs, its manifest entry written and the
      reverse edges pushed. */
  method Complete(env: Env, st: State, id: string, rank: map<string, nat>) returns (r: State)
    requires Static(env, rank) && Wf(env, st.packs) && id in env.shapes
    ensures r == Finish(env, st, id, rank)
  {
    var incs := env.shapes[id].includes;
    var p := st.packs[id];
    var out := env.packers[env.shapes[id].packerType].pack(id, p.files, env.destDir);
    p := p.(outputFiles := out, packed := true);
    var assets := st.assets[id := Asset(env.shapes[id].packerType, incs, out)];
    var packs := PushEdges(st.packs[id := p], id, incs);
    r := State(packs, assets, st.calls + [id]);
  }

  /** The loop of `Packr.prototype.pack` as written (index.js:317-319). */
  method PackAll(env: Env, st: State, ids: seq<string>, rank: map<string, nat>) returns (r: State)
    requires Static(env, rank) && Wf(env, st.packs) && forall k :: k in ids ==> k in env.shapes
    ensures r == RunAll(env, st, ids, rank)
  {
    r := st;
    var i := 0;
    while i < |ids|
      invariant i <= |ids| && forall k :: k in ids[..i] ==> k in env.shapes
      invariant r == RunAll(env, st, ids[..i], rank)
    {
      RunAllStep(env, st, ids, i, rank);
      r := PackIt(env, r, ids[i], rank);
      i := i + 1;
    }
    assert ids[..i] == ids;
  }

  /** The same loop skipping packs already packed through an includer. */
  method PackAllGuarded(env: Env, st: State, ids: seq<string>, rank: map<string, nat>) returns (r: State)
    requires Static(env, rank) && Wf(env, st.packs) && forall k :: k in ids ==> k in env.shapes
    ensures r == RunGuarded(env, st, ids, rank)
  {
    r := st;
    var i := 0;
    while i < |ids|
      invariant i <= |ids| && forall k :: k in ids[..i] ==> k in env.shapes
      invariant r == RunGuarded(env, st, ids[..i], rank)
    {
      RunGuardedStep(env, st, ids, i, rank);
      if !IsPacked(r, ids[i]) {
        r := PackIt(env, r, ids[i], rank);
      }
      i := i + 1;
    }
    assert ids[..i] == ids;
  }
}
