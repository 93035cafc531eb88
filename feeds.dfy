/** What reaches a packer (packIt, index.js:178-203): the files of the pack made
    absolute against the source directory, then the outputs of its includes
    added in include order, each output under its output file name with its
    path under the destination directory as value. */
module Feeds {
  import opened Dicts
  import opened Executor

  /** The output file names of an include from its `i`-th output on, in its
      output order: the keys its outputs take in the includer's files. */
  function OutputNames(out: Dict<string>, i: nat): (r: seq<string>)
    requires i <= |out.keys|
    ensures |r| == |out.keys| - i
    ensures forall j :: 0 <= j < |r| ==> r[j] == out.m[out.keys[i + j]]
    decreases |out.keys| - i
  {
    if i == |out.keys| then [] else [out.m[out.keys[i]]] + OutputNames(out, i + 1)
  }

  /** No output after the `j`-th has the same output file name. */
  predicate LastOfName(out: Dict<string>, j: nat)
    requires j < |out.keys|
  {
    forall j' :: j < j' < |out.keys| ==> out.m[out.keys[j']] != out.m[out.keys[j]]
  }

  /** The content of the includer's files once the outputs of one include
      from the `i`-th on are added: a name is present exactly when it was
      before or names one of those outputs; a name held by several outputs
      takes the path of the last of them; any other name keeps its value. */
  lemma {:induction false} AbsorbMap(files: Dict<string>, out: Dict<string>, abs: Dict<string>, i: nat)
    requires abs.keys == out.keys && i <= |out.keys|
    ensures var r := AbsorbFrom(files, out, abs, i);
      && (forall x :: x in r.m <==> x in files.m || x in OutputNames(out, i))
      && (forall j :: i <= j < |out.keys| && LastOfName(out, j) ==>
            out.m[out.keys[j]] in r.m && r.m[out.m[out.keys[j]]] == abs.m[out.keys[j]])
      && (forall x :: x in files.m && x !in OutputNames(out, i) ==> r.m[x] == files.m[x])
    decreases |out.keys| - i
  {
    if i < |out.keys| {
      var k := out.keys[i];
      var name := out.m[k];
      var f1 := Put(files, name, abs.m[k]);
      AbsorbMap(f1, out, abs, i + 1);
      var r := AbsorbFrom(files, out, abs, i);
      assert r == AbsorbFrom(f1, out, abs, i + 1);
      assert OutputNames(out, i) == [name] + OutputNames(out, i + 1);
      if LastOfName(out, i) {
        assert name !in OutputNames(out, i + 1);
      }
    }
  }

  /** The enumeration order of the includer's files once the outputs of one
      include from the `i`-th on are added: the keys it had, then each new
      output name once, where it first occurs. */
  lemma {:induction false} AbsorbOrder(files: Dict<string>, out: Dict<string>, abs: Dict<string>, i: nat)
    requires abs.keys == out.keys && i <= |out.keys|
    ensures AbsorbFrom(files, out, abs, i).keys == files.keys + Without(OutputNames(out, i), files.m.Keys)
    decreases |out.keys| - i
  {
    if i < |out.keys| {
      var k := out.keys[i];
      var name := out.m[k];
      var f1 := Put(files, name, abs.m[k]);
      AbsorbOrder(f1, out, abs, i + 1);
      assert AbsorbFrom(files, out, abs, i) == AbsorbFrom(f1, out, abs, i + 1);
      assert OutputNames(out, i) == [name] + OutputNames(out, i + 1);
      PutOrder(files, name, abs.m[k], OutputNames(out, i + 1));
    }
  }

  /** Absorbing the outputs of `inc` into `id` (index.js:193-198) changes
      nothing but the files of `id`: a name is there exactly when it was
      before or names an output of `inc`; an output name takes the output's
      path under the destination directory, the last output of that name
      winning; other names keep their values; new names go last, in the
      order they first occur. */
  lemma AbsorbFiles(env: Env, st: State, id: string, inc: string)
    requires Wf(env, st.packs) && id in env.shapes && inc in env.shapes
    ensures var out, f := st.packs[inc].outputFiles, st.packs[id].files;
      var r := Absorb(env, st, id, inc);
      var g := r.packs[id].files;
      && r.packs == st.packs[id := st.packs[id].(files := g)] && r.assets == st.assets && r.calls == st.calls
      && (forall x :: x in g.m <==> x in f.m || x in OutputNames(out, 0))
      && (forall j :: 0 <= j < |out.keys| && LastOfName(out, j) ==>
            out.m[out.keys[j]] in g.m && g.m[out.m[out.keys[j]]] == env.join(env.destDir, out.m[out.keys[j]]))
      && (forall x :: x in f.m && x !in OutputNames(out, 0) ==> g.m[x] == f.m[x])
      && g.keys == f.keys + Without(OutputNames(out, 0), f.m.Keys)
  {
    var q := st.packs[inc];
    var abs := AbsoluteFiles(env, q);
    AbsorbMap(st.packs[id].files, q.outputFiles, abs, 0);
    AbsorbOrder(st.packs[id].files, q.outputFiles, abs, 0);
    forall j | 0 <= j < |q.outputFiles.keys| ensures abs.m[q.outputFiles.keys[j]] == env.join(env.destDir, q.outputFiles.m[q.outputFiles.keys[j]]) {
      assert q.outputFiles.keys[j] in q.outputFiles.m;
    }
  }

  /** The files of an includer once the outputs of its includes from the
      `i`-th on are added in include order, each include's outputs read from
      `packs`. */
  function Absorbed(env: Env, packs: map<string, Pack>, files: Dict<string>, incs: seq<string>, i: nat): Dict<string>
    requires i <= |incs| && forall j :: 0 <= j < |incs| ==> incs[j] in packs
    decreases |incs| - i
  {
    if i == |incs| then files
    else
      var q := packs[incs[i]];
      Absorbed(env, packs, AbsorbFrom(files, q.outputFiles, AbsoluteFiles(env, q), 0), incs, i + 1)
  }

  /** Some include from the `i`-th on has an output named `x`. */
  ghost predicate OutputOfSome(packs: map<string, Pack>, incs: seq<string>, i: nat, x: string)
    requires forall j :: 0 <= j < |incs| ==> incs[j] in packs
  {
    exists j :: i <= j < |incs| && x in OutputNames(packs[incs[j]].outputFiles, 0)
  }

  lemma OutputOfSomeStep(packs: map<string, Pack>, incs: seq<string>, i: nat, x: string)
    requires i < |incs| && forall j :: 0 <= j < |incs| ==> incs[j] in packs
    ensures OutputOfSome(packs, incs, i, x) <==>
      x in OutputNames(packs[incs[i]].outputFiles, 0) || OutputOfSome(packs, incs, i + 1, x)
  {
    if OutputOfSome(packs, incs, i, x) {
      var j :| i <= j < |incs| && x in OutputNames(packs[incs[j]].outputFiles, 0);
      if j > i {
        assert OutputOfSome(packs, incs, i + 1, x);
      }
    }
  }

  /** What the includes add, over all of them: a name is there exactly when
      it was or names an output of one of the includes; a name no include
      outputs keeps its value; the files that were there keep their order
      at the head. */
  lemma {:induction false} AbsorbedMembers(env: Env, packs: map<string, Pack>, files: Dict<string>,
                                           incs: seq<string>, i: nat)
    requires i <= |incs| && forall j :: 0 <= j < |incs| ==> incs[j] in packs
    ensures var r := Absorbed(env, packs, files, incs, i);
      && (forall x :: x in r.m <==> x in files.m || OutputOfSome(packs, incs, i, x))
      && (forall x :: x in files.m && !OutputOfSome(packs, incs, i, x) ==> r.m[x] == files.m[x])
      && files.keys <= r.keys
    decreases |incs| - i
  {
    if i < |incs| {
      var q := packs[incs[i]];
      var abs := AbsoluteFiles(env, q);
      var f1 := AbsorbFrom(files, q.outputFiles, abs, 0);
      AbsorbMap(files, q.outputFiles, abs, 0);
      AbsorbOrder(files, q.outputFiles, abs, 0);
      AbsorbedMembers(env, packs, f1, incs, i + 1);
      assert Absorbed(env, packs, files, incs, i) == Absorbed(env, packs, f1, incs, i + 1);
      forall x {
        OutputOfSomeStep(packs, incs, i, x);
      }
    }
  }

  /** Only the outputs of the includes matter to what they add. */
  lemma {:induction false} AbsorbedSameOutputs(env: Env, a: map<string, Pack>, b: map<string, Pack>,
                                               files: Dict<string>, incs: seq<string>, i: nat)
    requires i <= |incs|
    requires forall j :: 0 <= j < |incs| ==> incs[j] in a && incs[j] in b && a[incs[j]].outputFiles == b[incs[j]].outputFiles
    ensures Absorbed(env, a, files, incs, i) == Absorbed(env, b, files, incs, i)
    decreases |incs| - i
  {
    if i < |incs| {
      var q := a[incs[i]];
      assert AbsoluteFiles(env, q) == AbsoluteFiles(env, b[incs[i]]);
      AbsorbedSameOutputs(env, a, b, AbsorbFrom(files, q.outputFiles, AbsoluteFiles(env, q), 0), incs, i + 1);
    }
  }

  /** What a run leaves alone: a packed pack stays packed with the same
      outputs, and a pack ranked at `bound` or above keeps its files and its
      `packed` flag. */
  ghost predicate Settled(a: State, b: State, bound: nat, rank: map<string, nat>)
  {
    && (forall k :: IsPacked(a, k) ==> IsPacked(b, k) && b.packs[k].outputFiles == a.packs[k].outputFiles)
    && (forall k :: k in a.packs && k in rank && rank[k] >= bound ==>
          k in b.packs && b.packs[k].files == a.packs[k].files && b.packs[k].packed == a.packs[k].packed)
  }

  lemma SettledTrans(a: State, b: State, c: State, b1: nat, b2: nat, rank: map<string, nat>)
    requires b1 <= b2 && Settled(a, b, b1, rank) && Settled(b, c, b2, rank)
    ensures Settled(a, c, b2, rank)
  {
  }

  /** The end of `packIt` leaves every other pack's files, flag and outputs. */
  lemma FinishSettles(env: Env, st: State, id: string, rank: map<string, nat>)
    requires Static(env, rank) && Wf(env, st.packs) && id in env.shapes && !IsPacked(st, id)
    ensures Settled(st, Finish(env, st, id, rank), rank[id] + 1, rank)
  {
    var s, p' := env.shapes[id], Finished(env, st, id);
    var packs := PushFrom(st.packs[id := p'], id, s.includes, 0);
    assert Finish(env, st, id, rank).packs == packs;
    forall k | k in st.packs && k != id ensures k in packs && packs[k] == st.packs[k].(dependencies := packs[k].dependencies) {
      assert st.packs[id := p'][k] == st.packs[k];
    }
  }

  /** `packIt` on a pack not yet packed settles everything ranked above it. */
  lemma {:induction false} ExecSettles(env: Env, st: State, id: string, rank: map<string, nat>)
    requires Static(env, rank) && Wf(env, st.packs) && id in env.shapes && !IsPacked(st, id)
    ensures Settled(st, Exec(env, st, id, rank), rank[id] + 1, rank)
    decreases rank[id], 1
  {
    var files := JoinAll(env.join, env.srcDir, st.packs[id].files);
    var st1 := WithFiles(st, id, files);
    FilesSettle(st, id, files, rank);
    ExecIncludesSettles(env, st1, id, 0, rank);
    var st2 := ExecIncludes(env, st1, id, 0, rank);
    SettledTrans(st, st1, st2, rank[id] + 1, rank[id] + 1, rank);
    FinishSettles(env, st2, id, rank);
    var r := Finish(env, st2, id, rank);
    SettledTrans(st, st2, r, rank[id] + 1, rank[id] + 1, rank);
    assert Exec(env, st, id, rank) == r;
  }

  /** Replacing the files of `id` settles everything ranked above it. */
  lemma FilesSettle(st: State, id: string, files: Dict<string>, rank: map<string, nat>)
    requires id in st.packs && id in rank
    ensures Settled(st, WithFiles(st, id, files), rank[id] + 1, rank)
    ensures WithFiles(st, id, files).packs[id].packed == st.packs[id].packed
  {
  }

  /** The include loop settles everything ranked above the includer and
      leaves the includer's own flag. */
  lemma {:induction false} ExecIncludesSettles(env: Env, st: State, id: string, i: nat, rank: map<string, nat>)
    requires Static(env, rank) && Wf(env, st.packs) && id in env.shapes && i <= |env.shapes[id].includes|
    ensures var r := ExecIncludes(env, st, id, i, rank);
      Settled(st, r, rank[id] + 1, rank) && r.packs[id].packed == st.packs[id].packed
    decreases rank[id], 0, |env.shapes[id].includes| - i, 1
  {
    var incs := env.shapes[id].includes;
    if i < |incs| {
      var inc := incs[i];
      TurnSettles(env, st, id, i, rank);
      var st2 := Absorb(env, RunInclude(env, st, id, inc, rank), id, inc);
      ExecIncludesSettles(env, st2, id, i + 1, rank);
      SettledTrans(st, st2, ExecIncludes(env, st2, id, i + 1, rank), rank[id] + 1, rank[id] + 1, rank);
      ExecIncludesStep(env, st, id, i, rank);
    } else {
      ExecIncludesDone(env, st, id, rank);
    }
  }

  /** One turn of the include loop: running the include settles everything
      ranked above it, the includer included, and adding its outputs
      touches only the includer's files. */
  lemma TurnSettles(env: Env, st: State, id: string, i: nat, rank: map<string, nat>)
    requires Static(env, rank) && Wf(env, st.packs) && id in env.shapes && i < |env.shapes[id].includes|
    ensures var inc := env.shapes[id].includes[i];
      var st1 := RunInclude(env, st, id, inc, rank);
      var st2 := Absorb(env, st1, id, inc);
      && Settled(st, st1, rank[inc] + 1, rank)
      && Settled(st, st2, rank[id] + 1, rank) && st2.packs[id].packed == st.packs[id].packed
    decreases rank[id], 0, |env.shapes[id].includes| - i, 0
  {
    var inc := env.shapes[id].includes[i];
    if !IsPacked(st, inc) {
      ExecSettles(env, st, inc, rank);
    }
    var st1 := RunInclude(env, st, id, inc, rank);
    AbsorbFiles(env, st1, id, inc);
    var st2 := Absorb(env, st1, id, inc);
    FilesSettle(st1, id, st2.packs[id].files, rank);
    assert st2.packs == WithFiles(st1, id, st2.packs[id].files).packs;
    SettledTrans(st, st1, st2, rank[inc] + 1, rank[id] + 1, rank);
  }

  /** The include loop from the `i`-th include on leaves the includer with
      its files as they were, plus the outputs of those includes in include
      order, each include's outputs as the run leaves them. */
  lemma {:induction false} ExecIncludesFeeds(env: Env, st: State, id: string, i: nat, rank: map<string, nat>)
    requires Static(env, rank) && Wf(env, st.packs) && id in env.shapes && i <= |env.shapes[id].includes|
    ensures var r := ExecIncludes(env, st, id, i, rank);
      r.packs[id].files == Absorbed(env, r.packs, st.packs[id].files, env.shapes[id].includes, i)
    decreases |env.shapes[id].includes| - i
  {
    var incs := env.shapes[id].includes;
    if i < |incs| {
      var inc := incs[i];
      TurnSettles(env, st, id, i, rank);
      var st1 := RunInclude(env, st, id, inc, rank);
      var st2 := Absorb(env, st1, id, inc);
      ExecIncludesFeeds(env, st2, id, i + 1, rank);
      ExecIncludesSettles(env, st2, id, i + 1, rank);
      ExecIncludesStep(env, st, id, i, rank);
      var r := ExecIncludes(env, st2, id, i + 1, rank);
      assert r.packs[inc].outputFiles == st1.packs[inc].outputFiles;
      assert AbsoluteFiles(env, r.packs[inc]) == AbsoluteFiles(env, st1.packs[inc]);
      assert st1.packs[id].files == st.packs[id].files;
    } else {
      ExecIncludesDone(env, st, id, rank);
    }
  }

  /** `packIt(packs, id, ...)` calls the packer on the files of `id` joined
      onto the source directory, plus the outputs of its includes in include
      order; the pack keeps those files and the packer's outputs. */
  lemma ExecFeeds(env: Env, st: State, id: string, rank: map<string, nat>)
    requires Static(env, rank) && Wf(env, st.packs) && id in env.shapes
    ensures var r := Exec(env, st, id, rank);
      var p := r.packs[id];
      && p.files == Absorbed(env, r.packs, JoinAll(env.join, env.srcDir, st.packs[id].files), env.shapes[id].includes, 0)
      && p.outputFiles == env.packers[env.shapes[id].packerType].pack(id, p.files, env.destDir)
  {
    var files := JoinAll(env.join, env.srcDir, st.packs[id].files);
    var st1 := WithFiles(st, id, files);
    ExecIncludesFeeds(env, st1, id, 0, rank);
    var st2 := ExecIncludes(env, st1, id, 0, rank);
    assert Exec(env, st, id, rank) == Finish(env, st2, id, rank);
    FinishFeeds(env, st2, id, rank);
    AbsorbedSameOutputs(env, st2.packs, Finish(env, st2, id, rank).packs, files, env.shapes[id].includes, 0);
  }

  /** The end of `packIt` keeps its files, gives it the packer's
      outputs on them, and leaves the outputs of its includes. */
  lemma FinishFeeds(env: Env, st: State, id: string, rank: map<string, nat>)
    requires Static(env, rank) && Wf(env, st.packs) && id in env.shapes
    ensures var r := Finish(env, st, id, rank);
      && r.packs[id].files == st.packs[id].files
      && r.packs[id].outputFiles == env.packers[env.shapes[id].packerType].pack(id, st.packs[id].files, env.destDir)
      && forall j :: 0 <= j < |env.shapes[id].includes| ==>
           r.packs[env.shapes[id].includes[j]].outputFiles == st.packs[env.shapes[id].includes[j]].outputFiles
  {
    var s, p' := env.shapes[id], Finished(env, st, id);
    var packs := PushFrom(st.packs[id := p'], id, s.includes, 0);
    assert Finish(env, st, id, rank).packs == packs;
    forall j | 0 <= j < |s.includes| ensures packs[s.includes[j]].outputFiles == st.packs[s.includes[j]].outputFiles {
      assert st.packs[id := p'][s.includes[j]] == st.packs[s.includes[j]];
    }
  }
}
