/** The pruner (`cleanUseless`, index.js:229-268): a mark phase that sets
    the `virtual` flag of packs from the includes of packers with
    `virtualChildren` and from the dependency lists, then a delete phase
    that lists the output files of the packs marked `true`. */
module Pruner {
  import opened Dicts
  import opened Packers
  import opened Executor

  /** The packer of `q` declares `virtualChildren`. */
  predicate VirtualParent(env: Env, q: string)
  {
    q in env.shapes && env.shapes[q].packerType in env.packers && env.packers[env.shapes[q].packerType].virtualChildren
  }

  /** What `cleanUseless` dereferences without a check: every visited pack
      exists with a registered packer, and so do the packs its includes and
      its dependency list name. */
  ghost predicate Closed(env: Env, packs: map<string, Pack>, ids: seq<string>)
  {
    forall q :: q in ids ==>
      && q in packs && q in env.shapes && env.shapes[q].packerType in env.packers
      && (forall j :: 0 <= j < |env.shapes[q].includes| ==> env.shapes[q].includes[j] in packs)
      && (forall j :: 0 <= j < |packs[q].dependencies| ==> packs[q].dependencies[j] in packs)
  }

  /** Some visited pack lists `k` among its dependencies. */
  ghost predicate Depended(packs: map<string, Pack>, ids: seq<string>, k: string)
  {
    exists q :: q in ids && q in packs && k in packs[q].dependencies
  }

  /** Some visited pack whose packer has `virtualChildren` includes `k`. */
  ghost predicate VirtualChild(env: Env, ids: seq<string>, k: string)
  {
    exists q :: q in ids && VirtualParent(env, q) && k in env.shapes[q].includes
  }

  /** The flag the mark phase leaves on `k` after visiting `ids`, in any
      order: `false` when a visited pack lists `k` as a dependency;
      otherwise `true` when the flag was unset and a visited pack with a
      `virtualChildren` packer includes `k`; otherwise the flag as it was. */
  ghost function Marked(env: Env, packs: map<string, Pack>, ids: seq<string>, k: string): Flag
    requires k in packs
  {
    if Depended(packs, ids, k) then Retained
    else if packs[k].virtual == Unset && VirtualChild(env, ids, k) then Virtual
    else packs[k].virtual
  }

  /** `r` is `packs` with every flag as Marked says after visiting `done`. */
  ghost predicate Flagged(env: Env, packs: map<string, Pack>, r: map<string, Pack>, done: seq<string>)
  {
    r.Keys == packs.Keys && forall k :: k in packs ==> r[k] == packs[k].(virtual := Marked(env, packs, done, k))
  }

  /** The mark phase (index.js:231-255): for each pack in order, its
      includes get `true` where unset when its packer has
      `virtualChildren`, then every pack in its dependency list gets
      `false`. Only flags change, and each ends as Marked says, whatever
      the order of the packs. */
  method Mark(env: Env, packs: map<string, Pack>, ids: seq<string>) returns (r: map<string, Pack>)
    requires Closed(env, packs, ids)
    ensures r.Keys == packs.Keys
    ensures forall k :: k in packs ==> r[k] == packs[k].(virtual := Marked(env, packs, ids, k))
  {
    r := packs;
    var i := 0;
    while i < |ids|
      invariant i <= |ids| && Flagged(env, packs, r, ids[..i])
    {
      r := Visit(env, packs, ids, i, r);
      i := i + 1;
    }
    assert ids[..i] == ids;
  }

  /** One turn of the mark loop: the pack `ids[i]` marks its includes,
      then its dependencies. */
  method Visit(env: Env, packs: map<string, Pack>, ids: seq<string>, i: nat, cur: map<string, Pack>)
    returns (r: map<string, Pack>)
    requires Closed(env, packs, ids) && i < |ids| && Flagged(env, packs, cur, ids[..i])
    ensures Flagged(env, packs, r, ids[..i + 1])
  {
    var q := ids[i];
    r := cur;
    if VirtualParent(env, q) {
      r := MarkIncludes(r, env.shapes[q].includes);
    }
    ghost var middle := r;
    // Marking changes flags only, so this is also the list in `r`.
    r := MarkDependencies(r, packs[q].dependencies);
    MarkTurn(env, packs, ids, i, cur, middle, r);
  }

  /** The includes loop (index.js:236-244): an unset flag becomes `true`,
      a set one is left alone. */
  method MarkIncludes(packs: map<string, Pack>, incs: seq<string>) returns (r: map<string, Pack>)
    requires forall j :: 0 <= j < |incs| ==> incs[j] in packs
    ensures r.Keys == packs.Keys
    ensures forall k :: k in packs ==>
      r[k] == if k in incs && packs[k].virtual == Unset then packs[k].(virtual := Virtual) else packs[k]
  {
    r := packs;
    var j := 0;
    while j < |incs|
      invariant j <= |incs| && IncludesMarked(packs, r, incs[..j])
    {
      IncludeMarkStep(packs, r, incs, j);
      if r[incs[j]].virtual == Unset {
        r := r[incs[j] := r[incs[j]].(virtual := Virtual)];
      }
      j := j + 1;
    }
    assert incs[..j] == incs;
  }

  /** `r` is `packs` with the unset flags of the packs in `done` set true. */
  ghost predicate IncludesMarked(packs: map<string, Pack>, r: map<string, Pack>, done: seq<string>)
  {
    && r.Keys == packs.Keys
    && forall k :: k in packs ==>
         r[k] == if k in done && packs[k].virtual == Unset then packs[k].(virtual := Virtual) else packs[k]
  }

  lemma IncludeMarkStep(packs: map<string, Pack>, r: map<string, Pack>, incs: seq<string>, j: nat)
    requires j < |incs| && incs[j] in packs && IncludesMarked(packs, r, incs[..j])
    ensures var inc := incs[j];
      IncludesMarked(packs, if r[inc].virtual == Unset then r[inc := r[inc].(virtual := Virtual)] else r, incs[..j + 1])
  {
    assert incs[..j + 1] == incs[..j] + [incs[j]];
  }

  /** The dependencies loop (index.js:247-254): every listed pack gets
      `false`. */
  method MarkDependencies(packs: map<string, Pack>, deps: seq<string>) returns (r: map<string, Pack>)
    requires forall j :: 0 <= j < |deps| ==> deps[j] in packs
    ensures r.Keys == packs.Keys
    ensures forall k :: k in packs ==> r[k] == if k in deps then packs[k].(virtual := Retained) else packs[k]
  {
    r := packs;
    var j := 0;
    while j < |deps|
      invariant j <= |deps| && r.Keys == packs.Keys
      invariant forall k :: k in packs ==> r[k] == if k in deps[..j] then packs[k].(virtual := Retained) else packs[k]
    {
      assert deps[..j + 1] == deps[..j] + [deps[j]];
      r := r[deps[j] := r[deps[j]].(virtual := Retained)];
      j := j + 1;
    }
    assert deps[..j] == deps;
  }

  /** Visiting one more pack `q` moves every flag from Marked over the
      packs before it to Marked over the packs up to it. */
  lemma MarkStep(env: Env, packs: map<string, Pack>, ids: seq<string>, i: nat, k: string,
                 before: Flag, middle: Flag, after: Flag)
    requires Closed(env, packs, ids) && i < |ids| && k in packs
    requires before == Marked(env, packs, ids[..i], k)
    requires var q := ids[i];
      middle == if VirtualParent(env, q) && k in env.shapes[q].includes && before == Unset then Virtual else before
    requires after == if k in packs[ids[i]].dependencies then Retained else middle
    ensures after == Marked(env, packs, ids[..i + 1], k)
  {
    var q := ids[i];
    var pre, post := ids[..i], ids[..i + 1];
    assert post == pre + [q];
    assert Depended(packs, post, k) <==> Depended(packs, pre, k) || k in packs[q].dependencies by {
      if k in packs[q].dependencies {
        assert q in post;
      }
      if Depended(packs, pre, k) {
        var p :| p in pre && p in packs && k in packs[p].dependencies;
        assert p in post;
      }
    }
    assert VirtualChild(env, post, k) <==> VirtualChild(env, pre, k) || (VirtualParent(env, q) && k in env.shapes[q].includes) by {
      if VirtualParent(env, q) && k in env.shapes[q].includes {
        assert q in post;
      }
      if VirtualChild(env, pre, k) {
        var p :| p in pre && VirtualParent(env, p) && k in env.shapes[p].includes;
        assert p in post;
      }
    }
  }

  /** One turn of the mark loop, for every pack at once. */
  lemma MarkTurn(env: Env, packs: map<string, Pack>, ids: seq<string>, i: nat,
                 before: map<string, Pack>, middle: map<string, Pack>, after: map<string, Pack>)
    requires Closed(env, packs, ids) && i < |ids|
    requires middle.Keys == packs.Keys && after.Keys == packs.Keys
    requires Flagged(env, packs, before, ids[..i])
    requires forall k :: k in packs ==>
      middle[k] == if VirtualParent(env, ids[i]) && k in env.shapes[ids[i]].includes && before[k].virtual == Unset
        then before[k].(virtual := Virtual) else before[k]
    requires forall k :: k in packs ==>
      after[k] == if k in packs[ids[i]].dependencies then middle[k].(virtual := Retained) else middle[k]
    ensures Flagged(env, packs, after, ids[..i + 1])
  {
    forall k | k in packs
      ensures after[k] == packs[k].(virtual := Marked(env, packs, ids[..i + 1], k))
    {
      MarkStep(env, packs, ids, i, k, before[k].virtual, middle[k].virtual, after[k].virtual);
    }
  }

  /** The values of a dictionary in key order. */
  function Values(d: Dict<string>): (r: seq<string>)
    ensures |r| == |d.keys| && forall i :: 0 <= i < |d.keys| ==> r[i] == d.m[d.keys[i]]
  {
    seq(|d.keys|, i requires 0 <= i < |d.keys| => d.m[d.keys[i]])
  }

  /** The files the delete phase unlinks (index.js:258-266), in order: for
      each pack marked `true`, the outputs of its manifest entry joined onto
      `destDir`, the destination directory as `Packr.prototype.pack` was
      given it, not resolved (index.js:325). */
  ghost function Doomed(join: (string, string) -> string, destDir: string, packs: map<string, Pack>,
                        assets: map<string, Asset>, ids: seq<string>): seq<string>
    requires forall q :: q in ids ==> q in packs && (packs[q].virtual == Virtual ==> q in assets)
    decreases |ids|
  {
    if ids == [] then []
    else
      var n := |ids| - 1;
      var q := ids[n];
      assert forall p :: p in ids[..n] ==> p in ids;
      Doomed(join, destDir, packs, assets, ids[..n])
        + (if packs[q].virtual == Virtual then Values(JoinAll(join, destDir, assets[q].files)) else [])
  }

  /** The delete phase, collecting the paths `fs.unlinkSync` is given;
      `destDir` is the directory as the caller passed it. */
  method Deletions(join: (string, string) -> string, destDir: string, packs: map<string, Pack>,
                   assets: map<string, Asset>, ids: seq<string>)
    returns (paths: seq<string>)
    requires forall q :: q in ids ==> q in packs && (packs[q].virtual == Virtual ==> q in assets)
    ensures paths == Doomed(join, destDir, packs, assets, ids)
  {
    paths := [];
    var i := 0;
    while i < |ids|
      invariant i <= |ids| && paths == Doomed(join, destDir, packs, assets, ids[..i])
    {
      assert ids[..i + 1][..i] == ids[..i];
      var q := ids[i];
      if packs[q].virtual == Virtual {
        var unlinked := Unlinks(join, destDir, assets[q].files);
        paths := paths + unlinked;
      }
      i := i + 1;
    }
    assert ids[..i] == ids;
  }

  /** The paths unlinked for one pack marked `true`: each of its outputs,
      in order, joined onto `destDir`. */
  method Unlinks(join: (string, string) -> string, destDir: string, files: Dict<string>) returns (paths: seq<string>)
    ensures paths == Values(JoinAll(join, destDir, files))
  {
    paths := [];
    var j := 0;
    while j < |files.keys|
      invariant j <= |files.keys|
      invariant paths == Values(JoinAll(join, destDir, files))[..j]
    {
      paths := paths + [join(destDir, files.m[files.keys[j]])];
      j := j + 1;
    }
  }

  /** A joined output is in the list exactly when some output joins to it. */
  lemma ValuesJoined(join: (string, string) -> string, dir: string, files: Dict<string>, x: string)
    ensures x in Values(JoinAll(join, dir, files)) <==> exists name :: name in files.m && x == join(dir, files.m[name])
  {
    var vs := Values(JoinAll(join, dir, files));
    if x in vs {
      var i :| 0 <= i < |vs| && vs[i] == x;
      assert files.keys[i] in files.m;
    }
    if exists name :: name in files.m && x == join(dir, files.m[name]) {
      var name :| name in files.m && x == join(dir, files.m[name]);
      var i :| 0 <= i < |files.keys| && files.keys[i] == name;
      assert vs[i] == x;
    }
  }

  /** A path is deleted exactly when it is an output of a visited pack
      marked `true`, joined onto `destDir`. */
  lemma {:induction false} DoomedSpec(join: (string, string) -> string, destDir: string, packs: map<string, Pack>,
                                      assets: map<string, Asset>, ids: seq<string>, x: string)
    requires forall q :: q in ids ==> q in packs && (packs[q].virtual == Virtual ==> q in assets)
    ensures x in Doomed(join, destDir, packs, assets, ids) <==>
      exists q, name :: q in ids && packs[q].virtual == Virtual && name in assets[q].files.m
        && x == join(destDir, assets[q].files.m[name])
    decreases |ids|
  {
    if ids != [] {
      var n := |ids| - 1;
      var q := ids[n];
      assert forall p :: p in ids[..n] ==> p in ids;
      DoomedSpec(join, destDir, packs, assets, ids[..n], x);
      assert ids == ids[..n] + [q];
      if packs[q].virtual == Virtual {
        ValuesJoined(join, destDir, assets[q].files, x);
      }
    }
  }
}
