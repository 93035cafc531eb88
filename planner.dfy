/** The pack planner (generateLoadMap, index.js:63-124): a walk over the
    scanned tree that sorts its files into packs keyed by id, in a pack
    dictionary shared by the whole walk. */
module Planner {
  import opened Optional
  import opened Dicts
  import opened Tree
  import opened Packers

  /** A planned pack: its packer type, its files (logical id to path relative
      to the scanned root), the packs it includes and the packs that depend on
      it. */
  datatype PlanPack = PlanPack(packerType: string, files: Dict<string>, includes: seq<string>,
                               dependencies: seq<string>)

  /** `console.warn('unknown packer: ...')`. */
  datatype Warning = UnknownPacker(packerType: string, src: string)

  /** The shared pack dictionary and the warnings issued so far. */
  datatype Plan = Plan(packs: Dict<PlanPack>, warnings: seq<Warning>)

  /** What the walk has gathered from a node's children so far: the files it
      keeps for itself, the packs it includes, and (for the proofs only) what
      each child returned. */
  datatype Acc = Acc(files: Dict<string>, includes: seq<string>, rets: seq<Option<string>>)

  /** The packer type a node is planned with: a file whose own type names
      no registered packer takes the inherited default; a directory, and a
      file whose type is registered, keep their own type. */
  function EffectiveType(packers: Registry, node: Node, default: string): string
  {
    if node.packerType !in packers && !node.isDir then default else node.packerType
  }

  /** The id a child is planned under: the parent id and the child's name
      joined by `-`, or the name alone below an empty id. */
  function ChildId(id: string, name: string): string
  {
    id + (if |id| > 0 then "-" else "") + name
  }

  /** A child's result makes it an include of its parent when it is a
      non-empty pack id (truthy) other than the parent's own id. */
  predicate IsInclude(ret: Option<string>, parentId: string)
  {
    ret.Some? && ret.value != "" && ret.value != parentId
  }

  /** `packs[key] = ...` at index.js:99-116: a new key gets the pack as it
      is; an existing key gets the merge of the stored pack and the new one. */
  function Store(packs: Dict<PlanPack>, key: string, p: PlanPack): Dict<PlanPack>
  {
    if key in packs.m then
      var q := packs.m[key];
      Put(packs, key, PlanPack(p.packerType, Assign(q.files, p.files), q.includes + p.includes,
                               q.dependencies + p.dependencies))
    else Put(packs, key, p)
  }

  /** The classification at index.js:84-88 of one child's result. */
  function Classify(acc: Acc, parentId: string, localId: string, src: string, ret: Option<string>): Acc
  {
    if IsInclude(ret, parentId) then Acc(acc.files, acc.includes + [ret.value], acc.rets + [ret])
    else Acc(Put(acc.files, localId, src), acc.includes, acc.rets + [ret])
  }

  /** `generateLoadMap(packers, packs, node, id, default)`: the new plan and
      the pack id the node resolved to, or `None` for `null`. */
  ghost function PlanNode(packers: Registry, plan: Plan, node: Node, id: string, default: string): (Plan, Option<string>)
    decreases node, 1
  {
    var t := EffectiveType(packers, node, default);
    var resolved := t in packers;
    var (plan1, acc) := PlanChildren(packers, plan, node, 0, id, if resolved then "" else default, Acc(Empty(), [], []));
    if resolved then
      var lone := !node.isDir && |acc.files.keys| == 0;
      var files := if lone then Put(acc.files, id, node.src) else acc.files;
      var key := if lone then t else id;
      (plan1.(packs := Store(plan1.packs, key, PlanPack(t, files, acc.includes, []))), Some(key))
    else if t != "" then
      (plan1.(warnings := plan1.warnings + [UnknownPacker(t, node.src)]), None)
    else
      (plan1, None)
  }

  /** The loop at index.js:78-89 from the `i`-th child on. */
  ghost function PlanChildren(packers: Registry, plan: Plan, node: Node, i: nat, id: string,
                              childDefault: string, acc: Acc): (Plan, Acc)
    requires i <= |node.children|
    decreases node, 0, |node.children| - i
  {
    if i == |node.children| then (plan, acc)
    else
      var child := node.children[i];
      assert child in node.children;
      var localId := ChildId(id, child.id);
      var (plan1, ret) := PlanNode(packers, plan, child.node, localId, childDefault);
      PlanChildren(packers, plan1, node, i + 1, id, childDefault, Classify(acc, id, localId, child.node.src, ret))
  }

  /** The whole plan of a scanned tree (index.js:279-287): the root is a
      directory with no type, planned under the empty id with default "raw". */
  ghost function PlanTree(packers: Registry, root: seq<Child>): Plan
  {
    PlanNode(packers, Plan(Empty(), []), Node("", true, "", root), "", "raw").0
  }

  /** `generateLoadMap`: the children first, then the node's own pack. */
  method GenerateLoadMap(packers: Registry, plan: Plan, node: Node, id: string, default: string)
    returns (plan': Plan, ret: Option<string>)
    ensures (plan', ret) == PlanNode(packers, plan, node, id, default)
    decreases node, 1
  {
    var packerType := if node.packerType !in packers && !node.isDir then default else node.packerType;
    var resolved := packerType in packers;
    var files, includes;
    plan', files, includes := GenerateChildren(packers, plan, node, id, if resolved then "" else default);
    if resolved {
      var key := id;
      if !node.isDir && |files.keys| == 0 {
        files := Put(files, id, node.src);
        key := packerType;
      }
      plan' := plan'.(packs := Store(plan'.packs, key, PlanPack(packerType, files, includes, [])));
      ret := Some(key);
    } else {
      if packerType != "" {
        plan' := plan'.(warnings := plan'.warnings + [UnknownPacker(packerType, node.src)]);
      }
      ret := None;
    }
  }

  /** The loop over a node's children in `generateLoadMap`: each child
      planned in turn, then kept as a file of the node or as an include. */
  method GenerateChildren(packers: Registry, plan: Plan, node: Node, id: string, childDefault: string)
    returns (plan': Plan, files: Dict<string>, includes: seq<string>)
    ensures var (p, acc) := PlanChildren(packers, plan, node, 0, id, childDefault, Acc(Empty(), [], []));
      plan' == p && files == acc.files && includes == acc.includes
    decreases node, 0, 1
  {
    files := Empty();
    includes := [];
    ghost var rets: seq<Option<string>> := [];
    plan' := plan;
    var i := 0;
    while i < |node.children|
      invariant 0 <= i <= |node.children|
      invariant PlanChildren(packers, plan, node, 0, id, childDefault, Acc(Empty(), [], []))
             == PlanChildren(packers, plan', node, i, id, childDefault, Acc(files, includes, rets))
    {
      var r;
      plan', files, includes, r := GenerateChild(packers, plan', node, i, id, childDefault, files, includes, rets);
      rets := rets + [r];
      i := i + 1;
    }
  }

  /** One turn of that loop: the `i`-th child planned, then kept as a file
      of the node or as an include. */
  method GenerateChild(packers: Registry, plan: Plan, node: Node, i: nat, id: string, childDefault: string,
                       files: Dict<string>, includes: seq<string>, ghost rets: seq<Option<string>>)
    returns (plan': Plan, files': Dict<string>, includes': seq<string>, r: Option<string>)
    requires i < |node.children|
    ensures PlanChildren(packers, plan, node, i, id, childDefault, Acc(files, includes, rets))
         == PlanChildren(packers, plan', node, i + 1, id, childDefault, Acc(files', includes', rets + [r]))
    decreases node, 0, 0
  {
    var child := node.children[i];
    assert child in node.children;
    var localId := id + (if |id| > 0 then "-" else "") + child.id;
    plan', r := GenerateLoadMap(packers, plan, child.node, localId, childDefault);
    files', includes' := files, includes;
    if r.Some? && r.value != "" && r.value != id {
      includes' := includes + [r.value];
    } else {
      files' := Put(files, localId, child.node.src);
    }
    assert Acc(files', includes', rets + [r]) == Classify(Acc(files, includes, rets), id, localId, child.node.src, r);
  }

  /** The merge rule of `packs[key] = ...`: a new key goes last and holds
      the new pack; an existing key keeps its place and holds the merge,
      with the new type, the includes and dependencies old then new, and the
      union of the files, new entries winning; every other pack is left as
      it was. */
  lemma StoreSpec(packs: Dict<PlanPack>, key: string, p: PlanPack)
    ensures var r := Store(packs, key, p);
      && (forall k :: k in r.m <==> k in packs.m || k == key)
      && (forall k :: k in packs.m && k != key ==> r.m[k] == packs.m[k])
      && r.keys == (if key in packs.m then packs.keys else packs.keys + [key])
      && (key !in packs.m ==> r.m[key] == p)
      && (key in packs.m ==>
            var q, s := packs.m[key], r.m[key];
            && s.packerType == p.packerType
            && s.includes == q.includes + p.includes
            && s.dependencies == q.dependencies + p.dependencies
            && (forall f :: f in s.files.m <==> f in q.files.m || f in p.files.m)
            && (forall f :: f in p.files.m ==> s.files.m[f] == p.files.m[f])
            && (forall f :: f in q.files.m && f !in p.files.m ==> s.files.m[f] == q.files.m[f])
            && s.files.keys == q.files.keys + Without(p.files.keys, q.files.m.Keys))
  {
    if key in packs.m {
      AssignSpec(packs.m[key].files, p.files);
    }
  }

  /** What holds of every plan the walk builds from an empty one: every pack
      names a registered packer, has no dependencies yet, and includes only
      packs that exist. */
  predicate PlanInv(packers: Registry, plan: Plan)
  {
    forall k :: k in plan.packs.m ==>
      && plan.packs.m[k].packerType in packers
      && plan.packs.m[k].dependencies == []
      && (forall j :: 0 <= j < |plan.packs.m[k].includes| ==> plan.packs.m[k].includes[j] in plan.packs.m)
  }

  /** The walk only adds: known pack ids keep their place in the enumeration
      order and warnings are only appended. */
  predicate Grows(a: Plan, b: Plan)
  {
    && |a.packs.keys| <= |b.packs.keys|
    && a.packs.keys == b.packs.keys[..|a.packs.keys|]
    && (forall k :: k in a.packs.m ==> k in b.packs.m)
    && a.warnings <= b.warnings
  }

  lemma GrowsTrans(a: Plan, b: Plan, c: Plan)
    requires Grows(a, b) && Grows(b, c)
    ensures Grows(a, c)
  {
    assert b.packs.keys[..|a.packs.keys|] == c.packs.keys[..|a.packs.keys|];
  }

  lemma StoreGrows(packers: Registry, plan: Plan, key: string, p: PlanPack)
    requires PlanInv(packers, plan)
    requires p.packerType in packers && p.dependencies == []
    requires forall j :: 0 <= j < |p.includes| ==> p.includes[j] in plan.packs.m
    ensures var r := plan.(packs := Store(plan.packs, key, p));
      PlanInv(packers, r) && Grows(plan, r) && key in r.packs.m
  {
    StoreSpec(plan.packs, key, p);
    StoreKeepsInv(packers, plan.packs, key, p);
    var keys := plan.packs.keys;
    assert (keys + [key])[..|keys|] == keys;
  }

  /** Storing a pack that names a registered packer, has no dependencies
      and includes only known packs keeps the plan invariant. */
  lemma StoreKeepsInv(packers: Registry, packs: Dict<PlanPack>, key: string, p: PlanPack)
    requires PlanInv(packers, Plan(packs, []))
    requires p.packerType in packers && p.dependencies == []
    requires forall j :: 0 <= j < |p.includes| ==> p.includes[j] in packs.m
    ensures PlanInv(packers, Plan(Store(packs, key, p), []))
  {
    var v := if key in packs.m then Store(packs, key, p).m[key] else p;
    var r := Store(packs, key, p).m;
    assert r == packs.m[key := v];
    forall k | k in r
      ensures r[k].packerType in packers && r[k].dependencies == []
      ensures forall j :: 0 <= j < |r[k].includes| ==> r[k].includes[j] in r
    {
      if k != key {
        assert r[k] == packs.m[k];
      } else if key in packs.m {
        assert r[k].includes == packs.m[key].includes + p.includes;
      }
    }
  }

  /** Planning a node keeps the plan invariant, only adds to the plan, and
      returns the id of a pack that exists. */
  lemma {:induction false} PlanNodeKeeps(packers: Registry, plan: Plan, node: Node, id: string, default: string)
    requires PlanInv(packers, plan)
    ensures var (r, ret) := PlanNode(packers, plan, node, id, default);
      && PlanInv(packers, r) && Grows(plan, r)
      && (ret.Some? ==> ret.value in r.packs.m)
    decreases node, 1
  {
    var t := EffectiveType(packers, node, default);
    var childDefault := if t in packers then "" else default;
    var acc0 := Acc(Empty(), [], []);
    PlanChildrenKeeps(packers, plan, node, 0, id, childDefault, acc0);
    var (plan1, acc) := PlanChildren(packers, plan, node, 0, id, childDefault, acc0);
    if t in packers {
      var lone := !node.isDir && |acc.files.keys| == 0;
      var files := if lone then Put(acc.files, id, node.src) else acc.files;
      var key := if lone then t else id;
      StoreGrows(packers, plan1, key, PlanPack(t, files, acc.includes, []));
      GrowsTrans(plan, plan1, plan1.(packs := Store(plan1.packs, key, PlanPack(t, files, acc.includes, []))));
    } else if t != "" {
      GrowsTrans(plan, plan1, plan1.(warnings := plan1.warnings + [UnknownPacker(t, node.src)]));
    }
  }

  lemma {:induction false} PlanChildrenKeeps(packers: Registry, plan: Plan, node: Node, i: nat, id: string,
                                             childDefault: string, acc: Acc)
    requires i <= |node.children|
    requires PlanInv(packers, plan)
    requires forall j :: 0 <= j < |acc.includes| ==> acc.includes[j] in plan.packs.m
    ensures var (r, acc') := PlanChildren(packers, plan, node, i, id, childDefault, acc);
      && PlanInv(packers, r) && Grows(plan, r)
      && (forall j :: 0 <= j < |acc'.includes| ==> acc'.includes[j] in r.packs.m)
    decreases node, 0, |node.children| - i
  {
    if i < |node.children| {
      var child := node.children[i];
      assert child in node.children;
      var localId := ChildId(id, child.id);
      PlanNodeKeeps(packers, plan, child.node, localId, childDefault);
      var (plan1, ret) := PlanNode(packers, plan, child.node, localId, childDefault);
      var acc1 := Classify(acc, id, localId, child.node.src, ret);
      PlanChildrenKeeps(packers, plan1, node, i + 1, id, childDefault, acc1);
      GrowsTrans(plan, plan1, PlanChildren(packers, plan1, node, i + 1, id, childDefault, acc1).0);
    }
  }

  /** The plan of a whole tree satisfies the invariant: every pack it holds
      can be handed to its packer, and every include names a planned pack. */
  lemma PlanTreeValid(packers: Registry, root: seq<Child>)
    ensures PlanInv(packers, PlanTree(packers, root))
  {
    PlanNodeKeeps(packers, Plan(Empty(), []), Node("", true, "", root), "", "raw");
  }

  /** A node that resolves no packer stores no pack of its own and returns
      `null`; it warns, after whatever its children did, exactly when its
      effective type is non-empty. Such a node is a directory with an
      unregistered type or a file that took the inherited default. */
  lemma UnresolvedNode(packers: Registry, plan: Plan, node: Node, id: string, default: string)
    requires EffectiveType(packers, node, default) !in packers
    ensures var t := EffectiveType(packers, node, default);
      var (c, _) := PlanChildren(packers, plan, node, 0, id, default, Acc(Empty(), [], []));
      var (r, ret) := PlanNode(packers, plan, node, id, default);
      && ret == None
      && r.packs == c.packs
      && r.warnings == c.warnings + (if t == "" then [] else [UnknownPacker(t, node.src)])
      && (node.isDir ==> t == node.packerType)
      && (!node.isDir ==> t == default)
  {
  }

  /** Below a node that resolved a packer the default is empty, so a file
      there whose own type is not registered is silent and comes back as
      `null`: its parent keeps it as one of its own files. */
  lemma SilentBelowPack(packers: Registry, plan: Plan, node: Node, id: string)
    requires "" !in packers
    requires !node.isDir && node.children == [] && node.packerType !in packers
    ensures PlanNode(packers, plan, node, id, "") == (plan, None)
  {
  }

  /** A file that resolves a packer is alone in its pack's files under its
      own id, and the pack is keyed, and returned, by the packer type; the
      includes of a pack already under that key are kept, and no other pack
      changes. */
  lemma LoneFile(packers: Registry, plan: Plan, node: Node, id: string, default: string)
    requires !node.isDir && node.children == []
    requires EffectiveType(packers, node, default) in packers
    ensures var t := EffectiveType(packers, node, default);
      var (r, ret) := PlanNode(packers, plan, node, id, default);
      && ret == Some(t)
      && t in r.packs.m
      && r.packs.m[t].packerType == t
      && id in r.packs.m[t].files.m && r.packs.m[t].files.m[id] == node.src
      && r.packs.m[t].includes == (if t in plan.packs.m then plan.packs.m[t].includes else [])
      && (forall k :: k in r.packs.m <==> k in plan.packs.m || k == t)
      && (forall k :: k in plan.packs.m && k != t ==> r.packs.m[k] == plan.packs.m[k])
  {
    var t := EffectiveType(packers, node, default);
    var acc0 := Acc(Empty(), [], []);
    assert PlanChildren(packers, plan, node, 0, id, "", acc0) == (plan, acc0);
    var files: Dict<string> := Put(Empty(), id, node.src);
    StoreSpec(plan.packs, t, PlanPack(t, files, [], []));
    if t in plan.packs.m {
      assert plan.packs.m[t].includes + [] == plan.packs.m[t].includes;
    }
  }

  /** A directory with one child and a registered type: the child is
      planned under its joined id with an empty default, its result is
      classified, and the directory's pack is stored under its own id. */
  lemma OneChildDir(packers: Registry, plan: Plan, node: Node, id: string, default: string)
    requires node.isDir && |node.children| == 1 && node.packerType in packers
    ensures var c := node.children[0];
      var (p1, ret) := PlanNode(packers, plan, c.node, ChildId(id, c.id), "");
      var acc := Classify(Acc(Empty(), [], []), id, ChildId(id, c.id), c.node.src, ret);
      PlanNode(packers, plan, node, id, default)
        == (p1.(packs := Store(p1.packs, id, PlanPack(node.packerType, acc.files, acc.includes, []))), Some(id))
  {
    var c := node.children[0];
    var (p1, ret) := PlanNode(packers, plan, c.node, ChildId(id, c.id), "");
    var acc := Classify(Acc(Empty(), [], []), id, ChildId(id, c.id), c.node.src, ret);
    assert PlanChildren(packers, plan, node, 0, id, "", Acc(Empty(), [], [])) == (p1, acc);
  }

  /** A lone file stored by its packer type can share its key with a
      directory above it: in the tree `image#raw/sub#json/c.png#image`, with
      "json" and "image" registered, the file goes to the pack "image", so
      "image-sub" includes "image", while the directory "image" includes
      "image-sub". The planned includes form a cycle. */
  lemma LoneFileCycle(packers: Registry, s1: string, s2: string, s3: string)
    requires "raw" in packers && "json" in packers && "image" in packers && "" !in packers
    ensures var c := Node("image", false, s3, []);
      var sub := Node("json", true, s2, [Child("c", c)]);
      var image := Node("raw", true, s1, [Child("sub", sub)]);
      var plan := PlanTree(packers, [Child("image", image)]);
      && "image" in plan.packs.m && plan.packs.m["image"].includes == ["image-sub"]
      && "image-sub" in plan.packs.m && plan.packs.m["image-sub"].includes == ["image"]
  {
    var c := Node("image", false, s3, []);
    var sub := Node("json", true, s2, [Child("c", c)]);
    var image := Node("raw", true, s1, [Child("sub", sub)]);
    var root := Node("", true, "", [Child("image", image)]);
    var plan0 := Plan(Empty(), []);
    var acc0 := Acc(Empty(), [], []);
    assert ChildId("", "image") == "image";
    assert ChildId("image", "sub") == "image-sub";
    assert ChildId("image-sub", "c") == "image-sub-c";

    LoneFile(packers, plan0, c, "image-sub-c", "");
    var (planC, retC) := PlanNode(packers, plan0, c, "image-sub-c", "");
    assert retC == Some("image") && planC.packs.m["image"].includes == [];
    assert "image-sub" !in planC.packs.m;

    OneChildDir(packers, plan0, sub, "image-sub", "");
    var accSub := Classify(acc0, "image-sub", "image-sub-c", s3, retC);
    assert accSub.includes == ["image"];
    StoreSpec(planC.packs, "image-sub", PlanPack("json", accSub.files, accSub.includes, []));
    var (planSub, retSub) := PlanNode(packers, plan0, sub, "image-sub", "");
    assert retSub == Some("image-sub");
    assert planSub.packs.m["image-sub"].includes == ["image"];
    assert "image" in planSub.packs.m && planSub.packs.m["image"].includes == [];

    OneChildDir(packers, plan0, image, "image", "raw");
    var accImage := Classify(acc0, "image", "image-sub", s2, retSub);
    assert accImage.includes == ["image-sub"];
    StoreSpec(planSub.packs, "image", PlanPack("raw", accImage.files, accImage.includes, []));
    var (planImage, retImage) := PlanNode(packers, plan0, image, "image", "raw");
    assert planImage.packs.m["image"].includes == [] + ["image-sub"];

    assert PlanChildren(packers, plan0, root, 0, "", "raw", acc0).0 == planImage;
    assert PlanTree(packers, [Child("image", image)]) == planImage;
  }

  /** The packs a node includes: the results of its children that count as
      includes, in child order. */
  function Included(rets: seq<Option<string>>, parentId: string): seq<string>
  {
    if rets == [] then []
    else
      var last := rets[|rets| - 1];
      Included(rets[..|rets| - 1], parentId) + (if IsInclude(last, parentId) then [last.value] else [])
  }

  /** The first `i` children are classified: the includes are exactly the
      include results in order, each other child is a file of the node under
      its child id with its path, and the node has no other file. */
  ghost predicate ClassifiedUpTo(node: Node, id: string, acc: Acc, i: nat)
    requires i <= |node.children|
  {
    && |acc.rets| == i
    && acc.includes == Included(acc.rets, id)
    && (forall j :: 0 <= j < i ==> (ChildId(id, node.children[j].id) in acc.files.m <==> !IsInclude(acc.rets[j], id)))
    && (forall j :: 0 <= j < i && !IsInclude(acc.rets[j], id) ==>
          ChildId(id, node.children[j].id) in acc.files.m
          && acc.files.m[ChildId(id, node.children[j].id)] == node.children[j].node.src)
    && (forall k :: k in acc.files.m ==> exists j :: 0 <= j < i && k == ChildId(id, node.children[j].id))
  }

  /** Distinct child names give distinct child ids. */
  lemma ChildIdInjective(id: string, a: string, b: string)
    requires ChildId(id, a) == ChildId(id, b)
    ensures a == b
  {
    var pre := id + (if |id| > 0 then "-" else "");
    assert ChildId(id, a)[|pre|..] == a;
    assert ChildId(id, b)[|pre|..] == b;
  }

  lemma ClassifyStep(node: Node, id: string, acc: Acc, i: nat, ret: Option<string>)
    requires i < |node.children| && UniqueIds(node.children)
    requires ClassifiedUpTo(node, id, acc, i)
    ensures ClassifiedUpTo(node, id,
              Classify(acc, id, ChildId(id, node.children[i].id), node.children[i].node.src, ret), i + 1)
  {
    var localId := ChildId(id, node.children[i].id);
    var acc1 := Classify(acc, id, localId, node.children[i].node.src, ret);
    assert acc1.rets[..i] == acc.rets;
    forall j | 0 <= j < i
      ensures ChildId(id, node.children[j].id) != localId
    {
      if ChildId(id, node.children[j].id) == localId {
        ChildIdInjective(id, node.children[j].id, node.children[i].id);
      }
    }
  }

  lemma {:induction false} ClassifyRest(packers: Registry, plan: Plan, node: Node, i: nat, id: string,
                                        childDefault: string, acc: Acc)
    requires i <= |node.children| && UniqueIds(node.children)
    requires ClassifiedUpTo(node, id, acc, i)
    ensures ClassifiedUpTo(node, id, PlanChildren(packers, plan, node, i, id, childDefault, acc).1, |node.children|)
    decreases |node.children| - i
  {
    if i < |node.children| {
      var child := node.children[i];
      var localId := ChildId(id, child.id);
      var (plan1, ret) := PlanNode(packers, plan, child.node, localId, childDefault);
      ClassifyStep(node, id, acc, i, ret);
      ClassifyRest(packers, plan1, node, i + 1, id, childDefault, Classify(acc, id, localId, child.node.src, ret));
    }
  }

  /** The classification of a node's children (index.js:78-89), for children
      with distinct ids as the scanner gives them (Tree.ScanSpec). */
  lemma ChildrenClassified(packers: Registry, plan: Plan, node: Node, id: string, childDefault: string)
    requires UniqueIds(node.children)
    ensures ClassifiedUpTo(node, id,
              PlanChildren(packers, plan, node, 0, id, childDefault, Acc(Empty(), [], [])).1, |node.children|)
  {
    ClassifyRest(packers, plan, node, 0, id, childDefault, Acc(Empty(), [], []));
  }
}
