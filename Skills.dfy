/** Skill discovery: the walk of `findSkills` over the `skills/` tree. A directory that
    holds a `SKILL.md` is a leaf: it yields at most one entry and is never descended
    into. Every other directory is descended into, and files outside leaves are ignored. */
module Skills {
  import opened Wrappers
  import opened Text
  import opened FileTree
  import opened Frontmatter
  import opened Steps

  datatype Skill = Skill(description: string, path: string)

  /** `fs.existsSync(path.join(fullPath, 'SKILL.md'))`, answered from the children: the
      first child of that name, file or directory. */
  function Descriptor(children: seq<Node>): (r: Option<Node>)
    ensures r.Some? ==> r.value in children && r.value.name == "SKILL.md"
    ensures r.None? ==> forall c :: c in children ==> c.name != "SKILL.md"
  {
    if children == [] then None
    else if children[0].name == "SKILL.md" then Some(children[0])
    else Descriptor(children[1..])
  }

  /** A directory holding a `SKILL.md`. */
  predicate IsLeaf(n: Node)
  {
    n.Dir? && Descriptor(n.children).Some?
  }

  /** `'./' + path.relative(__dirname, fullPath).replace(/\\/g, '/')` for the directory
      reached by the names `dirs` below the generator's own directory, with `sep` the
      platform's path separator. */
  function SkillPath(sep: char, dirs: seq<string>): (r: string)
    ensures |r| >= 2 && r[..2] == "./"
    ensures '\\' !in r
  {
    "./" + SlashNormalize(JoinWith(sep, dirs))
  }

  /** With `/` or `\` as the platform separator and no backslash inside a name, the
      recorded path is "./" followed by the names joined with `/`. */
  lemma SkillPathIsSlashJoin(sep: char, dirs: seq<string>)
    requires sep == '/' || sep == '\\'
    requires forall i :: 0 <= i < |dirs| ==> '\\' !in dirs[i]
    ensures SkillPath(sep, dirs) == "./" + JoinWith('/', dirs)
  {
    NormalizedJoinIsSlashJoin(sep, dirs);
  }

  /** Lines 58-75 for the leaf directory `name`, reached along `trail`, whose descriptor is
      `descriptor`. Reading a directory throws; content without a metadata block adds
      nothing; otherwise the key is the trimmed `name:` value or the directory's name, and
      the description the trimmed `description:` value or "<name> skill". */
  function LeafStep(sep: char, trail: seq<string>, name: string, descriptor: Node): (r: Step<Skill>)
    ensures r.Put? ==> |r.value.path| >= 2 && r.value.path[..2] == "./" && '\\' !in r.value.path
  {
    match descriptor
    case Dir(_, _) => Fail
    case File(_, content) =>
      match FindFrontmatter(content)
      case None => Skip
      case Some(fm) =>
        Put(FieldValue(fm, "name", name),
            Skill(FieldValue(fm, "description", name + " skill"), SkillPath(sep, trail + [name])))
  }

  /** The steps one listed item contributes: nothing for a file, the leaf's one step for a
      directory holding `SKILL.md`, and the steps of its children for any other directory. */
  function ItemSteps(sep: char, trail: seq<string>, item: Node): seq<Step<Skill>>
    decreases Size(item), 0
  {
    match item
    case File(_, _) => []
    case Dir(name, kids) =>
      match Descriptor(kids)
      case Some(d) => [LeafStep(sep, trail, name, d)]
      case None => SkillSteps(sep, trail + [name], kids)
  }

  /** The steps `findSkills` takes over the listed items, depth first in listing order. */
  function SkillSteps(sep: char, trail: seq<string>, items: seq<Node>): seq<Step<Skill>>
    decreases SizeAll(items), 1
  {
    if items == [] then []
    else ItemSteps(sep, trail, items[0]) + SkillSteps(sep, trail, items[1..])
  }

  /** `p` holds child indices leading from `items`, through directories without a
      `SKILL.md`, to a leaf directory. */
  predicate LeafPath(items: seq<Node>, p: seq<nat>)
    decreases |p|
  {
    && |p| >= 1 && p[0] < |items| && items[p[0]].Dir?
    && if |p| == 1 then IsLeaf(items[p[0]])
       else !IsLeaf(items[p[0]]) && LeafPath(items[p[0]].children, p[1..])
  }

  /** The step of the leaf that `p` leads to. */
  function LeafStepAt(sep: char, trail: seq<string>, items: seq<Node>, p: seq<nat>): Step<Skill>
    requires LeafPath(items, p)
    decreases |p|
  {
    var n := items[p[0]];
    if |p| == 1 then LeafStep(sep, trail, n.name, Descriptor(n.children).value)
    else LeafStepAt(sep, trail + [n.name], n.children, p[1..])
  }

  /** Leaf paths into items[1..] are leaf paths into items, one index further on. */
  lemma LeafPathShift(sep: char, trail: seq<string>, items: seq<Node>, p: seq<nat>)
    requires items != [] && LeafPath(items[1..], p)
    ensures LeafPath(items, [p[0] + 1] + p[1..])
    ensures LeafStepAt(sep, trail, items, [p[0] + 1] + p[1..]) == LeafStepAt(sep, trail, items[1..], p)
  {
    var q := [p[0] + 1] + p[1..];
    assert q[1..] == p[1..];
  }

  /** A leaf path into the children of a non-leaf first item extends to one into items. */
  lemma LeafPathDown(sep: char, trail: seq<string>, items: seq<Node>, p: seq<nat>)
    requires items != [] && items[0].Dir? && !IsLeaf(items[0])
    requires LeafPath(items[0].children, p)
    ensures LeafPath(items, [0] + p)
    ensures LeafStepAt(sep, trail, items, [0] + p)
            == LeafStepAt(sep, trail + [items[0].name], items[0].children, p)
  {
    assert ([0] + p)[1..] == p;
  }

  /** Soundness of the walk: every step it takes is the step of some leaf reached only
      through directories without a `SKILL.md`. */
  lemma {:induction false} SkillStepsSound(sep: char, trail: seq<string>, items: seq<Node>, i: nat)
    requires i < |SkillSteps(sep, trail, items)|
    ensures exists p :: LeafPath(items, p) && SkillSteps(sep, trail, items)[i] == LeafStepAt(sep, trail, items, p)
    decreases SizeAll(items)
  {
    var head := ItemSteps(sep, trail, items[0]);
    var steps := SkillSteps(sep, trail, items);
    assert steps == head + SkillSteps(sep, trail, items[1..]);
    if i < |head| {
      match items[0]
      case Dir(name, kids) =>
        if Descriptor(kids).Some? {
          assert LeafPath(items, [0]);
          assert steps[i] == LeafStepAt(sep, trail, items, [0]);
        } else {
          SizeOfMember(items, 0);
          SkillStepsSound(sep, trail + [name], kids, i);
          var q :| LeafPath(kids, q) && head[i] == LeafStepAt(sep, trail + [name], kids, q);
          LeafPathDown(sep, trail, items, q);
        }
    } else {
      SkillStepsSound(sep, trail, items[1..], i - |head|);
      var q :| LeafPath(items[1..], q)
               && SkillSteps(sep, trail, items[1..])[i - |head|] == LeafStepAt(sep, trail, items[1..], q);
      LeafPathShift(sep, trail, items, q);
    }
  }

  /** Completeness of the walk: every leaf reached only through directories without a
      `SKILL.md` contributes its step. */
  lemma {:induction false} SkillStepsComplete(sep: char, trail: seq<string>, items: seq<Node>, p: seq<nat>)
    requires LeafPath(items, p)
    ensures LeafStepAt(sep, trail, items, p) in SkillSteps(sep, trail, items)
    decreases SizeAll(items)
  {
    var head := ItemSteps(sep, trail, items[0]);
    var rest := SkillSteps(sep, trail, items[1..]);
    assert SkillSteps(sep, trail, items) == head + rest;
    if p[0] == 0 {
      var n := items[0];
      if |p| == 1 {
        assert head == [LeafStepAt(sep, trail, items, p)];
      } else {
        SizeOfMember(items, 0);
        SkillStepsComplete(sep, trail + [n.name], n.children, p[1..]);
      }
    } else {
      var q := [p[0] - 1] + p[1..];
      assert q[1..] == p[1..];
      assert items[1..][q[0]] == items[p[0]];
      assert LeafPath(items[1..], q);
      SkillStepsComplete(sep, trail, items[1..], q);
      LeafPathShift(sep, trail, items, q);
      assert [q[0] + 1] + q[1..] == p;
    }
  }

  /** Nothing below a leaf is visited: no leaf path continues past a leaf directory. */
  lemma {:induction false} NothingBelowLeaf(items: seq<Node>, p: seq<nat>, q: seq<nat>)
    requires LeafPath(items, p) && q != []
    ensures !LeafPath(items, p + q)
    decreases |p|
  {
    if |p| > 1 {
      assert (p + q)[1..] == p[1..] + q;
      NothingBelowLeaf(items[p[0]].children, p[1..], q);
    }
  }

  /** A leaf whose `SKILL.md` has no metadata block adds no entry (and, being a leaf,
      still stops the descent); one whose `SKILL.md` is a directory aborts the run. */
  lemma LeafStepCases(sep: char, trail: seq<string>, name: string, descriptor: Node)
    ensures LeafStep(sep, trail, name, descriptor).Fail? <==> descriptor.Dir?
    ensures LeafStep(sep, trail, name, descriptor).Skip?
            <==> descriptor.File? && FindFrontmatter(descriptor.content).None?
  {
  }

  /** The skill table of the run from an empty table, walking `skills/`. */
  function SkillTable(sep: char, items: seq<Node>): Run<Skill>
  {
    Exec(map[], SkillSteps(sep, ["skills"], items))
  }

  /** The skill walk completes unless some leaf's `SKILL.md` is a directory. */
  lemma SkillTableOk(sep: char, items: seq<Node>)
    ensures SkillTable(sep, items).ok
            <==> forall p :: LeafPath(items, p) ==> !LeafStepAt(sep, ["skills"], items, p).Fail?
  {
    var steps := SkillSteps(sep, ["skills"], items);
    ExecOk(map[], steps);
    if SkillTable(sep, items).ok {
      forall p | LeafPath(items, p) ensures !LeafStepAt(sep, ["skills"], items, p).Fail? {
        SkillStepsComplete(sep, ["skills"], items, p);
      }
    } else {
      var i :| 0 <= i < |steps| && steps[i].Fail?;
      SkillStepsSound(sep, ["skills"], items, i);
    }
  }

  /** Every recorded skill path starts with "./" and holds no backslash. */
  lemma SkillTablePaths(sep: char, items: seq<Node>, k: string)
    requires SkillTable(sep, items).ok && k in SkillTable(sep, items).table
    ensures |SkillTable(sep, items).table[k].path| >= 2
    ensures SkillTable(sep, items).table[k].path[..2] == "./"
    ensures '\\' !in SkillTable(sep, items).table[k].path
  {
    var steps := SkillSteps(sep, ["skills"], items);
    ExecOk(map[], steps);
    ExecKeys(map[], steps);
    ExecFromPut(map[], steps, k);
    var i :| 0 <= i < |steps| && steps[i] == Put(k, SkillTable(sep, items).table[k]);
    SkillStepsSound(sep, ["skills"], items, i);
    var p :| LeafPath(items, p) && steps[i] == LeafStepAt(sep, ["skills"], items, p);
    LeafStepAtIsLeafStep(sep, ["skills"], items, p);
    assert steps[i].Put?;
  }

  /** The leaf directory that `p` leads to. */
  function LeafAt(items: seq<Node>, p: seq<nat>): (n: Node)
    requires LeafPath(items, p)
    ensures IsLeaf(n)
    decreases |p|
  {
    if |p| == 1 then items[p[0]] else LeafAt(items[p[0]].children, p[1..])
  }

  /** The names of the directories that `p` passes through above its leaf. */
  function TrailTo(items: seq<Node>, p: seq<nat>): seq<string>
    requires LeafPath(items, p)
    decreases |p|
  {
    if |p| == 1 then [] else [items[p[0]].name] + TrailTo(items[p[0]].children, p[1..])
  }

  /** The step at a leaf path is the leaf's own step, for the directory names along the
      way: what lines 58-74 do for the directory `p` leads to. */
  lemma {:induction false} LeafStepAtIsLeafStep(sep: char, trail: seq<string>, items: seq<Node>, p: seq<nat>)
    requires LeafPath(items, p)
    ensures var n := LeafAt(items, p);
            LeafStepAt(sep, trail, items, p)
            == LeafStep(sep, trail + TrailTo(items, p), n.name, Descriptor(n.children).value)
    decreases |p|
  {
    var n := items[p[0]];
    if |p| == 1 {
      assert trail + TrailTo(items, p) == trail;
    } else {
      LeafStepAtIsLeafStep(sep, trail + [n.name], n.children, p[1..]);
      assert trail + [n.name] + TrailTo(n.children, p[1..]) == trail + TrailTo(items, p);
    }
  }

  /** What a leaf writes: the key is the trimmed `name:` value or the directory's name,
      the description the trimmed `description:` value or "<name> skill", and the path
      that of the leaf directory itself. */
  lemma LeafStepShape(sep: char, trail: seq<string>, name: string, descriptor: Node)
    requires LeafStep(sep, trail, name, descriptor).Put?
    ensures descriptor.File? && FindFrontmatter(descriptor.content).Some?
    ensures var fm := FindFrontmatter(descriptor.content).value;
            var s := LeafStep(sep, trail, name, descriptor);
            && s.key == FieldValue(fm, "name", name)
            && s.value.description == FieldValue(fm, "description", name + " skill")
            && s.value.path == SkillPath(sep, trail + [name])
  {
  }

  /** A leaf whose `SKILL.md` has a metadata block, and whose key every other leaf
      claiming it would fill with the same entry, ends up in a completed table with its
      own entry. The key is the trimmed `name:` value or the directory name, the
      description the trimmed `description:` value or "<name> skill", and the path
      "./skills/" followed by the directories down to the leaf. A `__proto__` key gets
      no entry. */
  lemma SkillTableEntry(sep: char, items: seq<Node>, p: seq<nat>)
    requires SkillTable(sep, items).ok
    requires LeafPath(items, p)
    requires Descriptor(LeafAt(items, p).children).value.File?
    requires FindFrontmatter(Descriptor(LeafAt(items, p).children).value.content).Some?
    requires var n := LeafAt(items, p);
             var fm := FindFrontmatter(Descriptor(n.children).value.content).value;
             forall p' :: LeafPath(items, p') && LeafStepAt(sep, ["skills"], items, p').Put?
               && LeafStepAt(sep, ["skills"], items, p').key == FieldValue(fm, "name", n.name)
               ==> LeafStepAt(sep, ["skills"], items, p').value
                   == Skill(FieldValue(fm, "description", n.name + " skill"),
                            SkillPath(sep, ["skills"] + TrailTo(items, p) + [n.name]))
    ensures var n := LeafAt(items, p);
            var fm := FindFrontmatter(Descriptor(n.children).value.content).value;
            var key := FieldValue(fm, "name", n.name);
            && (key == ProtoKey ==> key !in SkillTable(sep, items).table)
            && (key != ProtoKey ==>
                  && key in SkillTable(sep, items).table
                  && SkillTable(sep, items).table[key]
                     == Skill(FieldValue(fm, "description", n.name + " skill"),
                              SkillPath(sep, ["skills"] + TrailTo(items, p) + [n.name])))
  {
    var steps := SkillSteps(sep, ["skills"], items);
    var s := LeafStepAt(sep, ["skills"], items, p);
    LeafStepAtIsLeafStep(sep, ["skills"], items, p);
    if s.key == ProtoKey {
      NoProtoKey(steps);
      return;
    }
    ExecOk(map[], steps);
    SkillStepsComplete(sep, ["skills"], items, p);
    forall j | 0 <= j < |steps| && steps[j].Put? && steps[j].key == s.key
      ensures steps[j].value == s.value
    {
      SkillStepsSound(sep, ["skills"], items, j);
    }
    ExecAgreeingPuts(map[], steps, s.key, s.value);
  }
}
