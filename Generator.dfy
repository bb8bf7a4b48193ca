/** The generator script: the `plugin` record whose `commands` and `skills` tables the
    two loops fill in place, the recursive `findSkills`, and the run as a whole. */
module Generator {
  import opened Wrappers
  import opened FileTree
  import opened Frontmatter
  import opened Steps
  import opened Commands
  import opened Skills

  /** The two tables that the run computes; the record's fixed fields are constants. */
  datatype Manifest = Manifest(commands: map<string, Command>, skills: map<string, Skill>)

  /** The `plugin` record, as far as the run changes it. */
  class Plugin {
    var commands: map<string, Command>
    var skills: map<string, Skill>

    constructor ()
      ensures commands == map[] && skills == map[]
    {
      commands := map[];
      skills := map[];
    }

    /** Lines 28-45: the `forEach` over the markdown entries of `commands/`. Returns false
        when a read throws, leaving the table as it was at that point. */
    method CollectCommands(listing: seq<Node>) returns (ok: bool)
      modifies this
      ensures Run(commands, ok) == Exec(old(commands), CommandSteps(listing))
      ensures skills == old(skills)
    {
      var files := MarkdownEntries(listing);
      ghost var steps := CommandSteps(listing);
      ok := true;
      var i := 0;
      while i < |files| && ok
        invariant 0 <= i <= |files|
        invariant Exec(old(commands), steps) == Resume(Run(commands, ok), steps[i..])
        invariant skills == old(skills)
        decreases |files| - i
      {
        var step := CommandStep(files[i]);
        assert step == steps[i];
        ResumeAt(Run(commands, true), steps, i);
        match step {
          case Skip =>
          case Put(name, entry) =>
            if name != ProtoKey {
              commands := commands[name := entry];
            }
          case Fail =>
            ok := false;
        }
        i := i + 1;
      }
    }

    /** Lines 48-81: `findSkills` over the listed items of a directory reached along
        `trail`. A directory holding `SKILL.md` is handled as a leaf, any other directory
        is descended into, files are passed over. Returns false when a read throws. */
    method FindSkills(sep: char, trail: seq<string>, items: seq<Node>) returns (ok: bool)
      modifies this
      decreases SizeAll(items)
      ensures Run(skills, ok) == Exec(old(skills), SkillSteps(sep, trail, items))
      ensures commands == old(commands)
    {
      ok := true;
      var i := 0;
      while i < |items| && ok
        invariant 0 <= i <= |items|
        invariant Exec(old(skills), SkillSteps(sep, trail, items))
                  == Resume(Run(skills, ok), SkillSteps(sep, trail, items[i..]))
        invariant commands == old(commands)
        decreases |items| - i
      {
        assert items[i..][1..] == items[i + 1..];
        ghost var here := ItemSteps(sep, trail, items[i]);
        ghost var later := SkillSteps(sep, trail, items[i + 1..]);
        assert SkillSteps(sep, trail, items[i..]) == here + later;
        ExecAppend(skills, here, later);
        match items[i] {
          case File(_, _) =>
          case Dir(name, kids) =>
            match Descriptor(kids) {
              case Some(descriptor) =>
                match LeafStep(sep, trail, name, descriptor) {
                  case Skip =>
                  case Put(key, entry) =>
                    if key != ProtoKey {
                      skills := skills[key := entry];
                    }
                  case Fail =>
                    ok := false;
                }
              case None =>
                SizeOfMember(items, i);
                ok := FindSkills(sep, trail + [name], kids);
            }
        }
        i := i + 1;
      }
    }
  }

  /** The manifest a run writes, or None when an uncaught read error aborts the run
      before anything is written. `sep` is the platform's path separator. */
  function GeneratedManifest(sep: char, commandListing: seq<Node>, skillItems: seq<Node>): Option<Manifest>
  {
    var c := CommandTable(commandListing);
    var s := SkillTable(sep, skillItems);
    if c.ok && s.ok then Some(Manifest(c.table, s.table)) else None
  }

  /** The whole script on the listing of `commands/` and the items of `skills/`: the
      commands loop, then `findSkills` from `skills/`, then the manifest that is written. */
  method Generate(sep: char, commandListing: seq<Node>, skillItems: seq<Node>) returns (r: Option<Manifest>)
    ensures r == GeneratedManifest(sep, commandListing, skillItems)
  {
    var plugin := new Plugin();
    var ok := plugin.CollectCommands(commandListing);
    if !ok {
      return None;
    }
    ok := plugin.FindSkills(sep, ["skills"], skillItems);
    if !ok {
      return None;
    }
    r := Some(Manifest(plugin.commands, plugin.skills));
  }

  /** The two counts of the summary line. */
  function Summary(m: Manifest): (nat, nat)
  {
    (|m.commands|, |m.skills|)
  }

  /** The summary line counts one command per distinct name of a markdown file with a
      metadata block, and one skill per distinct skill key assigned during the walk. */
  lemma SummaryCounts(sep: char, commandListing: seq<Node>, skillItems: seq<Node>)
    requires GeneratedManifest(sep, commandListing, skillItems).Some?
    ensures Summary(GeneratedManifest(sep, commandListing, skillItems).value).0
            == |set n | n in commandListing && n.File? && IsMarkdown(n.name)
                        && FindFrontmatter(n.content).Some? && CommandName(n.name) != ProtoKey
                        :: CommandName(n.name)|
    ensures Summary(GeneratedManifest(sep, commandListing, skillItems).value).1
            == |PutKeys(SkillSteps(sep, ["skills"], skillItems))|
  {
    CommandTableKeys(commandListing);
    ExecOk(map[], SkillSteps(sep, ["skills"], skillItems));
    ExecCount(SkillSteps(sep, ["skills"], skillItems));
  }

  /** The run aborts exactly when a directory is named like a command file or like a
      leaf's `SKILL.md`. */
  lemma GeneratedManifestAborts(sep: char, commandListing: seq<Node>, skillItems: seq<Node>)
    ensures GeneratedManifest(sep, commandListing, skillItems).None?
            <==> (exists n :: n in commandListing && IsMarkdown(n.name) && n.Dir?)
                 || (exists p :: LeafPath(skillItems, p) && LeafStepAt(sep, ["skills"], skillItems, p).Fail?)
  {
    CommandTableOk(commandListing);
    SkillTableOk(sep, skillItems);
  }
}
