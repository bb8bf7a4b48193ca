/** The command table: every markdown file listed directly in `commands/` whose content
    starts with a metadata block becomes one entry, keyed by the file name without
    `.md`. */
module Commands {
  import opened Wrappers
  import opened Text
  import opened FileTree
  import opened Frontmatter
  import opened Steps

  datatype Command = Command(description: string, file: string)

  predicate IsMarkdown(name: string)
  {
    EndsWith(name, ".md")
  }

  /** `path.basename(file, '.md')` for a name from a directory listing, which holds no
      separator: the name without its `.md`. */
  function CommandName(file: string): (r: string)
    requires IsMarkdown(file)
    ensures r + ".md" == file
  {
    DropSuffix(file, ".md")
  }

  /** `readdirSync(commandsDir).filter(f => f.endsWith('.md'))`: the listed entries whose
      name ends in `.md`, files and directories alike, in listing order. */
  function MarkdownEntries(listing: seq<Node>): (r: seq<Node>)
    ensures forall n :: n in r <==> n in listing && IsMarkdown(n.name)
    ensures forall i :: 0 <= i < |r| ==> IsMarkdown(r[i].name)
  {
    if listing == [] then []
    else if IsMarkdown(listing[0].name) then [listing[0]] + MarkdownEntries(listing[1..])
    else MarkdownEntries(listing[1..])
  }

  /** The filter keeps listing order: filtering a concatenation concatenates the
      filtered parts. */
  lemma {:induction false} MarkdownEntriesAppend(a: seq<Node>, b: seq<Node>)
    ensures MarkdownEntries(a + b) == MarkdownEntries(a) + MarkdownEntries(b)
  {
    if a != [] {
      assert (a + b)[1..] == a[1..] + b;
      MarkdownEntriesAppend(a[1..], b);
    } else {
      assert a + b == b;
    }
  }

  /** Filtering keeps the names of a listing pairwise different. */
  lemma {:induction false} MarkdownEntriesDistinct(listing: seq<Node>)
    requires DistinctNames(listing)
    ensures DistinctNames(MarkdownEntries(listing))
  {
    if listing != [] {
      var rest := MarkdownEntries(listing[1..]);
      assert DistinctNames(listing[1..]) by {
        forall i, j | 0 <= i < j < |listing[1..]|
          ensures listing[1..][i].name != listing[1..][j].name
        {
          assert listing[1..][i] == listing[i + 1] && listing[1..][j] == listing[j + 1];
        }
      }
      MarkdownEntriesDistinct(listing[1..]);
      if IsMarkdown(listing[0].name) {
        var r := [listing[0]] + rest;
        forall i, j | 0 <= i < j < |r| ensures r[i].name != r[j].name {
          if i == 0 {
            assert r[j] in listing[1..];
            var k :| 0 <= k < |listing[1..]| && listing[1..][k] == r[j];
            assert listing[k + 1] == r[j];
          } else {
            assert r[i] == rest[i - 1] && r[j] == rest[j - 1];
          }
        }
      }
    }
  }

  /** Lines 31-44 for one entry of the filtered listing. Reading a directory throws; a
      file without a metadata block adds nothing; otherwise the entry carries the trimmed
      `description:` value, or "<name> command" when there is none. */
  function CommandStep(entry: Node): (r: Step<Command>)
    requires IsMarkdown(entry.name)
    ensures r.Fail? <==> entry.Dir?
    ensures r.Put? ==> r.key + ".md" == entry.name && r.value.file == "./commands/" + entry.name
  {
    match entry
    case Dir(_, _) => Fail
    case File(file, content) =>
      var name := CommandName(file);
      match FindFrontmatter(content)
      case None => Skip
      case Some(fm) =>
        Put(name, Command(FieldValue(fm, "description", name + " command"), "./commands/" + file))
  }

  /** The steps of the `forEach` over the filtered listing, in order. */
  function CommandSteps(listing: seq<Node>): (r: seq<Step<Command>>)
    ensures |r| == |MarkdownEntries(listing)|
  {
    var files := MarkdownEntries(listing);
    seq(|files|, i requires 0 <= i < |files| => CommandStep(files[i]))
  }

  /** The shape of one command entry: its key is the file name without `.md`, its `file`
      is "./commands/" followed by the file name, and it comes from a file with a
      metadata block, described by that block or by the fallback. */
  lemma CommandStepShape(entry: Node)
    requires IsMarkdown(entry.name) && CommandStep(entry).Put?
    ensures var s := CommandStep(entry);
            && entry.File? && entry.name == s.key + ".md"
            && s.value.file == "./commands/" + s.key + ".md"
            && FindFrontmatter(entry.content).Some?
            && s.value.description
               == FieldValue(FindFrontmatter(entry.content).value, "description", s.key + " command")
  {
  }

  /** An entry without a metadata block leaves the command table unchanged, and a
      directory is the only entry that aborts the run. */
  lemma CommandStepSkipOrFail(entry: Node)
    requires IsMarkdown(entry.name)
    ensures CommandStep(entry).Skip? <==> entry.File? && FindFrontmatter(entry.content).None?
    ensures CommandStep(entry).Fail? <==> entry.Dir?
  {
  }

  /** The command table of the run from an empty table. */
  function CommandTable(listing: seq<Node>): Run<Command>
  {
    Exec(map[], CommandSteps(listing))
  }

  /** The commands loop completes unless a directory's name ends in `.md`. */
  lemma CommandTableOk(listing: seq<Node>)
    ensures CommandTable(listing).ok
            <==> forall n :: n in listing && IsMarkdown(n.name) ==> n.File?
  {
    var files := MarkdownEntries(listing);
    var steps := CommandSteps(listing);
    ExecOk(map[], steps);
    if CommandTable(listing).ok {
      forall n | n in listing && IsMarkdown(n.name) ensures n.File? {
        assert n in files;
        var i :| 0 <= i < |files| && files[i] == n;
        assert steps[i] == CommandStep(n);
      }
    } else {
      var i :| 0 <= i < |steps| && steps[i].Fail?;
      assert steps[i] == CommandStep(files[i]);
      assert files[i] in files;
    }
  }

  /** Every assigned key is the name of a markdown file with a metadata block. */
  lemma PutKeyIsName(listing: seq<Node>, k: string)
    requires k in PutKeys(CommandSteps(listing))
    ensures exists n :: n in listing && n.File? && IsMarkdown(n.name)
                        && FindFrontmatter(n.content).Some? && CommandName(n.name) == k
    ensures k != ProtoKey
  {
    var files := MarkdownEntries(listing);
    var steps := CommandSteps(listing);
    var i :| 0 <= i < |steps| && steps[i].Put? && steps[i].key != ProtoKey && steps[i].key == k;
    assert steps[i] == CommandStep(files[i]);
    assert files[i] in files;
  }

  /** The name of every markdown file with a metadata block, bar `__proto__`, is stored. */
  lemma NameIsPutKey(listing: seq<Node>, n: Node)
    requires n in listing && n.File? && IsMarkdown(n.name) && FindFrontmatter(n.content).Some?
    requires CommandName(n.name) != ProtoKey
    ensures CommandName(n.name) in PutKeys(CommandSteps(listing))
  {
    var files := MarkdownEntries(listing);
    var steps := CommandSteps(listing);
    assert n in files;
    var i :| 0 <= i < |files| && files[i] == n;
    assert steps[i] == CommandStep(n);
  }

  /** The keys of a completed command table are exactly the names, without `.md`, of the
      markdown files whose content starts with a metadata block, except `__proto__`. */
  lemma CommandTableKeys(listing: seq<Node>)
    requires CommandTable(listing).ok
    ensures CommandTable(listing).table.Keys
            == set n | n in listing && n.File? && IsMarkdown(n.name)
                       && FindFrontmatter(n.content).Some? && CommandName(n.name) != ProtoKey
                       :: CommandName(n.name)
  {
    var steps := CommandSteps(listing);
    ExecOk(map[], steps);
    ExecKeys(map[], steps);
    var want := set n | n in listing && n.File? && IsMarkdown(n.name)
                        && FindFrontmatter(n.content).Some? && CommandName(n.name) != ProtoKey
                        :: CommandName(n.name);
    forall k | k in PutKeys(steps) ensures k in want {
      PutKeyIsName(listing, k);
    }
    forall k | k in want ensures k in PutKeys(steps) {
      var n :| n in listing && n.File? && IsMarkdown(n.name)
               && FindFrontmatter(n.content).Some? && CommandName(n.name) != ProtoKey
               && CommandName(n.name) == k;
      NameIsPutKey(listing, n);
    }
  }

  /** Every entry of the command table has `file` equal to "./commands/<key>.md",
      whether or not the run completed. */
  lemma CommandTableFiles(listing: seq<Node>, k: string)
    requires k in CommandTable(listing).table
    ensures CommandTable(listing).table[k].file == "./commands/" + k + ".md"
  {
    RunFilesFollowKeys(CommandSteps(listing), k);
  }

  /** In a run from an empty table whose every step writes "./commands/<key>.md" as the
      `file`, every entry present has that shape. */
  lemma {:induction false} RunFilesFollowKeys(steps: seq<Step<Command>>, k: string)
    requires k in Exec(map[], steps).table
    requires forall i :: 0 <= i < |steps| && steps[i].Put? ==>
               steps[i].value.file == "./commands/" + steps[i].key + ".md"
    ensures Exec(map[], steps).table[k].file == "./commands/" + k + ".md"
  {
    if steps != [] {
      var init := steps[..|steps| - 1];
      assert forall i :: 0 <= i < |init| ==> init[i] == steps[i];
      var r := Exec(map[], init);
      var last := steps[|steps| - 1];
      if !(r.ok && last.Put? && last.key == k && k != ProtoKey) {
        RunFilesFollowKeys(init, k);
      }
    }
  }

  /** For a directory whose entries have distinct names, a completed run gives every
      markdown file with a metadata block exactly its own entry; `__proto__.md` gets none. */
  lemma CommandTableEntry(listing: seq<Node>, n: Node)
    requires DistinctNames(listing)
    requires CommandTable(listing).ok
    requires n in listing && n.File? && IsMarkdown(n.name)
    requires FindFrontmatter(n.content).Some?
    ensures CommandName(n.name) == ProtoKey ==> CommandName(n.name) !in CommandTable(listing).table
    ensures var key := CommandName(n.name);
            var fm := FindFrontmatter(n.content).value;
            key != ProtoKey ==>
              && key in CommandTable(listing).table
              && CommandTable(listing).table[key]
                 == Command(FieldValue(fm, "description", key + " command"), "./commands/" + n.name)
  {
    if CommandName(n.name) == ProtoKey {
      NoProtoKey(CommandSteps(listing));
      return;
    }
    var files := MarkdownEntries(listing);
    var steps := CommandSteps(listing);
    ExecOk(map[], steps);
    MarkdownEntriesDistinct(listing);
    assert n in files;
    var i :| 0 <= i < |files| && files[i] == n;
    assert steps[i] == CommandStep(n);
    forall j | i < j < |steps| && steps[j].Put? ensures steps[j].key != steps[i].key {
      assert steps[j] == CommandStep(files[j]);
      assert files[j].name != files[i].name;
    }
    ExecLastWins(map[], steps, i);
  }
}
