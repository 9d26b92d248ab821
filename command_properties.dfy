/**
 * What `processCommand` promises its caller, proved of `CommandSpec.Process`: what each command
 * prints and where it moves, that the filesystem changes only when `/blogs` is first loaded, when
 * the blog loader is consulted at all, and that a directory the shell is moved into exists.
 */
module CommandProperties {
  import opened Wrappers
  import opened JsStrings
  import opened PathResolver
  import opened VirtualFs
  import opened CommandSpec

  /** The line printed when `cat`, `nano` or `view` finds no file. */
  function NoSuchFileLine(viewer: Viewer, name: string): string {
    viewer.Keyword() + ": " + name + ": No such file or directory"
  }

  // ----- Reading the command line -----

  /** `help`, `ls` and `clear` are recognised exactly, and nothing else is taken for them. */
  lemma ParseExact(t: string)
    ensures Parse(t) == HelpCmd <==> t == "help"
    ensures Parse(t) == LsCmd <==> t == "ls"
    ensures Parse(t) == ClearCmd <==> t == "clear"
  {
    if t == "clear" {
      assert t[0] == 'c' && t[1] == 'l';
      assert !StartsWith(t, "cd ") by { assert "cd "[1] == 'd'; }
      assert !StartsWith(t, "cat ") by { assert "cat "[1] == 'a'; }
    }
  }

  /** A line starting `cd ` is a `cd` of the rest of the line, trimmed. */
  lemma ParseCd(t: string)
    requires StartsWith(t, "cd ")
    ensures Parse(t) == CdCmd(Trim(t[3..]))
  {
    assert t[0] == 'c' && t[1] == 'd';
  }

  /** A line starting `cat `, `nano ` or `view ` opens the rest of the line, trimmed, with that viewer. */
  lemma ParseOpen(t: string, viewer: Viewer)
    requires StartsWith(t, viewer.Keyword() + " ")
    ensures Parse(t) == OpenCmd(viewer, Trim(t[|viewer.Keyword()| + 1..]))
  {
    var k := viewer.Keyword() + " ";
    assert t[..|k|] == k;
    assert t[0] == k[0] && t[1] == k[1];
    assert t != "help" && t != "ls" && !StartsWith(t, "cd ");
    match viewer
    case Cat => assert t[0] == 'c' && t[1] == 'a';
    case Nano => assert t[0] == 'n' && !StartsWith(t, "cat ");
    case View => assert t[0] == 'v' && !StartsWith(t, "cat ") && !StartsWith(t, "nano ");
  }

  /** A line is not understood exactly when it is none of the seven commands' forms. */
  lemma ParseUnknown(t: string)
    ensures Parse(t) == UnknownCmd <==>
      (t != "help" && t != "ls" && t != "clear"
       && !StartsWith(t, "cd ") && !StartsWith(t, "cat ") && !StartsWith(t, "nano ") && !StartsWith(t, "view "))
  {
    ParseExact(t);
    if StartsWith(t, "cd ") {
      ParseCd(t);
    } else if StartsWith(t, "cat ") {
      ParseOpen(t, Cat);
    } else if StartsWith(t, "nano ") {
      ParseOpen(t, Nano);
    } else if StartsWith(t, "view ") {
      ParseOpen(t, View);
    }
  }

  // ----- From the command line to the branch it runs -----

  /** Dispatch, one step of `Run`: `ls`, `help` and `clear` lines run their branch; the filesystem is left alone. */
  lemma ExactCommands(tree: Tree, cmd: string, cwd: string, load: BlogLoad)
    ensures Trim(cmd) == "ls" ==> Process(tree, cmd, cwd, load) == Step(LsResult(tree, cwd), tree)
    ensures Trim(cmd) == "help" ==> Process(tree, cmd, cwd, load) == Step(Lines(HelpOutput()), tree)
    ensures Trim(cmd) == "clear" ==> Process(tree, cmd, cwd, load) == Step(CommandResult([], None, None, None, true, None), tree)
  {
    ParseExact(Trim(cmd));
  }

  /** A `cd ` line runs `cd` on the rest of the line, trimmed. */
  lemma CdCommand(tree: Tree, cmd: string, cwd: string, load: BlogLoad)
    requires StartsWith(Trim(cmd), "cd ")
    ensures Process(tree, cmd, cwd, load) == CdStep(tree, cwd, Trim(Trim(cmd)[3..]), load)
  {
    ParseCd(Trim(cmd));
  }

  /** A `cat `, `nano ` or `view ` line opens the rest of the line, trimmed, and leaves the filesystem alone. */
  lemma OpenCommand(tree: Tree, cmd: string, cwd: string, load: BlogLoad, viewer: Viewer)
    requires StartsWith(Trim(cmd), viewer.Keyword() + " ")
    ensures Process(tree, cmd, cwd, load)
      == Step(OpenResult(tree, cwd, viewer, Trim(Trim(cmd)[|viewer.Keyword()| + 1..])), tree)
  {
    ParseOpen(Trim(cmd), viewer);
  }

  // ----- ls -----

  /**
   * `ls` lists the current directory's entries in order with no output lines, and prints exactly
   * `(empty)` for an empty or unknown directory; its `Fetching blogs...` line never survives.
   */
  lemma LsListsCurrentDirectory(tree: Tree, cwd: string)
    ensures var r := LsResult(tree, cwd); var entries := Listing(tree, cwd);
      && r.newCwd.None? && r.nano.None? && r.openUrl.None? && !r.shouldClearHistory
      && (|entries| > 0 ==>
            && r.outputLines == []
            && r.lsItems.Some? && |r.lsItems.value| == |entries|
            && (forall i :: 0 <= i < |entries| ==>
                  r.lsItems.value[i] == LsItem(entries[i].name, entries[i].kind, entries[i].ext)))
      && (|entries| == 0 ==> r.outputLines == ["(empty)"] && r.lsItems.None?)
      && "Fetching blogs..." !in r.outputLines
  {
  }

  // ----- cd -----

  /** Dispatch, one step of `CdStep`: `cd ~` goes to the root, prints nothing and leaves the filesystem alone. */
  lemma CdHome(tree: Tree, cwd: string, load: BlogLoad)
    ensures CdStep(tree, cwd, "~", load) == Step(CommandResult([], None, Some("/"), None, false, None), tree)
  {
  }

  /**
   * A `cd` whose resolved path is a key of the filesystem moves there; it prints nothing unless
   * the new directory is `/blogs`, which always ends with the hint line.
   */
  lemma CdIntoDirectory(tree: Tree, cwd: string, target: string, load: BlogLoad)
    requires target != "~" && FullPath(cwd, target) in tree
    ensures var s := CdStep(tree, cwd, target, load); var p := FullPath(cwd, target);
      && s.result.newCwd == Some(p)
      && p in s.tree
      && (p != BLOGS ==> s.result.outputLines == [] && s.tree == tree)
      && (p == BLOGS ==> |s.result.outputLines| >= 1 && s.result.outputLines[|s.result.outputLines| - 1] == BLOG_HINT)
  {
  }

  /** Whether the first entry of `entries` named `name` is a file. */
  ghost predicate FirstNamedIsFile(entries: seq<FileEntry>, name: string) {
    exists i :: 0 <= i < |entries| && entries[i].name == name && entries[i].kind == File
                && (forall j :: 0 <= j < i ==> entries[j].name != name)
  }

  /** The `find` by name sees the first entry with that name. */
  lemma FindByNameFile(entries: seq<FileEntry>, name: string)
    ensures (FindByName(entries, name).Some? && FindByName(entries, name).value.kind == File)
            <==> FirstNamedIsFile(entries, name)
  {
    var e := FindByName(entries, name);
    if e.Some? {
      var i :| 0 <= i < |entries| && entries[i] == e.value && entries[i].name == name
               && (forall j :: 0 <= j < i ==> entries[j].name != name);
      if FirstNamedIsFile(entries, name) {
        var i' :| 0 <= i' < |entries| && entries[i'].name == name && entries[i'].kind == File
                  && (forall j :: 0 <= j < i' ==> entries[j].name != name);
        assert i' == i;
      }
    }
  }

  /**
   * A `cd` whose resolved path is not a key stays put and prints one line: `Not a directory`
   * exactly when the first entry of the current directory named like the target is a file.
   */
  lemma CdFailure(tree: Tree, cwd: string, target: string, load: BlogLoad)
    requires target != "~" && FullPath(cwd, target) !in tree
    ensures var s := CdStep(tree, cwd, target, load);
      && s.tree == tree && s.result.newCwd.None?
      && (FirstNamedIsFile(Listing(tree, cwd), target) ==> s.result == Lines(["cd: " + target + ": Not a directory"]))
      && (!FirstNamedIsFile(Listing(tree, cwd), target) ==> s.result == Lines(["cd: " + target + ": No such file or directory"]))
  {
    FindByNameFile(Listing(tree, cwd), target);
  }

  /** `terraform-aws` seen from `/projects` is `/projects/terraform-aws`, which is none of the seed's directories. */
  lemma TerraformPath()
    ensures FullPath(PROJECTS, "terraform-aws") == PathOf(["projects", "terraform-aws"])
    ensures FullPath(PROJECTS, "terraform-aws") !in {ROOT, PROJECTS, BLOGS}
  {
    assert '/' !in "projects" && '/' !in "terraform-aws";
    assert PathOf(["projects"]) == PROJECTS;
    ChildPath(["projects"], "terraform-aws");
    assert ["projects", "terraform-aws"][1..] == ["terraform-aws"];
    assert Join(["projects", "terraform-aws"], '/') == "projects" + "/" + "terraform-aws";
    assert |PathOf(["projects", "terraform-aws"])| == 23;
  }

  /**
   * The seeded `/projects` lists its two folders, but neither has a key of its own, so `cd` into
   * one of them is refused as a missing directory.
   */
  lemma CdIntoProjectFolderFails(aboutMe: seq<string>, load: BlogLoad, resume: seq<string>)
    ensures var tree := SeedTree(aboutMe, resume);
      CdStep(tree, PROJECTS, "terraform-aws", load)
        == Step(Lines(["cd: " + "terraform-aws" + ": No such file or directory"]), tree)
  {
    var tree := SeedTree(aboutMe, resume);
    SeedTerraformMissing(aboutMe, resume);
    SeedProjectsFolders(aboutMe, resume);
    CdFailure(tree, PROJECTS, "terraform-aws", load);
  }

  /** In the seed, `/projects/terraform-aws` is no directory. */
  lemma SeedTerraformMissing(aboutMe: seq<string>, resume: seq<string>)
    ensures FullPath(PROJECTS, "terraform-aws") !in SeedTree(aboutMe, resume)
  {
    TerraformPath();
    SeedKeys(aboutMe, resume);
  }

  /** In the seed, `/projects` lists only folders, so no file there is named `terraform-aws`. */
  lemma SeedProjectsFolders(aboutMe: seq<string>, resume: seq<string>)
    ensures !FirstNamedIsFile(Listing(SeedTree(aboutMe, resume), PROJECTS), "terraform-aws")
  {
    var entries := Listing(SeedTree(aboutMe, resume), PROJECTS);
    assert entries == [FolderEntry("terraform-aws"), FolderEntry("cicd-pipeline")];
    assert forall i :: 0 <= i < |entries| ==> entries[i].kind == Folder;
  }

  /** The seed's directories are exactly the root, `/projects` and `/blogs`. */
  lemma SeedKeys(aboutMe: seq<string>, resume: seq<string>)
    ensures SeedTree(aboutMe, resume).Keys == {ROOT, PROJECTS, BLOGS}
  {
  }

  // ----- The blog loader -----

  /**
   * The first `cd` into an empty `/blogs` consults the loader: a successful load stores the
   * articles whose detail request was ok and prints only the hint.
   */
  lemma BlogsLoadSuccess(tree: Tree, cwd: string, target: string, articles: seq<Article>)
    requires target != "~" && FullPath(cwd, target) == BLOGS && BLOGS in tree && tree[BLOGS] == []
    ensures CdStep(tree, cwd, target, Fetched(articles))
      == Step(Moved(BLOGS, [BLOG_HINT]), tree[BLOGS := BlogFiles(articles)])
  {
  }

  /**
   * A failed load reports its message, still moves into `/blogs` with the hint, and leaves
   * `/blogs` empty, so the next `cd` there consults the loader again.
   */
  lemma BlogsLoadFailure(tree: Tree, cwd: string, target: string, message: string,
                          cwd2: string, target2: string, load2: BlogLoad)
    requires target != "~" && FullPath(cwd, target) == BLOGS && BLOGS in tree && tree[BLOGS] == []
    requires target2 != "~" && FullPath(cwd2, target2) == BLOGS
    ensures var s := CdStep(tree, cwd, target, FetchFailed(message));
      && s == Step(Moved(BLOGS, [FetchFailureLine(message), BLOG_HINT]), tree)
      && (load2.Fetched? ==> CdStep(s.tree, cwd2, target2, load2).tree == tree[BLOGS := BlogFiles(load2.articles)])
      && (load2.FetchFailed? ==>
            CdStep(s.tree, cwd2, target2, load2).result.outputLines == [FetchFailureLine(load2.message), BLOG_HINT])
  {
  }

  /** A `cd` consults the loader only when it resolves to an empty `/blogs`. */
  lemma CdLoader(tree: Tree, cwd: string, target: string, load1: BlogLoad, load2: BlogLoad)
    requires CdStep(tree, cwd, target, load1) != CdStep(tree, cwd, target, load2)
    ensures target != "~" && FullPath(cwd, target) == BLOGS && BLOGS in tree && tree[BLOGS] == []
  {
  }

  /**
   * A `cd` changes the filesystem only by storing a successful load into an empty `/blogs`; the
   * set of directories stays the same, and the shell never gets told to move into a non-directory.
   */
  lemma CdFrame(tree: Tree, cwd: string, target: string, load: BlogLoad)
    ensures var s := CdStep(tree, cwd, target, load);
      && s.tree.Keys == tree.Keys
      && (s.tree == tree || (BLOGS in tree && tree[BLOGS] == [] && load.Fetched? && s.tree == tree[BLOGS := BlogFiles(load.articles)]))
      && (s.result.newCwd.Some? ==> s.result.newCwd.value in s.tree || (target == "~" && s.result.newCwd.value == ROOT))
      && s.result.lsItems.None? && s.result.nano.None? && !s.result.shouldClearHistory && s.result.openUrl.None?
  {
    CdTree(tree, cwd, target, load);
    CdOnlyMoves(tree, cwd, target, load);
  }

  /** What a `cd` does to the filesystem. */
  lemma CdTree(tree: Tree, cwd: string, target: string, load: BlogLoad)
    ensures var s := CdStep(tree, cwd, target, load);
      && s.tree.Keys == tree.Keys
      && (s.tree == tree || (BLOGS in tree && tree[BLOGS] == [] && load.Fetched? && s.tree == tree[BLOGS := BlogFiles(load.articles)]))
  {
    if target != "~" {
      ResolvedTree(tree, cwd, target, FullPath(cwd, target), load);
    }
  }

  /** What a resolved `cd` does to the filesystem, whatever the path resolved to. */
  lemma ResolvedTree(tree: Tree, cwd: string, target: string, resolvedPath: string, load: BlogLoad)
    ensures var s := CdResolved(tree, cwd, target, resolvedPath, load);
      && s.tree.Keys == tree.Keys
      && (s.tree == tree || (BLOGS in tree && tree[BLOGS] == [] && load.Fetched? && s.tree == tree[BLOGS := BlogFiles(load.articles)]))
  {
    if resolvedPath == BLOGS && BLOGS in tree && |tree[BLOGS]| == 0 && load.Fetched? {
      UpdateKeepsKeys(tree, BLOGS, BlogFiles(load.articles));
    }
  }

  /** Overwriting the listing of an existing directory keeps the set of directories. */
  lemma UpdateKeepsKeys(tree: Tree, path: string, entries: seq<FileEntry>)
    requires path in tree
    ensures tree[path := entries].Keys == tree.Keys
  {
  }

  /** A `cd` only ever moves, and only into a directory or home. */
  lemma CdOnlyMoves(tree: Tree, cwd: string, target: string, load: BlogLoad)
    ensures var s := CdStep(tree, cwd, target, load);
      && (s.result.newCwd.Some? ==> s.result.newCwd.value in tree || (target == "~" && s.result.newCwd.value == ROOT))
      && s.result.lsItems.None? && s.result.nano.None? && !s.result.shouldClearHistory && s.result.openUrl.None?
  {
    if target != "~" {
      var r := CdResolved(tree, cwd, target, FullPath(cwd, target), load).result;
      if FullPath(cwd, target) in tree {
        assert r == Moved(FullPath(cwd, target), r.outputLines);
      } else {
        assert r == Lines(r.outputLines);
      }
    }
  }

  /**
   * The loader's answer matters only to a `cd` that resolves to `/blogs` while `/blogs` is empty:
   * any other command, and any `cd` once `/blogs` holds files, ignores it.
   */
  lemma LoaderConsultedOnlyForEmptyBlogs(tree: Tree, cmd: string, cwd: string, load1: BlogLoad, load2: BlogLoad)
    requires Process(tree, cmd, cwd, load1) != Process(tree, cmd, cwd, load2)
    ensures Parse(Trim(cmd)).CdCmd? && FullPath(cwd, Parse(Trim(cmd)).target) == BLOGS
    ensures BLOGS in tree && tree[BLOGS] == []
  {
    var c := Parse(Trim(cmd));
    assert Process(tree, cmd, cwd, load1) == Run(tree, c, cmd, cwd, load1);
    assert Process(tree, cmd, cwd, load2) == Run(tree, c, cmd, cwd, load2);
    if c.CdCmd? {
      CdLoader(tree, cwd, c.target, load1, load2);
    }
  }

  /** A load that yields no file leaves `/blogs` empty: every article list whose details all failed. */
  lemma {:induction false} BlogFilesEmptyWhenNoDetail(articles: seq<Article>)
    requires forall i :: 0 <= i < |articles| ==> articles[i].detail.DetailNotOk?
    ensures BlogFiles(articles) == []
    decreases |articles|
  {
    if articles != [] {
      BlogFilesEmptyWhenNoDetail(articles[..|articles| - 1]);
    }
  }

  /** The loop over articles distributes over concatenation of article lists. */
  lemma {:induction false} BlogFilesAppend(a: seq<Article>, b: seq<Article>)
    ensures BlogFiles(a + b) == BlogFiles(a) + BlogFiles(b)
    decreases |b|
  {
    if b == [] {
      assert a + b == a;
    } else {
      var b' := b[..|b| - 1];
      assert (a + b)[..|a + b| - 1] == a + b';
      assert (a + b)[|a + b| - 1] == b[|b| - 1];
      BlogFilesAppend(a, b');
    }
  }

  /**
   * The stored blog files are exactly the entries of the articles whose detail request was ok:
   * every file comes from such an article, and every such article has its file.
   */
  lemma {:induction false} BlogFilesMembers(articles: seq<Article>)
    ensures forall f :: f in BlogFiles(articles) ==>
      exists i :: 0 <= i < |articles| && articles[i].detail.DetailOk? && f == BlogEntry(articles[i])
    ensures forall i :: 0 <= i < |articles| && articles[i].detail.DetailOk? ==> BlogEntry(articles[i]) in BlogFiles(articles)
    decreases |articles|
  {
    if articles != [] {
      var init := articles[..|articles| - 1];
      var a := articles[|articles| - 1];
      BlogFilesMembers(init);
      assert forall i :: 0 <= i < |init| ==> init[i] == articles[i];
      forall f | f in BlogFiles(articles)
        ensures exists i :: 0 <= i < |articles| && articles[i].detail.DetailOk? && f == BlogEntry(articles[i])
      {
        if f !in BlogFiles(init) {
          assert articles[|articles| - 1] == a;
        }
      }
    }
  }

  /**
   * A loaded article becomes a Markdown file named after its slug, titled, linked to its page,
   * and its body markdown is recovered by joining the lines between the title block and the link.
   */
  lemma BlogEntryShape(a: Article)
    requires a.detail.DetailOk?
    ensures var f := BlogEntry(a); var c := f.content.value;
      && f.name == a.slug + ".md" && f.kind == File && f.ext == Some("md") && f.blogUrl == Some(a.url)
      && f.content.Some? && |c| >= 5
      && c[0] == "# " + a.title && c[1] == "" && c[|c| - 2] == "" && c[|c| - 1] == "Read more: " + a.url
      && (a.detail.bodyMarkdown.Some? ==> Join(c[2..|c| - 2], '\n') == a.detail.bodyMarkdown.value)
      && (a.detail.bodyMarkdown.None? ==> c[2..|c| - 2] == ["(No content)"])
  {
    var c := BlogEntry(a).content.value;
    var body := BodyLines(a.detail.bodyMarkdown);
    assert c[2..|c| - 2] == body;
    if a.detail.bodyMarkdown.Some? {
      SplitJoin(a.detail.bodyMarkdown.value, '\n');
    }
  }

  // ----- The filesystem changes only when /blogs is first loaded -----

  /**
   * Every command leaves the filesystem as it was, except a `cd` into an empty `/blogs` whose load
   * succeeded, which replaces that one listing; the set of directories never changes.
   */
  lemma TreeFrame(tree: Tree, cmd: string, cwd: string, load: BlogLoad)
    ensures var t := Process(tree, cmd, cwd, load).tree;
      && t.Keys == tree.Keys
      && (t == tree || (BLOGS in tree && tree[BLOGS] == [] && load.Fetched? && t == tree[BLOGS := BlogFiles(load.articles)]))
  {
    var c := Parse(Trim(cmd));
    assert Process(tree, cmd, cwd, load) == Run(tree, c, cmd, cwd, load);
    if c.CdCmd? {
      CdFrame(tree, cwd, c.target, load);
    }
  }

  /** Which part of the filesystem a session relies on: the root and `/blogs` are directories. */
  ghost predicate Session(tree: Tree) {
    ROOT in tree && BLOGS in tree
  }

  lemma SeedIsSession(aboutMe: seq<string>, resume: seq<string>)
    ensures Session(SeedTree(aboutMe, resume))
  {
  }

  /**
   * Every command keeps the session's directories, and a directory the shell is told to move
   * into is one of the filesystem's keys afterwards.
   */
  lemma SessionPreserved(tree: Tree, cmd: string, cwd: string, load: BlogLoad)
    requires Session(tree)
    ensures var s := Process(tree, cmd, cwd, load);
      && Session(s.tree)
      && (s.result.newCwd.Some? ==> s.result.newCwd.value in s.tree)
  {
    var c := Parse(Trim(cmd));
    assert Process(tree, cmd, cwd, load) == Run(tree, c, cmd, cwd, load);
    if c.CdCmd? {
      CdFrame(tree, cwd, c.target, load);
    }
  }

  // ----- cat, nano and view -----

  /** `cat`, `nano` or `view` of a name that is no file of the current directory prints the error line. */
  lemma OpenNoSuchFile(tree: Tree, cwd: string, viewer: Viewer, name: string)
    requires forall i :: 0 <= i < |Listing(tree, cwd)| ==> !(Listing(tree, cwd)[i].name == name && Listing(tree, cwd)[i].kind == File)
    ensures OpenResult(tree, cwd, viewer, name) == Lines([NoSuchFileLine(viewer, name)])
  {
  }

  /**
   * `cat`, `nano` or `view` of a name whose first file of the current directory has no `content`
   * prints the same error line; only a missing array counts, an empty one is content.
   */
  lemma OpenFileWithoutContent(tree: Tree, cwd: string, viewer: Viewer, name: string, f: FileEntry)
    requires FindFile(Listing(tree, cwd), name) == Some(f) && f.content.None?
    ensures OpenResult(tree, cwd, viewer, name) == Lines([NoSuchFileLine(viewer, name)])
  {
  }

  /**
   * When the first file of the current directory with that name has content: `nano` shows its name
   * above its lines; `view` of a blog post opens its page; `cat` of a blog post points to `view`;
   * anything else prints the lines as they are. Nothing but `view` of a blog post opens a page.
   */
  lemma OpenFoundFile(tree: Tree, cwd: string, viewer: Viewer, name: string, i: nat)
    requires var entries := Listing(tree, cwd);
      && i < |entries| && entries[i].name == name && entries[i].kind == File && entries[i].content.Some?
      && (forall j :: 0 <= j < i ==> !(entries[j].name == name && entries[j].kind == File))
    ensures var f := Listing(tree, cwd)[i]; var r := OpenResult(tree, cwd, viewer, name);
      && (viewer == Nano ==> r == CommandResult([], None, None, Some([name] + f.content.value), false, None))
      && (viewer == View && f.blogUrl.Some? && f.blogUrl.value != "" ==>
            r == CommandResult(["Opening " + name + " in a new tab..."], None, None, None, false, Some(f.blogUrl.value)))
      && (viewer == Cat && f.blogUrl.Some? && f.blogUrl.value != "" ==>
            r == Lines(["This is a blog post. Use `view " + name + "` to open it in a new tab."]))
      && ((viewer != Nano && (f.blogUrl.None? || f.blogUrl.value == "")) ==> r == Lines(f.content.value))
      && (r.openUrl.Some? <==> viewer == View && f.blogUrl.Some? && f.blogUrl.value != "")
  {
    var entries := Listing(tree, cwd);
    var r := FindFile(entries, name);
    var k :| 0 <= k < |entries| && entries[k] == r.value && entries[k].name == name && entries[k].kind == File
             && (forall j :: 0 <= j < k ==> !(entries[j].name == name && entries[j].kind == File));
    assert k == i;
  }

  // ----- help, clear and the rest -----

  /**
   * A `help` line for a command that fits in `width` shows two spaces, the command, spaces up to
   * `width`, then ` - ` and the description.
   */
  lemma HelpLineLayout(e: HelpEntry, width: nat)
    requires |e.cmd| + 2 <= width
    ensures var line := HelpLine(e, width);
      && |line| == width + 5 + |e.desc|
      && line[..2] == "  "
      && line[2..2 + |e.cmd|] == e.cmd
      && (forall k :: 2 + |e.cmd| <= k < 2 + width ==> line[k] == ' ')
      && line[2 + width..5 + width] == " - "
      && line[5 + width..] == e.desc
  {
    var p := PadEnd(e.cmd, width);
    var line := HelpLine(e, width);
    assert line == "  " + p + " - " + e.desc;
    assert line[2..2 + |p|] == p;
    assert line[2 + width..5 + width] == " - ";
  }

  /** Example: the longest of the seven commands is `view <file>`, 11 characters, so commands are padded to 13. */
  lemma HelpWidth()
    ensures MaxCmdLength(HELP_ENTRIES) == 11
  {
    var e := HELP_ENTRIES;
    assert LongestCmdUpTo(e, 1) == 8;
    assert LongestCmdUpTo(e, 2) == 8;
    assert LongestCmdUpTo(e, 3) == 10;
    assert LongestCmdUpTo(e, 4) == 11;
    assert LongestCmdUpTo(e, 5) == 11;
    assert LongestCmdUpTo(e, 6) == 11;
  }

  /** Example: `help` prints its header and one line for each of the seven commands. */
  lemma HelpOutputLength()
    ensures |HelpOutput()| == 8
  {
    HelpLinesAligned(HELP_ENTRIES);
  }

  /** `clear` is the one command that clears the history, and it prints nothing. */
  lemma ClearsHistoryIff(tree: Tree, cmd: string, cwd: string, load: BlogLoad)
    ensures Process(tree, cmd, cwd, load).result.shouldClearHistory <==> Trim(cmd) == "clear"
  {
    ParseExact(Trim(cmd));
    var c := Parse(Trim(cmd));
    assert Process(tree, cmd, cwd, load) == Run(tree, c, cmd, cwd, load);
    if c.CdCmd? {
      CdFrame(tree, cwd, c.target, load);
    }
  }

  /** Dispatch, one step of `Run`: a line that no command recognises is echoed back untrimmed, with nothing else changed. */
  lemma CommandNotFound(tree: Tree, cmd: string, cwd: string, load: BlogLoad)
    requires Parse(Trim(cmd)) == UnknownCmd
    ensures Process(tree, cmd, cwd, load) == Step(Lines(["Command not found: " + cmd]), tree)
  {
  }

  /** A bare `cd` is not a command, whatever white space surrounds it, and it is echoed with that white space. */
  lemma BareCdNotFound(tree: Tree, cwd: string, load: BlogLoad)
    ensures Process(tree, " cd  ", cwd, load) == Step(Lines(["Command not found:  cd  "]), tree)
  {
    assert " cd  "[1..] == "cd  " && IsJsSpace(' ') && !IsJsSpace('c') && !IsJsSpace('d');
    assert TrimStart(" cd  ") == "cd  ";
    assert "cd  "[..3] == "cd " && "cd "[..2] == "cd";
    assert TrimEnd("cd ") == "cd";
    assert TrimEnd("cd  ") == "cd";
    assert Trim(" cd  ") == "cd";
    ParseUnknown("cd");
    assert Parse("cd") == UnknownCmd;
    assert "Command not found: " + " cd  " == "Command not found:  cd  ";
  }
}
