/**
 * The command interpreter as the source runs it: `fileTree` is the mutable field `dirs` of a
 * `FileTree` object, and `ProcessCommand` builds its result in local variables, loops over the help
 * entries, over the target's path segments and over the loaded articles, and overwrites the
 * `/blogs` listing in place. Each method is proved to compute what `CommandSpec` says.
 */
module CommandProcessor {
  import opened Wrappers
  import opened JsStrings
  import opened PathResolver
  import opened VirtualFs
  import opened CommandSpec

  /** The `forEach` that finds `maxCmdLength`, the length of the longest command. */
  method LongestCommand(helpEntries: seq<HelpEntry>) returns (maxCmdLength: nat)
    ensures maxCmdLength == MaxCmdLength(helpEntries)
  {
    maxCmdLength := 0;
    for i := 0 to |helpEntries|
      invariant maxCmdLength == LongestCmdUpTo(helpEntries, i)
    {
      if |helpEntries[i].cmd| > maxCmdLength {
        maxCmdLength := |helpEntries[i].cmd|;
      }
    }
  }

  /** The `help` branch over its `helpEntries`: a header, then one padded line pushed per entry. */
  method FormatHelp(helpEntries: seq<HelpEntry>) returns (outputLines: seq<string>)
    ensures outputLines == HelpText(helpEntries)
  {
    var maxCmdLength := LongestCommand(helpEntries);
    outputLines := [HELP_HEADER];
    for i := 0 to |helpEntries|
      invariant |outputLines| == i + 1 && outputLines[0] == HELP_HEADER
      invariant forall k :: 1 <= k <= i ==> outputLines[k] == HelpLine(helpEntries[k - 1], maxCmdLength + 2)
    {
      var paddedCmd := PadEnd(helpEntries[i].cmd, maxCmdLength + 2);
      outputLines := outputLines + ["  " + paddedCmd + " - " + helpEntries[i].desc];
    }
    HelpLinesAligned(helpEntries);
  }

  /** The loop over the fetched articles: an article whose detail request is not ok is skipped. */
  method BuildBlogFiles(articles: seq<Article>) returns (blogFiles: seq<FileEntry>)
    ensures blogFiles == BlogFiles(articles)
  {
    blogFiles := [];
    for i := 0 to |articles|
      invariant blogFiles == BlogFiles(articles[..i])
    {
      assert articles[..i + 1][..i] == articles[..i];
      var article := articles[i];
      if !article.detail.DetailOk? {
        continue;
      }
      var bodyLines := if article.detail.bodyMarkdown.Some? then Split(article.detail.bodyMarkdown.value, '\n')
                       else ["(No content)"];
      blogFiles := blogFiles + [FileEntry(
        article.slug + ".md", File, Some("md"),
        Some(["# " + article.title, ""] + bodyLines + ["", "Read more: " + article.url]),
        Some(article.url))];
    }
    assert articles[..|articles|] == articles;
  }

  class FileTree {
    /** `fileTree`. */
    var dirs: Tree

    /** The seeded tree; the biography and resume lines are opaque. */
    constructor (aboutMe: seq<string>, resume: seq<string>)
      ensures dirs == SeedTree(aboutMe, resume)
    {
      dirs := SeedTree(aboutMe, resume);
    }

    /** The `ls` branch: reads `dirs`, changes nothing. */
    method ListDirectory(cwd: string) returns (r: CommandResult)
      ensures r == LsResult(dirs, cwd)
    {
      var outputLines: seq<string> := [];
      var lsItems: Option<seq<LsItem>> := None;
      var entries := Listing(dirs, cwd);
      if |entries| > 0 {
        lsItems := Some(LsItems(entries));
      } else {
        if cwd == BLOGS {
          outputLines := outputLines + ["Fetching blogs..."];
        }
        outputLines := ["(empty)"];
      }
      r := CommandResult(outputLines, lsItems, None, None, false, None);
    }

    /**
     * The `cd` branch for a trimmed `target`; the one place where `dirs` changes, by the
     * overwriting of the `/blogs` listing with what the loader produced.
     */
    method ChangeDirectory(cwd: string, target: string, load: BlogLoad) returns (r: CommandResult)
      modifies this
      ensures r == CdStep(old(dirs), cwd, target, load).result
      ensures dirs == CdStep(old(dirs), cwd, target, load).tree
    {
      if target == "~" {
        r := Moved(ROOT, []);
      } else {
        var resolvedPath := GetFullPath(cwd, target);
        r := ChangeToResolved(cwd, target, resolvedPath, load);
      }
    }

    /** The rest of the `cd` branch once `target` has been resolved to `resolvedPath`. */
    method ChangeToResolved(cwd: string, target: string, resolvedPath: string, load: BlogLoad) returns (r: CommandResult)
      modifies this
      ensures r == CdResolved(old(dirs), cwd, target, resolvedPath, load).result
      ensures dirs == CdResolved(old(dirs), cwd, target, resolvedPath, load).tree
    {
      var outputLines: seq<string> := [];
      var newCwd: Option<string> := None;
      if resolvedPath in dirs {
        newCwd := Some(resolvedPath);
        if resolvedPath == BLOGS && |dirs[BLOGS]| == 0 {
          match load {
            case Fetched(articles) =>
              var blogFiles := BuildBlogFiles(articles);
              dirs := dirs[BLOGS := blogFiles];
            case FetchFailed(message) =>
              outputLines := [FetchFailureLine(message)];
          }
        }
        if newCwd == Some(BLOGS) {
          outputLines := outputLines + [BLOG_HINT];
        }
      } else {
        var entriesInCwd := Listing(dirs, cwd);
        var targetEntry := FindByName(entriesInCwd, target);
        if targetEntry.Some? && targetEntry.value.kind == File {
          outputLines := ["cd: " + target + ": Not a directory"];
        } else {
          outputLines := ["cd: " + target + ": No such file or directory"];
        }
      }
      r := CommandResult(outputLines, None, newCwd, None, false, None);
    }

    /** The `cat`/`nano`/`view` branch for a trimmed file name: reads `dirs`, changes nothing. */
    method OpenFile(cwd: string, commandType: Viewer, targetFileName: string) returns (r: CommandResult)
      ensures r == OpenResult(dirs, cwd, commandType, targetFileName)
    {
      var outputLines: seq<string> := [];
      var nano: Option<seq<string>> := None;
      var openUrl: Option<string> := None;
      var entries := Listing(dirs, cwd);
      var file := FindFile(entries, targetFileName);
      if file.Some? && file.value.content.Some? {
        var f := file.value;
        if commandType == Nano {
          nano := Some([f.name] + f.content.value);
        } else if commandType == View && HasBlogUrl(f) {
          openUrl := f.blogUrl;
          outputLines := ["Opening " + f.name + " in a new tab..."];
        } else if commandType == Cat && HasBlogUrl(f) {
          outputLines := ["This is a blog post. Use `view " + f.name + "` to open it in a new tab."];
        } else {
          outputLines := f.content.value;
        }
      } else {
        outputLines := [commandType.Keyword() + ": " + targetFileName + ": No such file or directory"];
      }
      r := CommandResult(outputLines, None, None, nano, false, openUrl);
    }

    /**
     * `processCommand(cmd, cwd)`: dispatch on the trimmed command line, by exact match or by
     * prefix. `load` is what the blog loader reports if this command asks it.
     */
    method ProcessCommand(cmd: string, cwd: string, load: BlogLoad) returns (r: CommandResult)
      modifies this
      ensures r == Process(old(dirs), cmd, cwd, load).result
      ensures dirs == Process(old(dirs), cmd, cwd, load).tree
    {
      var trimmed := Trim(cmd);
      ghost var command := Parse(trimmed);
      assert Process(old(dirs), cmd, cwd, load) == Run(old(dirs), command, cmd, cwd, load);
      if trimmed == "help" {
        assert command == HelpCmd;
        var outputLines := FormatHelp(HELP_ENTRIES);
        r := Lines(outputLines);
        assert Step(r, dirs) == Run(old(dirs), command, cmd, cwd, load);
      } else if trimmed == "ls" {
        assert command == LsCmd;
        r := ListDirectory(cwd);
        assert Step(r, dirs) == Run(old(dirs), command, cmd, cwd, load);
      } else if StartsWith(trimmed, "cd ") {
        var target := Trim(trimmed[3..]);
        assert command == CdCmd(target);
        r := ChangeDirectory(cwd, target, load);
        assert Step(r, dirs) == Run(old(dirs), command, cmd, cwd, load);
      } else if StartsWith(trimmed, "cat ") || StartsWith(trimmed, "nano ") || StartsWith(trimmed, "view ") {
        var commandType := Cat;
        var targetFileName := "";
        if StartsWith(trimmed, "nano ") {
          commandType := Nano;
          targetFileName := Trim(trimmed[5..]);
        } else if StartsWith(trimmed, "view ") {
          commandType := View;
          targetFileName := Trim(trimmed[5..]);
        } else {
          commandType := Cat;
          targetFileName := Trim(trimmed[4..]);
        }
        assert commandType == ViewerOf(trimmed);
        assert |commandType.Keyword()| + 1 == if commandType == Cat then 4 else 5;
        assert command == OpenCmd(commandType, targetFileName);
        r := OpenFile(cwd, commandType, targetFileName);
        assert Step(r, dirs) == Run(old(dirs), command, cmd, cwd, load);
      } else if trimmed == "clear" {
        assert command == ClearCmd;
        r := CommandResult([], None, None, None, true, None);
        assert Step(r, dirs) == Run(old(dirs), command, cmd, cwd, load);
      } else {
        assert command == UnknownCmd;
        r := Lines(["Command not found: " + cmd]);
        assert Step(r, dirs) == Run(old(dirs), command, cmd, cwd, load);
      }
    }
  }
}
