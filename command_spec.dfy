/**
 * What `processCommand(cmd, cwd)` computes, as a pure function of the filesystem it reads, the
 * command line, the current directory and the outcome the blog loader would report if it were
 * asked. The result is the `CommandResult` record and the filesystem afterwards.
 */
module CommandSpec {
  import opened Wrappers
  import opened JsStrings
  import opened PathResolver
  import opened VirtualFs

  /** One `ls` item: the `(name, type, ext)` of an entry. */
  datatype LsItem = LsItem(name: string, kind: Kind, ext: Option<string>)

  /**
   * `CommandResult`. `openUrl` is the page the browser is asked to open (`window.open`);
   * `shouldClearHistory` is `false` where the source leaves the field out.
   */
  datatype CommandResult = CommandResult(
    outputLines: seq<string>,
    lsItems: Option<seq<LsItem>>,
    newCwd: Option<string>,
    nano: Option<seq<string>>,
    shouldClearHistory: bool,
    openUrl: Option<string>)

  /** The result of one command and the filesystem it leaves behind. */
  datatype Step = Step(result: CommandResult, tree: Tree)

  // ----- The blog loader, as an outcome -----

  /** The per-article detail request: not ok, or ok with an optional `body_markdown`. */
  datatype Detail = DetailNotOk | DetailOk(bodyMarkdown: Option<string>)

  datatype Article = Article(slug: string, title: string, url: string, detail: Detail)

  /**
   * What loading `/blogs` comes to: the article list with each article's detail outcome, or the
   * `message` of the error that ended the attempt (`HTTP <status>` for a failed list request).
   */
  datatype BlogLoad = Fetched(articles: seq<Article>) | FetchFailed(message: string)

  const BLOG_HINT: string := "Hint: Use `view <filename.md>` to open blog posts in a new tab."

  function FetchFailureLine(message: string): string {
    "Failed to fetch blogs from Dev.to: " + message
  }

  /** `detail.body_markdown?.split('\n') || ['(No content)']`. */
  function BodyLines(bodyMarkdown: Option<string>): seq<string> {
    if bodyMarkdown.Some? then Split(bodyMarkdown.value, '\n') else ["(No content)"]
  }

  /** The file a loaded article becomes. */
  function BlogEntry(a: Article): FileEntry
    requires a.detail.DetailOk?
  {
    FileEntry(
      a.slug + ".md", File, Some("md"),
      Some(["# " + a.title, ""] + BodyLines(a.detail.bodyMarkdown) + ["", "Read more: " + a.url]),
      Some(a.url))
  }

  /** `blogFiles`: the articles whose detail request was ok, in order, as files. */
  function BlogFiles(articles: seq<Article>): (files: seq<FileEntry>)
    ensures |files| <= |articles|
    decreases |articles|
  {
    if articles == [] then []
    else
      var a := articles[|articles| - 1];
      BlogFiles(articles[..|articles| - 1]) + (if a.detail.DetailOk? then [BlogEntry(a)] else [])
  }

  // ----- help -----

  datatype HelpEntry = HelpEntry(cmd: string, desc: string)

  const HELP_ENTRIES: seq<HelpEntry> := [
    HelpEntry("cd <dir>", "Change directory"),
    HelpEntry("ls", "List directory contents"),
    HelpEntry("cat <file>", "View file content"),
    HelpEntry("nano <file>", "Open file in nano view"),
    HelpEntry("view <file>", "Open file visually in browser"),
    HelpEntry("clear", "Clear the screen"),
    HelpEntry("help", "Show this help")
  ]

  const HELP_HEADER: string := "Available commands:"

  /** The length of the longest `cmd` among the first `n` entries (0 for none). */
  function LongestCmdUpTo(entries: seq<HelpEntry>, n: nat): (m: nat)
    requires n <= |entries|
    ensures forall i :: 0 <= i < n ==> |entries[i].cmd| <= m
    ensures n == 0 ==> m == 0
    ensures n > 0 ==> exists i :: 0 <= i < n && |entries[i].cmd| == m
  {
    if n == 0 then 0
    else
      var m := LongestCmdUpTo(entries, n - 1);
      if |entries[n - 1].cmd| > m then |entries[n - 1].cmd| else m
  }

  /** The length of the longest `cmd` of `entries`. */
  function MaxCmdLength(entries: seq<HelpEntry>): nat {
    LongestCmdUpTo(entries, |entries|)
  }

  function HelpLine(e: HelpEntry, width: nat): string {
    "  " + PadEnd(e.cmd, width) + " - " + e.desc
  }

  /** The `help` text for `entries`: a header, then one line per entry padded to the longest command plus 2. */
  function HelpText(entries: seq<HelpEntry>): (lines: seq<string>)
    ensures |lines| == |entries| + 1 && lines[0] == HELP_HEADER
  {
    var width := MaxCmdLength(entries) + 2;
    [HELP_HEADER] + seq(|entries|, i requires 0 <= i < |entries| => HelpLine(entries[i], width))
  }

  /**
   * Every `help` line is laid out for the width of the longest command plus two, so the dashes of
   * all lines stand in one column and every command is followed by at least two spaces.
   */
  lemma HelpLinesAligned(entries: seq<HelpEntry>)
    ensures var lines := HelpText(entries); var w := MaxCmdLength(entries) + 2;
      && |lines| == |entries| + 1 && lines[0] == HELP_HEADER
      && forall i :: 1 <= i < |lines| ==> |entries[i - 1].cmd| + 2 <= w && lines[i] == HelpLine(entries[i - 1], w)
  {
  }

  /** The output of `help`. */
  function HelpOutput(): seq<string> {
    HelpText(HELP_ENTRIES)
  }

  // ----- The result records of each branch -----

  function Lines(outputLines: seq<string>): CommandResult {
    CommandResult(outputLines, None, None, None, false, None)
  }

  /** A successful `cd` into `path`. */
  function Moved(path: string, outputLines: seq<string>): CommandResult {
    CommandResult(outputLines, None, Some(path), None, false, None)
  }

  function LsItemOf(e: FileEntry): LsItem {
    LsItem(e.name, e.kind, e.ext)
  }

  /** `entries.map(e => ({ name: e.name, type: e.type, ext: e.ext }))`. */
  function LsItems(entries: seq<FileEntry>): (items: seq<LsItem>)
    ensures |items| == |entries|
    ensures forall i :: 0 <= i < |entries| ==> items[i] == LsItemOf(entries[i])
  {
    seq(|entries|, i requires 0 <= i < |entries| => LsItemOf(entries[i]))
  }

  /** `ls`; the `'Fetching blogs...'` line pushed for an empty `/blogs` is overwritten by `'(empty)'`. */
  function LsResult(tree: Tree, cwd: string): (r: CommandResult)
    ensures r.lsItems.Some? <==> |Listing(tree, cwd)| > 0
    ensures r.newCwd.None? && r.nano.None? && r.openUrl.None? && !r.shouldClearHistory
  {
    var entries := Listing(tree, cwd);
    if |entries| > 0 then CommandResult([], Some(LsItems(entries)), None, None, false, None)
    else Lines(["(empty)"])
  }

  /** `cd <target>` (the target already trimmed); it sets nothing but the output and the new directory. */
  function CdStep(tree: Tree, cwd: string, target: string, load: BlogLoad): (s: Step)
    ensures s.result.lsItems.None? && s.result.nano.None? && s.result.openUrl.None? && !s.result.shouldClearHistory
  {
    if target == "~" then Step(Moved(ROOT, []), tree)
    else CdResolved(tree, cwd, target, FullPath(cwd, target), load)
  }

  /** The `cd` branch once `target` has been resolved against `cwd` to `resolvedPath`. */
  function CdResolved(tree: Tree, cwd: string, target: string, resolvedPath: string, load: BlogLoad): (s: Step)
    ensures s.result.lsItems.None? && s.result.nano.None? && s.result.openUrl.None? && !s.result.shouldClearHistory
    ensures s.result.newCwd.Some? <==> resolvedPath in tree
  {
    if resolvedPath in tree then
      if resolvedPath == BLOGS && |tree[BLOGS]| == 0 then
        match load
        case Fetched(articles) => Step(Moved(BLOGS, [BLOG_HINT]), tree[BLOGS := BlogFiles(articles)])
        case FetchFailed(message) => Step(Moved(BLOGS, [FetchFailureLine(message), BLOG_HINT]), tree)
      else Step(Moved(resolvedPath, if resolvedPath == BLOGS then [BLOG_HINT] else []), tree)
    else
      var targetEntry := FindByName(Listing(tree, cwd), target);
      if targetEntry.Some? && targetEntry.value.kind == File then
        Step(Lines(["cd: " + target + ": Not a directory"]), tree)
      else
        Step(Lines(["cd: " + target + ": No such file or directory"]), tree)
  }

  /** The three ways to open a file. */
  datatype Viewer = Cat | Nano | View {
    function Keyword(): string {
      match this
      case Cat => "cat"
      case Nano => "nano"
      case View => "view"
    }
  }

  /** `cat`, `nano` or `view <name>` (the name already trimmed). */
  function OpenResult(tree: Tree, cwd: string, viewer: Viewer, name: string): (r: CommandResult)
    ensures r.newCwd.None? && r.lsItems.None? && !r.shouldClearHistory
    ensures r.openUrl.Some? ==> viewer == View
    ensures r.nano.Some? <==> viewer == Nano && FindFile(Listing(tree, cwd), name).Some?
                                && FindFile(Listing(tree, cwd), name).value.content.Some?
  {
    var file := FindFile(Listing(tree, cwd), name);
    if file.Some? && file.value.content.Some? then
      var f := file.value;
      if viewer == Nano then CommandResult([], None, None, Some([f.name] + f.content.value), false, None)
      else if viewer == View && HasBlogUrl(f) then
        CommandResult(["Opening " + f.name + " in a new tab..."], None, None, None, false, f.blogUrl)
      else if viewer == Cat && HasBlogUrl(f) then
        Lines(["This is a blog post. Use `view " + f.name + "` to open it in a new tab."])
      else Lines(f.content.value)
    else
      Lines([viewer.Keyword() + ": " + name + ": No such file or directory"])
  }

  /** Which of `cat`, `nano` and `view` a command line starting with one of them names. */
  function ViewerOf(trimmed: string): (viewer: Viewer)
    ensures StartsWith(trimmed, viewer.Keyword() + " ") || viewer == Cat
  {
    if StartsWith(trimmed, "nano ") then Nano else if StartsWith(trimmed, "view ") then View else Cat
  }

  /** The command a trimmed command line names, tried in the order the source tests them. */
  datatype Command = HelpCmd | LsCmd | CdCmd(target: string) | OpenCmd(viewer: Viewer, name: string) | ClearCmd | UnknownCmd

  /**
   * The dispatch of `processCommand` on the trimmed line: `help`, `ls` and `clear` by exact match,
   * `cd `, `cat `, `nano ` and `view ` by prefix, with the rest of the line trimmed.
   */
  function Parse(trimmed: string): (command: Command)
    ensures command.CdCmd? ==> StartsWith(trimmed, "cd ")
    ensures command.OpenCmd? ==> StartsWith(trimmed, command.viewer.Keyword() + " ")
    ensures command == ClearCmd <==> trimmed == "clear"
  {
    if trimmed == "help" then HelpCmd
    else if trimmed == "ls" then LsCmd
    else if StartsWith(trimmed, "cd ") then
      assert trimmed[1] == "cd "[1];
      CdCmd(Trim(trimmed[3..]))
    else if StartsWith(trimmed, "cat ") || StartsWith(trimmed, "nano ") || StartsWith(trimmed, "view ") then
      assert trimmed[1] == "cat "[1] || trimmed[1] == "nano "[1] || trimmed[1] == "view "[1];
      var viewer := ViewerOf(trimmed);
      OpenCmd(viewer, Trim(trimmed[|viewer.Keyword()| + 1..]))
    else if trimmed == "clear" then ClearCmd
    else UnknownCmd
  }

  /** Carrying out a parsed `command`; `cmd` is the untrimmed line, echoed when nothing matches. */
  function Run(tree: Tree, command: Command, cmd: string, cwd: string, load: BlogLoad): (s: Step)
    ensures !command.CdCmd? ==> s.tree == tree
    ensures s.result.shouldClearHistory <==> command == ClearCmd
  {
    match command
    case HelpCmd => Step(Lines(HelpOutput()), tree)
    case LsCmd => Step(LsResult(tree, cwd), tree)
    case CdCmd(target) => CdStep(tree, cwd, target, load)
    case OpenCmd(viewer, name) => Step(OpenResult(tree, cwd, viewer, name), tree)
    case ClearCmd => Step(CommandResult([], None, None, None, true, None), tree)
    case UnknownCmd => Step(Lines(["Command not found: " + cmd]), tree)
  }

  /** `processCommand(cmd, cwd)`, with `load` standing for the network. */
  function Process(tree: Tree, cmd: string, cwd: string, load: BlogLoad): (s: Step)
    ensures !StartsWith(Trim(cmd), "cd ") ==> s.tree == tree
    ensures s.result.shouldClearHistory <==> Trim(cmd) == "clear"
  {
    Run(tree, Parse(Trim(cmd)), cmd, cwd, load)
  }
}
