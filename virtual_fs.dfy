/**
 * The virtual filesystem of the command interpreter: `FileEntry` records, the mapping `fileTree`
 * from absolute directory path to its ordered listing, the seed it starts from, and the two
 * `find` lookups the interpreter performs on a listing.
 */
module VirtualFs {
  import opened Wrappers

  datatype Kind = File | Folder

  /**
   * One listing entry. `content` is `None` where the source has no `content` array (folders);
   * an empty array is `Some([])` and counts as present. `blogUrl` marks a loaded blog post.
   */
  datatype FileEntry = FileEntry(
    name: string,
    kind: Kind,
    ext: Option<string>,
    content: Option<seq<string>>,
    blogUrl: Option<string>)

  /** `fileTree`: a listing per absolute directory path. */
  type Tree = map<string, seq<FileEntry>>

  const ROOT: string := "/"
  const PROJECTS: string := "/projects"
  const BLOGS: string := "/blogs"

  function FolderEntry(name: string): FileEntry {
    FileEntry(name, Folder, None, None, None)
  }

  function TextFile(name: string, ext: string, content: seq<string>): FileEntry {
    FileEntry(name, File, Some(ext), Some(content), None)
  }

  /**
   * The seed `fileTree`. The biography and resume lines are opaque data and come in as
   * parameters; `/blogs` starts empty, and the two project folders have no key of their own.
   */
  function SeedTree(aboutMe: seq<string>, resume: seq<string>): (tree: Tree)
    ensures ROOT in tree && PROJECTS in tree && BLOGS in tree && tree[BLOGS] == []
  {
    map[
      ROOT := [
        FolderEntry("projects"),
        FolderEntry("blogs"),
        TextFile("about_me.txt", "txt", aboutMe),
        TextFile("resume.yaml", "yaml", resume)
      ],
      PROJECTS := [FolderEntry("terraform-aws"), FolderEntry("cicd-pipeline")],
      BLOGS := []
    ]
  }

  /** `fileTree[path] || []`. */
  function Listing(tree: Tree, path: string): (entries: seq<FileEntry>)
    ensures path in tree ==> entries == tree[path]
    ensures path !in tree ==> entries == []
  {
    if path in tree then tree[path] else []
  }

  /** `entries.find(entry => entry.name === name)`: the first entry with that name. */
  function FindByName(entries: seq<FileEntry>, name: string): (r: Option<FileEntry>)
    ensures r.None? <==> forall i :: 0 <= i < |entries| ==> entries[i].name != name
    ensures r.Some? ==> (exists i :: 0 <= i < |entries| && entries[i] == r.value && entries[i].name == name
                           && (forall j :: 0 <= j < i ==> entries[j].name != name))
    decreases |entries|
  {
    if entries == [] then None
    else if entries[0].name == name then Some(entries[0])
    else
      var r := FindByName(entries[1..], name);
      assert forall i :: 1 <= i < |entries| ==> entries[i] == entries[1..][i - 1];
      r
  }

  /** `entries.find(f => f.name === name && f.type === 'file')`: the first file with that name. */
  function FindFile(entries: seq<FileEntry>, name: string): (r: Option<FileEntry>)
    ensures r.None? <==> forall i :: 0 <= i < |entries| ==> !(entries[i].name == name && entries[i].kind == File)
    ensures r.Some? ==> (exists i :: 0 <= i < |entries| && entries[i] == r.value
                           && entries[i].name == name && entries[i].kind == File
                           && (forall j :: 0 <= j < i ==> !(entries[j].name == name && entries[j].kind == File)))
    decreases |entries|
  {
    if entries == [] then None
    else if entries[0].name == name && entries[0].kind == File then Some(entries[0])
    else
      var r := FindFile(entries[1..], name);
      assert forall i :: 1 <= i < |entries| ==> entries[i] == entries[1..][i - 1];
      r
  }

  /** The JavaScript truthiness of `file.blogUrl`: present and not the empty string. */
  predicate HasBlogUrl(e: FileEntry) {
    e.blogUrl.Some? && e.blogUrl.value != ""
  }
}
