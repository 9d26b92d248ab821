# Terminal portfolio core, modelled in Dafny

The system is a terminal-styled personal portfolio that runs in a browser. This project models
four parts of it:

- **The command interpreter.** `processCommand(cmd, cwd)` takes one command line (`help`, `ls`,
  `cd`, `cat`, `nano`, `view`, `clear`) and the current directory. It reads and sometimes
  updates an in-memory filesystem, `fileTree`, which maps absolute directory paths to their
  listings. It returns a `CommandResult` record:
  - output lines;
  - `ls` items;
  - the new directory;
  - the pager payload;
  - the clear-history flag.

  The first `cd` into an empty `/blogs` fetches articles and caches them as Markdown files.
- **`linkify(text)`.** It cuts a message into plain-text and link segments, using a
  case-insensitive regular expression for scheme URLs and `mailto:` addresses.
- **The contact endpoint `handler(req, res)`.** It validates a POSTed form and answers 200, 400
  or 405.
- **`getPromptString(cwd, user, host)`.** It builds the shell prompt.

Modules:

- `JsStrings`: the JavaScript string built-ins the interpreter uses (`trim`, `split`, `join`,
  `padEnd`, `startsWith`, `filter(Boolean)`).
- `PathResolver`: `getFullPath`.
  - `FullPath` is the pure definition.
  - `GetFullPath` is the method with the push/pop loop, proved equal to it.
- `VirtualFs`: file entries, the `fileTree` map, the seed tree, and the two `find` lookups.
- `CommandSpec`: `processCommand` as a pure function.
  - `Process(tree, cmd, cwd, load)` returns the result and the filesystem afterwards.
  - `load` is the outcome the blog loader reports: `Fetched(articles)` or
    `FetchFailed(message)`.
- `CommandProcessor`: the same interpreter in imperative form.
  - Class `FileTree` holds the mutable field `dirs`.
  - Its methods run the source's loops and assignments and are proved to compute `Process`.
  - Those loops are the help-width scan, the help-line loop, the article loop and the path loop.
- `CommandProperties`: what the interpreter promises, proved of `Process`.
  - What each command prints and where it moves.
  - That the filesystem changes only when `/blogs` is first loaded.
  - That the loader is consulted only then.
  - That the shell is only ever moved into an existing directory.
- `Linkify`:
  - The regular expression is written out by hand as `MatchAt`.
  - The segmentation loop (`Segment`) works over any table of matches.
  - It is proved to lay the text out exactly: the segments concatenate to the text, links sit
    where the pattern matches and link to themselves, text segments hold no match start, and no
    two text segments are adjacent.
- `Contact`: the handler, plus a six-state automaton for the unanchored test `/.+@.+\..+/`.
  The automaton is proved equivalent to the pattern's definition.
- `TerminalUtils`: the prompt string and its inverse, `ParsePrompt`.

One quirk of the code is modelled as written. `cd /` strips the only slash, so the target becomes
the empty relative path and leaves the shell where it is (`RootTargetIsCurrent`). The code's
`|| '/'` fallback suggests that `/` was meant to reach the root, but nothing in the code says so;
the model claims no intended behaviour and uses the code's.

Some behaviour of the code is easy to misread. The model does what the code does:

- `ls` of an empty `/blogs` pushes `Fetching blogs...` but then overwrites the output with
  `(empty)`.
- `view` of a file that has content but no blog URL prints the content, instead of an error.
- `cat`, `nano` and `view` of a file without a `content` array report `No such file or directory`.
  `nano` of a file whose content is `[]` yields `[name]`.
- No result carries a "raw output" flag.
- An absolute `cd` target keeps its `.` and `..` segments verbatim.
- `cd`'s "Not a directory" case asks whether the **first** entry named like the target is a file,
  as `find` does. It does not ask whether any file entry has that name.
- This revision of the interpreter has no `contact` command.

## Model

| member | source | states |
|---|---|---|
| JsStrings.TrimStartIsSuffix | src/components/CommandProcessor.ts:152 | the start-trimmed string is a suffix that does not begin with white space, and everything dropped is ECMAScript white space |
| JsStrings.TrimEndIsPrefix | src/components/CommandProcessor.ts:152 | the end-trimmed string is a prefix that does not end with white space, and everything dropped is white space |
| JsStrings.TrimIsInfix | src/components/CommandProcessor.ts:152 | `trim` keeps the infix left when the white space at both ends is dropped; the result neither starts nor ends with white space |
| JsStrings.Trim | src/components/CommandProcessor.ts:152 | `trim` never lengthens the string, and the result neither starts nor ends with white space |
| JsStrings.TrimKeepsTrimmed | src/components/CommandProcessor.ts:194 | a string with no white space at either end is its own `trim` |
| JsStrings.TrimIdempotent | src/components/CommandProcessor.ts:194 | trimming twice equals trimming once |
| JsStrings.Split | src/components/CommandProcessor.ts:131 | `split` yields at least one piece and no piece holds the separator |
| JsStrings.NonEmpty | src/components/CommandProcessor.ts:131 | `filter(Boolean)` keeps only non-empty pieces, each taken from the input, never more than the input |
| JsStrings.PadEnd | src/components/CommandProcessor.ts:178 | `padEnd(n)` has length max(n, \|s\|), starts with `s`, and is blank after it |
| JsStrings.SplitJoin | src/components/CommandProcessor.ts:222 | joining the pieces of a split gives back the string |
| JsStrings.SplitAround | src/components/CommandProcessor.ts:222 | splitting `a + sep + b` gives the split of `a` followed by the split of `b` |
| JsStrings.SplitNoSep | src/components/CommandProcessor.ts:222 | a string without the separator splits into itself alone |
| JsStrings.JoinSplit | src/components/CommandProcessor.ts:131-132 | splitting a join of separator-free pieces gives back the pieces |
| JsStrings.NonEmptyAppend | src/components/CommandProcessor.ts:131 | `filter(Boolean)` distributes over concatenation |
| JsStrings.NonEmptyIdentity | src/components/CommandProcessor.ts:131 | `filter(Boolean)` leaves a list of non-empty strings unchanged |
| PathResolver.StripTrailingSlash | src/components/CommandProcessor.ts:127 | exactly one final `/` is dropped when there is one; any other target is returned unchanged |
| PathResolver.FullPath | src/components/CommandProcessor.ts:126-148 | `getFullPath` always returns an absolute path (well formedness is `FullPathWellFormed`) |
| PathResolver.PathOf | src/components/CommandProcessor.ts:132 | `'/' + segments.join('/')` always starts with `/`, so the `\|\| '/'` fallback never applies |
| PathResolver.GetFullPath | src/components/CommandProcessor.ts:126-148 | the push/pop loop over the target's segments computes `FullPath` |
| PathResolver.SegmentsClean | src/components/CommandProcessor.ts:135-136 | split-and-filter segments are non-empty and hold no `/` |
| PathResolver.ResolveClean | src/components/CommandProcessor.ts:140-146 | pushing and popping clean segments keeps them clean |
| PathResolver.PathOfWellFormed | src/components/CommandProcessor.ts:147 | a path rebuilt from clean segments has a leading `/`, no `//`, and no trailing `/` unless it is `/` |
| PathResolver.SegmentsOfPathOf | src/components/CommandProcessor.ts:135 | splitting a rebuilt path gives back its segments |
| PathResolver.SplitInnerPiecesNonEmpty | src/components/CommandProcessor.ts:135 | in a string with no `//` and no trailing `/`, every piece after the first is non-empty |
| PathResolver.WellFormedIsCanonical | src/components/CommandProcessor.ts:135 | a well-formed path is rebuilt exactly from its own segments |
| PathResolver.SegmentsStripTrailingSlash | src/components/CommandProcessor.ts:127 | dropping the trailing slash never changes the segments |
| PathResolver.FullPathWellFormed | src/components/CommandProcessor.ts:126-148 | every resolved path is well formed |
| PathResolver.ChildPath | src/components/CommandProcessor.ts:140-146 | a plain name seen from a directory resolves to that directory plus one segment |
| PathResolver.FullPathIdempotent | src/components/CommandProcessor.ts:126-148 | resolving `.` against a resolved path gives the same path |
| PathResolver.ParentOfRoot | src/components/CommandProcessor.ts:141-142 | `..` from `/` stays at `/` |
| PathResolver.DotDotPopsLast | src/components/CommandProcessor.ts:141-142 | `..` drops the current directory's last segment |
| PathResolver.RootTargetIsCurrent | src/components/CommandProcessor.ts:127-136 | the target `/` loses its slash and resolves to the current directory |
| PathResolver.AbsoluteTargetKeepsSegments | src/components/CommandProcessor.ts:129-133 | an absolute target keeps its segments verbatim, `.` and `..` included |
| PathResolver.ResolveAppend | src/components/CommandProcessor.ts:140-146 | applying `a + b` is applying `a`, then `b` |
| PathResolver.RelativeCompose | src/components/CommandProcessor.ts:126-148 | `cd a` then `cd b` lands where `cd a/b` does, for relative `a` and `b` |
| VirtualFs.Listing | src/components/CommandProcessor.ts:183 | `fileTree[path] \|\| []` is the listing stored for a key and empty for a path that is no key |
| VirtualFs.FindByName | src/components/CommandProcessor.ts:242 | `find` by name returns the first entry with that name, and nothing exactly when none has it |
| VirtualFs.FindFile | src/components/CommandProcessor.ts:266 | `find` by name and file type returns the first such file, and nothing exactly when there is none |
| VirtualFs.SeedTree | src/components/CommandProcessor.ts:10-114 | the seed has the root, `/projects` and `/blogs`, and `/blogs` starts empty |
| CommandSpec.BlogFiles | src/components/CommandProcessor.ts:207-227 | the loop yields at most one file per article |
| CommandSpec.LongestCmdUpTo | src/components/CommandProcessor.ts:169-174 | the result is at least every command's length and equals one of them (0 for none) |
| CommandSpec.HelpLinesAligned | src/components/CommandProcessor.ts:176-180 | `help` prints the header, then one line per entry, every line padded to the same width, which is at least each command plus 2 |
| CommandSpec.HelpText | src/components/CommandProcessor.ts:176-180 | the help text is the header followed by one line per entry |
| CommandSpec.LsItems | src/components/CommandProcessor.ts:185 | one `ls` item per entry, in order, holding its name, type and extension |
| CommandSpec.ViewerOf | src/components/CommandProcessor.ts:251-263 | the chosen viewer's keyword and a space start the line, `cat` being the fallback |
| CommandSpec.LsResult | src/components/CommandProcessor.ts:182-192 | `ls` returns items exactly when the directory lists something, and sets no directory, pager, page or clear flag |
| CommandSpec.CdStep | src/components/CommandProcessor.ts:193-249 | `cd` sets no `ls` items, pager, page or clear flag |
| CommandSpec.CdResolved | src/components/CommandProcessor.ts:200-248 | a resolved `cd` moves exactly when the path is a key, and sets no `ls` items, pager, page or clear flag |
| CommandSpec.OpenResult | src/components/CommandProcessor.ts:250-284 | opening a file never moves or clears; only `view` opens a page; the pager is set exactly for `nano` of a first matching file with content |
| CommandSpec.Parse | src/components/CommandProcessor.ts:152-294 | a `cd` command comes from a line starting `cd `, an open command from a line starting with its viewer's keyword and a space, and `clear` exactly from `clear` |
| CommandSpec.Run | src/components/CommandProcessor.ts:158-297 | only `cd` can change the tree, and the history is cleared exactly for `clear` |
| CommandSpec.Process | src/components/CommandProcessor.ts:151-298 | a line not starting `cd ` after trimming leaves the tree alone, and the history is cleared exactly when the trimmed line is `clear` |
| CommandProcessor.LongestCommand | src/components/CommandProcessor.ts:169-174 | the `forEach` computes the longest command length |
| CommandProcessor.FormatHelp | src/components/CommandProcessor.ts:176-180 | the header-then-push loop computes the help text |
| CommandProcessor.BuildBlogFiles | src/components/CommandProcessor.ts:207-227 | the article loop, which skips failed details, computes `BlogFiles` |
| CommandProcessor.FileTree.constructor | src/components/CommandProcessor.ts:10-114 | the tree starts as the seed |
| CommandProcessor.FileTree.ListDirectory | src/components/CommandProcessor.ts:182-192 | the `ls` branch computes the `ls` result and changes nothing |
| CommandProcessor.FileTree.ChangeDirectory | src/components/CommandProcessor.ts:193-249 | the `cd` branch computes the `cd` result and the new tree |
| CommandProcessor.FileTree.ChangeToResolved | src/components/CommandProcessor.ts:200-248 | the `cd` branch after `getFullPath` computes `CdResolved`: the result and the new tree |
| CommandProcessor.FileTree.OpenFile | src/components/CommandProcessor.ts:250-284 | the `cat`/`nano`/`view` branch computes the open result and changes nothing |
| CommandProcessor.FileTree.ProcessCommand | src/components/CommandProcessor.ts:151-298 | the dispatch computes `Process`: the result and the tree afterwards |
| CommandProperties.ParseExact | src/components/CommandProcessor.ts:158 | `help`, `ls` and `clear` are recognised exactly when the trimmed line equals them |
| CommandProperties.ParseCd | src/components/CommandProcessor.ts:193-194 | a line starting `cd ` is `cd` of the trimmed rest |
| CommandProperties.ParseOpen | src/components/CommandProcessor.ts:250-263 | a line starting `cat `, `nano ` or `view ` opens the trimmed rest with that viewer |
| CommandProperties.ParseUnknown | src/components/CommandProcessor.ts:293-294 | a line is unknown exactly when it matches none of the seven forms |
| CommandProperties.ExactCommands | src/components/CommandProcessor.ts:158-192 | dispatch, one step of `Run`: `ls`, `help` and `clear` give their results and leave the tree alone |
| CommandProperties.CdCommand | src/components/CommandProcessor.ts:193-194 | a `cd ` line runs `cd` on the trimmed rest |
| CommandProperties.OpenCommand | src/components/CommandProcessor.ts:250-265 | a `cat`/`nano`/`view` line opens the trimmed rest and leaves the tree alone |
| CommandProperties.LsListsCurrentDirectory | src/components/CommandProcessor.ts:182-192 | `ls` lists the entries in order, or prints exactly `(empty)`; `Fetching blogs...` never survives |
| CommandProperties.CdHome | src/components/CommandProcessor.ts:195-196 | dispatch, one step of `CdStep`: `cd ~` moves to `/`, prints nothing and changes nothing |
| CommandProperties.CdIntoDirectory | src/components/CommandProcessor.ts:198-238 | `cd` to a key moves there; it prints nothing unless the key is `/blogs`, whose output ends with the hint |
| CommandProperties.FindByNameFile | src/components/CommandProcessor.ts:242-243 | the `find` result is a file exactly when the first entry with that name is a file |
| CommandProperties.CdFailure | src/components/CommandProcessor.ts:239-248 | `cd` to a non-key stays put and prints exactly one error line: `Not a directory` exactly when the first entry with that name is a file, otherwise `No such file or directory` |
| CommandProperties.TerraformPath | src/components/CommandProcessor.ts:135-147 | `terraform-aws` resolves from `/projects` to `/projects/terraform-aws`, which is none of `/`, `/projects` and `/blogs` |
| CommandProperties.CdIntoProjectFolderFails | src/components/CommandProcessor.ts:109-112 | in the seed, `cd terraform-aws` from `/projects` says `No such file or directory` |
| CommandProperties.SeedTerraformMissing | src/components/CommandProcessor.ts:109-113 | the seed has no key for the project folders |
| CommandProperties.SeedProjectsFolders | src/components/CommandProcessor.ts:109-112 | the seeded `/projects` lists folders only |
| CommandProperties.SeedKeys | src/components/CommandProcessor.ts:10-114 | the seed's keys are exactly `/`, `/projects` and `/blogs` |
| CommandProperties.BlogsLoadSuccess | src/components/CommandProcessor.ts:202-229 | the first `cd` into an empty `/blogs` stores the loaded files and prints only the hint |
| CommandProperties.BlogsLoadFailure | src/components/CommandProcessor.ts:230-237 | a failed load prints the failure line and the hint, leaves `/blogs` empty, and the next `cd` there consults the loader again |
| CommandProperties.CdLoader | src/components/CommandProcessor.ts:202 | a `cd` depends on the loader only when it resolves to an empty `/blogs` |
| CommandProperties.CdFrame | src/components/CommandProcessor.ts:193-249 | `cd` changes the tree only by storing a successful load into an empty `/blogs` and keeps the keys; it moves only into a key or home; it sets no other field |
| CommandProperties.CdTree | src/components/CommandProcessor.ts:200-233 | the tree after `cd`: unchanged, or `/blogs` replaced by the loaded files; the keys are kept |
| CommandProperties.ResolvedTree | src/components/CommandProcessor.ts:200-233 | the same as `CdTree`, for any resolved path |
| CommandProperties.CdOnlyMoves | src/components/CommandProcessor.ts:195-201 | `cd` sets only the output lines and the new directory, and moves only into a key or to `/` |
| CommandProperties.LoaderConsultedOnlyForEmptyBlogs | src/components/CommandProcessor.ts:202-206 | two loader outcomes make a difference only to a `cd` resolving to an empty `/blogs` |
| CommandProperties.BlogFilesEmptyWhenNoDetail | src/components/CommandProcessor.ts:209-211 | if every detail request fails, no file is stored |
| CommandProperties.BlogFilesAppend | src/components/CommandProcessor.ts:209-227 | the article loop distributes over concatenation of article lists |
| CommandProperties.BlogFilesMembers | src/components/CommandProcessor.ts:209-227 | the stored files are exactly the entries of the articles whose detail was ok |
| CommandProperties.BlogEntryShape | src/components/CommandProcessor.ts:214-225 | a blog file is `<slug>.md`, titled and linked; joining its middle lines with `\n` gives back the body markdown, or they are `(No content)` |
| CommandProperties.TreeFrame | src/components/CommandProcessor.ts:151-298 | every command leaves the tree alone, except the first successful load into `/blogs`; the keys never change |
| CommandProperties.SeedIsSession | src/components/CommandProcessor.ts:10-114 | the seed has the root and `/blogs` |
| CommandProperties.SessionPreserved | src/components/CommandProcessor.ts:193-249 | every command keeps the root and `/blogs`, and any new directory is a key afterwards |
| CommandProperties.OpenNoSuchFile | src/components/CommandProcessor.ts:282-284 | naming no file of the current directory prints `<viewer>: <name>: No such file or directory` |
| CommandProperties.OpenFileWithoutContent | src/components/CommandProcessor.ts:265-284 | when the first file with that name has no `content` array, the same error line prints; `[]` is content |
| CommandProperties.OpenFoundFile | src/components/CommandProcessor.ts:266-281 | for the first matching file with content: `nano` gives `[name, ...content]`; `view` of a blog opens its URL; `cat` of a blog points to `view`; otherwise the content prints; only `view` of a blog opens a page |
| CommandProperties.HelpLineLayout | src/components/CommandProcessor.ts:178-179 | a help line is two spaces, the command, padding up to the width, ` - ` and the description |
| CommandProperties.HelpWidth | src/components/CommandProcessor.ts:159-174 | example, a constant: the longest of the seven commands has 11 characters |
| CommandProperties.HelpOutputLength | src/components/CommandProcessor.ts:159-180 | example, a constant: `help` prints eight lines |
| CommandProperties.ClearsHistoryIff | src/components/CommandProcessor.ts:285-292 | the history is cleared exactly when the trimmed line is `clear` |
| CommandProperties.CommandNotFound | src/components/CommandProcessor.ts:293-294 | dispatch, one step of `Run`: an unknown line is echoed untrimmed in `Command not found: ...` |
| CommandProperties.BareCdNotFound | src/components/CommandProcessor.ts:193 | a bare `cd` with white space around it is an unknown command |
| Linkify.RunEnd | src/utils/linkify.ts:15 | a greedy character-class run ends at the first character outside the class |
| Linkify.LastUrlEnd | src/utils/linkify.ts:15 | finds the last character in a range that a URL may end with, none lying after it |
| Linkify.LastDotTld | src/utils/linkify.ts:15 | finds the last position in a range where `.` and two letters start |
| Linkify.SchemeUrlAt | src/utils/linkify.ts:15 | a scheme match fits in the text and is longer than its `scheme://` |
| Linkify.MailtoAt | src/utils/linkify.ts:15 | a `mailto:` match fits in the text and is longer than `mailto:` |
| Linkify.MatchAt | src/utils/linkify.ts:15 | every match is non-empty and fits in the text |
| Linkify.SchemeUrlEnding | src/utils/linkify.ts:15 | a scheme URL never ends with `?`, `!`, `:`, `,`, `.` or `;` |
| Linkify.SchemeUrlBody | src/utils/linkify.ts:15 | every character after `scheme://` is a URL character |
| Linkify.MailtoShape | src/utils/linkify.ts:15 | a mail link has the form `mailto:` local-part `@` domain `.` two or more letters |
| Linkify.MatchAtBoundary | src/utils/linkify.ts:15 | no match starts right after a word character |
| Linkify.PatternSound | src/utils/linkify.ts:15 | the pattern's match table is sound |
| Linkify.Exec | src/utils/linkify.ts:20 | `exec` from `lastIndex` finds the leftmost match at or after it, or reports that none is left |
| Linkify.LaidOutConcat | src/utils/linkify.ts:13-36 | laid-out segments concatenate to the rest of the text |
| Linkify.LaidOutLinks | src/utils/linkify.ts:27 | every laid-out link's `href` equals its `content` |
| Linkify.ConsNoAdjacentText | src/utils/linkify.ts:24-27 | a text segment before a link keeps text segments apart |
| Linkify.LinkLaidOut | src/utils/linkify.ts:27 | a link to the match at `i` extends a layout |
| Linkify.TextLaidOut | src/utils/linkify.ts:24-25 | match-free text extends a layout |
| Linkify.SegmentsFromMatch | src/utils/linkify.ts:20-28 | one round of the loop: the text before the match, the link, then the rest |
| Linkify.LoopStep | src/utils/linkify.ts:20-29 | the pushed segments plus what is still to push stay the same |
| Linkify.StepLaidOut | src/utils/linkify.ts:24-28 | one round extends the layout and keeps text segments apart |
| Linkify.SegmentsFromLaidOut | src/utils/linkify.ts:20-33 | the loop from `lastIndex` lays out the rest of the text, and is empty only at its end |
| Linkify.MatchLaidOut | src/utils/linkify.ts:20-28 | a round with a match preserves the layout |
| Linkify.TailLaidOut | src/utils/linkify.ts:31-33 | the tail text after the last match is laid out |
| Linkify.SegmentsOfLaidOut | src/utils/linkify.ts:13-36 | for any sound table, the result concatenates to the text, is non-empty, is `[Text("")]` for `""`, lays out the text, and keeps text segments apart |
| Linkify.SegmentsOf | src/utils/linkify.ts:13-36 | `linkify` always returns at least one segment, and `[Text("")]` for `""` |
| Linkify.PushMatch | src/utils/linkify.ts:24-27 | pushes the text before a match, if any, then the link |
| Linkify.Segment | src/utils/linkify.ts:16-35 | the loop computes `SegmentsOf` |
| Linkify.Linkify | src/utils/linkify.ts:13-36 | `linkify` concatenates back to its input, its links are pattern matches linking to themselves, no two text segments are adjacent, and `""` gives `[Text("")]` |
| Contact.MatchesPatternIff | src/pages/api/contact.ts:20 | the unanchored pattern matches exactly when an `@` has a character before it, and after one more character a `.` has a character after it, all on one line |
| Contact.TerminatorKeepsMatch | src/pages/api/contact.ts:20 | appending a line terminator neither makes nor breaks a match |
| Contact.TerminatorEndsProgress | src/pages/api/contact.ts:20 | after a line terminator, no part of the pattern has been read |
| Contact.MatchStep | src/pages/api/contact.ts:20 | a new character completes a match exactly from the `Dot` state |
| Contact.DotStep | src/pages/api/contact.ts:20 | `Dot` is reached exactly by a `.` from `Domain` |
| Contact.DomainStep | src/pages/api/contact.ts:20 | `Domain` is reached by any character from `AtSign` or `Domain` |
| Contact.AtSignStep | src/pages/api/contact.ts:20 | `AtSign` is reached exactly by `@` after a non-empty run on the line |
| Contact.FurthestStep | src/pages/api/contact.ts:20 | the automaton's step tracks the furthest state |
| Contact.ScanFurthest | src/pages/api/contact.ts:20 | scanning a string ends in its furthest state |
| Contact.ValidEmailFormatIsPattern | src/pages/api/contact.ts:20 | the automaton accepts exactly the strings the regular expression matches |
| Contact.NonPostRefused | src/pages/api/contact.ts:39-41 | the status is 405 exactly for a non-POST, with `Allow: POST` and `Method <m> Not Allowed` |
| Contact.MissingFieldsRefused | src/pages/api/contact.ts:16-18 | a POST with a missing or empty email or message gets 400 `Email and message are required.`, and is the only one that does |
| Contact.InvalidEmailRefused | src/pages/api/contact.ts:20-22 | with both fields present, the answer is 400 `Invalid email format.` exactly when the email does not match |
| Contact.SuccessIff | src/pages/api/contact.ts:12-38 | the status is 200 exactly for a POST with both fields present and a matching email, and the body is the success message |
| Contact.NameIgnored | src/pages/api/contact.ts:13 | the name never changes the response |
| Contact.Handle | src/pages/api/contact.ts:8-43 | the handler answers 200, 400 or 405, and sends `Allow` exactly with the 405 |
| TerminalUtils.PromptLayout | src/utils/terminalUtils.ts:2-5 | the prompt is `user@host:~`, then nothing at `/` or the directory itself elsewhere, then `$` |
| TerminalUtils.ParsePromptString | src/utils/terminalUtils.ts:2-5 | the directory is read back from the prompt, for every non-empty directory |
| TerminalUtils.PromptStringInjective | src/utils/terminalUtils.ts:2-5 | distinct non-empty directories give distinct prompts |
| TerminalUtils.EmptyAndRootCoincide | src/utils/terminalUtils.ts:3 | `""` and `/` both show as `~` |
| TerminalUtils.WellFormedCwdRoundTrip | src/utils/terminalUtils.ts:2-5 | every directory the interpreter can move to is read back from its prompt |
| TerminalUtils.DefaultPromptAtRoot | src/utils/terminalUtils.ts:2 | the default prompt at `/` is `nightwalker28@nightwalkerslenovo:~$` |
| TerminalUtils.PromptString | src/utils/terminalUtils.ts:2-5 | the prompt starts with the user and ends with `$` |

## Left out

- The network.
  - The model does not perform the request to the article list endpoint or the per-article detail
    requests, and does not parse their JSON.
  - `cd` instead receives the outcome as a `BlogLoad` value:
    - `Fetched(articles)` lists each article with whether its detail request was ok and its
      `body_markdown`;
    - `FetchFailed(message)` stands for any exception in the `try` block, with its message.
  - A detail request that throws, rather than answering not-ok, discards the whole load, and is
    therefore a `FetchFailed`.
- Asynchrony. `processCommand` is `async`; two calls interleaving on the shared `fileTree` are not
  modelled. Each call runs to completion.
- `window.open` is recorded as the `openUrl` field of the result. The `typeof window` guard is taken
  as always true, so the model assumes it runs in a browser.
- The biography and resume lines of the seed are opaque parameters, not their text.
- The React components and rendering (prompt, input, output, shell) are not part of this model.
  Neither is the server route that proxies the article API.
- Characters are Unicode code points, whereas JavaScript strings are UTF-16 code units. Lengths,
  `padEnd` and slicing agree only for text inside the Basic Multilingual Plane.
- A `cwd` naming a property of `Object.prototype` (such as `constructor`) is not modelled:
  `fileTree[cwd]` would find the inherited property. Every resolved path starts with `/`, so `cd`
  never meets this case.
- Contact request body.
  - Its fields are modelled only as absent or as strings.
  - A missing body is not modelled; the handler's destructuring would throw.
  - Non-string fields are not modelled; the regular expression would coerce them.
- Contact side effects. `console.log`, the simulated one-second delay, and response headers other
  than `Allow` are not modelled.
- Linkify's regular-expression engine.
  - Its lazy left-to-right scan is replaced by a table of the match at every position
    (`PatternTable`). Only the leftmost match at or after `lastIndex` is ever read from it, so the
    result is the same.
  - Case-insensitive matching folds ASCII letters only, as JavaScript does for a pattern without
    the `u` flag.
  - `\b` uses ASCII word characters.
- CommandSpec.BlogFiles: its own ensures gives only a length bound. The full content is stated by
  `BlogFilesMembers`, `BlogFilesAppend` and `BuildBlogFiles`.
