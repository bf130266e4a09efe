# zamm documentation manager, modelled in Dafny

zamm is a command-line tool for a repository whose `docs/` directory stores
specifications, implementations, reference-implementation notes and tests as
Markdown files. Each file carries a YAML frontmatter envelope
(`---\n<yaml>\n---\n<body>`) with at least an `id` and a `type`. The
commands this model covers:
- `organize` fills in missing ids and types;
- `info` prints a file's metadata and its links;
- `implement` creates a reference-implementation note for a spec and an
  implementation;
- `spec` records commits and creates changelog files under
  `spec-history/`;
- `split` breaks a file into a folder;
- `feat start` makes a sibling git worktree with a starter spec;
- `init project` and `init scripts` scaffold a project and install its
  worktree scripts and agent commands;
- the workflow and redirect services keep JSON state under `.zamm/`;
- the maintenance script `refresh-init-scripts` copies the live scripts
  back into the templates.

The oldest copies of the logic, `src/core.ts` and `src/organizer.ts`, are
modelled as modules of their own (`LegacyCore`, `LegacyOrganizer`).

How the model is built:
- **Filesystem.** The filesystem is a value: `FileSystem.Tree` is a map
  from absolute paths (sequences of segments) to `File(content)` or `Dir`
  nodes.
- **Commands.** Every command is a method that takes the tree and returns
  the new tree with its `Result`. Each one is specified against a function
  or stated directly, and lemmas prove what the source promises about that
  function.
- **Outside code as parameters.** Code outside the core is passed in as a
  parameter:
  - YAML `load`/`dump` (`Envelope.Yaml`, with the round-trip law
    `Organize.DumpLoads` where a property needs it);
  - JSON codecs;
  - the id generator (`Types.IdSource`, an infinite stream and a count);
  - the language-model service;
  - prompts;
  - git subprocesses;
  - the frontmatter helpers `serializeFrontmatter`,
    `addCommitsToFrontmatter`, `updateReferenceImplPaths` and
    `updateCommitMessages` (`Envelope.Helpers`);
  - `getDocsDirectory` and `resolveTitleFromFile`.
- **Frontmatter.** A frontmatter value is a list of key/value pairs in
  insertion order, so JavaScript's object spread and "first key wins" are
  explicit. JavaScript puts integer-like keys first, and the model does not
  (see "Left out").

`titleToDirectoryName` and `stackToFilename` in `init-project.ts` have the same body, so both are modelled once, as `InitProject.Slug`. The legacy `formatFileType` in `src/core.ts` is modelled by `Info.FormatFileType`.

The legacy `src/core.ts` repeats some shared code line for line, and the
`FileResolver` and `Envelope` members model both copies:
- `detectFileType` (`src/core.ts:49-73`);
- `parseFrontmatter` (`src/core.ts:81-98`);
- `findFileById` (`src/core.ts:192-218`);
- `getFileInfo` (`src/core.ts:221-252`);
- `resolveFileInfo` (`src/core.ts:361-377`).

Likewise, `findGitRoot` and `parseFrontmatter` in `src/organizer.ts` are
modelled by `FileUtils.GitRoot` and `Envelope.Parse`.

## Model

| member | source | states |
|---|---|---|
| Envelope.Split | src/core/shared/frontmatter.ts:8-11 | The envelope found is the YAML block and the rest, and the content is exactly `---\n` + block + `\n---\n` + rest. |
| Envelope.Parse | src/core/shared/frontmatter.ts:4-21 | The body is whitespace-trimmed in every branch. |
| Envelope.NoEnvelope | src/core/shared/frontmatter.ts:8-20 | Without an opening `---\n` and a later `\n---\n`, the frontmatter is `{}` and the body is the whole content trimmed. |
| Envelope.LeadingSpace | src/core/shared/frontmatter.ts:8-9 | The envelope is only recognised at offset 0: leading white space defeats it. |
| Envelope.LoadFailure | src/core/shared/frontmatter.ts:12-17 | A YAML load failure does not throw. It yields `{}` and the whole content trimmed. |
| Envelope.LoadFalsy | src/core/shared/frontmatter.ts:13-14 | YAML that loads to a falsy value yields `{}` and the trimmed remainder after the fence. |
| Envelope.BlockHasNoFence | src/core/shared/frontmatter.ts:8 | Lazy match: the YAML block never contains `\n---\n`. |
| Envelope.SplitOfWritten | src/core/shared/frontmatter.ts:8-11 | A document written as `---\n` + block + fence + rest, whose first fence is the one written, splits back into that block and rest. |
| FileTypes.LabelTable | src/core/shared/file-types.ts:1-16 | `File` is the label of exactly the unknown types, and the known types have distinct labels. |
| FileTypes.DescriptionTable | src/core/shared/file-types.ts:18-33 | `unknown` is the description of exactly the unknown types; test, implementation and project describe as themselves; the known types have distinct descriptions. |
| FileUtils.GitRoot | src/core/shared/file-utils.ts:4-15 | A found root is non-empty, is the start path or one of its ancestors, and contains `.git`. |
| FileUtils.GitRootNearest | src/core/shared/file-utils.ts:7-12 | No path strictly between the found root and the start has `.git`: it is the first hit walking upward. |
| FileUtils.GitRootNone | src/core/shared/file-utils.ts:7-14 | The search fails exactly when no non-root ancestor (the start included) has `.git`; `/` itself is never examined. |
| FileUtils.FindGitRoot | src/core/shared/file-utils.ts:4-15 | The upward loop returns `GitRoot` of the start path. |
| FileUtils.ReadDir | src/core/shared/file-utils.ts:21-23 | The entry names are the directory's children, each listed once. |
| FileUtils.WalkDir | src/core/shared/file-utils.ts:20-34 | The walk appends to the list given and keeps what was there; the files it adds lie below the directory and are exactly its Markdown files, each once. |
| FileUtils.FindMarkdownFiles | src/core/shared/file-utils.ts:17-41 | A missing directory gives `[]`. A file given as the directory gives the scandir error. Otherwise the result is sorted by plain string order and contains every `.md` file below the directory exactly once. |
| FileResolver.ClassifyTable | src/core/shared/file-resolver.ts:7-31 | The type is always one of five values. `project` is exactly `docs/README.md`. First match wins: the `docs/impls/` prefix beats `/impl-history/`, which beats `/tests/`. Everything else is `spec`. |
| FileResolver.LeadingFolderIsSpec | src/core/shared/file-resolver.ts:18-23 | `impl-history/` and `tests/` at the very start, with no leading slash, do not match. |
| FileResolver.FirstWithIdUnique | src/core/shared/file-resolver.ts:44-57 | At most one file is the first in sorted order with a given id. |
| FileResolver.FindFileById | src/core/shared/file-resolver.ts:33-60 | Errors in order: not in git, then `docs/` not found. A found path is the first Markdown file, in sorted path order, whose id equals the query. Not found means no Markdown file has that id. |
| FileResolver.ScanForId | src/core/shared/file-resolver.ts:46-57 | The loop returns the first index whose file has the id, or none if no file has it. |
| FileResolver.FirstInOrder | src/core/shared/file-resolver.ts:44-53 | The first hit in the sorted list is the first file with the id among all Markdown files. |
| FileResolver.NoneInOrder | src/core/shared/file-resolver.ts:46-59 | No hit in the list means no Markdown file below `docs/` has the id. |
| FileResolver.InfoAtMeaning | src/core/shared/file-resolver.ts:62-93 | Errors in order: file not found, not in git, missing id. On success, the id is the frontmatter's `id` value as loaded, not converted to text; `filePath` is `/` plus the git-root-relative path; and the type is classified from the path, not from the frontmatter. |
| FileResolver.GetFileInfo | src/core/shared/file-resolver.ts:62-93 | `getFileInfo` of the resolved path is `InfoAt`, whose cases `InfoAtMeaning` states. |
| FileResolver.ResolveFileInfo | src/core/shared/file-resolver.ts:95-111 | The result is `Resolution`, and a resolved file exists and has a parent directory. |
| FileResolver.ResolutionCases | src/core/shared/file-resolver.ts:98-108 | An existing path is preferred over an id lookup; the id lookup's errors propagate; no match gives "No file found matching the given ID or path: <arg>". |
| FileResolver.ResolutionFirst | src/core/shared/file-resolver.ts:100-110 | An id lookup resolves to the first file with that id. |
| FileResolver.ResolutionFile | src/core/shared/file-resolver.ts:95-110 | A resolved file is a regular file of the tree. |
| FileResolver.InfoAtFilePath | src/core/shared/file-resolver.ts:83-89 | The info's absolute path is the argument, it lies below the git root, and `filePath` is the root-relative path with a leading `/`. |
| GitUtils.NonEmpty | src/core/shared/git-utils.ts:14 | Empty lines are dropped, every other line is kept, and a list with no empty lines is unchanged. |
| GitUtils.ShaCommits | src/core/shared/git-utils.ts:15 | Each line becomes `{sha}` with no message, in order. |
| GitUtils.ParseGitLog | src/core/shared/git-utils.ts:11-15 | Every commit produced has a non-empty sha that is a line of the trimmed output, and no message. |
| GitUtils.ParseGitLogRoundTrip | src/core/shared/git-utils.ts:11-15 | Hashes joined with newlines parse back to the same hashes in the same order. |
| GitUtils.ShasOfShaCommits | src/core/shared/git-utils.ts:15 | Taking the shas of the commits made from shas gives the shas back. |
| GitUtils.GetLastNCommitsOfHashes | src/core/shared/git-utils.ts:4-21 | For a `git log` output of hashes, one per line, the commits are exactly those hashes, in the printed order (newest first), with no message. A failing git call becomes "Failed to get git commit history: <msg>". |
| CommitRecorder.RecordCommitsToFile | src/core/shared/commit-recorder.ts:16-48 | Errors in order: not in git (before resolving), resolution, the validation hook, missing id, git log failure. On success exactly one file changes: the resolved one, rewritten from the added commits and the unchanged body. Under the prepend law `Envelope.Prepends`, the new commits come before the existing ones and no other key changes. |
| CommitRecorder.RecordTwice | src/__tests__/commands/spec.test.ts:110-122 | Under `Envelope.Prepends`, a second recording leaves its commits before the first recording's, and both before the commits already there. |
| WorkflowService.AddEntry | src/core/shared/workflow-service.ts:72-78 | `worktrees[branch]` becomes `{branch, path, INITIAL}`, replacing any earlier entry; every other entry is unchanged. |
| WorkflowService.SetState | src/core/shared/workflow-service.ts:107-108 | Only `state` of the branch changes. Its branch and path, every other entry and the key set are unchanged. |
| WorkflowService.GetBaseState | src/core/shared/workflow-service.ts:116-129 | A state comes back exactly when the file reads and parses; otherwise the result is null. |
| WorkflowService.InitializeBase | src/core/shared/workflow-service.ts:33-49 | `.zamm` and its `.gitignore` are ensured; an existing state file is kept; a missing one becomes `{worktrees:{}}`; on an initialized root the call changes nothing. |
| WorkflowService.AddWorktree | src/core/shared/workflow-service.ts:51-84 | An unreadable state throws "Failed to read base state: <msg>" and writes nothing. Otherwise the file is rewritten with `AddEntry` of the resolved path, and it reads back as that state. |
| WorkflowService.UpdateWorktreeState | src/core/shared/workflow-service.ts:86-114 | An unreadable state throws "Failed to read base state: <msg>". An unregistered branch is a silent no-op with no write. Otherwise the file is rewritten with `SetState`. |
| WorkflowService.AddThenUpdate | src/core/shared/workflow-service.ts:72-108 | Adding and then updating a branch gives `{branch, path, newState}` and leaves every other branch as it was. |
| WorkflowService.InitializeWorktree | src/core/shared/workflow-service.ts:136-150 | The worktree state is always overwritten with `{state: INITIAL}` and reads back as INITIAL; nothing else but `.gitignore` changes. |
| WorkflowService.UpdateState | src/core/shared/workflow-service.ts:152-167 | The state file is written unconditionally with the new state, which reads back. |
| WorkflowService.GetCurrentState | src/core/shared/workflow-service.ts:169-184 | A state comes back only from a file whose content decodes to it. |
| ZammDir.PreparedEffect | src/core/shared/workflow-service.ts:14-27 | `.zamm` is created as `mkdir -p` does. `.gitignore` (`*\n`) is written only when absent, never overwritten. Nothing else changes, and a prepared directory is left as it is. |
| ZammDir.EnsureZammDirectory | src/core/shared/redirect-service.ts:10-23 | The method's effect is `Prepared`, including its error. |
| RedirectService.GetRedirectDirectory | src/core/shared/redirect-service.ts:61-71 | No readable file gives null; otherwise the decoded directory. |
| RedirectService.SetRedirectDirectory | src/core/shared/redirect-service.ts:25-59 | `.zamm` is ensured first and stays even when setting fails. A missing directory gives "Directory does not exist: <arg as given>"; an inaccessible one gives "Directory is not accessible: <arg>"; neither writes `redirect.json`. On success the resolved absolute path is stored with a newline and reads back. |
| Organize.Merge | src/core/commands/organize.ts:35-39 | A generated id is consumed exactly when the present id is falsy. |
| Organize.MergeKeys | src/core/commands/organize.ts:35-39 | The keys are `id`, `type`, then the remaining original keys in order, with no duplicates. |
| Organize.MergeValues | src/core/commands/organize.ts:35-39 | The spread keeps any present `id` (even a falsy one) and `type`. Only missing ones are filled (the next generated id, the detected type). Every other key keeps its value. |
| Organize.Derive | src/core/commands/organize.ts:43-47 | Only `ref-impl` files have their paths and commit messages updated. |
| Organize.ParseRendered | src/core/commands/organize.ts:49-56 | The written document reads back as the merged frontmatter and the old body. |
| Organize.OrganizeIdempotent | src/core/commands/organize.ts:18-59 | For non-`ref-impl` files, organizing an organized document again writes the same text. |
| Organize.MergeAgain | src/core/commands/organize.ts:35-39 | Merging a frontmatter that already starts with `id` and `type` changes nothing. |
| Organize.OrganizeAtMeaning | src/core/commands/organize.ts:18-59 | Errors in order: "File not found: <arg>", then "Not in a git repository"; on error nothing changes. On success exactly the one file is replaced by its organized text. |
| Organize.OrganizeKeepsWellFormed | src/core/commands/organize.ts:58 | Organizing keeps the tree well formed, creates no path and changes no other file. |
| Organize.OrganizeFile | src/core/commands/organize.ts:18-59 | `organizeFile` is `OrganizeAt` of the resolved path, whose cases `OrganizeAtMeaning` states. |
| Organize.OrganizeSeqStops | src/core/commands/organize.ts:70-72 | The first failing file stops the loop: later files are untouched. |
| Organize.OrganizeSeqFrame | src/core/commands/organize.ts:70-72 | Organizing a list changes only files in the list and creates nothing. |
| Organize.OrganizeSeqIds | src/core/commands/organize.ts:35-39 | A successful run consumes exactly one generated id per listed file without a truthy id. |
| Organize.OrganizeAllFiles | src/core/commands/organize.ts:61-73 | No git root gives an error, and a file in place of the docs directory gives the scandir error, both with no change. Otherwise every Markdown file below the docs directory is organized once, in sorted order. |
| Organize.OrganizeList | src/core/commands/organize.ts:70-72 | The loop equals the fold `OrganizeSeq` over the list. |
| Info.FormatFileTypeTable | src/core/commands/info.ts:12-27 | Unknown types are shown as themselves, and the five known types get distinct display names that are not type names. |
| Info.LinesSplit | src/core/commands/info.ts:74-76 | The newline-prefixed list lines split back into the list. |
| Info.ImplLines | src/core/commands/info.ts:75 | Each implementation becomes the line `  - <id>: <name>`, in order. |
| Info.Filter | src/core/commands/info.ts:86-89 | The filtered list contains exactly the items that pass. |
| Info.SectionLines | src/core/commands/info.ts:72-77 | A section splits back into its heading and its lines. |
| Info.RefLine | src/core/commands/info.ts:93-99 | A line is produced exactly for a mapping with an `id` and a string `path`. It shows the title resolved from the docs-relative path, or the path in red if no title was found. |
| Info.ShortSha | src/core/commands/info.ts:132 | The short sha is the first seven characters, or all of a shorter sha. |
| Info.CommitLine | src/core/commands/info.ts:130-133 | A line is produced exactly for a mapping with a string `sha` and a `message`: `  - <short sha>: <message>`. |
| Info.AttemptStops | src/core/commands/info.ts:137-139 | A line that throws ends the section there: the lines before it are kept and later sections are skipped. |
| Info.FileInfoTextMeaning | src/core/commands/info.ts:65-143 | The text starts with the three-line header and the implementations section. For non-`ref-impl` files, unreadable files and an unknown docs directory, that is all. |
| Info.SpecsSectionMeaning | src/core/commands/info.ts:85-102 | The heading appears when some spec entry is a valid reference; with none, the section is empty. |
| Info.SpecsSectionAbsent | src/core/commands/info.ts:85 | Missing or non-list `specs` gives no section. |
| Info.CommitsSectionLines | src/core/commands/info.ts:119-136 | Only entries with `sha` and `message` are listed, under `Commits:`, and nothing at all when none is valid. |
| Info.CommitTexts | src/core/commands/info.ts:130-134 | Each valid commit gives its line, in order. |
| Info.AppendImpls | src/core/commands/info.ts:74-76 | The loop appends one line per implementation. |
| Info.AppendSpecs | src/core/commands/info.ts:91-101 | The loop appends the specs section, and reports whether it completed. |
| Info.AppendCommits | src/core/commands/info.ts:128-135 | The loop appends the commits section. |
| Info.AppendImplRef | src/core/commands/info.ts:104-117 | The implementation link is appended as a heading and one line. |
| Info.FormatFileInfo | src/core/commands/info.ts:65-143 | The output equals `FileInfoText`, whose shape `FileInfoTextMeaning` states. |
| Info.HashSpaceIff | src/core/commands/info.ts:47 | A title line is one that starts with `# `. |
| Info.First | src/core/commands/info.ts:47 | `find` returns the first index whose element satisfies the test, or none. |
| Info.StripHash | src/core/commands/info.ts:49 | The result is a suffix of the line. A line starting with `#` is `#`, then white space only, then the result, which does not start with white space; any other line is kept whole. |
| Info.TitleNameMeaning | src/core/commands/info.ts:46-50 | The name is the trimmed first title line without its `#`, or "Unknown Implementation". |
| Info.HeadingTitle | src/core/commands/info.ts:46-50 | A body whose first line is `# <title>` is named `<title>`. |
| Info.EntryAtMeaning | src/core/commands/info.ts:42-56 | A file contributes an entry exactly when it has a truthy id and type `implementation`; the entry is its `id` value as loaded and its title. |
| Info.ImplsOfMembers | src/core/commands/info.ts:40-60 | An implementation is collected exactly when some listed file yields it. |
| Info.GetProjectImplementations | src/core/commands/info.ts:29-63 | An unknown docs directory fails. A missing `impls/` gives `[]`. A file in place of `impls/` gives the scandir error. Otherwise the files come sorted by path, and it fails with the `localeCompare` TypeError exactly when a collected entry after the first has an id that is not a string (`Info.LaterNonString`). Every success is sorted by id and is a permutation of the implementations of the Markdown files below `impls/`. |
| Info.NonStringIds | src/core/commands/info.ts:62 | The count is at most the number of entries, and it is zero exactly when every id is a string. |
| Info.LaterNonStringCases | src/core/commands/info.ts:62 | Two or more ids that are not strings always make the sort throw, and ids that are all strings never do. A single such id throws only when it is not the first entry collected. |
| Info.NumericIdPlace | src/core/commands/info.ts:62 | An entry with the id `7` collected after one with `IMP-1` makes the sort throw; collected first, it does not. |
| Info.CollectImpls | src/core/commands/info.ts:40-60 | The loop collects the entries of the listed files in order. |
| Info.GetInfoByIdOrPath | src/core/commands/info.ts:145-154 | A resolution error propagates. Only `project` files list implementations, sorted by id; a `project` with an unknown docs directory fails. The output starts with the file's header. |
| Implement.LastSlash | src/core/commands/implement.ts:26-34 | The last `/` at a position of at least 1, or none. |
| Implement.DirnameText | src/core/commands/implement.ts:26-34 | The directory part followed by the rest is the text itself. |
| Implement.Below | src/core/commands/implement.ts:25-32 | The remainder after `top/folder/` exists exactly when the text starts with it. |
| Implement.NotePathBelow | src/core/commands/implement.ts:11-53 | A spec under `docs/specs/<sub>` or `docs/spec-history/<sub>` gets a note at `docs/impl-history/<impl>/<sub>/new-<spec id>-impl.md`. |
| Implement.NotePathInSpecs | src/core/commands/implement.ts:25-28 | The `docs/specs/` case of the note path. |
| Implement.NotePathInSpecHistory | src/core/commands/implement.ts:29-32 | The `docs/spec-history/` case of the note path. |
| Implement.NotePathElsewhere | src/core/commands/implement.ts:33-35 | Any other spec keeps its whole directory below `docs/impl-history/<impl>/`. |
| Implement.NoteFrontmatter | src/core/commands/implement.ts:79-92 | The keys are `id`, `type: ref-impl`, one `specs` reference and the `impl` reference. |
| Implement.Ref | src/core/commands/implement.ts:83-91 | A reference is `{id, path}` with the file's `id` value as loaded (not converted to text) and its root-relative path. |
| Implement.GenerateImplementationNote | src/core/commands/implement.ts:55-113 | Check errors change nothing and consume no id. Otherwise one id is consumed and the note is written by `Generated`. |
| Implement.WriteNote | src/core/commands/implement.ts:45-50 | The note is written in the computed directory, as `GeneratedIn` states. |
| Implement.GeneratedNote | src/core/commands/implement.ts:94-112 | The returned path is the note path. The note reads back with the new id, the note frontmatter and the TODO body. Only missing directories and the note are added; nothing else changes. |
| Implement.GeneratedInNote | src/core/commands/implement.ts:45-50 | In a given directory, the note reads back, and only missing directories and the note are added. |
| Implement.CheckedCases | src/core/commands/implement.ts:56-75 | Errors in order: not in git, spec resolution, impl resolution, then the types. A passing check has a spec or test and an implementation. |
| Implement.NoteIsRefImpl | src/core/commands/implement.ts:37-43 | Every note path is classified `ref-impl`. |
| Implement.RefImplOnly | src/core/commands/implement.ts:118-124 | The hook passes exactly the `ref-impl` files and otherwise gives the error message. |
| Implement.Drop1 | src/core/commands/implement.ts:122 | `substring(1)` drops the first character, if there is one. |
| Implement.RecordCommits | src/core/commands/implement.ts:115-127 | Commits are recorded only to `ref-impl` files; any other file gets the "Implementation commits" error. Under `Envelope.Prepends`, the new commits come before the existing ones. |
| Spec.StripSlashes | src/core/commands/spec.ts:26 | The leading slashes, and only those, are removed. |
| Spec.SpecHistoryOnlyAsWritten | src/core/commands/spec.ts:18-31 | As written: it passes exactly the specs whose root-relative `filePath`, with leading slashes stripped, starts with `spec-history/`. |
| Spec.HistorySpecRefused | src/core/commands/spec.ts:26-27 | As written, a spec in `docs/spec-history/` is always refused. |
| Spec.DocsPathRefused | src/core/commands/spec.ts:26-27 | As written, any path whose first folder is `docs` is refused. |
| Spec.SpecHistoryOnly | src/core/commands/spec.ts:18-31 | Corrected: it passes exactly the specs below `<docs>/spec-history/`, and the two error messages are kept. |
| Spec.SpecHistoryOnlyPlaces | src/core/commands/spec.ts:25-31 | Corrected: a spec in `spec-history/` passes and one in `specs/` is refused. |
| Spec.RecordSpecCommits | src/core/commands/spec.ts:11-34 | Commits are recorded only to specs in the spec history (with the corrected location check, see "Findings"), with the type and location errors otherwise. Under `Envelope.Prepends`, the new commits come before the existing ones. |
| Spec.WithHistory | src/core/commands/spec.ts:52-55 | `spec-history/` is prepended unless already present. |
| Spec.ChangelogPath | src/core/commands/spec.ts:51-60 | The normalized path starts with `spec-history/` and ends with `.md`. |
| Spec.ChangelogPathIdempotent | src/core/commands/spec.ts:51-60 | Normalizing is idempotent, and a path is unchanged exactly when it is already normal. |
| Spec.ChangelogPathKeeps | src/core/commands/spec.ts:51-60 | The given path is kept in the middle: at most a prefix and a suffix are added. |
| Spec.ChangelogBodyCases | src/core/commands/spec.ts:88-106 | Nothing given gives an empty body. A title gives a heading. A description alone asks for a suggested title. The body ends with the description. |
| Spec.SpecFrontmatter | src/core/commands/spec.ts:82-85 | The frontmatter is exactly `{id, type: spec}`. |
| Spec.CreateSpecChangelog | src/core/commands/spec.ts:42-115 | An existing file gives "File already exists: <normalized>" and writes nothing. Otherwise directories are made, one id is consumed, the title is asked for only when needed, and the file is written. |
| Spec.ChangelogInHistory | src/core/commands/spec.ts:51-64 | A created changelog lies below `<docs>/spec-history/`. |
| SplitCommand.LayoutPlaces | src/core/commands/split.ts:56-78 | A `README.md` gets a sibling. Any other file moves to `<name>/README.md`, with the new file beside it. |
| SplitCommand.Planned | src/core/commands/split.ts:15-78 | Corrected plan: the plan as written, with a new file that would overwrite the moved main file refused. |
| SplitCommand.InheritedType | src/core/commands/split.ts:81-82 | The parent's truthy `type` is inherited; otherwise the new path's detected type is used. |
| SplitCommand.StubFrontmatter | src/core/commands/split.ts:84-87 | The new file's frontmatter is exactly `{id, type}`. |
| SplitCommand.StubReadsBack | src/core/commands/split.ts:89-96 | The stub reads back as its frontmatter with an empty body. |
| SplitCommand.PlanOrder | src/core/commands/split.ts:20-78 | Errors in order: file not found, not in git, history files refused, existing target. A plan records the file, its root, its frontmatter and its layout. |
| SplitCommand.ReadmeSplit | src/core/commands/split.ts:56-62 | A README split adds only the new file, with the inherited type, and consumes one id. |
| SplitCommand.FolderSplit | src/core/commands/split.ts:63-99 | A folder split moves the main file unchanged to `<dir>/README.md`, adds the stub and consumes one id. Nothing else changes. |
| SplitCommand.MoveEffect | src/core/commands/split.ts:74-77 | `mkdir -p` and then the rename move exactly the main file. |
| SplitCommand.ReadmeNameClobbers | src/core/commands/split.ts:63-78 | With the new name `README` or `README.md`, the new path as written is the moved main file; the corrected plan refuses it. |
| SplitCommand.ClobberOverwrites | src/core/commands/split.ts:74-99 | As written, that split succeeds and the stub replaces the moved main file. |
| SplitCommand.SplitFile | src/core/commands/split.ts:15-100 | Plan errors change nothing; otherwise the effect is `Done` of the plan, with the corrected overwrite check (see "Findings"). |
| SplitCommand.Check | src/core/commands/split.ts:20-78 | The checks compute the corrected plan. |
| Feat.Sanitize | src/core/commands/feat.ts:21-24 | Only lower-case letters, digits, `-` and `/` remain. |
| Feat.SlashesToHyphens | src/core/commands/feat.ts:32 | Every `/` becomes `-`, and nothing else changes. |
| Feat.ProcessBranchName | src/core/commands/feat.ts:12-40 | The branch starts with `zamm/` and contains only branch characters. `zamm/` is prepended only when missing. The directory name is the rest with slashes turned into hyphens. |
| Feat.SiblingPlace | src/core/commands/feat.ts:32-33 | The worktree directory is a sibling of the git root, with a slash-free name. |
| Feat.ProcessIdempotent | src/core/commands/feat.ts:12-40 | Processing a processed branch name again gives the same names. |
| Feat.AttemptsMeaning | src/core/commands/feat.ts:62-104 | At most three attempts. The clash test reads the error message `execSync` throws, `Command failed: <command>`, followed by git's error output only when that output is captured (`Feat.FailureMessage`). Each retry follows a message with a clash phrase and uses the renamed branch. Any other failure is rethrown with that message. A third clash gives "Failed to create unique branch/directory after 3 attempts: " and the message. |
| Feat.InheritedSingleTry | src/core/commands/feat.ts:67-80 | As written (`stdio: 'inherit'`), git's error output does not reach the message. So unless the command line itself holds a clash phrase, there is exactly one try, and any failure is rethrown as `Command failed: <command>`. |
| Feat.ClashRethrown | src/core/commands/feat.ts:67-104 | As written, a worktree add that fails because the branch `zamm/x` exists is rethrown at once as `Command failed: git worktree add "/r/x" -b "zamm/x"`, and no other name is tried. |
| Feat.ClashRenamed | src/core/commands/feat.ts:72-96 | With git's error output captured, a failure whose output reports a clash, while tries are left, is followed by a try of the renamed branch. |
| Feat.ClashRetried | src/__tests__/commands/feat.test.ts:165-205 | With the output captured, the same clash leads to a second try with the alternative name (`zamm/x-feature`), which makes the worktree. That is what the conflict test expects. |
| Feat.SpecFilePlace | src/core/commands/feat.ts:112-117 | The spec lies at `<worktree>/docs/spec-history/<dir>.md`. |
| Feat.SpecWrittenEffect | src/core/commands/feat.ts:119-137 | At most one id is consumed, exactly one on success. On success only the spec file and missing directories are added, and the spec holds the templated content. |
| Feat.FeatStart | src/core/commands/feat.ts:42-138 | Not in git fails first. A worktree failure changes nothing. Otherwise the spec is written in the new worktree. The retry loop is the corrected one, with git's error output captured (see "Findings"). |
| Feat.CreateWorktree | src/core/commands/feat.ts:62-104 | The retry loop computes `Created`, which is `Feat.Attempts` with git's error output captured: the corrected clash test (see "Findings"), whose tries `Feat.AttemptsMeaning` describes. |
| Feat.TryOnce | src/core/commands/feat.ts:66-103 | One attempt of the corrected loop: made, failed with `Command failed: <command>` and git's error output, or renamed after a clash, with the count below three. |
| Templates.DocumentEnvelope | src/core/commands/feat.ts:127-135 | A templated document's envelope is exactly its `id` and `type` lines, followed by the heading and the text. |
| InitProject.SlugShape | src/core/commands/init-project.ts:22-29 | A directory name contains only `a-z`, `0-9` and single hyphens, with none at either end. |
| InitProject.SlugIdempotent | src/core/commands/init-project.ts:22-29 | Converting a converted name again changes nothing. |
| InitProject.SlugKept | src/core/commands/init-project.ts:23-25 | Dropping disallowed characters first does not change the name. |
| InitProject.SlugWords | src/core/commands/init-project.ts:26-28 | Words joined by spaces become the words joined by hyphens. |
| InitProject.SlugExamples | src/core/commands/init-project.ts:19-21 | "My Cool Project!!! 2024" becomes `my-cool-project-2024`, and "Ruby on Rails" becomes `ruby-on-rails`. |
| InitProject.AskedWhenMissing | src/core/commands/init-project.ts:92-112 | The title is asked for exactly when its option is missing or empty; the other questions only when their options are missing or empty. |
| InitProject.AskedUntilBlank | src/core/commands/init-project.ts:96-116 | A blank answer stops the questions that follow. |
| InitProject.GatherErrors | src/core/commands/init-project.ts:92-116 | Each blank answer gives its own error, in order. Success returns the three answers. |
| InitProject.LayoutPlaces | src/core/commands/init-project.ts:119-126 | The layout is `<cwd>/<slug>/base/docs/impls`. |
| InitProject.DocumentPlaces | src/core/commands/init-project.ts:141-155 | README, implementation and setup guide paths. |
| InitProject.DocumentsEffect | src/core/commands/init-project.ts:140-156 | Each document is written in order with its own fresh id, and the setup guide is copied. |
| InitProject.ExistingProject | src/core/commands/init-project.ts:129-131 | An existing project directory gives "Project directory already exists" and changes nothing. |
| InitProject.InitProject | src/core/commands/init-project.ts:86-180 | Answer errors change nothing; otherwise the effect is `Initialized` of the slugs. |
| InitScripts.ReplaceEvery | src/core/commands/init.ts:52-58 | `split(...).join(...)` replaces every occurrence; the pieces contain no placeholder and rejoin to the content. |
| InitScripts.ReplaceAbsent | src/core/commands/init.ts:52-58 | Content without the placeholder is unchanged. |
| InitScripts.InsideRefused | src/core/commands/init.ts:28-35 | As written, a file inside a directory whose first folder starts with `..` is refused. |
| InitScripts.EnsureInsideIff | src/core/commands/init.ts:28-35 | Corrected: the check passes exactly the files inside the directory. |
| InitScripts.PosixBelow | src/core/commands/init.ts:37-40 | The path below the root is joined with `/`. |
| InitScripts.CommandsMeaning | src/core/commands/init.ts:85-92 | A blank response gives the default comment; otherwise the trimmed response. |
| InitScripts.WriteEnsuringDirEffect | src/core/commands/init.ts:46-50 | Only missing directories and the file are added. |
| InitScripts.DevResidue | src/core/commands/init.ts:116-147 | A placeholder left after replacement fails before anything is written. |
| InitScripts.DevScriptsWritten | src/core/commands/init.ts:149-153 | Both scripts are written with their placeholders replaced. |
| InitScripts.CommandsWritten | src/core/commands/init.ts:167-184 | Every command template is written with `{{IMPL_PATH}}` replaced. |
| InitScripts.CommandsFrame | src/core/commands/init.ts:159-185 | No file other than the targets changes. |
| InitScripts.CommandsSucceed | src/core/commands/init.ts:159-185 | With a creatable directory, no directory in place of a target, and an implementation path sharing no character with the placeholder, installation succeeds. |
| InitScripts.CheckedMeaning | src/core/commands/init.ts:60-76 | The checks pass exactly with an option, a git root, an existing docs directory, and a resolved implementation inside it (with the corrected check, see "Findings"). |
| InitScripts.CheckOrder | src/core/commands/init.ts:63-114 | The missing option comes first, and the type check comes before the location check. |
| InitScripts.ChecksFirst | src/core/commands/init.ts:60-76 | A failing check changes nothing. |
| InitScripts.InstalledClean | src/core/commands/init.ts:60-104 | Every file written is free of its placeholder. |
| InitScripts.DeployedFiles | src/core/commands/init.ts:94-103 | The result names `dev/` and `.claude/commands`. The scripts hold the commands; each command file holds the POSIX implementation path. |
| InitScripts.InstalledDeployed | src/core/commands/init.ts:72-101 | A successful installation deploys from the resolved implementation's content. |
| InitScripts.InstallInitScripts | src/core/commands/init.ts:60-104 | The method computes `Installed`, with the corrected inside check (see "Findings"). |
| InitScripts.InstallClaudeCommands | src/core/commands/init.ts:159-185 | The loop computes `CommandsInstalled`. |
| RefreshInitScripts.RestoreStartLines | src/scripts/refresh-init-scripts.ts:89-113 | The loop computes `StartFrom`, and reports the marker exactly when a line equals it. |
| RefreshInitScripts.StartAtMarker | src/scripts/refresh-init-scripts.ts:96-112 | At the marker: the marker, the placeholder and a blank line, then skipping until the next `#####` line. |
| RefreshInitScripts.StartMeaning | src/scripts/refresh-init-scripts.ts:89-124 | The rewritten script is the lines before the marker, the marker block, and the rest after the next heading. |
| RefreshInitScripts.RestoreEndLines | src/scripts/refresh-init-scripts.ts:129-162 | The loop computes `EndFrom`, and reports each marker exactly when some line starts with it. |
| RefreshInitScripts.EndAtMarkers | src/scripts/refresh-init-scripts.ts:137-162 | The Step 5 section is replaced by the generic comment, the echo, the placeholder and a blank line, with Step 6 kept. |
| RefreshInitScripts.EndMeaning | src/scripts/refresh-init-scripts.ts:129-175 | The rewritten script, with one trailing newline. |
| RefreshInitScripts.ImplPathGone | src/scripts/refresh-init-scripts.ts:80 | No `docs/impls/nodejs.md` remains after the replacement. |
| RefreshInitScripts.RestoreImplPaths | src/scripts/refresh-init-scripts.ts:69-84 | A missing directory fails. Otherwise exactly the Markdown files below it are rewritten. |
| RefreshInitScripts.RestoredNoImplPath | src/scripts/refresh-init-scripts.ts:75-82 | Every Markdown file below is rewritten, and no other file is changed. |
| RefreshInitScripts.CopyDirectory | src/scripts/refresh-init-scripts.ts:43-64 | Nothing outside the destination changes. Only copies are created. On success every kept entry (excluded names skipped) is delivered. |
| RefreshInitScripts.ScriptRefreshedEffect | src/scripts/refresh-init-scripts.ts:89-175 | A refreshed script is replaced by its restored text, or the tree is left as it was. |
| RefreshInitScripts.RestoreStartScript | src/scripts/refresh-init-scripts.ts:89-124 | The method computes `StartScriptRefreshed`. |
| RefreshInitScripts.RestoreEndScript | src/scripts/refresh-init-scripts.ts:129-175 | The method computes `EndScriptRefreshed`. |
| RefreshInitScripts.RefreshClaude | src/scripts/refresh-init-scripts.ts:185-195 | Within the template directory only: `.claude/` is copied (without `settings.local.json`) and its implementation paths are restored. |
| RefreshInitScripts.RefreshDevScripts | src/scripts/refresh-init-scripts.ts:197-221 | Within the template directory only: both scripts are copied and restored. |
| RefreshInitScripts.RefreshTemplates | src/scripts/refresh-init-scripts.ts:180-233 | Outside git, or not at the root, fails with no change. Otherwise both refreshes hold, and only the template directory changes. |
| LegacyCore.OrganizedShared | src/core.ts:100-131 | For non-`ref-impl` files, the legacy text and id use equal the later command's. |
| LegacyCore.OrganizedReadsBack | src/core.ts:117-130 | The text ends in a newline. It reads back as the merged frontmatter and the old body. |
| LegacyCore.OrganizedIdempotent | src/core.ts:100-131 | Organizing the result again writes the same text, for every type. |
| LegacyCore.OrganizeFile | src/core.ts:100-133 | Errors in order: "File not found", then "Not in a git repository", with no change. On success only the one file changes. |
| LegacyCore.RefLineOfRef | src/core.ts:335-338 | A reference's line shows its id and its raw `path`. There is no title lookup. |
| LegacyCore.RefLines | src/core.ts:335-338 | One line per reference, in order. |
| LegacyCore.ValidSpecs | src/core.ts:327-331 | Only mappings with `id` and `path` are kept. |
| LegacyCore.FileInfoTextMeaning | src/core.ts:306-359 | The text starts with the header (using `filePath`) and the implementations; non-`ref-impl` or unreadable files add nothing. |
| LegacyCore.SpecsTextLines | src/core.ts:327-340 | The heading appears exactly when some entry is valid. The line list keeps exactly the valid entries. |
| LegacyCore.NoteSpecsText | src/core.ts:327-340 | For a generated note, one spec line. |
| LegacyCore.NoteImplText | src/core.ts:343-352 | For a generated note, the implementation heading and one line. |
| LegacyCore.AppendRefs | src/core.ts:335-338 | The loop appends one line per reference. |
| LegacyCore.FormatFileInfo | src/core.ts:306-359 | The output equals `FileInfoText`. |
| LegacyCore.NoteDir | src/core.ts:419-420 | The note directory is `impl-history` beside the spec. |
| LegacyCore.GenerateImplementationNote | src/core.ts:395-465 | The same checks as the later command. Then `impl-history/` beside the spec is made where missing; a failure there changes nothing and consumes no id. Otherwise one id is consumed and the note is written there. |
| LegacyCore.NoteInDir | src/core.ts:419-464 | The directory is made first. If that fails, nothing changes and no id is taken; otherwise exactly one id is taken and the note is written as `GeneratedIn` states. |
| LegacyCore.MadeDirStays | src/core.ts:422-425 | Writing the note after the directory has been made gives what writing it into the earlier tree gives. |
| LegacyCore.NoteBesideSpec | src/core.ts:418-464 | The note lies at `<spec dir>/impl-history/new-<spec id>-impl.md` and reads back. Only it and missing directories are added. |
| LegacyCore.NoteInfo | src/core.ts:306-359 | `info` on a generated note lists exactly its spec and its implementation. |
| LegacyOrganizer.ClassifyShared | src/organizer.ts:49-69 | The same table as the later one, except that notes are `implementation-note`. |
| LegacyOrganizer.ClassifyTable | src/organizer.ts:49-69 | The closed form of each of the five types, first match winning. |
| LegacyOrganizer.RenderShared | src/organizer.ts:126 | The later layout is this one plus a final newline. |
| LegacyOrganizer.ParseRendered | src/organizer.ts:119-126 | The written text reads back as the merged frontmatter and the body. |
| LegacyOrganizer.RenderedEnd | src/organizer.ts:126 | A non-empty body ends the text, with no trailing newline. |
| LegacyOrganizer.OrganizedVersusCore | src/organizer.ts:96-129 | The later single-file text is this one plus a newline, with equal id use. |
| LegacyOrganizer.OrganizedReadsBack | src/organizer.ts:113-126 | The text reads back as the merged frontmatter and the body, and does not end in a newline. |
| LegacyOrganizer.OrganizedIdempotent | src/organizer.ts:96-129 | Organizing again writes the same text. |
| LegacyOrganizer.OrganizeFile | src/organizer.ts:96-129 | The errors in order with no change; on success only the one file changes. |

## Left out

- I/O outside the tree is left out: console output, `process.exit`, `chmod 0o755` on the dev scripts, and OS error texts (a failed `mkdir`/`write` is an abstract error message).
- Asynchrony is left out: the commands run one after another here, and concurrency between them is ignored.
- Symbolic links are left out. `fs.realpathSync` is the identity, and `path.resolve` is `Paths.Resolve` over normalized segments.
- `isGitRepository`, `git log`, `git worktree add`, `git init`/`add`/`commit` and `git rev-parse` are parameters: a boolean, a `Result<string>`, an oracle function, and an `Option<Path>` for the git root in the refresh script.
- The language-model service and interactive prompts are function parameters. Their prompts and HTTP behaviour are not modelled.
- `js-yaml` load/dump and JSON parse/stringify are parameters. Properties that need a round trip assume the law `Organize.DumpLoads` or `RoundTrips` in `requires`.
- `Envelope.Parse`: a YAML block that loads to a truthy value that is not a mapping (a string or a list) gives `{}`. `parseFrontmatter` returns the value itself. Reads of named keys agree, because a string or a list has none of them. But `organize` spreads the value, so the source then writes its index keys (`0`, `1`, ...) into the frontmatter, and `Organize.Merge` does not.
- `Values.Value` has integers only (`Num(int)`) and no dates. `js-yaml` also loads non-integer numbers (`1.5`, `.nan`, `.inf`) and timestamps (`2024-01-01` becomes a `Date`), which the model cannot represent (`0.0` is the number 0 in JavaScript, so `Num(0)`, falsy, stands for it). They matter to id truthiness (a `.nan` id is falsy), to `Values.ToText` (`String(1.5)`; a `Date` prints in its long form, such as `Mon Jan 01 2024 ...`), to `Values.Spread`, and to the dumped text. A `Date` id is also not a string for the implementation sort.
- `Organize.MergeKeys`, `Values.Spread` and `Values.Set` keep insertion order. JavaScript objects list integer-like keys (such as `0` or `2024`) first, in ascending order. For frontmatter with such keys, the source's key order, and so its dumped text, differs from the model's. The keys and their values agree. The legacy organizer's merge is the same.
- `Envelope.Prepends`: `addCommitsToFrontmatter` is not part of this model. Its law comes from the two "should prepend new commits to existing commits" tests (`src/__tests__/commands/spec.test.ts:110-122`, `src/__tests__/commands/implement.test.ts:251-274`), and the commands' contracts state the prepended commits only under it.
- `Strings.ToLower` gives `i` for U+0130, where JavaScript gives `i` followed by the combining mark U+0307. Every caller (`Feat.Sanitize`, `InitProject.Slug`) then drops U+0307, so their results agree with the code. Other capitals outside ASCII are kept and not lowered; they are dropped too.
- `getDocsDirectory`, `resolveTitleFromFile`, `serializeFrontmatter`, `addCommitsToFrontmatter`, `updateReferenceImplPaths` and `updateCommitMessages` are not part of this model. They are parameters.
- The id provider (`src/core/shared/id-provider.ts`) is an infinite stream of ids with a counter, so "consumes one id" is stated exactly.
- `FileUtils.ReadDir`: the listing order (`localeCompare` on names) is not stated, only that each child is listed once. The final plain sort in `findMarkdownFiles` makes the result independent of it.
- `Info.GetProjectImplementations`: the sort by `localeCompare` on ids is modelled as code-point order on the ids' text (`Values.ToText`, what a template shows), and the order among equal ids is not stated (a permutation of the collected entries). `a.id.localeCompare(b.id)` throws a TypeError when the id in first position is not a string. The model throws exactly when an entry after the first has such an id. That is V8's behaviour for fewer than 64 entries: its run detection and binary insertion sort pass every entry except the first as the first argument at least once, and never the first. For example, `impls/a.md` with `id: IMP-1` and `impls/b.md` with `id: 7` throws, and the same ids in the other order sort. The model applies the same rule to lists of 64 or more entries, where V8's merges compare in an order the model does not follow.
- `FileUtils.FindMarkdownFiles`: `Strings.Less` is code-point order. The default `sort` compares UTF-16 code units, which differs only between characters above U+FFFF and characters in U+E000-U+FFFF.
- `GitUtils.ParseGitLog`: its own contract states only that each sha is a non-empty line of the output. The order and completeness of the lines are stated by `GitUtils.ParseGitLogRoundTrip` for outputs made of hashes.
- `RefreshInitScripts.CopyDirectory`: it requires source and destination to be apart. Copying a directory into itself would recurse without end in the source too.
- `RefreshInitScripts.EndMeaning`: a script that already ends in a newline gains one more newline each time it is restored. The refresh always restores a fresh copy, so this does not accumulate.
- The refresh script's test file calls `refreshInitScripts({outputDir, validateGitRoot})`, a signature the script does not have. The model follows the script.
- The test `src/__tests__/info.test.ts` expects the legacy `formatFileInfo` to print "Implementation Note", which `src/core.ts` never prints. The model follows the code.
- In `src/core.ts`, `findMarkdownFiles`, `organizeAllFiles`, `getProjectImplementations` and `getInfoByIdOrPath` are not modelled; its id provider is the same stream parameter.
- `src/zamm.ts` and `src/cli.ts` (argument parsing and printing) are not part of this model. One detail there is unmodelled: `zamm.ts` passes `newFileNames` to `split`, which reads `newFileName`.
- `src/core/commands/redirect.ts` calls a `setRedirectDirectory` that the workflow service does not define. `RedirectService` is modelled directly instead.
- `organize.ts:33` calls `detectFileType` with the path alone. The model passes the git root found at line 24, as the resolver's two-argument form needs.
- `feat start` never touches the workflow services, although its test expects a `base-state.json`. The model follows the code.
- The info test expects paths relative to `docs/`. `getFileInfo` gives paths relative to the git root, and the model follows the code.
- `Feat.WorktreeAdd` gives git's error output on failure. `Feat.FailureMessage` builds Node's message from it: the output is appended only when captured, and, like Node, only when it is not empty. The message is not modelled further (no signal or exit status).
- The retry loop of `feat start` uses the fixed bound of three attempts from `feat.ts:63`, and no fuel.
- `FileInfo.displayPath`, shown by the `info` header and the spec-history messages, is not set by `getFileInfo` in `src/core/shared/file-resolver.ts`. The model computes it as the path relative to the working directory (`Relative(cwd, abs)`).

## Findings

| source | as written | input that shows it | evidently intended | confidence | as-written member | corrected member |
|---|---|---|---|---|---|---|
| src/core/commands/spec.ts:26-27 | The spec-history check strips leading slashes from `filePath`, which is relative to the git root, and asks for the prefix `spec-history/`. | A spec at `<root>/docs/spec-history/a.md` has `filePath` `/docs/spec-history/a.md`; every such spec is refused. | Accept the specs below `<docs>/spec-history/`. | not executed | Spec.SpecHistoryOnlyAsWritten, Spec.HistorySpecRefused | Spec.SpecHistoryOnly, Spec.SpecHistoryOnlyPlaces |
| src/core/commands/split.ts:63-78 | When the main file is not `README.md`, it moves to `<dir>/README.md`, and the new file goes to `<dir>/<name>.md` with no check. | Split `docs/a.md` with the new name `README`: the stub overwrites the moved main file, and its content is lost. | Refuse a new file that would overwrite the moved main file. | not executed | SplitCommand.ReadmeNameClobbers, SplitCommand.ClobberOverwrites | SplitCommand.Planned, SplitCommand.FolderSplit |
| src/core/commands/feat.ts:67-80 | `git worktree add` runs with `stdio: 'inherit'`, so git's error output goes to the terminal. The message of the error `execSync` throws is then only `Command failed: <command>`, and the clash test looks for "already exists" in it. | The branch `zamm/x` exists and git fails with "fatal: a branch named 'zamm/x' already exists". The message `Command failed: git worktree add "/r/x" -b "zamm/x"` has no clash phrase, so the error is rethrown on the first try. | Retry with another name, as the conflict test (`src/__tests__/commands/feat.test.ts:165-205`) expects with `zamm/user-authentication-feature`. That needs git's error output captured (piped) so that it reaches the message. | not executed | Feat.InheritedSingleTry, Feat.ClashRethrown | Feat.ClashRenamed, Feat.ClashRetried |
| src/core/commands/init.ts:28-35 | A file is refused when its path relative to the directory starts with `..`. | An implementation at `<docs>/..drafts/impl.md` is inside the docs directory but is refused. | Refuse only `..` itself or a path starting with `../`. | not executed | InitScripts.InsideRefused | InitScripts.EnsureInsideIff |
