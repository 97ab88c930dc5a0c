# Sushi: verified models of its table, file, policy and text algorithms

This project models the parts of Sushi that carry algorithms over state or text, and proves what
they promise. Steps that change state are methods of classes (`Store`, `Disk`, `Service`,
`PolicyStore`, `RbacStore`, `SharedAuthorizer`) or loops over locals, each proved equal to a
function of its inputs or related to the old state; the promises are lemmas about those functions.

* **Runtime menu projection** (`Menu*.dfy`). The worklist of `routes/menu.rs` places plugin
  contributions below their parents, adopts or inserts rows, records a mapping, and finally removes
  stale rows. `MenuModel` holds the two tables and every statement as one step that may fail;
  `MenuStore` is the same in the source's imperative form. Proved: both tables keep their
  constraints however a run ends; success if and only if the parent relation is acyclic; what a
  successful run leaves in both tables; a second run writes nothing.
* **File browser** (`File*.dfy`). A file system is a map from paths to nodes. The recursive
  no-overwrite directory rename is proved for runs in which any step may fail: after any outcome
  every file is in exactly one of the two places. Paths under different roots never meet, and the
  paths that a listing reports resolve back.
* **SQL gate** (`Sql*.dfy`). The statement counter and the keyword scanner of `db/gateway.rs` are
  proved against a lexer and a declarative notion of a word, and the gate's decision is proved
  independent of letter case and, under the exact condition, of leading comments.
* **Policy engine** (`Policy*.dfy`, `PathPatterns.dfy`, `Authorizer.dfy`, `Rbac.dfy`). Replacing a
  plugin's bindings and a role's permissions, compiling the snapshot, and the theorem that the
  snapshot decides as the tables do.
* **Text scanners** (`Argv*.dfy`, `Workspace.dfy`, `StaticAssets.dfy`, `StaticPrefix.dfy`). The two
  command line scanners, the nested section extractor, attribute escaping and asset tags, and the
  static prefix.

`Text.dfy` and `Wrappers.dfy` hold the string operations and result types the others share.

Some promises hold only under a condition. These are the places where the code falls short, each
with its exact condition or a concrete input:

* A contribution can find its row taken although no cycle exists, because stale mappings are swept
  only after the worklist (`StaleMappingBlocks`). `SucceedsExactlyWhenAcyclic` therefore asks that no
  row is contested, and `RoutedRunSucceedsExactlyWhen` shows that this is exact for contributions with
  routes.
* A second menu run can fail after a successful first one: the first run may delete the legacy
  System row its own contribution hangs under (`ReprojectionCanFail`). `Reprojection` gives the
  exact condition.
* A listed path resolves back exactly when the entry's name does not end in whitespace and, directly
  under a root, does not start with it (`ListedPathResolvesBack`).
* The two command line scanners agree exactly on lines without `--`, without version and help flags,
  and with no value flag left without a value (`ScannersAgree`).
* The comment stripper takes the star of `/*` also as the star of `*/`, so that a block comment whose
  body starts with a slash ends at once (`SlashBodyEndsAtOnce`) and its text can be taken for the
  statement (`SlashBodyChangesClass`); `has_multiple_statements` reads the same comment to its end.
  `GateIgnoresBlockComment` says for which bodies the gate's decisions change.
* A static prefix of two or more slashes normalises to the empty text, which takes every admin path
  for a static file (`SlashesTakeEveryPath`); it is the only family that does so
  (`NormalizedIsServable`).
* Replacing a role's permissions runs outside a transaction. `ReplaceRolePermissions` states where a
  run can stop, `RepeatKeepsTables` when a repeated permission does no harm, and `RepeatedPermission`
  shows a half-replaced role.

## Model

| member | source | states |
|---|---|---|
| MenuCycle.RankExcludesCycle | crates/sushi-admin/src/routes/menu.rs:585-620 | If every contribution can be numbered after its active parent, the parent relation has no cycle. |
| MenuCycle.StuckProvesCycle | crates/sushi-admin/src/routes/menu.rs:614-618 | A non-empty pending list in which everything waits for something in the list proves a cycle of the active-parent relation. |
| MenuProofs.ProjectKeepsTablesOk | crates/sushi-admin/src/routes/menu.rs:571-658 | However a run ends, mapped rows exist and are mapped once, parents exist and ids stay below the counter. |
| MenuProofs.UpsertEffect | crates/sushi-admin/src/routes/menu.rs:680-781 | A successful upsert changes nothing for a mapped contribution; otherwise the first fitting row (same route, or without a route same label and parent), or a new visible row with the contribution's label, icon, position and route, gets the parent and becomes mapped. |
| MenuProofs.PlaceError | crates/sushi-admin/src/routes/menu.rs:588-613 | Placing one contribution fails only for the reason its error names, and never reports an unresolved parent. |
| MenuStability.FailureExplained | crates/sushi-admin/src/routes/menu.rs:571-658 | Every failing run has the cause its error names; an unresolved parent proves a cycle and the parent foreign key is never violated. |
| MenuContest.SucceedsExactlyWhenAcyclic | crates/sushi-admin/src/routes/menu.rs:571-620 | When no statement fails, every parent is active and no row is contested, all read off the inputs, a run succeeds if and only if the active-parent relation is acyclic, and reports an unresolved parent if and only if it has a cycle. |
| MenuContest.RoutedRunSucceedsExactlyWhen | crates/sushi-admin/src/routes/menu.rs:571-781 | When moreover every contribution has a route, a run succeeds if and only if the relation is acyclic and no row is contested. |
| MenuOrder.OrderDecides | crates/sushi-admin/src/routes/menu.rs:588-613 | Two contributions, one of them without a route, for which the run succeeds in one order of the list and fails in the other. |
| MenuContest.StaleMappingBlocks | crates/sushi-admin/src/routes/menu.rs:622-655 | A concrete table in which a stale mapping holds the row of a new contribution: the run fails with a unique violation and no cycle, leaves the rows alone, and so does every later run. |
| MenuStability.CyclesDecide | crates/sushi-admin/src/routes/menu.rs:585-620 | Whatever the inputs, when a run does not stop for another reason, cycles alone decide how it ends. |
| MenuTheorems.WorklistOutcome | crates/sushi-admin/src/routes/menu.rs:585-620 | The worklist ends with every contribution placed after its parent, or with an explained error. |
| MenuTheorems.SweepAllEffect | crates/sushi-admin/src/routes/menu.rs:622-655 | A completed sweep removes exactly the rows and mappings of stale contributions and detaches their children, in whatever order rows are scanned. |
| MenuTheorems.SuccessfulProjection | crates/sushi-admin/src/routes/menu.rs:571-658 | After success the mapped ids are exactly the active ids, the mapping is injective into existing rows, only rows of stale contributions are gone, other rows change at most in their parent, and every row first mapped in the run has the contribution's route or label, is visible with its icon and position if new, and hangs under the row of its active parent, or under the System row for an inactive one. |
| MenuStability.SettledProjection | crates/sushi-admin/src/routes/menu.rs:571-658 | When exactly the active contributions are mapped, a run writes nothing, however it ends. |
| MenuStability.Reprojection | crates/sushi-admin/src/routes/menu.rs:571-703 | A run on the result of a successful run writes nothing, and succeeds if and only if every parent is active or the legacy System row survived. |
| MenuStability.ReprojectionCanFail | crates/sushi-admin/src/routes/menu.rs:660-678 | A concrete table for which the first run succeeds and the second fails. |
| MenuStore.Store.UpsertRuntimeMenuItem | crates/sushi-admin/src/routes/menu.rs:680-781 | The statement sequence of the upsert leaves exactly the tables and the result of its functional form, failures included. |
| MenuStore.Store.PlaceAll | crates/sushi-admin/src/routes/menu.rs:585-620 | The worklist loop terminates, because each round shortens the pending list or stops, and equals its functional form. |
| MenuStore.Store.RemoveStale | crates/sushi-admin/src/routes/menu.rs:622-655 | The sweep loop equals its functional form. |
| MenuStore.Store.ProjectRuntimeMenuContributions | crates/sushi-admin/src/routes/menu.rs:571-658 | The whole projection keeps the constraints of both tables and, on success, establishes everything SuccessfulProjection states. |
| FileSystem.Disk.RenameDirectoryNoOverwrite | crates/sushi-core/src/fs/mod.rs:587-602 | Terminates; on success the old subtree is exactly at the target and nothing else changed; on failure nothing changed or every file is in exactly one of the two places, unchanged; without faults it succeeds if and only if the target is free and its parent is a directory. |
| FileSystem.Disk.MoveEntry | crates/sushi-core/src/fs/mod.rs:590-600 | One round of the loop moves the entry's whole subtree, or leaves the directory partly moved. |
| FileMoveProofs.FilesConserved | crates/sushi-core/src/fs/mod.rs:587-602 | However a move ends, no file or link is lost, duplicated or invented, and each keeps its content and relative path. |
| FileMoveProofs.MovedIsPartlyMoved | crates/sushi-core/src/fs/mod.rs:587-602 | A completed move is a partial move that leaves nothing at the source. |
| FileMoveProofs.MoveBackRestores | crates/sushi-core/src/fs/mod.rs:587-602 | Moving a subtree and moving it back restores the file system exactly. |
| FileBrowser.Service.Rename | crates/sushi-core/src/fs/mod.rs:308-332 | Success moves exactly the addressed subtree to a free target; a failure changes nothing, or leaves a directory split as above or a file under both names; without faults it succeeds if and only if the request is permitted, the source exists, and the target is free, in a directory and not inside the source. |
| FileBrowser.FromManifestWithRootBase | crates/sushi-core/src/fs/mod.rs:138-195 | Construction succeeds if and only if root ids are distinct, all paths canonicalise and no two roots overlap; then there is one root per configuration with its capabilities, its title or for a blank one its id, at its absolute path or its path from the base. |
| FileBrowser.DisjointRootsNeverMeet | crates/sushi-core/src/fs/mod.rs:170-190 | Below two roots that do not overlap no path equals or contains another. |
| FileBrowser.ResolvedPathsNeverMeet | crates/sushi-core/src/fs/mod.rs:431-468 | No accepted path under one root equals or lies below an accepted path under another root. |
| FileBrowser.Service.ResolveSegmentsExisting | crates/sushi-core/src/fs/mod.rs:471-485 | Resolves if and only if every prefix exists and, when links are denied, is not a link. |
| FileBrowser.Service.ResolveExisting | crates/sushi-core/src/fs/mod.rs:431-446 | The result is the root's path followed by the segments the text spells; exactly the reachable spellings resolve. |
| FileBrowser.Service.ResolvesIsLeads | crates/sushi-core/src/fs/mod.rs:431-446 | A text resolves if and only if what it spells, described in characters, can be reached. |
| FileBrowser.Service.ResolveForCreate | crates/sushi-core/src/fs/mod.rs:448-468 | As above, but only the directory of the leaf has to be reachable, and the root itself is refused. |
| FileBrowser.Service.CreatableIsLeadsToNew | crates/sushi-core/src/fs/mod.rs:448-468 | A text may be created if and only if the directory of what it spells can be reached. |
| FileBrowser.Service.List | crates/sushi-core/src/fs/mod.rs:216-253 | The listing has each visible child of the addressed directory exactly once, under its root-relative path; without faults it succeeds if and only if the directory may be listed, resolves and is one. |
| FileBrowser.ListedEntryResolves | crates/sushi-core/src/fs/mod.rs:216-253 | A listed path resolves, under the same root, to the listed entry if and only if the name keeps its spelling when normalised. |
| FilePaths.ParseRelSegments | crates/sushi-core/src/fs/mod.rs:496-537 | The result is what the text spells: after dropping outer slashes and then outer whitespace, the pieces between slashes without empty ones and ".", or the error of the first refused piece. |
| FilePaths.ParseIsSpelling | crates/sushi-core/src/fs/mod.rs:487-537 | That description, from the raw text and in characters, holds of exactly one result for every text. |
| FilePaths.SlashesAroundAreDropped | crates/sushi-core/src/fs/mod.rs:487-494 | Slashes put before and after a path make no difference. |
| FilePaths.AcceptedSegmentsAreNames | crates/sushi-core/src/fs/mod.rs:496-537 | Accepted segments are never empty, ".", ".." or slash-bearing, and not hidden when hidden names are refused. |
| FileSpelling.ParseOfJoin | crates/sushi-core/src/fs/mod.rs:487-537 | Entry names joined by slashes parse back to exactly those names if and only if the whole has no whitespace at its ends. |
| FileSpelling.ParseOfParsedPath | crates/sushi-core/src/fs/mod.rs:487-537 | Spelling the segments of an accepted path and parsing that again gives the same segments under exactly that condition. |
| FilePaths.ListedPathResolvesBack | crates/sushi-core/src/fs/mod.rs:239-244 | For every accepted spelling of the directory, the child path parses to the directory's segments and the name if and only if the name keeps its spelling. |
| FilePaths.TrailingSpaceIsLost | crates/sushi-core/src/fs/mod.rs:239-244 | An entry name ending in a space, for example, does not parse back. |
| SqlGate.HasMultipleStatements | crates/sushi-core/src/db/gateway.rs:98-193 | Answers true if and only if the code text, without quotes and comments, has a non-blank character after a semicolon; at most one mode flag is ever set. |
| SqlLexer.LookaheadIsIrrelevant | crates/sushi-core/src/db/gateway.rs:98-193 | A scanner without the doubled-quote lookahead finds the same code text. |
| SqlGate.StripComments | crates/sushi-core/src/db/gateway.rs:280-300 | The loop terminates and strips what the recursive definition strips. |
| SqlGate.StripIdempotent | crates/sushi-core/src/db/gateway.rs:280-300 | Stripping twice is stripping once. |
| SqlGate.FirstStatementKeyword | crates/sushi-core/src/db/gateway.rs:205-278 | The flag-driven scanner finds the first keyword among the words outside quotes and parentheses. |
| SqlLexer.FirstKeywordCharacterised | crates/sushi-core/src/db/gateway.rs:205-278 | A keyword is found if and only if some word is a keyword, and it is the lower-cased word that starts first; a word is a maximal token ended by a plain character or the end of input. |
| SqlLexer.FirstKeywordIsTableWord | crates/sushi-core/src/db/gateway.rs:195-278 | The keyword found is the word that starts first among the words of the source's table, which is written out. |
| SqlGate.CheckPermission | crates/sushi-core/src/db/gateway.rs:57-80 | Several statements are refused for everyone. Otherwise a read-only gateway allows a statement if and only if the table's word that starts first is select, values or explain, a writing one also for insert, update, delete, replace and upsert, and an administrating one always. |
| SqlProofs.LineCommentInFront | crates/sushi-core/src/db/gateway.rs:280-300 | A leading line comment changes neither the code text nor the stripped text. |
| SqlComments.VanishingIsUnnoticed | crates/sushi-core/src/db/gateway.rs:280-300 | Stripping never notices a text in front, whatever the statement, if and only if the text is whitespace and comments that end in it. |
| SqlComments.BlockCommentInFront | crates/sushi-core/src/db/gateway.rs:98-193 | The code text never sees a leading block comment; the stripped text of no statement changes if and only if the body does not start with a slash or what that slash uncovers vanishes. |
| SqlComments.GateIgnoresLineComment | crates/sushi-core/src/db/gateway.rs:57-96 | The gate decides a statement behind a line comment as the bare one. |
| SqlComments.GateIgnoresBlockComment | crates/sushi-core/src/db/gateway.rs:57-96 | For every permission and statement the gate decides a statement behind a block comment as the bare one, if and only if the body vanishes in that sense. |
| SqlComments.TwoSlashesVanish | crates/sushi-core/src/db/gateway.rs:280-300 | A body that starts with a slash and vanishes all the same. |
| SqlProofs.SlashBodyEndsAtOnce | crates/sushi-core/src/db/gateway.rs:280-300 | A block comment whose body starts with a slash is stripped to just that slash, whatever follows. |
| SqlProofs.SlashBodyChangesClass | crates/sushi-core/src/db/gateway.rs:90-96 | A concrete comment with such a body turns a read into an admin statement. |
| SqlCase.GateIgnoresCase | crates/sushi-core/src/db/gateway.rs:57-96 | Texts equal but for the case of ASCII letters get the same class and the same decision. |
| SqlCase.GateIgnoresLowerAndUpper | crates/sushi-core/src/db/gateway.rs:90-96 | Lower- and upper-casing a statement changes no decision. |
| PolicyKeys.ParseAccepts | crates/sushi-core/src/auth/policy.rs:10-48 | A key is accepted if and only if its trimmed lower-case text is three valid segments joined by dots, and it is stored as that text. |
| PolicyKeys.ParseOfParsed | crates/sushi-core/src/auth/policy.rs:10-41 | Parsing the key of a parsed key gives the same key. |
| PolicyTables.NormalizeAllGives | crates/sushi-core/src/auth/policy_repository.rs:37-60 | The requests normalise if and only if every field is non-blank and every key parses; then, in order, fields are trimmed, surfaces lower-cased, methods upper-cased and keys stored as they parse. |
| PolicyTables.NormalizedKeyParses | crates/sushi-core/src/auth/policy_repository.rs:32-151 | The second parse inside the transaction cannot fail and gives the normalised key. |
| PolicyTables.PolicyStore.ReplacePluginPolicyBindings | crates/sushi-core/src/auth/policy_repository.rs:32-151 | Success leaves exactly the normalised requests, column by column and in order, under fresh ids as the plugin's rows, every row of another owner type or owner id untouched, and existing keys untouched; failure changes nothing; without faults it succeeds if and only if everything normalises and no two requests are equal. |
| PolicyTables.PolicyStore.ApplyReplacement | crates/sushi-core/src/auth/policy_repository.rs:60-145 | The statements inside the transaction succeed if and only if no two requests are equal, because the unique index refuses a repeat. |
| PolicyDecisions.RoutesAfterReplacement | crates/sushi-core/src/auth/policy_repository.rs:32-151 | After a replacement a request is allowed if and only if a surviving row of another owner allowed it before, or a requested route covers it with a key granted to the role. |
| PolicyDecisions.CommandsAfterReplacement | crates/sushi-core/src/auth/policy_repository.rs:32-151 | After a replacement a command is allowed if and only if the plugin's last request for it, or, if there is none, the last surviving row for it, has a key granted to the role. |
| PolicyDecisions.GrantsKept | crates/sushi-core/src/auth/policy_repository.rs:90-103 | A replacement changes no grant, and a key it inserts is granted to nobody. |
| Authorizer.NewSnapshot | crates/sushi-core/src/auth/authorizer.rs:29-52 | The loops keep every route, the last key of each command and exactly the granted keys of each role. |
| Authorizer.CompileSnapshot | crates/sushi-core/src/auth/policy_repository.rs:311-388 | Compilation succeeds if and only if every joined row has the columns of its kind, and then the snapshot decides every request as the rows' own columns do. |
| Authorizer.HttpDecides | crates/sushi-core/src/auth/authorizer.rs:13-19 | A request is allowed if and only if some route row has its surface, its method up to ASCII case, a pattern that covers its path, and a key granted to the role. |
| Authorizer.CommandDecides | crates/sushi-core/src/auth/authorizer.rs:77-89 | A command is allowed if and only if the binding row with the highest id has a key granted to the role. |
| Authorizer.SharedAuthorizer.Refresh | crates/sushi-core/src/context.rs:295-302 | A refresh succeeds if and only if every joined row has its columns; then the shared snapshot decides as the tables do, and otherwise it is the old one. |
| Authorizer.SharedAuthorizer.CheckHttp | crates/sushi-core/src/auth/authorizer.rs:125-140 | After such a refresh the check gives the tables' answer. |
| Authorizer.SharedAuthorizer.CheckCommand | crates/sushi-core/src/auth/authorizer.rs:142-156 | The same for commands. |
| PathPatterns.MatchesInstances | crates/sushi-core/src/auth/authorizer.rs:164-194 | A pattern without trailing star matches a path if and only if the path, outer slashes aside, is the pattern's segments joined by slashes with each parameter replaced by some slash-free text. |
| PathPatterns.MatchesCovered | crates/sushi-core/src/auth/authorizer.rs:164-194 | The matcher agrees for every pattern with a description that names characters only: a prefix before a final star, or segment by segment equal after dropping outer slashes, a segment in braces standing for any. |
| PathPatterns.PaddingIsIrrelevant | crates/sushi-core/src/auth/authorizer.rs:164-190 | Slashes before and after the path never change that answer. |
| PathPatterns.StarMatchesPrefix | crates/sushi-core/src/auth/authorizer.rs:164-170 | With a trailing star the pattern matches exactly the continuations of its prefix. |
| Rbac.ReplacedHolds | crates/sushi-core/src/auth/rbac.rs:296-366 | The role has exactly the requested permissions, exactly its underived keys and the keys of the requested permissions, and no other role changes. |
| Rbac.LastReplacementWins | crates/sushi-core/src/auth/rbac.rs:296-366 | Only the last replacement of a role counts; in particular a repeat changes nothing. |
| Rbac.ReplacementsCommute | crates/sushi-core/src/auth/rbac.rs:296-366 | Replacements of different roles give the same tables in either order. |
| Rbac.RbacStore.ReplaceRolePermissions | crates/sushi-core/src/auth/rbac.rs:296-366 | Success gives the replaced tables. A run that stops has touched only this role: it inserted some of the requested permissions beside the old policy keys, or all of them and removed the derived keys. Without storage failures it succeeds if and only if the role and all permissions exist and none repeats; a missing one changes nothing, a repeat leaves the permissions before it. |
| Rbac.RepeatKeepsTables | crates/sushi-core/src/auth/rbac.rs:322-334 | A repeated permission leaves the tables as they were if and only if the permissions before the repeat are those the role had. |
| Rbac.RepeatedPermission | crates/sushi-core/src/auth/rbac.rs:296-366 | A concrete run that ends with an error and a half-replaced role: the new permission beside the policy key of the old one. |
| Rbac.RbacStore.UpdateRolePermissions | crates/sushi-admin/src/routes/roles.rs:421-429 | After de-duplication the inserts cannot collide: without storage failures it succeeds if and only if the role and all permissions exist, and otherwise changes nothing; with failures it may stop where ReplaceRolePermissions may, for the de-duplicated list. |
| Rbac.Deduplicate | crates/sushi-admin/src/routes/roles.rs:421-429 | The result lists every id of the form once, in the order of first occurrence. |
| Rbac.DeduplicatedIsUnique | crates/sushi-admin/src/routes/roles.rs:421-429 | Only one list does so. |
| Argv.ParseBootstrapOptions | crates/sushi-cli/src/commands/dynamic.rs:212-302 | The scanner returns the last value of each single option, all overlays, and the operands split into command and arguments. |
| ArgvProofs.ValueFlags | crates/sushi-cli/src/commands/dynamic.rs:231-252 | Which arguments take the next one as the role, configuration, profile or overlay. |
| ArgvProofs.Assignments | crates/sushi-cli/src/commands/dynamic.rs:253-272 | Which arguments carry such a value behind an equals sign, and which value. |
| ArgvProofs.InformationFlags | crates/sushi-cli/src/commands/dynamic.rs:273-281 | Which arguments ask for the version or for help. |
| ArgvProofs.RoleText | crates/sushi-cli/src/commands/authorization.rs:44-50 | A role is trimmed and lower-cased, and a blank one means the administrator. |
| Argv.NormalizeRuntimeArgv | crates/sushi-cli/src/commands/dynamic.rs:304-333 | The loop keeps exactly the arguments that belong to no global option. |
| ArgvProofs.NormalizeTwice | crates/sushi-cli/src/commands/dynamic.rs:304-333 | Normalising twice is normalising once, for every command line. |
| ArgvProofs.ScannersAgree | crates/sushi-cli/src/commands/dynamic.rs:212-333 | Both scanners see the same command and arguments if and only if the line has no separator, no version or help flag and no value flag without a value. |
| ArgvProofs.SeparatorDivides | crates/sushi-cli/src/commands/dynamic.rs:212-333 | A line with a separator on which they differ. |
| ArgvProofs.NormalizedIsCommandAndArgs | crates/sushi-cli/src/commands/dynamic.rs:212-333 | Under exactly that condition, the normalised line after the program name is the parsed command followed by its arguments. |
| ArgvProofs.OptionAnywhere | crates/sushi-cli/src/commands/dynamic.rs:212-333 | A global option at any boundary between arguments is invisible to both scanners. |
| ArgvProofs.MovingAnOption | crates/sushi-cli/src/commands/dynamic.rs:212-333 | Moving it to another boundary changes neither the command nor its arguments. |
| Workspace.ExtractWorkspaceModuleFragment | crates/sushi-admin/src/routes/workspace.rs:41-82 | Terminates without underflow; the fragment starts at the last "<section" before the first marker and is the shortest balanced run of section tags, and there is none if no run is balanced. |
| Workspace.NextTagIs | crates/sushi-admin/src/routes/workspace.rs:50-68 | The first opening or closing tag that has an end is the next one, with no other way to miss it. |
| Workspace.FragmentIsUnique | crates/sushi-admin/src/routes/workspace.rs:41-82 | That description fits only one result. |
| Workspace.FragmentShape | crates/sushi-admin/src/routes/workspace.rs:41-82 | A fragment starts at a "<section" in front of the first "data-admin-workspace-module" and ends with the end of a "</section" tag. |
| Workspace.FragmentContainsMarker | crates/sushi-admin/src/routes/workspace.rs:41-82 | The fragment contains the marker if and only if no complete closing tag lies between the section's own tag and the marker. |
| Workspace.UnclosedFragmentContainsMarker | crates/sushi-admin/src/routes/workspace.rs:41-82 | In particular it does when no "</section" lies between the start and the marker. |
| StaticAssets.EscapesEachCharacter | crates/sushi-admin/src/router.rs:513-519 | The four replacements in sequence equal one substitution of each character. |
| StaticAssets.UnescapeInverts | crates/sushi-admin/src/router.rs:513-519 | Reading references back undoes the escaping of every text. |
| StaticAssets.EscapedIsInert | crates/sushi-admin/src/router.rs:513-519 | Escaped text contains no quote and no angle bracket. |
| StaticAssets.AppendAssetsToHtmlResponse | crates/sushi-admin/src/router.rs:485-511 | The tags go before the first "</body>", or to the end, and every character of the page is kept. |
| StaticAssets.TagsShowTheirUrls | crates/sushi-admin/src/router.rs:485-519 | Whatever the URLs contain, a reader of the tags' attribute values gets exactly them back, in order, style sheets first. |
| StaticPrefix.NormalizedIsServable | crates/sushi-admin/src/render.rs:63-93 | The normalised prefix starts with a slash, does not end with one and takes no admin path, if and only if the trimmed setting is not a run of two slashes or more. |
| StaticPrefix.NormalizedText | crates/sushi-admin/src/render.rs:63-93 | An ordinary setting keeps its text, trimmed, rooted and without slashes at its end; blank, root and admin settings become "/static". |
| StaticPrefix.MatchesBelow | crates/sushi-admin/src/router.rs:521-530 | A path matches if and only if it is the prefix or goes on behind it with a slash. |
| StaticPrefix.SlashesTakeEveryPath | crates/sushi-admin/src/router.rs:521-530 | For such a run the prefix is empty and every rooted path matches it. |
| StaticPrefix.TwoSlashesTakeAdmin | crates/sushi-admin/src/router.rs:521-530 | Two slashes, for example, take the admin page. |

## Left out

- SucceedsExactlyWhenAcyclic: for contributions without a route the absence of contests is sufficient and not necessary, because no condition on the set of contributions is: OrderDecides shows two of them that succeed in one order only. A parent that is not active is not covered, because the legacy System row it needs may move in the same run.
- SuccessfulProjection: does not claim that `menu_items` itself stays acyclic, because manual edits and adopted legacy rows can already form cycles.
- ProjectRuntimeMenuContributions: contribution ids are assumed distinct, which the capability registry ensures (crates/sushi-core/src/runtime/registry.rs:1665-1696); the registry is not part of this model.
- ResolveSegmentsExisting: symbolic links are leaves, so with links allowed the paths that lead through a link, which the source accepts, are not modelled.
- ResolveExisting: the same limit on allowed links.
- ResolveForCreate: the same limit on allowed links in the directories above the leaf.
- List: with links allowed the source also lists the target of a link to a directory, which the model refuses; the sorting of entries and their sizes are not modelled, and the directory is read as one snapshot in an unspecified order.
- Rename: with links allowed the source follows a link at the source path, so renaming a link to a directory or a dangling link is not modelled.
- ParseBootstrapOptions: the locals are kept in one record and one round of the loop is a method of its own; the environment's role is a parameter.
- HasMultipleStatements: the second tests for comment openings after the quote tests cannot be reached and are omitted.
- CompileSnapshot: the three queries read one state of the tables.
- Other file operations (reading, writing, creating, deleting, uploading) and the text extension filter: single-branch checks around one system call.
- Canonicalisation of root paths, which system calls and statements fail, and the order of unordered scans are parameters of the model.
- Upserting and deleting single policy bindings, listing keys and the test for a command binding: each is one statement or lookup.
- SQL text, timestamps, the branch for missing tables and the case of an insert that returns no id: database plumbing.
- Concurrency: locks, awaits and other processes that change the same files; one operation runs at a time.
- Non-ASCII lower-casing, lossy names and platform path prefixes; texts are sequences of characters and paths are Unix paths.
- The wording of error messages.
- HTTP routing, templates, sessions, plugin loading and the Lua host: their code is I/O or lies outside the modelled files.
