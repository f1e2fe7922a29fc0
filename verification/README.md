# The project registry, modelled and proved

This project models the store of a project registry: the tables `project`, `project_alias`,
`project_grant`, `project_write` and the one-row sync lock, the three verbs that write them
(`SyncProjects`, `RegisterProject`, `TouchProjects`), the three that read them (`ResolveProject`,
`GetProject`, `ListProjects`), and the pooled connection every call runs on.

The main results:

- **Serialisability.** Syncs, registrations and flushes run one statement and one row lock at a
  time, interleaved in any way, each free to fail at any step. In every state of every behaviour
  there is one order of the calls answered so far in which, run one at a time, each gives the answer
  it gave, each flush naming its rows where it stands; together they leave the whole committed
  registry, and no call comes before one answered before it began
  (`Behaviours.EveryBehaviourIsLinear`). Everything proved of serial runs is then carried over to the
  interleaved ones, in `Behaviours.dfy`.
- **What a flush can do to a sync.** No constraint refuses a statement of a sync. But a sync reads
  its rows before it writes them, and the engine refuses an UPDATE of a row changed in between: in
  any state of any behaviour a sync that comes to a row it is to change is answered INTERNAL if and
  only if a flush answered since it read its rows has moved that row (`Behaviours.RefusedIffMoved`).
  Of a sync and a flush sent to the same registry, the flush can fail the sync if and only if nothing
  else refuses the sync and the flush moves a row it changes (`Conflicts.FailsIffClash`).
- **Deadlock**, on the locks modelled (the sentinel row, ledger keys, paths, and the rows a statement
  scans, changes or grants on; not gaps). The waits on the sentinel row, a key and a path never close
  a circle; the waits on rows can, and nothing else leaves the machine stuck
  (`Deadlocks.OnlyRowsDeadlock`, `Deadlocks.StuckOnRows`). Whichever rows the engine scans for a
  flush, two calls sent to the same registry can deadlock, in some order of the scans, if and only if
  they are not both syncs and share two rows, rows a flush scans and a sync changes or grants a new
  team on (`Contention.DeadlockIffTwoShared`); about to lock their rows, the scans chosen, if and only
  if each comes first to another of the rows they share and no row the sync is to change first has
  been moved (`Deadlocks.CircleIffTwoOrders`).
- **Convergence.** What a registry shows after any run is a function of the last accepted
  declaration alone; sent again, a declaration changes nothing. The counts are conserved and the
  guards leave at least half of what they guard.
- **Exactly-once registration**, over any run with any retries: a retry gets the first answer or,
  differing in path, name or repository, a refusal.
- **Every answer from the request's own fields.** The contracts of the six verbs
  (`Database.ProjectDb`) say, for every request and every registry, which code refuses it and when,
  and what is otherwise stored, read back and counted, column by column.
- **Last seen** is the latest of a row's first value and the flushes that named it, by its path or a
  former one, under any interleaving; every row a flush named when it began has advanced once it is
  answered; and the order flushes land in is immaterial.
- **Resolution** is the nearest registered ancestor, blind to letter case and row order, and stable
  over whole runs. The SQL subtree and the Rust ancestor chain are one hierarchy for every string.
- **Keyset pages** are complete and free of repeats while the registry changes between them.
- The touch warning means exactly what `Dedup.WarningMeans` says.
- **No dropped call poisons the connection pool.**

## How it is laid out

| file | what it holds |
|---|---|
| `Text.dfy`, `Paths.dfy`, `Like.dfy` | ASCII folding and sorting, the path grammar, ancestors, LIKE with escapes |
| `Registry.dfy` | the tables, the constraints on them, and the SQL statements that change them |
| `Declaration.dfy`, `Reconcile.dfy`, `GrantPlans.dfy`, `Syncs.dfy`, `SyncLaws.dfy` | a sync: validation, what it leaves, its statements, its laws |
| `Registration.dfy`, `Touches.dfy`, `Dedup.dfy` | registration with its ledger; flushes |
| `Congruence.dfy`, `Operations.dfy` | what a sync depends on; runs of the three verbs |
| `Interleaving.dfy`, `Survival.dfy`, `Serializability.dfy` | the machine of statements and row locks, and its serial order |
| `History.dfy`, `Linearization.dfy`, `Behaviours.dfy` | when each call began, named its rows and ended; the order in which every call is exact; whole behaviours |
| `RowLocks.dfy`, `LockedRows.dfy`, `Snapshots.dfy` | the rows each transaction locks and in which order, which of them a sync changes, and what a flush moves under it |
| `Progress.dfy`, `Deadlocks.dfy`, `Contention.dfy`, `Conflicts.dfy` | what can be stuck, which calls can deadlock, and which flush can fail which sync |
| `Resolution.dfy`, `Lookups.dfy`, `Pages.dfy`, `RoundTrips.dfy` | the reads, and what they answer after a write |
| `Diff.dfy`, `Reconciler.dfy`, `Database.dfy` | the code as the source writes it: loops and a class whose tables change in place |
| `Pooling.dfy` | the pooled connection |

The registry is a value, `Store`, and each verb a function from it to an answer and the registry
it leaves. `Database.ProjectDb` is the source's own form: it opens a transaction, executes one
statement after another on tables it updates in place, commits or rolls back, and is proved to do
what those functions say. `Registry.Exec` is one statement: the tables it leaves, or a refusal on a
unique index, a CHECK or a foreign key.

What is taken as given: ids are minted fresh; SHA-256 is injective, so a payload stands for its
own digest; an encoded response decodes to itself; `utf8mb4_general_ci` folds and sorts the path
alphabet by ASCII upper case (src/path.rs:113-121 says why that is all it does); the driver and the
pool behave as src/pooled.rs:64-87 describes them.

## Where the code and its documentation disagree

The model follows the code.

- `src/idem.rs:23` lists the payload of `RegisterProject` as path and display name.
  `src/write/register.rs:455-460` clears only the scope and the key, so the repository is part of
  the payload too (`Registration.PayloadOf`, `Registration.SpentKeyDecides`).
- The touch warning (`src/write/touch.rs:195-202`) says that some path resolves to no project. It
  also fires when every path resolves but two of them name one project, a path and a former path or
  two former paths: `Dedup.WarningCriesWolf` is such a registry and flush, and `Dedup.WarningMeans`
  gives the exact condition.
- `src/write/touch.rs:65-92` counts after its update because a plain SELECT in front of an UPDATE has
  the engine refuse a row changed in between with ERROR 1020, which `src/sql.rs:149-169` answers
  INTERNAL though its own comment says a caller who is to retry must not be told of a permanent
  failure. A sync still has that shape: it reads the org rows with a plain SELECT
  (`src/write/sync.rs:292-298`) and then updates them (`src/write/sync.rs:408-425`, `458-475`), and a
  flush takes no sentinel. `Behaviours.RefusedIffMoved` and `Conflicts.FailsIffClash` say exactly when
  it fails, and `Conflicts.RenamingCanFail` is a registry, a sync and a flush that do.
- `src/write/grants.rs:71` calls a stored grant's path case-folded; the query selects it as
  stored and `plan` folds it (`Diff.StoredGrant`).

## Model

| member | source | states |
|---|---|---|
| Text.BeforeTrichotomy | src/schema.rs:376-388 | the sort key of the path column is exactly as fine as its unique index: of two paths one sorts first, or they are one key |
| Text.BeforeIff | src/schema.rs:376-388 | the path column sorts as its collation does: where two paths first differ in more than case, the lower upper-case letter first, or the one that ends there |
| Paths.Validate | src/path.rs:254-290 | accepts exactly the paths of 1 to 255 characters cut by single slashes into segments of letters, digits, dot, underscore and hyphen, none of them a dot or two |
| Paths.Ancestors | src/path.rs:303-311 | the loop that cuts at the last slash until none is left returns the ancestor chain |
| Paths.ChainIsTheAncestors | src/path.rs:292-311 | the chain holds exactly the path and its segment-wise ancestors, each strictly shorter than the one before |
| Paths.AncestorsAreSegmentPrefixes | src/path.rs:292-311 | an ancestor is a prefix of segments, never a mere prefix of characters |
| Paths.AncestorsAreValid | src/path.rs:254-311 | every ancestor of a valid path is a valid path |
| Paths.OwnRootsAreDisjoint | src/path.rs:189-233 | a path under a user's account segment is private, not the bare reserved root, and under no other user's |
| Paths.CanonicalIffRendered | src/path.rs:209-216 | the account segments are exactly the lower-case hyphenated renderings of the UUIDs of version 7 and the RFC variant: any other spelling of one is refused |
| Paths.AccountSegmentIff | src/path.rs:209-216 | a user id owns a segment exactly when it is `yadgar:user:` and that segment |
| Paths.OwnRootIsAncestor | src/path.rs:230-233 | a path is under an account's own root exactly when `local/<segment>`, byte for byte, is the path or an ancestor of it |
| Like.LikeEscape | src/sql.rs:115-124 | the loop returns the escaped value |
| Like.EscapedMatchesItselfOnly | src/sql.rs:98-124 | before any further pattern an escaped value matches itself, case folded, and nothing else, whatever wildcards or backslashes it holds |
| Like.SubtreeIsStrictlyBeneath | src/sql.rs:126-138 | for all strings, the subtree pattern matches exactly what folds to the path, a slash and more |
| Like.SubtreeAgreesWithAncestors | src/read.rs:229-236 | `under_path` holds of a path exactly when it is, folded, a member of the path's ancestor chain |
| Like.ClassCheckAgrees | src/schema.rs:180-185 | the CHECK's `LIKE 'local/%'` and `is_private_class` classify every string alike |
| Registry.ClassIsThePath | src/schema.rs:161-189 | a stored row's class is its path's: beneath `local` it has an owner and no repository, elsewhere a repository and no owner |
| Registry.ExecKeepsSchema | src/schema.rs:161-265 | a statement the engine accepts breaks no unique index, CHECK or foreign key, and an insert it accepts replaces nothing |
| Registry.TeamIdIff | src/write/grants.rs:20-69 | a team id is exactly `yadgar:team:`, a lower-case letter and up to 62 lower-case letters, digits or hyphens |
| Declaration.ValidateGrants | src/write/grants.rs:27-59 | accepts exactly the grants with a set level, a well-formed team and no team twice |
| Declaration.ValidateDeclaration | src/write/sync.rs:178-252 | accepts exactly the well-formed declarations, and returns the rows as they were sent: path, display name, repository and each grant in its own place, level 1 as read and 2 as read-write |
| Declaration.RowOkIff | src/write/sync.rs:216-252 | what one row may hold, the column widths and the levels by number |
| Declaration.DeclarationOkIff | src/write/sync.rs:143-213 | what a declaration may hold: a principal that fits its column, a root, every row well formed, roots one segment long, every project beneath one, no path twice in any letter case |
| Declaration.RefuseDuplicates | src/write/sync.rs:256-268 | says whether any two rows share a case-folded path |
| Declaration.ValidatedIsWellFormed | src/write/sync.rs:178-252 | a validated declaration is a forest: keys distinct, org paths only, every row at or beneath a declared root |
| Reconcile.InsertNeverRefused | src/write/sync.rs:428-453 | an insert of a sync run alone hits neither the unique index nor a CHECK |
| Reconcile.RowWritesApply | src/write/sync.rs:385-426 | the row loop's statements are all accepted and leave the declared rows written and the others alone |
| GrantPlans.InsertIsNew | src/write/grants.rs:174-186 | an inserted grant's row always exists and holds no grant for its team: no missing id, no broken primary key |
| GrantPlans.PlanSettles | src/write/grants.rs:104-137 | a plan applied to the stored grants leaves exactly the declared ones on org rows, archived rows included, and every grant on a private row untouched |
| GrantPlans.GrantWritesApply | src/write/grants.rs:154-189 | no grant statement is refused, and together they settle the grants |
| GrantPlans.SyncWritesConverge | src/write/sync.rs:281-338 | no statement of a sync is refused, and together they take the registry to the converged one |
| Syncs.SettledRowIs | src/write/sync.rs:385-477 | what a sync does to each stored row: path, class and owner stay, private rows stay whole, declared rows end active with their content, other org rows archived, and the version moves by one and the actor is stamped exactly when the row changed |
| Syncs.InsertedBy | src/write/sync.rs:428-453 | a row a sync stores for the first time is its entry's, column by column: active, nobody's, at version one, stamped with the actor |
| Syncs.ConvergesToDeclaration | src/write/sync.rs:301-337 | after a sync the active paths with their names and repositories are the declaration's, whatever was stored |
| Syncs.GrantsConvergeToDeclaration | src/write/grants.rs:104-189 | after a sync an org row grants a team a level exactly when the declaration does |
| Syncs.ConvergedKeepsSchema | src/schema.rs:161-189 | a sync keeps unique folded paths, both CHECKs, the primary keys and the foreign key |
| Syncs.ConvergedIsAnchored | src/write/sync.rs:178-213 | after a sync every active org row lies beneath an active row one segment long |
| Syncs.ConvergedKeepsRules | src/write/sync.rs:341-366 | a sync keeps the rules no constraint states: no path both live and former, legal paths, grants on org rows, owners under their own root |
| SyncLaws.SyncIsIdempotent | src/write/sync.rs:281-338 | the same declaration again, by anyone, under any flags, changes no row, version or grant and counts everything unchanged |
| SyncLaws.RowAccounting | src/write/sync.rs:314-331 | inserted, updated, reactivated and unchanged add up to the declared; active after is active before less archived plus inserted plus reactivated |
| SyncLaws.GrantAccounting | src/write/sync.rs:332-337 | inserted, rewritten and unchanged add up to the declared grants; deleted, rewritten and unchanged to the stored ones |
| SyncLaws.PlanCounts | src/write/grants.rs:104-152 | the plan's lengths are the sizes of the sets of pairs to delete, rewrite and add |
| SyncLaws.ResponseCountsChanges | src/write/sync.rs:314-337 | each count of the response is the number of rows or grants that changed so between the registry before and the registry after: stored for the first time, overwritten, brought back, archived, left as they were; given, taken away, left at their level |
| SyncLaws.GuardsHold | src/write/sync.rs:371-379 | without the flags at least half of the active rows stay active and half of the stored grants stay |
| Registration.PrecheckedRowIsSound | src/write/register.rs:251-312 | the checks made before a transaction are enough for both CHECKs, the path rules and the owner's root |
| Registration.RefusedOutrightIff | src/write/register.rs:90-137 | a registration is refused whatever the registry holds exactly when its path is not valid, is the reserved root or is not private, its name is too wide, its user id owns no segment, its path is not under it, or a repository was sent; and the code of each |
| Registration.OthersAreDecidedOn | src/write/register.rs:251-312 | every other request is one the registry decides on |
| Registration.LegalIsAccepted | src/write/register.rs:138-208 | a legal path under the caller's own root, no repository, the key free: stored and answered when nothing takes the path, every column of the row, of the answer and of the claim written out and nothing else moved; ALREADY_EXISTS when something does |
| Registration.SpentKeyDecides | src/idem.rs:127-176 | a key already claimed answers its own response to the same path, name and repository, refuses any other, and nothing is stored |
| Registration.RegisterWritesApply | src/write/register.rs:138-208 | with the key free and the path taken by nothing, no statement is refused and the row and the response are stored together |
| Registration.RegisterKeepsValid | src/write/register.rs:90-209 | a registration keeps the schema and the rules |
| Registration.RegisterKeepsLedgerSound | src/idem.rs:180-201 | every claim stores a response naming a row that stands at the path it answers |
| Touches.LastSeenIsLatestNaming | src/write/touch.rs:165-183 | after any flushes, each by the paths it carries, a row's last-seen is the latest of its first value and the flushes whose paths name it, live or through an alias; it has one exactly when one of those exists |
| Touches.TouchOrderIsImmaterial | src/write/touch.rs:41-50 | any order and any repetition of the same flushes, each by its paths, gives the same registry |
| Dedup.SortByKey | src/write/touch.rs:237-242 | a stable sort: keys ascend and each key's spellings keep their order |
| Dedup.Deduplicated | src/write/touch.rs:237-245 | for every key sent exactly one spelling is left, the first one sent |
| Dedup.CountIs | src/write/touch.rs:185-202 | the engine's count never exceeds the paths, and equals them exactly when each names a project of its own |
| Dedup.SameRowsNamed | src/write/touch.rs:150-163 | dropping repeated spellings changes no row either statement matches |
| Dedup.WarningMeans | src/write/touch.rs:195-202 | the warning fires exactly when some path names no project or two different paths name one |
| Dedup.WarningCriesWolf | src/write/touch.rs:195-202 | a registry and a flush, every path of which resolves, that is warned about |
| Congruence.SameAnswer | src/write/sync.rs:281-338 | two registries that agree on org rows, their grants and the aliases refuse and answer a sync alike |
| Congruence.SameWrites | src/write/sync.rs:281-338 | and are sent the same statements |
| Operations.ApplyKeeps | src/write/sync.rs:281-338 | one call of any verb keeps the schema and the rules, and the registry only grows: no row disappears or is re-spelled or changes class or owner, no alias moves, no claim changes, no last-seen goes back |
| Operations.RunKeepsValid | src/schema.rs:161-230 | the schema and the rules hold after every run |
| Operations.RunGrows | src/write/sync.rs:385-477 | from any moment of a run to any later one the registry only grows, and syncs leave private rows and their grants as they were |
| Operations.OthersKeepOrg | src/write/register.rs:251-258 | only an accepted sync changes what a sync reads |
| Operations.LastSyncDecides | src/write/sync.rs:301-337 | history independence: after any run the registry shows the declaration of the last accepted sync |
| Operations.ApplyCountsVersions | src/write/sync.rs:385-477 | a call moves a row's version by one exactly when it changes the row; a flush or a grant change never does |
| Operations.VersionCountsChanges | src/write/touch.rs:52-54 | from an empty registry a version is one plus the number of calls that changed the row |
| Operations.RunSeesNamed | src/write/touch.rs:152-183 | after any run of whole calls a row's last-seen is the latest of its first value and the flushes whose paths named the row where they stood, and it has one exactly when one of those exists |
| Operations.ExactlyOnce | src/idem.rs:83-125 | over any run from an empty ledger each key has at most one insert, and exactly one when it is spent |
| Operations.RetriesAreSafe | src/idem.rs:127-176 | at any later moment of any run a retry under a key that went through gets the first answer when it agrees in path, name and repository, whatever else its scope says, and is refused when it differs in any of the three; and it changes nothing |
| Survival.SurvivesSync | src/write/sync.rs:281-338 | a sync's commit leaves alone everything another open transaction relies on |
| Survival.SurvivesRegister | src/write/register.rs:138-208 | so does a registration's, to a sync that holds the lock above all |
| Survival.SurvivesTouch | src/write/touch.rs:165-183 | and a flush's |
| Serializability.ReadsAgree | src/write/sync.rs:287-318 | what a sync reads under the lock, from its snapshot or afresh, is what is committed until it ends |
| Serializability.WritesConverge | src/schema.rs:412-423 | a sync's statements, computed from what it read, are those of a sync run alone on the tables as committed when it writes |
| Serializability.NextKeeps | src/write/sync.rs:87-113 | every step of every transaction keeps the invariant |
| RowLocks.NextKeepsLocks | src/write/sync.rs:323-332 | whatever step is taken, the rows a transaction has locked are a prefix of the rows it will lock, in their order |
| Linearization.FlushCommutes | src/write/touch.rs:41-50 | the calls after a flush are answered as without it, and all that changes is what the flush writes |
| Linearization.Linearizes | src/write/touch.rs:165-193 | every log of answered calls can be reordered, keeping every call after those answered before it began, into a run of whole calls with the same answers and the same registry, each flush naming exactly the rows its paths name where it stands |
| Behaviours.EveryBehaviourIsLinear | src/write/sync.rs:281-338 | serialisable: in every state of every behaviour one order of the answered calls, run whole and one at a time, gives every answer and the whole committed registry, and respects who was answered before who began |
| Behaviours.CommittedGrows | src/write/sync.rs:400-425 | between any two states of a behaviour the committed registry only grows |
| Behaviours.LastCommittedSyncShows | src/write/sync.rs:301-337 | under any interleaving the registry shows the declaration of the last sync to commit |
| Behaviours.RegisteredExactlyOnce | src/idem.rs:83-201 | under any interleaving each spent key has one committed insert, and its claim names a row standing where it says |
| Behaviours.RetriesAgree | src/idem.rs:127-176 | under any interleaving a retry that agrees with the first in path, name and repository is answered as it was, one that differs in any of the three is refused, and neither inserts |
| Snapshots.NextKeepsSnapshots | src/write/sync.rs:287-338 | whatever step is taken, what a sync read is the committed registry of the moment it read, no row it has locked to change has been moved since, and every failure so far had its cause |
| Behaviours.NoConstraintRefuses | src/write/sync.rs:385-453 | under any interleaving no unique index, CHECK or foreign key refuses a statement of a sync, nor one of a registration but the claim of a spent key and the insert at a taken path |
| Behaviours.RefusedIffMoved | src/write/sync.rs:408-425 | in any state of any behaviour a sync that comes to a row it is to change is answered INTERNAL if and only if a flush answered since it read its rows has moved that row; else it locks the row |
| Behaviours.FailuresAreMoves | src/sql.rs:149-169 | every sync answered INTERNAL in a behaviour was to change a row that a flush, answered between its reading and its failing, moved |
| Behaviours.LockedRowsAreUnmoved | src/write/sync.rs:292-331 | no row a sync has locked to change has been moved since it read: one that comes to its commit had none moved |
| Behaviours.VersionsCountCommits | src/write/sync.rs:408-425 | from an empty registry a version is one plus the committed calls that changed the row |
| Behaviours.SpentElsewhereIsRefused | src/idem.rs:151-170 | under any interleaving a registration whose key some earlier state shows claimed by another verb, or for another path, name or repository, is refused |
| Behaviours.LastSeenIsTheLatestNaming | src/write/touch.rs:152-183 | under any interleaving, in the order the calls are serialisable in, a row's last-seen is the latest of its first value and the flushes whose paths named it where they stand, and it has one exactly when one of those exists |
| Behaviours.AnsweredFlushAdvances | src/write/touch.rs:165-183 | a row that a flush's paths named in any state before the flush began has a last-seen no earlier than the flush's moment once the flush is answered |
| Behaviours.ResolutionStaysPut | src/read.rs:83-130 | under any interleaving an exact resolution stays exact for the same project and spelling, and any other never gets shallower |
| Behaviours.EmptyRepositoryIsPrivate | src/read.rs:132-162 | under any interleaving an answer carries the empty repository exactly when the row it names is private |
| Behaviours.LastDeclaredSubtreesResolve | src/read.rs:83-107 | once a sync has committed, every path at or beneath a declared one resolves, at least that deep |
| Behaviours.PagingWhileWriting | src/read.rs:239-256 | pages asked for one after another while the writers run make a walk, so no row is repeated and none that matches throughout is missed |
| Progress.DeadlockStays | src/write/touch.rs:165-183 | a deadlock outlasts every step of the others, until one of those in it aborts |
| Deadlocks.StuckOnRows | src/write/sync.rs:323-332 | in any state of any behaviour where nobody can go on, some calls wait in a circle for each other's rows |
| Deadlocks.OnlyRowsDeadlock | src/schema.rs:412-423 | in any state of any behaviour every circle of waits, for whatever reason, has a circle of waits for rows in it: the sentinel, the ledger and the path index close none |
| Deadlocks.OneOrderNeverDeadlocks | src/write/sync.rs:323-332 | in any state of any behaviour where all open calls take their rows in one order, no number of them wait in a circle |
| Deadlocks.CircleNeedsTwoOrders | src/write/touch.rs:165-183 | in any state of any behaviour two calls wait for each other only if each comes first to another of the rows they share |
| Deadlocks.CircleIffTwoOrders | src/write/touch.rs:165-183 | two calls about to lock their rows can come to wait for each other, before more is answered, if and only if each comes first to another of the rows they share and no row a sync is to change before they meet has been moved since it read |
| LockedRows.SyncLocksItsRows | src/write/sync.rs:385-477 | the stored rows a sync locks are exactly those it changes and those it grants a new team on |
| LockedRows.SyncRewritesItsRows | src/write/sync.rs:385-477 | and those it locks to change are exactly those it changes |
| Contention.DeadlockIffTwoShared | src/write/sync.rs:281-338 | on the locks modelled, and whichever rows the engine scans for a flush, two calls sent to the same registry can deadlock, in some order of the scans and before anything is answered, if and only if they are not both syncs and share two rows: rows a flush scans, and a sync changes or grants a new team on |
| Contention.RenamesCanDeadlock | src/write/sync.rs:400-417 | a sync that renames two rows and a flush that names both can deadlock |
| Contention.RenamingCanDeadlock | src/write/touch.rs:165-183 | a registry of two roots, a sync and a flush that can |
| Conflicts.FailsIffClash | src/write/touch.rs:65-84 | a sync can be answered INTERNAL for a flush sent to the same registry, and answered first, if and only if nothing else refuses the sync and the flush moves a row the sync changes |
| Conflicts.RenamingCanFail | src/write/sync.rs:292-331 | a registry of two roots, a sync that renames them and a flush that names them: the sync can fail |
| Resolution.Best | src/read.rs:96-107 | the maximum by length, live before alias |
| Resolution.BestIsNearest | src/read.rs:424-447 | that maximum, over the rows in any order, is the nearest registered ancestor |
| Resolution.ResolveIsNearestAncestor | src/read.rs:46-164 | the answer's path, status and repository, empty for none, are those of the row the deepest registered ancestor names, the reserved root never; exact exactly when the candidate is registered; not found exactly when no ancestor is |
| Resolution.WalkIs | src/read.rs:83-86 | the chain the query is given is the ancestors less the reserved root, and is never empty |
| Resolution.SpellingIsImmaterial | src/read.rs:68-82 | two spellings of a candidate that differ in letter case get one answer |
| Resolution.ResolutionIsStable | src/read.rs:83-130 | as a registry grows an exact answer stays exact for the same project and spelling, and a matched ancestor never gets shallower |
| Resolution.DeclaredSubtreesResolve | src/read.rs:83-107 | while a registry shows a declaration every path at or beneath a declared one resolves |
| RoundTrips.RegisteredResolves | src/write/register.rs:165-208 | a registered project resolves exactly, in any letter case, active and without a repository; its path is taken from then on |
| RoundTrips.RegisteredIsRead | src/rows.rs:81-118 | what `GetProject` and `ListProjects` read of it is what was answered: the same meta, the path and the name sent, active, no grant, never seen |
| RoundTrips.DeclaredResolves | src/write/sync.rs:385-453 | after a sync every declared path resolves exactly, active, with the declared repository |
| RoundTrips.DroppedStillResolves | src/write/sync.rs:455-477 | a dropped org project goes on resolving exactly, archived, under the same spelling and repository; a private one as it was |
| RoundTrips.SentIsAnswered | src/write/sync.rs:216-252 | after an accepted sync every root and project sent resolves exactly, active, with the repository it sent, and is read with the name and exactly the teams it sent, at the levels sent |
| RoundTrips.RefusedIff | src/write/sync.rs:341-379 | a well-formed sync is refused exactly when something is sent at a former path, or, the caller not allowing it, more than half of the active org rows are not sent or of the grants on org rows not sent; and the code of each |
| Lookups.GetAgreesWithResolve | src/read.rs:180-216 | `GetProject` answers with a row exactly when `ResolveProject` is exact, and with that row |
| Lookups.FillIsLookup | src/read.rs:302-343 | a row's share of the page's aliases is what looking the row up alone gives, in order |
| Lookups.WithAliases | src/read.rs:302-343 | every project of the page gets exactly its aliases, ascending, and nothing else changes |
| Lookups.GrantFillIsLookup | src/read.rs:354-393 | the same for the grants, on org rows only |
| Lookups.GrantsReadAre | src/read.rs:354-393 | a read of an org row finds every grant stored on it, at its level, and nothing else; a read of a private row finds none, whatever the table holds |
| Lookups.WithGrants | src/read.rs:354-393 | every project of the page gets exactly its grants, by team, and nothing else changes |
| Lookups.AliasQuery | src/read.rs:321-329 | every registry that keeps the schema has an answer to the aliases' statement: the aliases of the rows asked for, ascending |
| Lookups.GrantQuery | src/read.rs:369-376 | every registry whose grants name well-formed teams has an answer to the grants' statement: those on the org rows asked for, by team, no two of one row alike in letter case |
| Lookups.FillPage | src/rows.rs:81-118 | every project of a page is its row, column by column, an absent owner the empty string and a row never seen without a moment, with its aliases and its grants |
| Pages.PageQuery | src/read.rs:223-260 | the rows selected, sorted by path, as many as the page and one more |
| Pages.List | src/read.rs:262-281 | one row more than asked for tells whether there is a next page, is not returned, and the token is the last returned path |
| Pages.SelectionIsUnique | src/read.rs:223-256 | the statement has exactly one answer, filtered and sorted |
| Pages.NoRowTwice | src/read.rs:239-256 | following the tokens no row is returned twice, whatever is written between pages |
| Pages.EveryRowOnce | src/read.rs:239-281 | a finished walk returns every row that matches throughout it exactly once |
| Pages.FixedWalk | src/read.rs:251-281 | on a registry that stands still the pages are the sorted, filtered list, and the walk ends |
| Pages.ListedIffAncestor | src/read.rs:229-236 | a row is listed under a path exactly when the path is one of its ancestors, folded, or its own |
| Pages.PageAnswersRequest | src/read.rs:218-286 | a page holds only rows of the subtree and the status asked for and past the token sent, in the order of their paths, as many as asked for at most; it has a token only when full, the path of its last row |
| Pages.PageLeavesTheRest | src/read.rs:218-286 | every row asked for is on the page, or past the token it answers |
| Diff.Plan | src/write/grants.rs:104-137 | the loops make a plan: each pair to delete, rewrite or insert once and nothing else, in whatever order the grants are read |
| Reconciler.ByKey | src/write/sync.rs:301-304 | the map holds a key exactly when an org row stands there, and that row |
| Reconciler.ArchiveList | src/write/sync.rs:305-313 | exactly the active org rows no entry declares, and how many are active |
| Database.ProjectDb.WriteOne | src/write/sync.rs:385-426 | one entry inserted, overwritten, reactivated or left, counted once, its row's id returned |
| Database.ProjectDb.WriteGrants | src/write/grants.rs:154-189 | no statement refused, no id missing, the grants settled |
| Database.ProjectDb.Apply | src/write/sync.rs:281-338 | the answer of the specification, and on success its registry |
| Database.ProjectDb.SyncAs | src/write/sync.rs:87-113 | commits what the specification says on success and leaves the tables as they were on refusal |
| Database.ProjectDb.SyncProjects | src/write/sync.rs:87-113 | each refusal and its code, if and only if, with nothing written; else the converged registry: every root and project sent is answered for as it was sent, nothing else of an organisation is active, and the response counts what changed |
| Database.ProjectDb.RegisterProject | src/write/register.rs:90-209 | claims, inserts, records and commits, or rolls back: the code of each refusal from the request alone, the answer of a key already claimed, ALREADY_EXISTS at a path taken, else the row, the claim and the answer column by column |
| Database.ProjectDb.TouchProjects | src/write/touch.rs:110-204 | refuses exactly a moment outside the column or a batch empty, too long or with a malformed path; else every row named was last seen then or later, nothing else moves, and the warning is the comparison the lemmas are about |
| Database.ProjectDb.ResolveProject | src/read.rs:46-164 | INVALID_ARGUMENT for a malformed or reserved candidate, NOT_FOUND exactly when no ancestor is registered, else the path, status and repository of the row the nearest one names, over rows found in any order |
| Database.ProjectDb.GetProject | src/read.rs:180-216 | the live row at the path, else the project a former path names, with its aliases and its grants; else not found |
| Database.ProjectDb.ListProjects | src/read.rs:218-286 | refuses exactly an unknown status or a malformed path; else projects of the subtree and the status asked for, past the token, in order, as they are stored, 50 or as many as asked for up to 500 at most, the last one's path as the token of a full page; and no row asked for is missing but what the next page has |
| Pooling.HandedOutClean | src/pooled.rs:64-112 | in any run, with calls dropped anywhere, every connection the pool can hand out is outside every server transaction |
| Pooling.UnarmedPoisons | src/pooled.rs:64-87 | without the arming a BEGIN dropped in flight hands out a connection inside a transaction |
| Pooling.Pooled.SendBegin | src/pooled.rs:88-91 | a step of the protocol: armed before BEGIN is sent |
| Pooling.Pooled.FinishBegin | src/pooled.rs:91-94 | a step of the protocol: disarmed only when BEGIN has returned; a failed one leaves it armed |
| Pooling.Pooled.Drop | src/pooled.rs:102-112 | wherever the call stood, a step of the protocol that gives back a clean connection, a new one exactly when a BEGIN was sent and not accounted for |
| Pooling.OneCall | src/pooled.rs:41-112 | one call, dropped at any of its awaits, takes a clean connection through steps of the protocol and gives back a clean one |

## Left out

- The caller certificate checks, the scope's presence, error sentences and telemetry: equality tests, wording and logging.
- The scope's `owner_reads_own_record`, which no verb reads, and the parts of `Meta` that are always empty.
- `created_at` and `updated_at`, which no verb reads; encoding, SHA-256 and UUID minting, which are taken as given above.
- The rename and archive verbs, which answer UNIMPLEMENTED; no served verb writes `project_alias`, so an initial registry may hold any aliases the rules allow.
- Column and counter widths (`version` is unbounded here, the response's 32-bit counts are naturals), and the collation of the ledger's key columns, which is taken as equality.
- Deadlines, lock timeouts, deadlocks the engine detects and lost connections: each is a transaction that aborts at some step with no effect, and its answer, ABORTED or UNAVAILABLE or none, is not recorded.
- Gap locks and locks on rows not yet committed: the machine allows more interleavings without them, and they can close further circles of waits. What is proved of the registry and of the answers given does not depend on them; what is proved of deadlock is about the locks named in the main results.
- A flush names its rows at one instant of the machine, and locks them one after another; an engine's scan meets the rows one after another, so a registration committed during a scan may or may not be met.
- A sync's updates find their rows by primary key, so they lock those rows and no others.
- A grant's foreign key takes a shared lock on its row in the engine and the one kind of lock in the model: only syncs take it, and only one sync at a time is past the sentinel row. A flush keeps its lock on a row it scans and does not move, as the engine does at its default isolation level.
- ERROR 1020 is raised by the machine where the repository records it, for an UPDATE of a changed row; whether a foreign key's lock or an insert's duplicate check can raise it is not recorded there.
- The COUNT of a flush is not a step of the interleaved machine, since it writes nothing; a registration between the UPDATE and the COUNT is what the source says it is, a row counted and not advanced.
- `page_token` is compared under the model's sort order, which is the column's for the path alphabet only; a caller's token is not validated by the source either.
- Pages.List: takes the query's rows as given; `Pages.PageQuery` is the query, and `Database.ProjectDb.ListProjects` runs both.
- Lengths are counted in characters; `path::MAX_LEN` counts bytes, which differ only for paths refused anyway.
- Booting, migrations, TLS, signals, key rotation and the chart.
