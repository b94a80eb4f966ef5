# Cloud platform: verified core

A Dafny model of the parts of the platform whose correctness is hard to see by reading one
function: the rolling-deploy gate over migrations, the deploy driver, the Telegram bot's session
protocol, the marking of values in messages, encrypted backup retention, two repair migrations,
typed money, and some smaller algorithms. `dafny verify dfyconfig.toml` checks everything.

## What is modelled

**Migration gate** (`PythonAst`, `MigrationGate`, `GateReport`, `MigrationSafety`). The syntax tree of a revision
file, the gate's scan of `upgrade()` with its override comments and its exit code, whose whole report is
characterised finding by finding from the text of the calls, the overrides and the downgrade; beside it what
the calls do when run: a schema of tables and columns, old clients as the reads and the inserts they
make, every execution of every statement with any branch taken and any number of loop turns. On
calls written in a readable way (`op.m(...)` with a known `m`, a column spelled out, booleans as
literals) the gate reports a call exactly when it can break an old client, so a clean report means
that no execution breaks one; the conditions themselves say nothing of the verdict, and a file that
meets them and is reported does break a reader. Of all calls whatever, those that are unsafe and yet
unreported are characterised exactly. Four of the gate's readings are narrower than its own
description: a call written `alembic.op.drop_column(...)` is not seen at all; a literal
`server_default=None` counts as a default; an override comment answers for every flagged call anywhere
below it; and of two definitions of `upgrade` the gate reads the first where Python runs the last, so
that a second one may hold anything.

**Deploy driver** (`DeployPlan`, `DeployRun`, `DeploySafety`, `PlanSafety`). Plans with their real argument
vectors, the plan check, and `execute` against a world in which every command may fail with any
effect on its own service and project and the run may stop at any step. Built plans are safe in
every run exactly when the start state is one the plan can drain. Whether an empty listing can be
believed is part of the world: where it cannot, since `execute` looks at the listing's text but not at
its exit code, only a start without any old generation is safe. For plans that were not built by the driver
both promises have exact conditions that a scan of the plan decides, in any world and from any start:
all runs are safe exactly when no step that can be reached may find two generations, and every start
follows an empty listing exactly when a verification whose command lists that service stands before
it. The driver's own check asks for less: it never asks for a second drain, and never looks at which
service or which project a verification lists, as three plans show.

**Bot sessions** (`SessionStore`, `ServerRefs`, `RefRaces`, `PendingActions`, `Selections`,
`Checkout`, `Sessions`). The store is a timed map with put, claim, take and delete. References are
treated twice: with calls that run undisturbed and tokens that may repeat, where the one way to lose
consistency is found exactly; and as a machine that stops between any two store operations of any
number of calls on any number of replicas, where tokens are fresh. Single-use actions, remembered
lists and frozen checkouts are proved over all runs. Takes and stashes of a slot alternate in every
run; executions do so too as long as nothing is rendered into a slot while a delivery that took from
it is running, and a rendering that breaks this rule lets a stale action run. The round trip of a
list is proved exactly up to impostors: instances of a dataclass that is not registered but is named
`dict`, or is named like a registered one and has fields from which that one can be made.

**Messages** (`Utf16`, `CodeEntities`). `code_entities`, longest value first, down to UTF-16 units
(section 2.1 of RFC 2781), and the shift behind a banner.

**Backups** (`Calendar`, `BackupNames`, `Retention`, `BackupJob`, `Scrub`). Gregorian calendar
arithmetic, timestamps in names, pruning and selection over any history of runs, and the masking of a
password in external output. A write that stops halfway leaves a truncated file under the newest name,
and that is the file the default restore then takes. The pattern for names ends in `$`, so a foreign file whose name is one of
ours with a newline behind it is pruned. Replacing a password by `***` removes it from every text
exactly when it has no asterisk at an end and no three in a row; such a password never survives the
scrubbing, whatever its unquoted form, while one that ends in an asterisk can.

**Repair migrations** (`EvidenceMerge`, `Bridge`, `ColumnRepair`, `ShapeRepair`). Revision 0054: the
two-way merge of payment evidence, its conflict guard, and the schemas of both releases that called
themselves 0050. Revision 0043: the repair of drifted columns, and when a second pass is idle.

**Money** (`PythonText`, `Amounts`, `CreditDialogue`, `CreditRuns`, `AdminBot`). The administrator's
decimal parser and the wallet's integer parser, and the dialogue that credits a wallet, as a machine
that stops between reading and writing. A confirmation that was not credited yet can still be credited
exactly while it can be read or a press of it is in flight; a cancel does not stop the latter.

**Smaller cores** (`Discovery`, `MigrationHead`, `Sanitizer`). The location worklist of the doctor, the
head of the migration graph and the check of a database against it, and the redaction of payloads.
A mapping that is not a dict passes the redaction as its text: whatever that text is, nothing under a
hidden key can influence the output exactly when no such mapping, outside hidden keys, has anything
under one; a mapping proxy passes its secret on literally. Nor do the patterns see texts in sets or those of mappings and other objects, and
all texts went through them exactly when there are none.

`Prelude` holds the shared `Option` and `Result`.

## Model

| member | source | states |
|---|---|---|
| PythonAst.WalkIsComplete | scripts/check_migrations.py:158-160 | the breadth-first walk visits every node below `upgrade` exactly once |
| PythonAst.WalkVisits | scripts/check_migrations.py:158-160 | a node is visited if and only if it is in the tree |
| MigrationGate.FindCallName | scripts/check_migrations.py:65-74 | the loop down the attribute chain finds the name the recursive reading gives |
| MigrationGate.CollectOverrides | scripts/check_migrations.py:133-146 | the override comments with their line numbers, in file order |
| MigrationGate.ScanUpgrade | scripts/check_migrations.py:158-223 | the scan's findings are those of the walk's nodes in order |
| MigrationGate.CheckSource | scripts/check_migrations.py:129-228 | all findings of a file: parse errors, a missing `upgrade`, flagged and warned calls in its decorators, defaults and body, a missing downgrade |
| MigrationGate.GateExit | scripts/check_migrations.py:242-278 | the exit code is 0 exactly when there are files and no finding is unsafe, nor, when strict, a warning |
| MigrationGate.FileBlockedIff | scripts/check_migrations.py:129-228 | a file passes exactly when it parses, defines `upgrade`, and each flagged call has an override comment somewhere above it |
| MigrationGate.CleanMeansNothingFlagged | scripts/check_migrations.py:148-223 | with neither an unsafe nor an overridden finding nothing below `upgrade` was flagged |
| MigrationGate.ClaimsAbove | scripts/check_migrations.py:148-156 | a call is claimed exactly when some override comment stands above its line |
| GateReport.ReportedIff | scripts/check_migrations.py:65-228 | a finding is in the report of a file if and only if it is due: which calls, by the names in their attribute chains and their keywords, with which kind, detail, line and nearest override; a parse error; a missing `upgrade`; a downgrade that does nothing |
| GateReport.JudgedAsSaid | scripts/check_migrations.py:158-223 | each unsafe pattern and each warning (unique index, unique constraint, raw SQL), read off the call |
| GateReport.GatePassesIff | scripts/check_migrations.py:231-278 | the gate passes, strict or not, exactly for files that parse, define `upgrade`, have an override above each unsafe call and, when strict, no warning call and a downgrade that does something |
| GateReport.Gate | scripts/check_migrations.py:231-278 | the exit code, in those terms |
| GateReport.FirstDefIs | scripts/check_migrations.py:107-118 | the definitions looked at are the first of their names |
| MigrationSafety.CallSafeIff | scripts/check_migrations.py:158-223 | which calls break no old client, whatever their non-literal parts turn out to be: an exact description, independent of the gate |
| MigrationSafety.ReadableIsJudgedRightly | scripts/check_migrations.py:65-223 | a readable call is flagged if and only if it can break an old client |
| MigrationSafety.MissedIff | scripts/check_migrations.py:65-223 | which calls written `op.m(...)` are unsafe and yet not flagged, exactly |
| MigrationSafety.MissedCallIff | scripts/check_migrations.py:65-223 | the same for every call: qualified ones, helpers and methods of other objects such as `bind.execute(...)` |
| MigrationSafety.QualifiedIsNeverReported | scripts/check_migrations.py:65-74 | no call written `alembic.op.m(...)` is reported, so those are missed exactly when unsafe |
| MigrationSafety.ExecutedIsVisited | scripts/check_migrations.py:158-160 | every call that any execution makes was visited by the walk |
| MigrationSafety.GateSoundness | scripts/check_migrations.py:129-228 | when every call in `upgrade` is readable and the report is clean, no execution leaves an old client broken, at any point, from any starting schema |
| MigrationSafety.ReportIsNeeded | scripts/check_migrations.py:169-223 | a file of readable calls with a finding, and an execution of it that breaks a reader |
| MigrationSafety.SecondUpgradeIsNotRead | scripts/check_migrations.py:107-112 | for any body there is a file in which that body is what `upgrade` runs and whose report has only warnings |
| MigrationSafety.QualifiedDropIsMissed | scripts/check_migrations.py:65-74 | `alembic.op.drop_column` with literal names is not reported and breaks readers |
| MigrationSafety.DefaultOfNoneIsMissed | scripts/check_migrations.py:88-89 | a required column with `server_default=None` is not reported and breaks inserts |
| DeployPlan.BuildPlan | scripts/deploy.py:75-228 | which inputs are refused and with what error; otherwise the plan of the strategy |
| DeployPlan.StrategiesAre | scripts/deploy.py:75-87 | the two names of strategies |
| DeployPlan.RollingPlan | scripts/deploy.py:98-167 | the steps of a rolling deploy in order, service by service |
| DeployPlan.BlueGreenPlan | scripts/deploy.py:98-228 | the steps of a blue/green deploy in order |
| DeployPlan.PrologueIs | scripts/deploy.py:75-99 | the first two commands, word by word, with and without a project |
| DeployPlan.RollBlockIs | scripts/deploy.py:113-153 | the three commands of a rolled service, word by word |
| DeployPlan.DrainBlockIs | scripts/deploy.py:172-194 | the two commands that drain a blue service |
| DeployPlan.GreenStartIs | scripts/deploy.py:205-214 | the command that starts a green one |
| DeployPlan.RollingPlanIs | scripts/deploy.py:98-153 | a rolling plan, its parts in order |
| DeployPlan.BlueGreenPlanIs | scripts/deploy.py:155-224 | a blue/green plan, its parts in order, and the green project's name |
| DeployPlan.RollBlocksInOrder | scripts/deploy.py:110-153 | each service has its steps, in the order given |
| DeployPlan.CheckPlan | scripts/deploy.py:231-252 | a plan is accepted exactly when every start of an exclusive service has a verification of that service before it |
| DeployRun.Deployer.Execute | scripts/deploy.py:279-294 | the steps run in order until one fails; what is recorded is a run of the plan |
| DeployRun.PassesIff | scripts/deploy.py:279-294 | what lets the run go on: of a drain verification an output that strips to nothing, of other steps exit code 0 |
| DeployRun.StartsFollowVerification | scripts/deploy.py:231-294 | for any accepted plan: a step tagged as start of an exclusive service has a verification tagged with it before it, whose listing came back empty |
| DeployRun.StartsFollowEmptyListing | scripts/deploy.py:231-294 | what matching tags give for accepted plans: a `ps` of the service printed nothing earlier in the run, and where listings are truthful nothing of it ran in the listed project then |
| DeployRun.PlanReads | scripts/deploy.py:75-228 | the argument vectors of a built plan, parsed as commands, mean what the plan says they do |
| DeploySafety.GenerationsAfter | scripts/deploy.py:75-294 | at every step either only the new generation is left or at most the old one, and after a passed listing the former |
| DeploySafety.BuiltPlansAreSafe | scripts/deploy.py:75-294 | with at most one old generation at the start, in the project that is drained and only where empty listings are truthful, no built plan ever has two generations of one exclusive service alive |
| DeploySafety.BuiltPlanSafeIff | scripts/deploy.py:75-294 | all runs of a built plan are safe if and only if it starts from such a state, with listings that tell the truth and with listings that do not |
| DeploySafety.UnsafeStartHasUnsafeRun | scripts/deploy.py:75-294 | from any other start state there is a run with two generations |
| DeploySafety.BuiltPlansAccepted | scripts/deploy.py:231-252 | the plan check accepts every built plan |
| DeploySafety.BuiltPlansTagsMatch | scripts/deploy.py:75-228 | and its steps do what their tags say |
| DeploySafety.Deploy | scripts/deploy.py:303-331 | building, checking and executing end to end keeps every state safe and succeeds exactly when every step passes |
| DeploySafety.SilentListingCanDouble | scripts/deploy.py:265-294 | where a failing listing may print nothing, every built plan of either strategy can double any service it rolls of which an old generation runs |
| PlanSafety.PlanSafeIff | scripts/deploy.py:231-294 | for every plan, world and start: no run ever has two generations of an exclusive service alive if and only if no reachable step may find two, by what was there, what `up` may have brought and what truthful verifications have vouched for, nor has a command of no known kind |
| PlanSafety.UnsafePlanHasUnsafeRun | scripts/deploy.py:279-294 | else a run with two generations, built from the plan |
| PlanSafety.StartsFollowListingsIff | scripts/deploy.py:231-294 | in all runs of a plan whatever may bring up an exclusive service follows an empty listing of it if and only if a verification whose command lists that service stands before it |
| PlanSafety.TaggedPlansVerifyFirst | scripts/deploy.py:231-252 | accepted plans whose tags match their commands meet that condition |
| PlanSafety.AcceptedPlanCanDouble | scripts/deploy.py:243-252 | an accepted plan that fails the first condition: two starts after one drain, with a run that doubles a consumer |
| PlanSafety.MislabelledPlanCanDouble | scripts/deploy.py:231-252 | another that fails both: its verification lists another service |
| PlanSafety.OtherProjectCanDouble | scripts/deploy.py:231-252 | and one with matching tags that fails the first: it lists another project than the old generation's |
| SessionStore.InMemoryStore.Put | src/cloud_platform/core/session_store.py:220-228 | overwrites with expiry now + ttl; refuses a ttl that is not positive |
| SessionStore.InMemoryStore.Get | src/cloud_platform/core/session_store.py:230-233 | finds live entries only and changes nothing observable |
| SessionStore.InMemoryStore.Claim | src/cloud_platform/core/session_store.py:235-247 | sets if and only if no live entry is there |
| SessionStore.InMemoryStore.Take | src/cloud_platform/core/session_store.py:249-252 | reads and removes in one step |
| SessionStore.InMemoryStore.Delete | src/cloud_platform/core/session_store.py:254-255 | removes that entry and no other |
| SessionStore.InMemoryStore.Advance | src/cloud_platform/core/session_store.py:205-255 | the clock moves on, and what reached its deadline is gone |
| SessionStore.TickTwice | src/cloud_platform/core/session_store.py:205-255 | time passes in one go or in two |
| SessionStore.LivesForItsTtl | src/cloud_platform/core/session_store.py:220-255 | a value is found for its ttl, no longer, and other keys are not touched |
| SessionStore.JoinInjective | src/cloud_platform/bot/sessions.py:337-363 | keys joined from an owner's identifier and anything else are injective |
| SessionStore.SplitInjective | src/cloud_platform/bot/sessions.py:374-383 | colon-joined pairs are injective as long as the first halves hold no colon |
| ServerRefs.IssueConsistentIff | src/cloud_platform/bot/sessions.py:337-363 | one call keeps forward and reverse entries consistent if and only if its reference is not live for another server |
| ServerRefs.LiveRefIsKept | src/cloud_platform/bot/sessions.py:337-357 | a live reference is answered again whatever is minted, and both its entries live for another ttl |
| ServerRefs.NewRefIsFirstFree | src/cloud_platform/bot/sessions.py:357-372 | without one: the first of the tokens nobody holds, else the fallback, live in both directions |
| ServerRefs.RepeatedCallsAnswerAlike | src/cloud_platform/bot/sessions.py:337-372 | over any run two calls for one server less than ttl apart answer alike, and the reference resolves to that server all the while unless a fallback clashed |
| ServerRefs.RefForConsistentIff | src/cloud_platform/bot/sessions.py:337-372 | so `ref_for` breaks consistency exactly when six tokens are held and the wider one, taken unchecked, is live for another server |
| ServerRefs.RunConsistentIff | src/cloud_platform/bot/sessions.py:337-372 | over any run of calls with six tokens each and clock ticks the store is consistent at call boundaries exactly as long as no such fallback happened |
| ServerRefs.FallbackCanClash | src/cloud_platform/bot/sessions.py:365-372 | for any six tokens, fallback and eight servers a run in which the seventh server gets the fallback and the eighth takes it over |
| ServerRefs.LiveRefsAreDistinct | src/cloud_platform/bot/sessions.py:337-363 | no two servers of a customer share a live reference |
| ServerRefs.ResolvesIff | src/cloud_platform/bot/sessions.py:374-383 | what a reference resolves to, by the records in the store: nothing for an empty or colon-bearing one |
| ServerRefs.ResolvesToIssued | src/cloud_platform/bot/sessions.py:374-383 | a reference resolves only to a server that an earlier call of the same customer got it for |
| RefRaces.QuiescentIsConsistent | src/cloud_platform/bot/sessions.py:337-383 | over any interleaving, whenever no call is between its two writes, every live forward entry has its reverse entry |
| RefRaces.StepAnswers | src/cloud_platform/bot/sessions.py:337-372 | also between other replicas' steps: a live reference read is kept, of the tokens minted the first that nobody holds is taken, the seventh unchecked |
| RefRaces.ResolvesToItsOwner | src/cloud_platform/bot/sessions.py:374-383 | at any moment a reference resolves only for the customer and to the server it was minted for |
| RefRaces.ReturnsItsOwn | src/cloud_platform/bot/sessions.py:337-363 | every returned reference was minted for that call's customer and server |
| PendingActions.ActionRoundTrip | src/cloud_platform/bot/sessions.py:232-265 | a stashed action reads back as it was |
| PendingActions.ReadFieldByField | src/cloud_platform/bot/sessions.py:244-265 | what is read of any record, field by field, and for which operations anything is |
| PendingActions.SlotKeyInjective | src/cloud_platform/bot/sessions.py:413-437 | slots of customer, reference and nonce have distinct keys, a reference holding no colon |
| PendingActions.ExecutedAtMostStashed | src/cloud_platform/bot/servers_ui.py:735-821 | executions never exceed takes, nor takes stashes, per slot, over any interleaving on any number of replicas |
| PendingActions.CountsAre | src/cloud_platform/bot/servers_ui.py:735-821 | these numbers count the entries of each kind for the slot |
| PendingActions.ExecutesLatestStash | src/cloud_platform/bot/servers_ui.py:802-821 | what runs is what was stashed last before its press took it |
| PendingActions.StashBetweenTakes | src/cloud_platform/bot/servers_ui.py:802-821 | between two takes of one slot lies a stash into it, of what the second took |
| PendingActions.DisciplinedRunsLatest | src/cloud_platform/bot/servers_ui.py:735-821 | when nothing is rendered into a slot while a delivery that took from it runs, every execution runs what was stashed into its slot last |
| PendingActions.DisciplinedAlternates | src/cloud_platform/bot/servers_ui.py:735-821 | and between two executions of one slot lies a stash into it, of what the second runs |
| PendingActions.StashIsHarmlessIff | src/cloud_platform/bot/servers_ui.py:735-821 | a rendering is followed by no stale execution, in any disciplined continuation, if and only if no delivery that took from its slot is running |
| PendingActions.ExecutionMayLag | src/cloud_platform/bot/servers_ui.py:802-821 | without that rule: a run where both executions fall after the second stash |
| Selections.RoundTripIff | src/cloud_platform/bot/sessions.py:464-512 | decoding an encoded value gives its normal form if and only if no surviving part is an impostor |
| Selections.ClassesAre | src/cloud_platform/bot/sessions.py:501-512 | with which keywords each registered class can be called |
| Selections.FieldsAre | src/cloud_platform/bot/sessions.py:501-512 | and what its other fields then are |
| Selections.DictNamedComesBack | src/cloud_platform/bot/sessions.py:464-512 | an instance of any dataclass named `dict` comes back as a dict instead of as nothing |
| Selections.LikeNamedComesBack | src/cloud_platform/bot/sessions.py:464-512 | an unregistered dataclass named like a registered one, with its fields, comes back as an instance of that one |
| Selections.PressedItem | src/cloud_platform/bot/servers_ui.py:1523-1533 | which item a press finds, for any index, while the list is remembered |
| Selections.NothingElseIsPressed | src/cloud_platform/bot/servers_ui.py:1523-1533 | nothing for an index that is no number, or a record without a list |
| Selections.ButtonsMatchIff | src/cloud_platform/bot/sessions.py:387-409 | every button leads to the item shown beside it if and only if the list has at most 32 |
| Selections.RememberedUntilExpiry | src/cloud_platform/bot/sessions.py:387-409 | and that until the entry expires |
| Checkout.RecordRoundTripIff | src/cloud_platform/bot/sessions.py:122-178 | a selection's record reads back as the selection exactly when it is valid, and as nothing otherwise, for any reader of identifiers that reads the canonical ones |
| Checkout.ReadSelectionsAreValid | src/cloud_platform/bot/sessions.py:136-178 | whatever a record holds, in whatever spelling, what is read from it is a valid selection with that record's owner, offer, price and currency |
| Checkout.CheckoutSessions.Remember | src/cloud_platform/bot/sessions.py:193-203 | the first free nonce is claimed for the selection; invalid ones and exhausted nonces are errors |
| Checkout.CheckoutSessions.ResolveNonce | src/cloud_platform/bot/sessions.py:205-210 | a nonce resolves to its own customer's selection only |
| Checkout.SubmissionsAreAsShown | src/cloud_platform/bot/monthly_ui.py:1110-1260 | every submission carries, field by field, what its confirmation showed its customer: offer, OS and panel or image, price and currency, under the key of its kind and nonce |
| Checkout.OrdersAreAsShown | src/cloud_platform/bot/monthly_ui.py:1833-1954 | so does every order in the book |
| Checkout.PressIff | src/cloud_platform/bot/monthly_ui.py:1912-1936 | a press leads to such a command exactly for the owner, while the nonce is remembered, on the button of the selection's kind |
| Checkout.ConfirmIff | src/cloud_platform/bot/sessions.py:193-203 | valid facts are remembered under a free nonce, and nothing else is |
| Checkout.SubmitIff | src/cloud_platform/bot/monthly_ui.py:1926-1936 | an order is entered exactly by an accepted submission or found by a known key, and other orders stay |
| Checkout.NonceIff | src/cloud_platform/bot/sessions.py:205-207 | which texts are nonces |
| Checkout.SameKeySameCommand | src/cloud_platform/bot/monthly_ui.py:1833-1954 | two submissions under one idempotency key are the same |
| Checkout.OneOrderPerNonce | src/cloud_platform/bot/monthly_ui.py:1833-1954 | each confirmation leads to at most one order |
| Checkout.OrdersStay | src/cloud_platform/bot/monthly_ui.py:1912-1954 | orders are never rewritten by later events |
| Sessions.ServerSessions.Open | src/cloud_platform/bot/sessions.py:320-333 | refused exactly for a reference or a prompt lifetime below 30 seconds |
| Sessions.ServerSessions.MintUniqueRef | src/cloud_platform/bot/sessions.py:365-372 | the first of six tokens not held, else the fallback |
| Sessions.ServerSessions.RefForServer | src/cloud_platform/bot/sessions.py:337-363 | the call whose runs are treated in `ServerRefs`: its result and its two writes |
| Sessions.ServerSessions.ResolveServer | src/cloud_platform/bot/sessions.py:374-383 | a malformed reference or a stale one gives nothing |
| Sessions.ServerSessions.Remember | src/cloud_platform/bot/sessions.py:387-399 | writes the encoded last 32 items with expiry |
| Sessions.ServerSessions.PressedSelection | src/cloud_platform/bot/servers_ui.py:1523-1533 | reads back the pressed item and leaves the store as it was |
| Sessions.ServerSessions.StashAction | src/cloud_platform/bot/sessions.py:413-427 | overwrites the slot with the action |
| Sessions.ServerSessions.TakeAction | src/cloud_platform/bot/sessions.py:429-437 | empties the slot and returns what it held, if it reads as an action |
| Utf16.RoundTrip | src/cloud_platform/bot/ui.py:68-94 | UTF-16 encoding loses nothing |
| Utf16.UnitsAre | src/cloud_platform/bot/ui.py:68-94 | the units of a character, by its code |
| Utf16.BytesOfUnit | src/cloud_platform/bot/ui.py:68-94 | each unit is two bytes, the low one first |
| Utf16.LengthCountsUnits | src/cloud_platform/bot/ui.py:68-94 | half the bytes of the little-endian form is the number of units |
| Utf16.SliceOfMiddle | src/cloud_platform/bot/ui.py:68-94 | the units at a prefix's length, for a value's length, are the value's own |
| CodeEntities.FindIsFirst | src/cloud_platform/bot/ui.py:74-88 | the search finds the first occurrence not before its start |
| CodeEntities.QualifiesIff | src/cloud_platform/bot/ui.py:76-84 | which hits count, by the text before and behind them |
| CodeEntities.ScanMeetsEveryOccurrence | src/cloud_platform/bot/ui.py:74-88 | an occurrence that is stepped over overlaps an earlier hit of the same value |
| CodeEntities.ValuesMarked | src/cloud_platform/bot/ui.py:68-94 | with values taken longest first, in any order of ties: marks are qualifying hits, disjoint, and every qualifying hit is marked or overlaps a mark at least as long |
| CodeEntities.SortSorts | src/cloud_platform/bot/ui.py:86-94 | sorting the disjoint marks leaves each ending before the next begins |
| CodeEntities.MarkOneValue | src/cloud_platform/bot/ui.py:74-88 | the search loop over one value's occurrences marks what the scan marks |
| CodeEntities.FindSpans | src/cloud_platform/bot/ui.py:68-88 | the outer loop takes the values in some longest-first order |
| CodeEntities.MarkCode | src/cloud_platform/bot/ui.py:68-94 | spans in bounds, sorted, disjoint, sound and complete; each entity covers exactly its value's UTF-16 form |
| CodeEntities.ShiftCovers | src/cloud_platform/bot/servers_ui.py:684-705 | an entity moved by a banner's UTF-16 length covers the same value |
| CodeEntities.RefreshScreen | src/cloud_platform/bot/servers_ui.py:684-705 | behind the banner every entity covers what it covered |
| Calendar.LessIffMicros | src/cloud_platform/backup/job.py:177-192 | comparing date and time field by field is comparing instants |
| Calendar.ValidIff | src/cloud_platform/backup/job.py:200-209 | the ranges of an instant's fields |
| Calendar.MonthLengths | src/cloud_platform/backup/job.py:200-209 | the months' lengths in any year |
| Calendar.YearStarts | src/cloud_platform/backup/job.py:177-192 | days before known years |
| Calendar.BackIs | src/cloud_platform/backup/job.py:177-192 | the calendar date n days back is the instant n days earlier, and exists exactly from year 1 on |
| BackupNames.StampRoundTrip | src/cloud_platform/backup/job.py:200-209 | the timestamp in a name reads back as the instant, to the second |
| BackupNames.ParsedStampIsStamp | src/cloud_platform/backup/job.py:200-209 | only that text reads as that instant |
| BackupNames.StampOrder | src/cloud_platform/backup/job.py:212-228 | timestamps sort as text as they do in time |
| BackupNames.NameRoundTrip | src/cloud_platform/backup/job.py:200-209 | a written name parses to its instant |
| BackupNames.NameSpelledOut | src/cloud_platform/backup/job.py:33-41 | a name character by character: prefix, date, dash, time, suffix |
| BackupNames.ParsedNameIsFileName | src/cloud_platform/backup/job.py:200-209 | a name that parses is the one written at that instant, or that with a newline behind it |
| BackupNames.NameOrder | src/cloud_platform/backup/job.py:212-228 | name order is time order |
| Retention.OwnFilesAre | src/cloud_platform/backup/job.py:131-192 | over any history, half-finished writes included, own files are those there or written and not before a cutoff applied since |
| Retention.LastCutoffDecides | src/cloud_platform/backup/job.py:177-192 | with a clock that does not run backwards only the last cutoff matters |
| Retention.ForeignIsUntouched | src/cloud_platform/backup/job.py:177-192 | nothing that is not a platform backup is ever changed, whatever the clock does |
| Retention.LastWrittenIsNewest | src/cloud_platform/backup/job.py:306-325 | the file of the last run that wrote is there and strictly newest |
| BackupJob.BackupDirectory.Prune | src/cloud_platform/backup/job.py:177-192 | exactly the expired own files go, listed in name order |
| BackupJob.BackupDirectory.Run | src/cloud_platform/backup/job.py:131-175 | each outcome of a run, a write that stops halfway among them, with the directory it leaves |
| BackupJob.BackupDirectory.ListBackups | src/cloud_platform/backup/job.py:212-228 | all own backups, newest first, whatever order the directory lists them in |
| BackupJob.BackupDirectory.SelectBackup | src/cloud_platform/backup/job.py:306-325 | the named backup if it is one, else one than which none is newer |
| BackupJob.OwnFilesAre | src/cloud_platform/backup/job.py:131-192 | after a run that wrote a whole backup: own files are exactly those known and not before its cutoff, its own among them |
| BackupJob.ForeignIsUntouched | src/cloud_platform/backup/job.py:177-192 | foreign files survive every history of runs, with any clock |
| BackupJob.RunStep | src/cloud_platform/backup/job.py:131-192 | a run is one step of the histories spoken of here, also where the cutoff would lie before the year 1 |
| BackupJob.LastWrittenIsNewest | src/cloud_platform/backup/job.py:212-228 | the file of the last run that wrote is there, and every other backup is strictly older |
| BackupJob.LatestIsLastWritten | src/cloud_platform/backup/job.py:306-325 | so the default restore takes the file written last, be it only half written |
| BackupJob.BackupThenRestore | src/cloud_platform/backup/job.py:131-325 | a run after any history and a default restore: it takes the file that run wrote |
| BackupJob.NewlineNameIsTakenForOurs | src/cloud_platform/backup/job.py:200-209 | a foreign name that is ours with a newline behind it is pruned |
| Scrub.MaskingWorksIff | src/cloud_platform/backup/job.py:76-87 | replacing a word by the mask removes it from every text if and only if it has no asterisk at an end and no three in a row |
| Scrub.MaskingMakesNone | src/cloud_platform/backup/job.py:84-86 | masking one word makes no new occurrence of such another |
| Scrub.ScrubRemovesPassword | src/cloud_platform/backup/job.py:76-87 | a maskable password is nowhere in the scrubbed text, whatever its unquoted form |
| Scrub.ScrubRemovesUnquoted | src/cloud_platform/backup/job.py:76-87 | nor is a maskable unquoted form, whatever the password as written |
| Scrub.ScrubWorksIff | src/cloud_platform/backup/job.py:76-87 | no output, DSN and unquoted form whatever leave a password in the scrubbed text if and only if it is maskable (a password without spaces at its ends, as the text's own are stripped) |
| Scrub.StarredPasswordSurvives | src/cloud_platform/backup/job.py:76-87 | for every password that ends in an asterisk and does not begin with one or a space, and a DSN three times as long, a text in which it survives although its unquoted form is itself, so that it is masked twice |
| Scrub.ScrubOutput | src/cloud_platform/backup/job.py:76-87 | the rewriting of the local string, with both guarantees |
| EvidenceMerge.MergeCompletes | alembic/versions/0054_reconcile_ambiguous_0050.py:88-104 | each side with a value keeps it, an empty side takes the other's, everything else of the row is untouched |
| EvidenceMerge.MergedFactByFact | alembic/versions/0054_reconcile_ambiguous_0050.py:88-104 | what becomes of each column and each JSON member, by their texts, and of every other member |
| EvidenceMerge.ConflictingIff | alembic/versions/0054_reconcile_ambiguous_0050.py:70-86 | which rows the guard refuses, by their texts |
| EvidenceMerge.MergeAgreesIff | alembic/versions/0054_reconcile_ambiguous_0050.py:72-104 | after the merge both pairs of a row agree if and only if the conflict guard lets the row pass |
| EvidenceMerge.MergeIsIdempotent | alembic/versions/0054_reconcile_ambiguous_0050.py:88-104 | merging twice is merging once |
| Bridge.BridgedIsCanonical | alembic/versions/0054_reconcile_ambiguous_0050.py:32-127 | from any start the bridge ends with the required columns, the settings table and both canonical unique indexes |
| Bridge.BridgedIsFixed | alembic/versions/0054_reconcile_ambiguous_0050.py:32-127 | a second application is possible and changes nothing |
| Bridge.ServersAreAnchored | alembic/versions/0054_reconcile_ambiguous_0050.py:39-49 | which servers end with a billing anchor and which one, field by field; none changes where the column was there |
| Bridge.NothingElseChanges | alembic/versions/0054_reconcile_ambiguous_0050.py:32-127 | tables, columns and indexes there were are kept, but for the renamed index; what is new is listed with its types |
| Bridge.ClashIff | alembic/versions/0054_reconcile_ambiguous_0050.py:105-127 | which two rows an index cannot hold |
| Bridge.BridgedIsCoherent | alembic/versions/0054_reconcile_ambiguous_0050.py:105-127 | no unique index stands over clashing rows |
| Bridge.BothFlavoursMeet | alembic/versions/0054_reconcile_ambiguous_0050.py:1-127 | a database taken through either 0050 is bridged to one and the same database |
| Bridge.SucceedsIff | alembic/versions/0054_reconcile_ambiguous_0050.py:32-127 | the revision goes through if and only if: PostgreSQL, the three tables, no conflicting row, no two rows with one gateway and key |
| Bridge.Database.AddMissing | alembic/versions/0054_reconcile_ambiguous_0050.py:24-29 | adds the column exactly when it is missing and says so |
| Bridge.Database.AnchorBilling | alembic/versions/0054_reconcile_ambiguous_0050.py:39-49 | hourly, provisioned servers get their creation time, the others keep theirs |
| Bridge.Database.MergeEvidence | alembic/versions/0054_reconcile_ambiguous_0050.py:88-104 | the four table-wide updates merge every row |
| Bridge.Database.MakeIndexes | alembic/versions/0054_reconcile_ambiguous_0050.py:105-127 | rename or create, and refuse over duplicates |
| Bridge.Database.Upgrade | alembic/versions/0054_reconcile_ambiguous_0050.py:32-127 | which step fails, or the bridged database |
| Bridge.Database.Migrate | alembic/env.py:100-119 | in its transaction: all of it, with agreeing pairs and anchors as due, or nothing changed |
| ColumnRepair.NormalizeIs | alembic/versions/0043_global_usd_pricing.py:60-81 | what a default reads as: nothing for none, what is between the quotes of a literal, else the text without its ends |
| ColumnRepair.EchoReadsBackIff | alembic/versions/0043_global_usd_pricing.py:60-81 | the database's quoted, doubled and cast echo of a default normalizes to that default if and only if there is no quote in it |
| ShapeRepair.RepairedIs | alembic/versions/0043_global_usd_pricing.py:108-163 | what one pass leaves, field by field, from any drift |
| ShapeRepair.RepairsAre | alembic/versions/0043_global_usd_pricing.py:108-163 | which ALTERs are issued for a column, and in which order |
| ShapeRepair.TypeMatchesIff | alembic/versions/0043_global_usd_pricing.py:84-105 | which types count as the intended one |
| ShapeRepair.BoundedHasItsLength | alembic/versions/0043_global_usd_pricing.py:84-163 | after a pass a bounded string has the intended length |
| ShapeRepair.WantedIs | alembic/versions/0043_global_usd_pricing.py:261-288 | the intended shape, column by column |
| ShapeRepair.SecondPassIdleIff | alembic/versions/0043_global_usd_pricing.py:108-163 | exactly when a second pass issues no ALTER |
| ShapeRepair.SecondRunIdleIff | alembic/versions/0043_global_usd_pricing.py:261-288 | the same for the revision's whole list of columns |
| ShapeRepair.FirstRunShapesIff | alembic/versions/0043_global_usd_pricing.py:261-288 | and exactly when a column has its intended shape after the first |
| ShapeRepair.Catalog.RepairColumnShape | alembic/versions/0043_global_usd_pricing.py:108-163 | reads once, issues the ALTERs called for in order, stops at a refusal |
| ShapeRepair.Catalog.RepairPass | alembic/versions/0043_global_usd_pricing.py:261-288 | the loop over the columns, its ALTERs, and when a repetition is idle |
| PythonText.NumConcat | src/cloud_platform/bot/monthly_ui.py:1554-1556 | appending digits multiplies by the power of ten of their count |
| PythonText.StripIs | src/cloud_platform/bot/admin_ui.py:189 | what is left of a text is its middle, nothing stripped being left at either end |
| PythonText.SpacesAre | src/cloud_platform/bot/admin_ui.py:189 | the characters taken away, by code |
| Amounts.ProductIsExact | src/cloud_platform/bot/admin_ui.py:221-223 | under the computed precision the decimal product is never rounded, for any text and exponent |
| Amounts.AdminIsExactIff | src/cloud_platform/bot/admin_ui.py:217-231 | the administrator's parser accepts exactly whole minor units from 1 to 2^63-1 and returns the exact value |
| Amounts.AdminReadsIff | src/cloud_platform/bot/admin_ui.py:217-226 | said of the text and the currency alone, with its two refusals |
| Amounts.CurrenciesAre | src/cloud_platform/modules/fx/domain.py:116-125 | which currencies have how many decimals |
| Amounts.WalletIsExactIff | src/cloud_platform/bot/monthly_ui.py:1542-1557 | so does the wallet's, for at most 24 characters and two decimals |
| Amounts.WalletReadsIff | src/cloud_platform/bot/monthly_ui.py:1542-1557 | said of the text and the currency alone |
| Amounts.ParsersAgreeIff | src/cloud_platform/bot/monthly_ui.py:1542-1557 | for audited currencies the wallet accepts an amount if and only if the administrator's parser does and the text has that shape |
| Amounts.WalletTextMeansTheSameToAdmin | src/cloud_platform/bot/admin_ui.py:189-226 | whatever typed text the wallet reads, the administrator's screen reads alike |
| Amounts.NumberOfAnyScript | src/cloud_platform/bot/admin_ui.py:34 | a number in Persian, Arabic or ASCII digits is read by the digits' values |
| Amounts.DigitsAreTranslated | src/cloud_platform/bot/admin_ui.py:34 | digit by digit, and nothing else changes |
| Amounts.UnauditedDiffers | src/cloud_platform/modules/fx/domain.py:116-125 | for other currencies one refuses everything and the other assumes two decimals |
| CreditDialogue.RecordsReadBack | src/cloud_platform/bot/admin_ui.py:205-244 | prompt and confirmation records read back as what was written |
| CreditDialogue.ReactsTo | src/cloud_platform/bot/admin_ui.py:184-257 | what each prompt makes of a message, in terms of the ports' answer and the text |
| CreditDialogue.KeysAreApart | src/cloud_platform/bot/admin_ui.py:143-150 | prompts and confirmations of all administrators have distinct keys |
| CreditRuns.LedgerKeyInjective | src/cloud_platform/bot/admin_ui.py:167 | each confirmation has its own idempotency key |
| CreditRuns.Conservation | src/cloud_platform/bot/admin_ui.py:126-257 | credited balances are the sums of the frozen amounts of the applied confirmations, each once, over any run |
| CreditRuns.CreditedAsTyped | src/cloud_platform/bot/admin_ui.py:184-257 | each credit goes to the user the ports answered for what was typed (the Telegram user of a number, else the user of that identifier), who is no administrator and not oneself, with the currency, exact amount and reason of its own dialogue, in order |
| CreditRuns.NumberIsLookedUp | src/cloud_platform/bot/admin_ui.py:189-195 | a number typed in decimal asks for the Telegram user of that number |
| CreditRuns.PressCreditsIff | src/cloud_platform/bot/admin_ui.py:146-172 | exactly when a press credits, by the target's standing then, and what it changes: that balance and that entry alone |
| CreditRuns.CancelledIsNeverCredited | src/cloud_platform/bot/admin_ui.py:140-145 | a confirmation cancelled while no press of it is in flight is never credited |
| CreditRuns.CancelledInFlightIsCredited | src/cloud_platform/bot/admin_ui.py:140-172 | after any acceptable dialogue: a press that read the confirmation before its cancel credits it afterwards |
| CreditRuns.StillCreditableIff | src/cloud_platform/bot/admin_ui.py:126-177 | in any reachable state a confirmation not yet credited still can be, in some continuation, if and only if it can be read or a press of it is in flight |
| CreditRuns.DialogueFreezes | src/cloud_platform/bot/admin_ui.py:184-257 | a target, an amount and a reason, each acceptable, freeze exactly that confirmation |
| CreditRuns.LostIsNeverCredited | src/cloud_platform/bot/admin_ui.py:146-149 | nor is one that expired |
| CreditRuns.CreditsStay | src/cloud_platform/bot/admin_ui.py:161-172 | confirmations and credits are never rewritten |
| AdminBot.Bot.HandleText | src/cloud_platform/bot/admin_ui.py:184-257 | each message's screen and what it leaves in the store |
| AdminBot.Bot.ApplyCredit | src/cloud_platform/bot/admin_ui.py:146-176 | the book after a press and when the screen says done; the record stays |
| AdminBot.Bot.Handle | src/cloud_platform/bot/admin_ui.py:126-177 | each callback's effect on store and book |
| AdminBot.MessageIsSteps | src/cloud_platform/bot/admin_ui.py:184-257 | an undisturbed message is the machine's read, write and removal |
| AdminBot.PressIsSteps | src/cloud_platform/bot/admin_ui.py:146-176 | an undisturbed press is its read and write |
| Discovery.Extend | src/cloud_platform/cli.py:279-282 | exactly the reported locations that are neither probed nor queued are added |
| Discovery.Discover | src/cloud_platform/cli.py:265-282 | ends for any answers within a finite universe; unless authentication was rejected every candidate and every reported location was probed or last failed; nothing else is asked |
| MigrationHead.ScanFindsGraph | scripts/post_deploy_smoke.py:95-113 | the two sets filled by the scan are the graph's revisions and those built upon |
| MigrationHead.HeadsAre | scripts/post_deploy_smoke.py:90-115 | for any files: exactly when the scan goes through, and the heads as what some statement sets and none refers to |
| MigrationHead.ClimbsToHead | scripts/post_deploy_smoke.py:114 | from any revision of an acyclic graph a path leads up to a head |
| MigrationHead.HeadsCoverTheGraph | scripts/post_deploy_smoke.py:114 | a graph that is not empty has a head, and a single head has every revision as an ancestor |
| MigrationHead.AcceptsIff | scripts/post_deploy_smoke.py:137-154 | an expected head is met exactly by a database holding that revision alone |
| MigrationHead.CheckPassesIff | scripts/post_deploy_smoke.py:137-154 | the check passes if and only if there is one head and the database holds it alone |
| MigrationHead.PassedMeansEverythingApplied | scripts/post_deploy_smoke.py:90-154 | then every migration of the release is an ancestor of the database's revision |
| MigrationHead.RepoHeadRevision | scripts/post_deploy_smoke.py:90-115 | the loops over files and statements, with their errors |
| Sanitizer.TellsNothingIff | src/cloud_platform/core/logging.py:76-142 | whatever text mappings have, no content of hidden keys influences the output if and only if, outside hidden keys, no mapping other than a dict has anything under one |
| Sanitizer.NonInterferenceIff | src/cloud_platform/core/logging.py:93-142 | for given texts of mappings: if and only if none of these texts, as far as it is kept, depends on what is under hidden keys |
| Sanitizer.NoSecretNothingToTell | src/cloud_platform/core/logging.py:76-128 | a mapping without anything under a hidden key tells nothing, whatever its text |
| Sanitizer.ProxyTells | src/cloud_platform/core/logging.py:93-142 | a mapping proxy with a secret passes it on literally |
| Sanitizer.SameIsCleanedAlike | src/cloud_platform/core/logging.py:93-128 | values of any depth that differ only under hidden keys are cleaned alike, unless something tells |
| Sanitizer.LeakVaries | src/cloud_platform/core/logging.py:93-128 | where something tells, other secrets in its place come out differently |
| Sanitizer.SanitizedIsSafe | src/cloud_platform/core/logging.py:116-142 | texts of at most 300 characters, placeholders under every hidden key at any depth, no empty entries |
| Sanitizer.ScalarsAreKept | src/cloud_platform/core/logging.py:109-128 | numbers, truth values and None pass as they are; texts are cut at 300 |
| Sanitizer.TextsAreScrubbedIff | src/cloud_platform/core/logging.py:93-128 | every text of the output went through the patterns if and only if they change nothing of those in sets and of the texts of mappings and objects |
| Sanitizer.AnyPatternsSeeAllIff | src/cloud_platform/core/logging.py:93-128 | with any patterns whatever: if and only if, outside hidden keys, no set holds a text and there is no mapping or other object |
| Sanitizer.SetsAreNotScrubbed | src/cloud_platform/core/logging.py:93-107 | a text in a set passes as it is |
| Sanitizer.TermHidesKey | src/cloud_platform/core/logging.py:76-90 | a sensitive term between separators hides a key whatever surrounds it, in any case |
| Sanitizer.HiddenIff | src/cloud_platform/core/logging.py:73-90 | which keys are hidden, exactly |
| Sanitizer.NamedKeysAreHidden | src/cloud_platform/core/logging.py:24-60 | the keys hidden by name, in any case |

## Left out

- Migration gate: unique, foreign-key and check constraints as something that can break an insert; a `try` body left half-way; calls inside functions nested in `upgrade` or in helpers it calls, unless they are written in `upgrade` itself; raw SQL, which the gate only warns about.
- Deploy driver: containers that restart by themselves, `ps` changing anything, the `PLATFORM_IMAGE` default, health checks, the migration and smoke-test commands' own effects, and `dry_run`.
- DeploySafety.BuiltPlanSafeIff: takes the compose file to start no exclusive service as another's dependency.
- RefRaces.QuiescentIsConsistent: tokens are fresh, also the fallback's; where they may repeat `ServerRefs` treats undisturbed calls.
- Bridge.Database.Migrate: starts from a database in which no unique index stands over clashing rows and the required names, where taken, have their meaning.
- Session store: an unreachable store, and the Redis client's encoding of values.
- References, actions, checkouts, credits: token and nonce minting is a parameter; where freshness is needed it is stated as an enabling condition of the step.
- HMAC tokens, confirmation tokens of the management service, and what `_execute` does with an action.
- Order creation and wallet adjustment: only the port, idempotent by key and free to refuse.
- Telegram texts, keyboards and translations; handlers' authorization.
- `BotUi`: its own screen history.
- Messages: which of two values of equal length is taken first (any order is allowed) and the parsing of screens into values.
- Backups: what is in a file, beyond that a write may have stopped halfway; years below 1000 in `strftime`, digits that are not ASCII in names, the dump and the encryption themselves.
- `_scrub`: what the URL library takes the password, its unquoted form and the redacted DSN to be (parameters).
- Revision 0054: a column of a required name with another type, an index of one of the names with another meaning or on another table, and PostgreSQL's rendering of a JSON value as text (a parameter of the value).
- Revision 0043: adding the columns, filling the JSON audit fields, and how PostgreSQL rewrites a JSON default it is given (the only one is `{}`).
- Amounts: currency codes are taken as already normalized; limits of the decimal exponent range.
- Credit dialogue: `UUID(...)`'s other spellings of an identifier, handled by the users port.
- Server references: a stored server identifier in another spelling than the canonical one the bot writes is read as nothing.
- Discovery: the legacy single-account path and the reports written after the loop.
- Migration head: `ast.literal_eval` of anything but strings, None and lists of strings counts as unusable; the order in which files are listed does not matter to the sets.
- Sanitizer: the patterns applied to texts are one abstract function, the text of a mapping one of its class and its fields; the order of a set's elements is taken as given; keys are taken as `str` shows them, the last of colliding ones; letters that are not ASCII in keys.
