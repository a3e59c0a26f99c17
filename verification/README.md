# xdev, verified

A model of the control plane xdev: the text surgery it does on compose, env and hosts files, the protocols
its goroutines follow, the swaps it makes on disk, and the bookkeeping of ports, domains, names and
orders, with proofs that they keep what the code and its comments promise.

- `ComposeBlocks`: adding and removing one service of a compose file line by line. Two scans that share no
  code must agree on where `services:` ends.
- `ComposePorts`, `PortLines`, `ComposeEnv`, `Ports`, `Domains`, `AppService`: what a compose file
  publishes, line by line and as a whole, the env file that fills its variables, the allocation of host
  ports, the table of hostnames, and the life of apps over all of them. `AppService` carries three results
  through create, edit, start, Adminer toggle, wp-host and delete: no recorded port is given twice, a
  settled stack's env file names the ports its domains are routed to, and an app answers on exactly the
  names it was given, no name on two apps.
- `Routes`, `Reconciler`: what Caddy is given, and the locked read-then-push protocol that gives it.
- `DeployProtocol`, `PushSwap`: the claim, row, prune, clear and reap protocol of deploys; the crash-safe
  swap of an uploaded build.
- `Supervisor`: host processes, their map and their reapers.
- `SelfUpdate`: install, restart, roll back.
- `Ordering`: hand-arranged lists kept as positions in rows.
- `HostsFile`, `GitRepo`, `DeployLog`, `Archive`, `Naming`: printers and their parsers, archive names, slugs
  and the attribution built on them. `Text`, `Collections` and `Wrappers` are shared.

Protocols are state machines: `Next` is one step of one thread, an `Execution` is a finite list of steps
from the initial state, and results hold in every state of every execution, so for every interleaving.
Code that works step by step on files or rows is a class whose ghost `seen` records every state passed
through; a crash leaves one of them. What cannot be seen from here (a failing call, a free port, the
service manager's answer, a partial removal) is a parameter with no constraint.

## What does not hold

Some promises hold only under a condition, which is proved exact where it is stated as "exactly when".

- Routing reported live can be stale after a read error (`Reconciler.RouteErrorKeepsStale`,
  `Reconciler.EndpointErrorHides`): a Sync that cannot read the routes leaves the flag on, and one that
  cannot read the endpoints pushes without them. When it is stale is stated exactly by
  `Reconciler.QuietMeansLive`.
- Creating a stack from an archive that brings its own `_/.env` leaves slots 2 and up as that file has them,
  because the first start runs before the extra domain rows exist (`AppService.ImportedEnvDisagrees`). If
  the archive's compose file hard-codes a port, the start may also take one just allocated to an extra domain
  (`AppService.FollowedPortCollides`). When each happens is stated exactly by
  `AppService.Service.CreateCompose`.
- A push cut off between its two renames, as one can be (`PushSwap.Site.PushDeploy`), loses the app's `.env`
  for the next push, and exactly such a push does (`PushSwap.CrashLosesEnv`, `PushSwap.EnvKeptExactly`); the
  build is never lost (`PushSwap.NothingIsLost`).
- Starts of one app that run side by side, which nothing in the supervisor prevents, can leave a process no
  Stop finds (`Supervisor.TwoStartsOrphan`): exactly one whose entry another Start's Insert overwrote
  (`Supervisor.MappedUnlessOverwritten`), having looked before the entry was made
  (`Supervisor.OverwriteLookedBefore`).
- A repository name that ends in white space other than the four characters refused, as can be accepted
  before a `#`, does not survive its canonical form (`GitRepo.AcceptedReparses`); one that ends in `.git`
  does not either.
- An env file rewritten once is not always settled (`ComposeEnv.SettlesAfterOne`), though it always is after
  two (`ComposeEnv.SettlesAfterTwo`).
- Removing the first service of a section whose block holds a comment at the left margin leaves the rest of
  that block behind, and services after it may no longer be found (`ComposeBlocks.CommentHides`). When a
  removal costs another service, or makes one up, is stated exactly by `ComposeBlocks.RemovalKeepsExactly`.
- Output lines that start with `$ ` read back as steps (`DeployLog.StepsLostExactly`), and so does what a
  trimmed log starts with when the cut falls before one (`DeployLog.StepsOfTrimmed`).

## Model

| member | source | states |
|---|---|---|
| ComposeBlocks.AddThenRemove | internal/apps/adminer.go:175-272 | removing a just-added service takes out its key, its body and the run of lines it was put before, leaving its leading lines; the file is back line for line exactly when those two runs are the same lines |
| ComposeBlocks.AddThenRemoveText | internal/apps/adminer.go:175-213 | the same on whole files, newline handling included |
| ComposeBlocks.RemoveThenAdd | internal/apps/adminer.go:175-272 | removing the last service and adding a block puts the block where the service stood, every other line in order; the file is back exactly when the block followed by the lines that led the service is what was taken out |
| ComposeBlocks.RemoveThenAddText | internal/apps/adminer.go:175-213 | re-adding the removed text restores the file exactly when the block ended in the same blank and comment lines that led it |
| ComposeBlocks.AddedOnce | internal/apps/adminer.go:201-239 | after an addition the name is found at the new key and nowhere else |
| ComposeBlocks.InsertionKeepsOthers | internal/apps/adminer.go:175-272 | an insertion moves the other services and hides none: every old line, scanned in the new file, is the key of exactly the services it was before |
| ComposeBlocks.RemovalKeepsScan | internal/apps/adminer.go:175-239 | after a removal the scan of every later entry is as it was exactly when the block was not the first of its section, or what follows is a sibling or leaves the section |
| ComposeBlocks.RemovalKeepsExactly | internal/apps/adminer.go:175-239 | removing a service takes no other service away and makes none up, for every name, exactly when the block was not the first of its section, or what follows is a sibling or leaves the section, or no line of the rest of the section reads as a key at the indent of the siblings before or after |
| ComposeBlocks.CommentHides | internal/apps/adminer.go:175-239 | files where a service is lost: a comment at the left margin inside the first block ends it early, and the line left behind hides the next service |
| ComposeBlocks.CommentHidesWeb | internal/apps/adminer.go:175-239 | such a file of five lines |
| ComposeBlocks.FindsNewBlock | internal/apps/adminer.go:201-239 | the remover finds the block the adder just put in, at its key |
| ComposeBlocks.InsertionIsInsideServices | internal/apps/adminer.go:217-272 | the two scans agree: the place the adder picks is one the remover takes to be inside services: |
| ComposeBlocks.ScanMeaning | internal/apps/adminer.go:217-239 | what the remover's flags mean: inside services: iff that was the last top-level key, with the sibling indent that of the first entry since |
| ComposeBlocks.FindComposeService | internal/apps/adminer.go:217-239 | the loop returns the first line that is a service key of that name at sibling level, with its indent |
| ComposeBlocks.RemoveService | internal/apps/adminer.go:175-195 | the method equals the line-level removal the lemmas are about, and says whether it found the service |
| ComposeBlocks.ServicesEnd | internal/apps/adminer.go:243-272 | the loop returns the insertion point after the first services: section, before what trails it, and fails exactly without a header |
| ComposeBlocks.AddService | internal/apps/adminer.go:201-213 | the method equals the line-level insertion, or refuses a file without services: |
| ComposePorts.Ports | internal/apps/compose.go:440-501 | the scanner loop equals a fold over the normalised lines, error cases included; what each line adds is PortLines' subject |
| ComposePorts.ScanWellFormed | internal/apps/compose.go:440-501 | whatever the file, the slots found are distinct and in 1..5, and the fixed ports distinct and in 1..65535 |
| ComposePorts.ScanFindsAll | internal/apps/compose.go:440-523 | the scan fails iff some indented line publishes a variable out of range or two publish the same one; otherwise it finds exactly the variables and fixed ports that indented lines publish |
| ComposePorts.KeyPublishesNothing | internal/apps/compose.go:54-86 | a service key never matches a port pattern, so moving the scanner never hides a port |
| ComposePorts.CheckSlots | internal/apps/compose.go:268-286 | accepts exactly when slots 1..n are all published and none past n, and otherwise names a slot that is missing or too many |
| ComposePorts.FitIsBijection | internal/apps/compose.go:268-286 | on scanner output that is: the variables published are exactly 1..n, each once, so there are n of them and n is at most 5 |
| PortLines.SlotPublished | internal/apps/compose.go:60-86 | a line publishes slot n exactly when it is spelled as a port entry for $PORT_n, short form or long, with or without braces, XDEV_, an address, quotes, up to the end of the word, and n is 1 to 5 (no number is slot 1); it is refused exactly when it is spelled so with another number |
| PortLines.FixedPublished | internal/apps/compose.go:71-86 | a line publishes fixed port p exactly when it is spelled with the two to five digits of p before a container port, perhaps with an address, a protocol and quotes, or by itself in the long form |
| PortLines.VarLineIs | internal/apps/compose.go:60-70 | the matching of the two variable patterns is the spelling of such a line, for every line |
| PortLines.FixedLineIs | internal/apps/compose.go:71-78 | and so for the two patterns of fixed ports |
| PortLines.VarPublished | internal/apps/compose.go:454-523 | as it is printed, with the digits of n: for every n of 1 to 5, container port and choice of form, braces, XDEV_, address and quotes, an indented line publishes exactly slot n, and without a number slot 1, whatever blanks and comment follow it |
| PortLines.FixedIsPublished | internal/apps/compose.go:71-86 | and for every port from 10 to 65535 printed in either form, exactly that port |
| PortLines.WrittenPublishes | internal/apps/compose.go:454-464 | indentation, blanks behind a line and a trailing comment change nothing about what it publishes |
| PortLines.StackReadBack | internal/apps/compose.go:440-501 | the scan of a stack that is written out gives back its ports in order, each with the service it was written under |
| PortLines.StackFile | internal/apps/compose.go:395-501 | so does the scan of its file, with any of the three line ends, with or without a byte order mark |
| PortLines.AnyLineEnds | internal/apps/compose.go:395-402 | a text reads the same with any line ends and with or without a byte order mark |
| PortLines.KeyPublished | internal/apps/compose.go:515-595 | a line that publishes a variable of the env file publishes the slot of that variable, and a file that agrees with the ports assigns it that slot's port |
| ComposeEnv.EnsureComposeEnv | internal/apps/compose.go:561-595 | the three loops write the managed assignments and then every kept line, over an old file or the header of a new one |
| ComposeEnv.RewrittenLines | internal/apps/compose.go:573-595 | a rewritten file is the managed assignments followed by every other line in order, newlines at its very end apart |
| ComposeEnv.RewrittenAssigns | internal/apps/compose.go:561-610 | each current slot, under each spelling, is assigned exactly once, to its port; every other slot's assignments are as they were |
| ComposeEnv.UnmanagedAssigned | internal/apps/compose.go:575-581 | dropping managed lines loses the assignments of managed keys and no others |
| ComposeEnv.KeyInjective | internal/apps/compose.go:562-570 | no two slots or spellings share a variable name |
| ComposeEnv.KeptAgain | internal/apps/compose.go:573-595 | a second rewrite with the same ports keeps the same lines, blank ones at the end apart |
| ComposeEnv.SettlesAfterTwo | internal/apps/compose.go:561-595 | two rewrites always reach a fixed point |
| ComposeEnv.SettlesAfterOne | internal/apps/compose.go:561-595 | one rewrite is enough exactly when the last line kept is not blank |
| ComposeEnv.RewrittenAgrees | internal/apps/compose.go:561-595 | a rewrite brings a file into agreement with all its slots |
| ComposeEnv.FreshAgrees | internal/apps/compose.go:582-595 | so does writing a new one |
| ComposeEnv.FirstRewritten | internal/apps/compose.go:561-595 | a rewrite of slot 1 alone agrees with all slots iff the file already agreed on the others |
| ComposeEnv.EmptyFileDisagrees | internal/apps/compose.go:561-595 | a file that mentions no slot disagrees on every slot after the first |
| Ports.PickPorts | internal/apps/apps.go:1389-1403 | returns the n smallest ports of 20000..29999 that are neither taken nor refused by the host, in order, short only when fewer exist; the host's answer is an arbitrary predicate |
| Ports.OneSmallest | internal/apps/apps.go:1389-1403 | that leaves one answer: what is taken and what the host has free settle the ports |
| AppService.Service.AllocPorts | internal/apps/apps.go:1299-1309 | n smallest free ports, none recorded or avoided; fails exactly when there are fewer |
| AppService.Service.PortTaken | internal/apps/compose.go:362-381 | taken iff no port at all, or recorded and not the app's own |
| AppService.Service.CheckChosenPort | internal/apps/apps.go:1339-1359 | a chosen port is accepted iff it is in 1024..65535, recorded nowhere and free on the host |
| AppService.Service.ChoosePorts | internal/apps/apps.go:1317-1334 | the chosen port first and the smallest free ones around it, all distinct and unrecorded; fails only when no ports could be chosen so |
| AppService.Service.EnsureWPHost | internal/apps/wphost.go:204-217 | the wp-host gets the smallest free port, once; fails exactly when it has none yet and none is left; recorded ports stay distinct |
| AppService.Service.WriteEnv | internal/apps/compose.go:561-595 | the app's env file agrees with the given slots and no other file changes |
| AppService.Service.FirstFixed | internal/apps/compose.go:546-553 | the first hard-coded port of the file: no earlier entry is hard-coded; none when there is none |
| AppService.Service.FirstUnpublished | internal/apps/compose.go:342-354 | no complaint iff every slot's variable or number is published |
| AppService.Service.Refresh | internal/apps/compose.go:297-341 | exactly which port the app comes out with: its own, or the smallest free one if it had none, and instead of that the first the file hard-codes when a single-domain file publishes neither the slot nor that port and nobody has recorded it; it fails exactly when that port is somebody else's, none is left, or the file cannot be read; recorded ports stay distinct |
| AppService.Service.SetPort | internal/store/apps.go:304-308 | recording an unrecorded port keeps all recorded ports distinct |
| AppService.Service.PrepareCompose | internal/apps/compose.go:297-355 | a start succeeds exactly when the app has a port to go by, a hard-coded one to take over is nobody's, every slot is published and the env file can be written; then the env file agrees with every domain row; the app's port is the one Refresh fixes; recorded ports stay distinct; a failed start changes no env file |
| AppService.StartsIff | internal/apps/compose.go:325-354 | for a single-domain app that comes to: slot 1 or the app's port is published, or there is a hard-coded port to take over |
| AppService.Service.ReplaceAppDomains | internal/store/domains.go:122-150 | goes through exactly when no name is given twice and none is another app's; then the app's own names are those given, blank ones left out, in that order, its service rows read back as given, every other app's names and routes are as before, and fresh ports keep recorded ports distinct |
| AppService.Service.CreateDomain | internal/store/domains.go:155-169 | the table has the row and every old row of another name, and no other; a new name's row comes last among the app's routes, a name of its own turned to a port is no own name any more, and every other app's names and routes stay |
| AppService.Service.AnyOwned | internal/store/domains.go:74-78 | true iff some name is answered by another app |
| AppService.Service.InsertApp | internal/store/apps.go:145-165 | a new row under a new id; an unrecorded port keeps recorded ports distinct |
| AppService.Service.Layout | internal/apps/apps.go:540-556 | exactly when a new app can be laid out; its ports are the chosen one and the smallest free, distinct, recorded nowhere, and there exactly for the kinds that listen; a chosen port is refused for the others |
| AppService.Service.CreateApp | internal/apps/apps.go:218-533 | for every kind but a bring-your-own stack: exactly when a create succeeds, and with which ports; the app answers on the names it was given, all or (one listed twice) none, less the one its second UI takes over; that UI gets one route; recorded ports stay distinct through every early return, and no other app's names or routes change |
| AppService.Service.Attach | internal/apps/apps.go:507-531 | the app gets its own names, all or none, and then the service rows in the order given; recorded ports stay distinct iff the new ones are recorded nowhere; no other app's names or routes change |
| AppService.Service.AttachHosts | internal/apps/apps.go:507-514 | the names given are the app's own, in order, exactly when no one is listed twice and none is another app's; otherwise it has none, and nothing else changes either way |
| AppService.Service.AttachSecond | internal/apps/apps.go:515-527 | the app's own names and then one route for its second UI, which takes one of them over when it is the same; no other app's names or routes change |
| AppService.Service.CheckExtras | internal/apps/compose.go:234-262 | accepts exactly non-empty, new, distinct names that fit in five slots |
| AppService.Service.CheckFile | internal/apps/compose.go:154-170 | a supplied file passes iff its slots fit and none of its fixed ports is recorded |
| AppService.Service.LayoutCompose | internal/apps/compose.go:131-180 | one port per domain: the chosen one and the smallest free, distinct, clear of what is recorded and of the file's own; it fails exactly when the names or the file do not fit or no such ports are left |
| AppService.Service.LayoutEnv | internal/apps/compose.go:214-222 | before the first start the file agrees on every slot, unless an import put another in its place |
| AppService.Service.CreateCompose | internal/apps/apps.go:218-533 | exactly when a create succeeds and with which ports; the extra domains are routed in order to the ports of slots 2 and up, and the app answers on the names of domain 1; the env file agrees with the rows iff no env file was imported or the imported one agrees with the ports laid out for slots 2 and up; recorded ports stay distinct iff the file at start does not move the app, or moves it to none of the extra domains' ports; a failed create leaves the rows alone |
| AppService.FollowedPortCollides | internal/apps/compose.go:325-341 | a create that records one port twice: laid out on 20000 and 20001, started from a file that hard-codes 20001 |
| AppService.ImportedEnvDisagrees | internal/apps/apps.go:396-405 | a create that starts with an env file that does not name its second domain's port |
| AppService.Service.StartNew | internal/apps/apps.go:468-478 | the first start knows one slot only: it rewrites that slot of the file it finds and nothing else, and leaves the app on its laid-out port or on the one the file hard-codes |
| AppService.Service.Publish | internal/apps/apps.go:507-531 | attaching the extra rows settles the stack iff the file the start found agreed on them |
| AppService.Service.EditRoutes | internal/apps/edit.go:194-250 | slots that stay keep their ports, new ones get the smallest free ones, and together they clash with nothing recorded elsewhere; refused exactly when too few are left |
| AppService.Service.CheckEdit | internal/apps/edit.go:320-351 | an edited file passes iff its slots fit and its fixed ports are the app's own or nobody's |
| AppService.Service.UpdateCompose | internal/apps/edit.go:64-179 | an edit succeeds exactly when no name is another app's, the extra names fit, enough ports are left, the file publishes its slots and hard-codes no other app's port, and the env file can be written; then the app answers on the names given, its slots are routed as EditRoutes says, and the env file agrees with the rows; otherwise the rows stay, but where only the env file failed; recorded ports stay distinct and no other app changes |
| AppService.Service.Rewrite | internal/apps/edit.go:166-177 | the env file is brought in step with the rows, and no other file changes |
| AppService.Service.UpdateApp | internal/apps/edit.go:64-179 | other apps: exactly when an edit succeeds; then the app answers on the names given, its routes keep ports and names but for the second UI's new name, and a host app that now runs a command has the smallest free port; a failed edit leaves the rows alone; recorded ports stay distinct |
| AppService.Service.SetAdminer | internal/apps/adminer.go:53-146 | exactly when a toggle succeeds; on removes the adminer block that may be there, adds the rendered one and routes one name to its port, the smallest free one; off removes block and route; the app keeps its own names, and gets its domain where it had none; already there changes nothing; an error leaves the rows alone, and a blank or unwritable file too; recorded ports stay distinct |
| AppService.Service.Delete | internal/apps/apps.go:1100-1182 | exactly the app's rows go, every other app keeps its names and routes, and recorded ports stay distinct |
| AppService.SettledMeans | internal/apps/compose.go:561-595 | agreement in the words of the file: PORT, PORT_1 and their aliases are each assigned once, to the app's own port, and PORT_n and its alias once, to the port of the app's service domain n-1 |
| AppService.ReplacedApart | internal/store/domains.go:122-150 | a replacement by ports recorded nowhere else keeps recorded ports distinct |
| AppService.EditedApart | internal/apps/edit.go:222-249 | kept and added ports are distinct and recorded for nobody else |
| AppService.StartedAgreement | internal/apps/apps.go:468-531 | rewriting slot 1 alone settles a stack iff its file already agreed on the rest |
| Domains.DomainsApartMeans | internal/store/apps.go:314-333 | distinctness of the domain ports, row against row |
| Domains.OwnHostsAre | internal/store/domains.go:94-112 | an app's own names are exactly the hosts of its rows without a port |
| Domains.RoutesAre | internal/store/domains.go:55-71 | and its service domains those of its rows with one |
| Domains.RoutesAreReal | internal/store/domains.go:55-71 | an app's service routes have real ports, shared with no other app's rows while recorded ports are distinct |
| Domains.ReplacedRoutes | internal/store/domains.go:55-150 | reading back what a replacement wrote gives the routes put in; every other app's are unchanged |
| Domains.ReplacedNames | internal/store/domains.go:94-150 | and the names put in, blank ones left out, in their order; every other app's are unchanged |
| Domains.ReplacedDistinct | internal/store/domains.go:114-150 | the table holds no name twice after a replacement exactly when none is given twice and none is another app's |
| Domains.UpsertedRows | internal/store/domains.go:155-169 | an upsert leaves its row and every row of another name, and no name twice |
| Domains.UpsertedNames | internal/store/domains.go:155-169 | a name given a port is no longer one of its app's own, and nobody else's names change |
| Routes.BuildEndpointRoutes | internal/platform/reconcile.go:127-149 | one path-scoped route per app with an endpoint switched on and a hostname, in order, and none without an address for xdev |
| Routes.BuildRoutes | internal/platform/reconcile.go:83-105 | the loop puts the endpoints' routes first, then one route per info, and collects the names for the hosts file |
| Routes.RequestGoes | internal/platform/reconcile.go:79-105 | Caddy's first match sends a request to xdev exactly where that path was switched on for that host, and every other request on a host to the host's own route |
| Routes.RowGoes | internal/store/domains.go:170-243 | from the rows, for every table: a request for a path nobody switched on goes where the first row of its host that answers says: the service's own port (over https for mail), else the proxy's upstream, else the docroot of a shared site behind its PHP port or of a static app, else the app's port; and the route is internal iff the row is local |
| Routes.NoRowNoRoute | internal/store/domains.go:186-200 | a host none of whose rows answers is reached under the switched-on paths only |
| Routes.RowHostnames | internal/platform/reconcile.go:100-105 | the hosts file is asked for exactly the names of local rows that answer, but those under .localhost |
| Routes.EndpointDispatch | internal/platform/reconcile.go:119-149 | an endpoint route matches iff somebody switched that endpoint on, by its webhook's id or a push token, for an app on that host; it is never internal and goes to xdev whole |
| Routes.NoBareDocroot | internal/platform/reconcile.go:69-120 | whatever Caddy is told to serve files from is a shared site's docroot with its PHP handler or the directory of a static app: no shared docroot without the handler, whatever the settings hold |
| Routes.HostnamesAre | internal/platform/reconcile.go:100-105 | over the infos: the local names outside .localhost, and no other |
| Reconciler.EnabledIsLastPush | internal/platform/reconcile.go:69-117 | in every interleaving the flag is the outcome of the last attempted push, except between a push and the store of its outcome |
| Reconciler.OneSyncAtATime | internal/platform/reconcile.go:70-71 | no two threads are inside Sync |
| Reconciler.ReadsOnlyAdvance | internal/platform/reconcile.go:69-117 | what Caddy was last given was read entirely after anything given before: no older read overwrites a newer one |
| Reconciler.QuietMeansLive | internal/platform/reconcile.go:69-176 | once all Syncs are done, enabled means Caddy serves what is built from the versions the last good push saw, which the steps tell, and so the final database exactly when those amount to the same; as they do if the last Sync that read could read everything |
| Reconciler.EveryStateTells | internal/platform/reconcile.go:69-125 | in every state of every run the versions read and pushed are those the steps so far tell |
| Reconciler.EveryState | internal/platform/reconcile.go:69-176 | the protocol invariant holds in every state of every run |
| Reconciler.SyncAlone | internal/platform/reconcile.go:69-117 | an undisturbed Sync with Caddy up turns routing on with the current database |
| Reconciler.FirstSync | internal/platform/reconcile.go:69-117 | so does the first one after start-up |
| Reconciler.EndpointErrorHides | internal/platform/reconcile.go:127-136 | why reads must succeed: a run that ends quiet and enabled with the endpoints missing, for any database that has some to publish |
| Reconciler.RouteErrorKeepsStale | internal/platform/reconcile.go:76-79 | and one that ends quiet and enabled with Caddy serving any older database |
| Reconciler.Control.Sync | internal/platform/reconcile.go:69-117 | Sync as code: each way out releases the lock, only an attempted push changes the flag, and the whole call is a path of the protocol |
| Reconciler.Control.Enter | internal/platform/reconcile.go:69-75 | takes the lock and leaves again iff routing is down and Caddy absent |
| Reconciler.Control.Read | internal/platform/reconcile.go:76-82 | both reads see the current database; an unreadable routes table ends the Sync with the flag as it was |
| Reconciler.Control.PushOut | internal/platform/reconcile.go:107-113 | the flag becomes the outcome of the push |
| PushSwap.Site.PushDeploy | internal/apps/deploy.go:227-285 | in every state passed through, the old build is complete at the target or in retirement or the new one is complete at the target; an early error leaves the target alone; a failed swap puts the old build back when the reverse rename works; success is exactly when every call it needs works, and then every path but .env is as uploaded, the upload's own .env is kept, and otherwise the old one is there iff the app has an xdev database and the old target had one |
| PushSwap.Site.Stage | internal/apps/deploy.go:227-256 | a staged build, or a refusal, with target and retirement untouched throughout; goes through iff the calls it needs do |
| PushSwap.Site.Swap | internal/apps/deploy.go:258-276 | the two renames and the way back: which outcome, what is where, that the new build never leaves once in place, and that once the first rename works a crash may find the target empty |
| PushSwap.Site.CarryOverEnv | internal/apps/deploy.go:299-322 | the same on the staged build: the live .env joins the upload exactly for an xdev database and an upload without one; fails iff that copy does |
| PushSwap.BuildCarries | internal/apps/deploy.go:299-322 | what a push publishes, path by path, for every app, live build and upload |
| PushSwap.Site.Rename | internal/apps/deploy.go:258-276 | renaming refuses an existing destination and changes nothing when it fails |
| PushSwap.Site.RemoveAll | internal/apps/deploy.go:261-275 | a removal may stop half way |
| PushSwap.NothingIsLost | internal/apps/deploy.go:227-285 | over any number of pushes, each cut off anywhere, the build that last reached the target is complete at the target or in retirement |
| PushSwap.CrashLosesEnv | internal/apps/deploy.go:299-311 | after a push cut off anywhere, the next one carries the live .env over exactly when there is a target; otherwise it is in retirement only |
| PushSwap.EnvKeptExactly | internal/apps/deploy.go:227-311 | over any number of pushes cut off anywhere, none of which brings a .env, the first one is there at the end exactly when the target was never left empty |
| DeployProtocol.OneDeployPerApp | internal/apps/deploy.go:36-128 | in every interleaving at most one deploy of an app is between claim and release |
| DeployProtocol.RunningRowIsClaimed | internal/store/deployments.go:129-213 | while the process is up a running row belongs to a claimed app, one thread owns it, and the app has no other |
| DeployProtocol.RunningRowStays | internal/store/deployments.go:177-213 | no step removes a running row; only its own deploy's end and a restart change its status |
| DeployProtocol.FinishFindsItsRow | internal/store/deployments.go:140-153 | every deploy that finishes finds its row still running, and closes it with its own outcome and no other row |
| DeployProtocol.OutcomeIsTheBuilds | internal/apps/deploy.go:90-128 | in every run, what a finish writes is the outcome of its own deploy's build, into the row that deploy opened for the app it claimed |
| DeployProtocol.PruneLeaves | internal/store/deployments.go:178-184 | in every run, a prune leaves its deploy's app the newest 20 rows, or all where there are no more, in order, and every other app all of its own |
| DeployProtocol.ClearLeaves | internal/store/deployments.go:194-201 | in every run, clearing leaves exactly the rows that are another app's or running, in order |
| DeployProtocol.OthersLeave | internal/store/deployments.go:129-213 | in every run, no other step takes a row away: a restart fails the running ones and changes no other, an opened row comes last under a new id, a finish changes the status of its own row only |
| DeployProtocol.ClaimsBalance | internal/apps/deploy.go:45-62 | claims of an app exceed releases by one exactly while it is claimed: nothing is released twice |
| DeployProtocol.NeverStuck | internal/apps/deploy.go:90-128 | in every run, whatever the others do, a deploy that was not let go has its next step open to it and has taken no more own steps than bring it to its release, at most five |
| DeployProtocol.PrunedIs | internal/store/deployments.go:178-184 | the rows pruning keeps of an app are its newest in order, and no other app's change |
| DeployProtocol.OfAppIs | internal/store/deployments.go:156-170 | an app's history is exactly the rows with its id, by ascending id |
| DeployProtocol.PrunedKeeps | internal/store/deployments.go:178-184 | pruning removes only rows of that app |
| DeployProtocol.ClearedKeeps | internal/store/deployments.go:194-201 | clearing removes exactly the app's rows that are not running |
| DeployProtocol.EveryState | internal/apps/deploy.go:36-128 | the protocol invariant holds in every state of every run |
| Supervisor.EntryLeavesWithItsChild | internal/hostproc/hostproc.go:84-101 | an entry leaves the map only with its own child's reaper, or under an Insert for the same app that overwrites it, which is never if the Starts of an app are kept apart |
| Supervisor.MappedUnlessOverwritten | internal/hostproc/hostproc.go:53-102 | in every run, overlapping Starts or not, a child that was put in the map and is not yet dropped is the one a Stop of its app finds exactly when no Insert has overwritten it |
| Supervisor.OverwriteLookedBefore | internal/hostproc/hostproc.go:53-88 | an Insert overwrites a child only in a Start whose look for what runs came before that child was put in |
| Supervisor.ClosedOnce | internal/hostproc/hostproc.go:90-101 | each done channel is closed at most once, and only when the child is dead and its entry gone |
| Supervisor.StopReturnsReaped | internal/hostproc/hostproc.go:106-122 | Stop returns only once the child it saw is dead, reaped and out of the map |
| Supervisor.UnreapedIsMapped | internal/hostproc/hostproc.go:53-102 | so a child whose Start completed and that is not reaped is the one in the map exactly when no Insert has overwritten it, and always with the Starts of an app kept apart |
| Supervisor.OneChildPerApp | internal/hostproc/hostproc.go:47-102 | and no two children of one app are ever alive together |
| Supervisor.TwoStartsOrphan | internal/hostproc/hostproc.go:53-102 | a run of two Starts side by side that ends with a live child no Stop can find |
| Supervisor.EveryState | internal/hostproc/hostproc.go:53-122 | the invariants hold in every state of every run |
| SelfUpdate.Host.RunUpdate | cmd/xdev/update.go:125-187 | whatever the service answers the target is whole, old or new, in every state; a nil result means new, and where the service was restarted that some look before the deadline showed it up with an unreadable pid or another than before; "rolled back" means the original bytes, a failed rollback leaves a good backup, and a backup is lost to pruning only if three newer names exist |
| SelfUpdate.Host.Install | internal/selfupdate/install.go:69-92 | the target is whole throughout; success leaves new bytes and a backup of the old, failure leaves the target as it was |
| SelfUpdate.Host.Restore | internal/selfupdate/install.go:98-108 | the backup's bytes are back, or the target is as it was; the backup itself is never touched |
| SelfUpdate.Host.Replace | internal/selfupdate/install.go:80-108 | the shared copy-and-rename: no state shows a half-written target |
| SelfUpdate.Host.CopyFile | internal/selfupdate/install.go:133-157 | only the destination changes, whatever breaks |
| SelfUpdate.Host.PruneBackups | internal/selfupdate/install.go:113-127 | a backup goes iff at least `keep` have later names and it can be removed; no other file is touched |
| SelfUpdate.SortBackups | internal/selfupdate/install.go:114-118 | exactly the matching names, latest first |
| SelfUpdate.BackupsAre | internal/selfupdate/install.go:113-114 | the backups are the files named dest.*.bak |
| SelfUpdate.NewerAt | internal/selfupdate/install.go:113-127 | a backup's place in that list is the number of later ones |
| SelfUpdate.LatestSurvives | internal/selfupdate/install.go:110-127 | with increasing stamps the newest backup is never pruned |
| SelfUpdate.StampsSort | internal/selfupdate/install.go:75-77 | names sort as their stamps do |
| SelfUpdate.WaitRestarted | internal/selfupdate/service.go:151-175 | true iff some look before the deadline shows the service up with a pid that is 0 or not the old one |
| Ordering.Store.SetAppOrder | internal/store/apps.go:240-292 | saved exactly when the list is a permutation of the project's apps; then the list is that, and otherwise nothing changes |
| Ordering.Store.SetProjectOrder | internal/store/projects.go:175-227 | the same over all projects |
| Ordering.Store.ListApps | internal/store/apps.go:184-200 | lists the project's apps and no other, by position and then id: the abstract order |
| Ordering.Store.ListProjects | internal/store/projects.go:124-146 | lists every project once, by position, then newest first, then by descending id: the abstract order |
| Ordering.Store.CreateApp | internal/store/apps.go:145-165 | a new app comes last in its project and no other list changes |
| Ordering.Store.CreateProject | internal/store/projects.go:27-42 | a new project comes first, with no apps |
| Ordering.Store.DeleteApp | internal/store/apps.go:336-339 | one app leaves its list, the rest keep their order |
| Ordering.Store.DeleteProject | internal/store/projects.go:118-121 | one project leaves with its apps, the rest keep their order |
| Ordering.Store.RenumberApps | internal/store/apps.go:279-290 | positions 1..n along the list, every other row untouched |
| Ordering.Store.RenumberProjects | internal/store/projects.go:213-225 | positions 1..n along the list |
| Ordering.Store.LowestPosition | internal/store/projects.go:33-35 | the minimum, 1 for an empty table |
| Ordering.Store.HighestPosition | internal/store/apps.go:149-155 | 0 when the project has no app, otherwise the maximum, a position that is taken |
| Ordering.CheckOrder | internal/store/apps.go:261-276 | the three checks accept exactly the permutations |
| Ordering.CheckIds | internal/store/apps.go:261-276 | the seen-map loop accepts exactly distinct known ids, as many as there are |
| Ordering.PermutationIff | internal/store/apps.go:261-276 | as many, all known and none twice is the same as being a permutation |
| Ordering.OneList | internal/store/apps.go:180-200 | the sort order leaves one list |
| HostsFile.LastWriterWins | internal/domains/hosts.go:26-47 | syncing one list and then another gives the same bytes as the second alone, for any starting content |
| HostsFile.NothingMissingAfterSync | internal/domains/hosts.go:26-81 | after a sync none of the names is missing |
| HostsFile.SyncedLines | internal/domains/hosts.go:26-47 | the lines outside the block survive in order, blank ones at their end apart, followed by the new block |
| HostsFile.BlockIs | internal/domains/hosts.go:34-46 | the block holds both loopback addresses for every name, between the two markers |
| HostsFile.SyncedMaps | internal/domains/hosts.go:26-81 | every synced name reads back as mapped |
| HostsFile.InBlockMeaning | internal/domains/hosts.go:126-147 | being in a block means a start marker not yet followed by an end marker, stray and unclosed ones included |
| HostsFile.StripBlock | internal/domains/hosts.go:126-147 | the flag loop keeps exactly the lines outside every block |
| HostsFile.SyncHosts | internal/domains/hosts.go:26-47 | the text written is the surviving lines and the new block |
| HostsFile.HostPresent | internal/domains/hosts.go:67-81 | true iff some line that is no comment names the host after its address |
| HostsFile.MissingFromHosts | internal/domains/hosts.go:52-65 | exactly the names no line maps, in order |
| GitRepo.ParseRepo | internal/gitsrc/gitsrc.go:81-134 | the sequence of cuts equals the parse the lemmas are about |
| GitRepo.CutScheme | internal/gitsrc/gitsrc.go:100-105 | the scheme loop drops the first scheme that fits |
| GitRepo.HttpsParses | internal/gitsrc/gitsrc.go:59-134 | an HTTPS URL parses back to its repository exactly when the parts are clean and none holds an @, also when the name ends in .git |
| GitRepo.SshParses | internal/gitsrc/gitsrc.go:62-134 | an SSH URL exactly when the parts are clean and the host holds no colon |
| GitRepo.ShorthandParses | internal/gitsrc/gitsrc.go:81-134 | owner/name, with .git or not, is that repository on github.com, and is refused exactly when its first part holds a dot |
| GitRepo.CanonicalReparses | internal/gitsrc/gitsrc.go:56-134 | the canonical form parses back exactly when the parts are clean, none holds an @, and the name ends neither in .git nor in white space |
| GitRepo.AcceptedIsClean | internal/gitsrc/gitsrc.go:81-134 | whatever is accepted has non-empty parts free of separators, and a lower-case host |
| GitRepo.AcceptedReparses | internal/gitsrc/gitsrc.go:81-134 | so an accepted reference reparses to itself exactly when it has no @ and its name ends neither in .git nor in white space |
| Archive.Unpack | internal/apps/upload.go:94-193 | both passes equal the plan the lemmas are about, for either format |
| Archive.WrapperDir | internal/apps/upload.go:252-266 | the running-root loop |
| Archive.NothingLost | internal/apps/upload.go:94-193 | extraction fails iff some entry points outside or there is no code; otherwise every file of code is written and nothing else, all relocated alike |
| Archive.NothingMerged | internal/apps/upload.go:252-294 | different cleaned names go to different places |
| Archive.NothingOutside | internal/apps/upload.go:275-294 | no target has an empty, dot or dot-dot part or a separator inside a part |
| Archive.WrappingIsInvisible | internal/apps/upload.go:94-306 | zipping the folder instead of its contents unpacks to the same files exactly when the contents have no wrapper of their own to lose, or no code |
| Archive.WrapperWraps | internal/apps/upload.go:241-266 | a wrapper found holds every file of code, below the top |
| Archive.DebrisIsInvisible | internal/apps/upload.go:94-306 | entries in a top-level __MACOSX and .DS_Store files anywhere are never written and do not keep a wrapper from being dropped: with them or without, the same files are unpacked |
| Archive.PlainName | internal/apps/upload.go:275-306 | plain names joined by slashes are cleaned to themselves, and are debris exactly under __MACOSX or as .DS_Store |
| Archive.StackSkips | internal/apps/upload.go:275-279 | empty parts and single dots are skipped, and a name followed by a step up is gone with it |
| Archive.CleanCleaned | internal/apps/upload.go:275-279 | a cleaned name has no empty or dot parts, and parent steps only at its start |
| DeployLog.StepsOfWritten | internal/store/deployments.go:95-126 | the reader returns exactly the steps the writer was given, in order, only the last marked failed and only for a failed deploy |
| DeployLog.StepsOfFailure | internal/apps/deploy.go:375-386 | a failed deploy's stored log reads back with its error as one unnamed step ahead of the rest |
| DeployLog.StepsOfTrimmed | internal/apps/deploy.go:375-386 | a log that was trimmed reads back as one unnamed step, with the error and what is left of the entry the cut is in, and every later step, exactly when the cut does not leave what looks like a step |
| DeployLog.CutLaw | internal/apps/deploy.go:376-378 | the end of a written log is what is left of one entry and every entry after it, whole |
| DeployLog.StepsLostExactly | internal/store/deployments.go:95-126 | as many steps come back as were written exactly when no output line looks like the start of one |
| DeployLog.WriteLog | internal/apps/laravel.go:313-318 | the log is one header and one trimmed output per step |
| DeployLog.EntryIs | internal/apps/laravel.go:313-318 | a step's entry is "$ " and its name, then its output less trailing newlines |
| DeployLog.TailIs | internal/apps/deploy.go:375-386 | the last 16384 characters of an overlong log are kept |
| DeployLog.Steps | internal/store/deployments.go:95-126 | the loop with its flush equals the reader the lemmas are about |
| Naming.Slugify | internal/naming/naming.go:12-33 | the dash-flag loop gives the words joined by single dashes |
| Naming.SlugLetters | internal/naming/naming.go:12-33 | the letters and digits of a slug are those of the lower-cased name, in order; a name without any is called app |
| Naming.SlugApart | internal/naming/naming.go:12-33 | whatever stands between two names becomes one dash |
| Naming.SlugWord | internal/naming/naming.go:12-33 | a word is its own slug in lower case |
| Naming.SlugShape | internal/naming/naming.go:12-33 | a slug is non-empty, of a-z, 0-9 and single inner dashes |
| Naming.SlugFixed | internal/naming/naming.go:12-33 | a slug is its own slug |
| Naming.SlugIdempotent | internal/naming/naming.go:12-33 | slugging twice is slugging once |
| Naming.Unique | internal/naming/naming.go:37-48 | terminates for any finite set of taken names, with the first untaken candidate, a slug |
| Naming.CandidatesDiffer | internal/naming/naming.go:42-47 | no two candidates are the same |
| Naming.PrefixInjective | internal/store/metrics.go:55-60 | <project>_<app> names one app |
| Naming.OnlyOwnPrefixFits | internal/metrics/collector.go:201-206 | no other stack's prefix fits a container of this one |
| Naming.Attribute | internal/metrics/collector.go:192-208 | a known label decides; otherwise some longest prefix that fits, for every map order |
| Naming.LongestUnique | internal/metrics/collector.go:201-207 | there is one longest prefix |
| Naming.OwnStackIsLongest | internal/metrics/collector.go:192-208 | a container <project>_<app>_<svc> with no label goes to that app |

## Left out

- AppService.Service.CreateDomain: takes a name that no other app answers on, as every caller has just checked; the upsert of another app's row is not modelled.
- AppService.Service.CreateCompose: takes hostnames already in normal form; their validation (`validHost`, `normalizeHost`) and the reading of the compose file from disk are not modelled.
- AppService.Service.SetAdminer: takes the compose file as read, and whether it can be written, as parameters; the type of app it refuses and the removal of the running container are not modelled.
- AppService.Service.UpdateApp: states ports, routes and hostnames; the other columns it saves are left out.
- PushSwap.Site.RemoveAll: says that anything may be left, not which entries a removal that stops half way leaves.
- SelfUpdate.Host.Replace: models file contents only; modes and ownership are left out.
- Archive.Unpack: writes are a list; a file and a directory of the same name, or one file's path under another file, make the original fail on disk and are not modelled.
- Archive.NothingMerged: is about cleaned names; entries with the same cleaned name overwrite each other in order, as in the original.
- Ports of the shared database and the shared Adminer: the allocator does not record them, so nothing is claimed of them. Fixed ports in a compose file against slots an edit adds later are not claimed distinct either.
- Concurrent creates: allocation takes no lock, so distinct ports are claimed for serial runs only.
- The first build of a create opens a running row without a claim, and is not part of the deploy protocol; nor are deleting an app during its deploy and failing writes after its row is open.
- The supervisor's signals: a child may exit at any time, and that a signal makes it exit is not modelled, so neither is that Stop returns.
- The pause and backoff of the retry loop, and its log lines.
- Caddy's own matching of hosts without regard to case and of path wildcards; the TLS part of its configuration.
- A `.env` or build directory that is not the kind of file the code expects, file permissions, and disk faults on the hosts and compose files, which only make those calls return early.
- White space and lower-casing are Go's for ASCII; other Unicode lower-casing, invalid UTF-8, and lengths in bytes rather than characters (log trimming, indentation) are not modelled.
- The scanner's limit on the length of a line, and the structural checks of `validCompose`.
- Regular expressions are written out as functions on a line.
- SQL and transactions: a table is a map or a sequence with the order, uniqueness and increasing ids its queries rely on; a query is one step.
- Lines the deploy writes to its log outside the step writer (a dump notice, a retry notice).
- HTTP handlers, templates, authentication, the container engine, git, systemd, certificates, metrics charts.
