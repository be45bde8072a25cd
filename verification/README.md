# Verified model of dasik's convergers

dasik reads what a machine is, plans a difference, applies it, and expects the next plan to be
silent. This project models the parts of dasik that hold algorithms or state machines of their own,
in Dafny, and proves what their code promises. Everything is checked by

    dafny verify dfyconfig.toml

## What is modelled

Code that changes state step by step is a class or a method with loops, proved against a
specification function; the properties are lemmas about that function. The modules called `…Meaning`
say what those functions compute in the file's, the machine's or the configuration's own terms, without
the functions they are made of. Whatever the model cannot
see (a command that fails, another process that writes, a dump that is out of date or cannot be read, a
request that times out) is an arbitrary value chosen at that point or handed in, so every statement
holds for all of them.

| part | modules |
|---|---|
| optional values, sequences without repetitions | `Common` |
| strings, lines, words, integers | `Text` |
| desired / managed / actual set arithmetic | `SetMath` |
| moving live data into a btrfs subvolume, and out of one | `SubvolFiles`, `SubvolFill`, `SubvolDrop` |
| btrfs lines of `/etc/fstab`: parser and editor | `Fstab`, `FstabMeaning` |
| difference, execution and convergence of the declared subvolumes | `SubvolState`, `SubvolProbe`, `SubvolParent`, `SubvolApply`, `SubvolMeaning`, `SubvolConverge`, `SubvolDiverge` |
| which runs spare the root subvolume | `SubvolRoot` |
| `pacman.conf`: section parser, section remover, renderer | `PacmanLines`, `PacmanSections`, `PacmanTheorems`, `PacmanMeaning`, `PacmanBlocks`, `PacmanRender` |
| kernel command line: merge, comparison, plan, apply | `MountOptions`, `KernelCmdline`, `KernelConvergence`, `KernelMeaning`, `KernelAction` |
| AUR: dependency worklist, topological sort, build loop | `TopoSort`, `AurResolve` |
| AUR: batches and the memo | `AurMemo` |
| LUKS token keyslots: header readers, plan, apply | `LuksHeader`, `LuksToken`, `LuksApply`, `LuksRun`, `LuksMeaning` |
| MCP servers: expanding a block, capturing a machine | `McpServers` |
| search registries: file, order, convergence | `RegistriesFile`, `Registries` |
| subordinate id ranges | `SubidLines`, `SubidMaps` |
| partition labels | `SafeLabel` |

## What turned out not to hold

Where a promise fails for some input, the model keeps the code as it is, a lemma shows such an
input, and a theorem says exactly when the promise holds.

- `compute_changes` removes everything owned and no longer declared (`set_math.py`), while
  README.md:70-71 says owned, *still present* and no longer declared. The two agree exactly when
  nothing owned has vanished: `SetMath.RemovalsMatchDocumentationIff`. So a plan is silent only for
  manifests that own nothing undeclared.
- Filling a subvolume: the documentation of `_fill_subvolume` says a failure puts the directory
  back. A run that fails before the commit leaves the contents at the path exactly as
  `SubvolFill.BackAtPath` says, and else whole in the staging directory: not when the `mkdir` after
  the rename fails (it lies outside the inner `try`), not when putting them back fails, and not when
  an interrupt hides a rename that took place (`SubvolFill.FillSubvolume`).
- Removing a subvolume: an interrupt between the `umount` and the end of the copy is not caught by
  `except Exception`, so the subvolume stays unmounted and what was copied stays. The removal ends
  mounted as before exactly as `SubvolDrop.MountStands` says (`SubvolDrop.Remove`).
- Subvolume differences: the fstab map carries no filesystem. The plan converges on every regular
  machine the probe can show exactly when no declared subvolume shares its name with a declared one or
  with an owned one no longer declared (`SubvolDiverge.ConvergesIff`, with the failing runs in
  `SubvolDiverge.SharedNameDiverges` and `SubvolDiverge.OrphanNameDiverges`).
- "The root subvolume is never removed" holds of a subvolume the probe shows at `/`
  (`SubvolRoot.RunSparesShownRoot`), and it shows it there exactly when no later mount of the same
  subvolume follows (`SubvolState.RootShownIff`). A root mounted a second time, later, below a third
  mount that is declared, is planned for removal and deleted (`SubvolRoot.HiddenRootIsDeleted`). The
  plans of a configuration spare a subvolume with a mount at `/` exactly when it is declared, or the
  declarations cannot all be carried out, or the guards of a removal would then hold it back
  (`SubvolRoot.SparedIff`, and `SubvolRoot.SettledSparedIff` when nothing is left to install). `/`
  itself is never unmounted (`SubvolRoot.RunNeverUnmountsRoot`).
- Kernel command line: convergence from every entry and manifest holds exactly when the desired
  tokens hold at most one token per root key (`KernelConvergence.ConvergesIff`); one explicit entry
  holding two tokens can break that (`KernelConvergence.TwoTokenEntryDiverges`).
- `render` of `pacman.conf` is idempotent exactly when the text ends in a newline, keeps its
  `[core]`, or nothing is declared (`PacmanRender.RenderIdempotentIff`); the declared sections read
  back exactly when their values are trimmed and none has both an include and servers
  (`PacmanRender.ReadBackIff`).
- LUKS keys: a removal whose header dump cannot be read takes the empty text for the dump, and one
  whose dump does not show the tokens' keyslots finds none; either wipes the kind whole (`LuksRun.BlindRemovalTakesAll`). A run keeps the declared number of keys exactly when
  every removal of the kind could read its dump (`LuksRun.RunNeverBelowDeclaredIff`,
  `LuksRun.ShrinkIsExactIff`); the passphrases survive in any case.
- A LUKS item written otherwise than dasik writes it, for a number its kind can be declared with
  (`volume:tpm2#1`, `volume:fido2#0`, `volume:fido2#02`), is not recognised as the declared key of that
  number. No plan removes a declared key exactly when no owned item is written so
  (`LuksToken.NeverTakesDeclaredIff`).
- A registry entry that is empty or holds `"` or `]` never converges
  (`RegistriesFile.WrittenReadsBackIff`, `Registries.ContainerRegistriesAction.Reconcile`).
- The AUR batches count seven characters per `&arg[]=`, but the brackets are percent-encoded, so a
  batch of short names can outgrow the request limit of 4443 the count is meant to stay under. With
  names of at least `n` quoted characters every batch of more than one name stays under it exactly
  when `n` is at least 9 (`AurMemo.StaysUnderIff`); 233 names of eight characters are one batch that
  does not (`AurMemo.BatchesOutgrow`).

## Model

| member | source | states |
|---|---|---|
| SetMath.ComputeChanges | dasik/lib/state/set_math.py:22-34 | installs exactly what is desired and absent, removes exactly what is owned and undeclared |
| SetMath.NothingTwice | dasik/lib/state/set_math.py:12-68 | no change is planned twice |
| SetMath.PlannedInOrder | dasik/lib/state/set_math.py:12-68 | installs before removals, each block sorted |
| SetMath.ComputeForced | dasik/lib/state/set_math.py:12-68 | what is declared off is removed too, exactly when it is on the machine |
| SetMath.NothingForced | dasik/lib/state/set_math.py:12-68 | with nothing declared off, the plan is the one of the two plain blocks |
| SetMath.ActualAccounted | dasik/lib/state/set_math.py:12-68 | whatever is on the machine is declared, removed, or reported as drift, and never two of these |
| SetMath.PlanSilentIff | dasik/lib/state/set_math.py:22-34 | nothing is planned exactly when everything desired is there and nothing owned is undeclared |
| SetMath.RemovalsMatchDocumentationIff | README.md:70-71 | the code's removals are the documented ones exactly when nothing owned has vanished |
| SubvolFiles.Tree.Others | dasik/lib/actions/btrfs_subvolume_action.py:551-554 | other processes may create the path or add files to it, at any time |
| SubvolFiles.Tree.EmptyDir | dasik/lib/actions/btrfs_subvolume_action.py:339-346 | entries go one by one, only from that directory, and a success leaves it empty |
| SubvolFill.Copy | dasik/lib/actions/btrfs_subvolume_action.py:348-373 | success leaves exactly the staged contents in the subvolume, any failure leaves the staged directory whole |
| SubvolFill.Unstage | dasik/lib/actions/btrfs_subvolume_action.py:604-613 | the contents are back exactly when both steps ran or an interrupted rename had acted, else they are staged whole; a path that is not empty stops the first step, and nothing anybody put there is replaced |
| SubvolFill.DiscardPartial | dasik/lib/actions/btrfs_subvolume_action.py:615-627 | touches only the subvolume; unless a command fails one this item created is gone, and an adopted one holds again what it held before the run |
| SubvolFill.MoveIn | dasik/lib/actions/btrfs_subvolume_action.py:569-593 | the whole guarded part: everything is carried over, or there was nothing to carry, or the stage that stopped tells whether anything is still staged |
| SubvolFill.Precautions | dasik/lib/actions/btrfs_subvolume_action.py:575-579 | before the rename the flag is carried over and nobody works below the path |
| SubvolFill.FillSubvolume | dasik/lib/actions/btrfs_subvolume_action.py:546-601 | refuses exactly on leftover staging or two full sides; it stops only at a command that fails, and at the copy only when the plain copy failed too; success holds exactly what was set aside and leaves nothing staged unless deleting it failed; a failure before the commit leaves the contents at the path exactly as `BackAtPath` tells, and otherwise staged, whole |
| SubvolFill.DropOldCopy | dasik/lib/actions/btrfs_subvolume_action.py:592-601 | after the commit the old copy is gone unless deleting it failed, and the subvolume is not touched |
| SubvolFill.OriginalAlwaysWhole | dasik/lib/actions/btrfs_subvolume_action.py:548-557 | at every moment of every run the original contents are whole at the path, in staging, or, after the commit, in the subvolume |
| SubvolFill.NothingLost | dasik/lib/actions/btrfs_subvolume_action.py:551-554 | whatever anybody put at the path at any moment is at the path, staged, or committed at every later one |
| SubvolFill.PathOnlyGains | dasik/lib/actions/btrfs_subvolume_action.py:551-554 | on either side of the rename the path only gains files |
| SubvolFill.CommittedIsFinal | dasik/lib/actions/btrfs_subvolume_action.py:591-593 | the subvolume never changes after the commit and holds all original contents |
| SubvolFill.SubvolumeKeepsItsOwn | dasik/lib/actions/btrfs_subvolume_action.py:561-566 | what the subvolume held before the run it holds throughout |
| SubvolDrop.CopyBack | dasik/lib/actions/btrfs_subvolume_action.py:348-373 | success leaves exactly the subvolume's contents in the parent directory; nothing else changes at any moment |
| SubvolDrop.CopyFailed | dasik/lib/actions/btrfs_subvolume_action.py:663-682 | the partial copy is cleared unless that fails, and the subvolume is mounted again or the failure says it is not |
| SubvolDrop.Remove | dasik/lib/actions/btrfs_subvolume_action.py:646-684 | it stops only at a command that fails; at every moment the subvolume is as it was or its complete copy is in the parent; it ends mounted, and listed, as before exactly as `MountStands` and `LineStands` tell; an interrupted copy clears nothing it wrote |
| SubvolDrop.Conclude | dasik/lib/actions/btrfs_subvolume_action.py:683-684 | the line goes before the delete; the copy stays whatever fails |
| SubvolParent.Parent | dasik/lib/actions/btrfs_subvolume_action.py:475-489 | refused exactly when no other mounted subvolume of the filesystem contains the path; else the innermost one, with the rest of the path |
| Fstab.ParseFstabSubvols | dasik/lib/actions/btrfs_subvol_state.py:59-72 | computes the parsed map, line by line, the last line of a mountpoint winning |
| Fstab.WithoutBtrfsLines | dasik/lib/actions/btrfs_subvol_fstab.py:17-33 | computes the kept lines |
| Fstab.OthersKeptInOrder | dasik/lib/actions/btrfs_subvol_fstab.py:17-33 | exactly the lines not dropped stay, each as often as before and in their order |
| Fstab.FstabFile.Set | dasik/lib/actions/btrfs_subvolume_action.py:391-395 | the file reads back as the kept lines and the new one |
| Fstab.FstabFile.Drop | dasik/lib/actions/btrfs_subvolume_action.py:383-389 | the file reads back as the kept lines and is left alone when none goes |
| Fstab.ParseAfterSet | dasik/lib/actions/btrfs_subvolume_action.py:391-395 | the parser maps the mountpoint to the subvolume exactly when the line's first `subvol=` names it |
| Fstab.OnlyLine | dasik/lib/actions/btrfs_subvol_fstab.py:17-24 | no other line is for the mountpoint or names that subvolume on that filesystem |
| Fstab.SetTwice | dasik/lib/actions/btrfs_subvolume_action.py:391-395 | setting a line twice is setting it once |
| Fstab.OtherMountpointsKept | dasik/lib/actions/btrfs_subvol_fstab.py:17-33 | editing for one subvolume leaves every other mountpoint's parsed subvolume alone, with `subvol=name` and `subvol=/name` lines |
| Fstab.NothingInvented | dasik/lib/actions/btrfs_subvol_fstab.py:17-33 | the dropped mountpoint is no longer parsed and no new one appears |
| Fstab.LineReadsBack | dasik/lib/actions/btrfs_subvolume_action.py:375-377 | the written line is read back with its device, mountpoint and options |
| Fstab.SetThenParse | dasik/lib/actions/btrfs_subvolume_action.py:375-395 | the declared subvolume is parsed back unless the configured options carry a `subvol=` that names another first |
| FstabMeaning.CommentedIff | dasik/lib/actions/btrfs_subvol_state.py:63-65 | a line is a comment exactly when its first character that is no space is `#` |
| FstabMeaning.ForeignAddsNothing | dasik/lib/actions/btrfs_subvol_state.py:59-72 | a comment, or a line that is no btrfs entry, adds nothing to the parsed map wherever it stands |
| FstabMeaning.ForeignInOrder | dasik/lib/actions/btrfs_subvol_fstab.py:17-33 | and an edit keeps all of them in their order |
| FstabMeaning.ForeignKept | dasik/lib/actions/btrfs_subvol_fstab.py:17-33 | each as often as before |
| FstabMeaning.BtrfsLineAdds | dasik/lib/actions/btrfs_subvol_state.py:48-72 | an uncommented btrfs line maps its mountpoint to the value of its first `subvol=`, without leading slashes |
| FstabMeaning.BtrfsLineDroppedIff | dasik/lib/actions/btrfs_subvol_fstab.py:17-33 | an edit drops it exactly when it is for the mountpoint, or names the subvolume, with or without a slash, on the filesystem |
| SubvolState.Diff | dasik/lib/actions/btrfs_subvol_state.py:121-155 | computes the planned changes, declarations first |
| SubvolState.EmptyIffConverged | dasik/lib/actions/btrfs_subvol_state.py:121-155 | a plan is empty exactly when every declared subvolume is mounted and listed where declared and nothing owned and dropped is left |
| SubvolMeaning.MovePlannedIff | dasik/lib/actions/btrfs_subvol_state.py:136-139 | a move is planned exactly for a declaration whose subvolume is mounted elsewhere |
| SubvolMeaning.LinePlannedIff | dasik/lib/actions/btrfs_subvol_state.py:133-135 | a line exactly for one mounted in its place that fstab does not name there |
| SubvolMeaning.FillPlannedIff | dasik/lib/actions/btrfs_subvol_state.py:115-141 | a creation exactly for one that is not mounted and does not exist, an adoption for one that does |
| SubvolMeaning.RemovalPlannedIff | dasik/lib/actions/btrfs_subvol_state.py:143-155 | a removal exactly for an owned, existing, undeclared subvolume of a partition that declares others, not seen at `/` |
| SubvolMeaning.InstallsInOrder | dasik/lib/actions/btrfs_subvol_state.py:122-141 | the installs and moves of a plan stand in the order of the declarations |
| SubvolMeaning.RemovalsLast | dasik/lib/actions/btrfs_subvol_state.py:115-155 | and every removal behind all of them |
| SubvolState.RootShownIff | dasik/lib/actions/btrfs_subvolume_action.py:220-224 | a subvolume is seen at `/` exactly when a row of it there has no later row of it |
| SubvolProbe.Find | dasik/lib/actions/btrfs_subvolume_action.py:193-217 | the two passes: a partition's filesystem is found exactly when its matches are one, by a declared subvolume at its place or else by all names on a filesystem nobody claims |
| SubvolMeaning.FoundByNames | dasik/lib/actions/btrfs_subvolume_action.py:191-214 | a partition none of whose subvolumes is in its place is found by their names, when one filesystem alone mounts them all |
| SubvolProbe.ProbedBy | dasik/lib/actions/btrfs_subvolume_action.py:193-227 | a machine whose mounted filesystems each carry a declared subvolume of their own, and no look-alike of another's, is one the probe shows |
| SubvolApply.BtrfsSubvolumeAction.Install | dasik/lib/actions/btrfs_subvolume_action.py:497-544 | branch by branch, what an install leaves in mounts, lines, subvolumes and commands, for every way its commands turn out |
| SubvolApply.BtrfsSubvolumeAction.Remove | dasik/lib/actions/btrfs_subvolume_action.py:629-684 | the same for a removal: which place it takes, when it is refused, what it leaves when a command fails |
| SubvolApply.BtrfsSubvolumeAction.Locate | dasik/lib/actions/btrfs_subvolume_action.py:630-634 | the place is the mount, else the last mountpoint the shared fstab map gives to the name |
| SubvolApply.BtrfsSubvolumeAction.ApplyEach | dasik/lib/actions/btrfs_subvolume_action.py:713-733 | the loop leaves what the run of its items leaves, and stops at the first refused or failed one |
| SubvolMeaning.InstalledIff | dasik/lib/actions/btrfs_subvolume_action.py:497-544 | exactly when a declaration is carried out, branch by branch, and that it then leaves the declared mount and line |
| SubvolMeaning.RemovedIff | dasik/lib/actions/btrfs_subvolume_action.py:629-684 | exactly when a removal is carried out |
| SubvolMeaning.RefusedChangesNothing | dasik/lib/actions/btrfs_subvolume_action.py:629-684 | what is refused leaves mounts, lines and subvolumes as they were, but for a filled subvolume at whose path files appeared |
| SubvolMeaning.GuardsHold | dasik/lib/actions/btrfs_subvolume_action.py:646-661 | the guards the machine answers hold back every item but a missing line |
| SubvolMeaning.FailedMove | dasik/lib/actions/btrfs_subvolume_action.py:497-544 | a failing move is not begun, or leaves the new line written and the subvolume unmounted |
| SubvolMeaning.FailedFill | dasik/lib/actions/btrfs_subvolume_action.py:497-544 | a failing fill leaves mounts and lines alone; the subvolume exists if its contents arrived or it could not be taken back |
| SubvolMeaning.FailedRemoval | dasik/lib/actions/btrfs_subvolume_action.py:663-684 | a failing removal deletes nothing, drops the line only once the contents are back, and loses the mount only if it could not be mounted again |
| SubvolMeaning.FreeIff | dasik/lib/actions/btrfs_subvolume_action.py:447-489 | a place is free exactly when nothing is mounted there or below and another mounted subvolume of the filesystem contains it |
| SubvolMeaning.VetIff | dasik/lib/actions/btrfs_subvolume_action.py:406-425 | a declaration is accepted exactly when its name is plain and its mountpoint has straight components |
| SubvolRoot.RunNeverUnmountsRoot | dasik/lib/actions/btrfs_subvolume_action.py:713-733 | no run ever unmounts `/` |
| SubvolRoot.RunSparesShownRoot | dasik/lib/actions/btrfs_subvolume_action.py:713-733 | whatever the changes and whatever fails, a subvolume shown at `/` stays there and is never deleted |
| SubvolRoot.RemovalDeletesIff | dasik/lib/actions/btrfs_subvolume_action.py:629-684 | a removal can delete exactly when the place it finds is not `/`, vets, and another mounted subvolume contains it |
| SubvolRoot.RunIsSteady | dasik/lib/actions/btrfs_subvolume_action.py:713-733 | a subvolume mounted at `/` that the guards hold back is never deleted, whatever items are applied |
| SubvolRoot.SparedIff | dasik/lib/actions/btrfs_subvolume_action.py:639-643 | the plans of a configuration spare a subvolume mounted at `/`, whatever is owned and however they turn out, exactly when it is declared or the declarations do not all go through or a removal of it would then be refused by the guards |
| SubvolRoot.SettledSparedIff | dasik/lib/actions/btrfs_subvolume_action.py:639-643 | with nothing left to install: exactly when it is declared or the guards refuse on the machine as probed |
| SubvolRoot.HiddenRootIsDeleted | dasik/lib/actions/btrfs_subvolume_action.py:220-224 | a root mounted again, later, below a declared third mount: the plan is its removal alone, and the apply deletes it |
| SubvolConverge.InstallSettles | dasik/lib/actions/btrfs_subvolume_action.py:497-544 | a declaration carried out is settled |
| SubvolConverge.InstallKeepsSettled | dasik/lib/actions/btrfs_subvolume_action.py:497-544 | and every settled declaration of another name stays settled |
| SubvolConverge.RemoveKeepsSettled | dasik/lib/actions/btrfs_subvolume_action.py:629-684 | a removal leaves every settled declaration of another name settled |
| SubvolConverge.PlanConverges | dasik/lib/actions/btrfs_subvol_state.py:121-155 | with names apart, when every item of a plan is carried out the next plan is empty |
| SubvolConverge.Reconcile | dasik/lib/actions/btrfs_subvolume_action.py:249-260 | plan, apply, plan: with names apart empty unless an item was refused or failed |
| SubvolDiverge.SharedNameDiverges | dasik/lib/actions/btrfs_subvol_state.py:36-42 | two declarations of one name on two filesystems, whatever else is declared and owned: some next plan is not empty |
| SubvolDiverge.OrphanNameDiverges | dasik/lib/actions/btrfs_subvolume_action.py:630-634 | an owned, unmounted subvolume called like a declared one of another filesystem is placed at its mountpoint, and removing it deletes its line |
| SubvolDiverge.ConvergesIff | dasik/lib/actions/btrfs_subvol_state.py:121-155 | every carried-out plan of every regular machine the probe can show, after which it still finds the same filesystems, is followed by an empty one exactly when no name is shared |
| PacmanSections.BodyEnd | dasik/lib/actions/pacman_repos_state.py:103-124 | a body ends after the last directive before the next header |
| PacmanSections.ParseSections | dasik/lib/actions/pacman_repos_state.py:127-150 | computes every section but `[options]`, in file order, losing no directive |
| PacmanSections.FindRanges | dasik/lib/actions/pacman_repos_state.py:247-257 | computes the ranges to remove |
| PacmanSections.RangesSortedDisjoint | dasik/lib/actions/pacman_repos_state.py:247-257 | the ranges are sorted, disjoint, and start at removed headers |
| PacmanSections.KeepOutside | dasik/lib/actions/pacman_repos_state.py:259-269 | one pass over lines and ranges leaves the lines of the sections kept |
| PacmanMeaning.RemovalTakesExactly | dasik/lib/actions/pacman_repos_state.py:220-289 | a removal takes exactly the lines of the named sections, header to last directive, and one blank line directly after each |
| PacmanMeaning.OthersStay | dasik/lib/actions/pacman_repos_state.py:103-124 | no other line goes: no comment and nothing of a neighbour |
| PacmanMeaning.OneBlankEach | dasik/lib/actions/pacman_repos_state.py:247-257 | at most one blank line goes with a header besides its section |
| PacmanMeaning.SectionSays | dasik/lib/actions/pacman_repos_state.py:127-150 | a section has the last `SigLevel`, the last `Include` and every `Server` in order |
| PacmanMeaning.DirectivesUpTo | dasik/lib/actions/pacman_repos_state.py:103-150 | of the directives among its lines up to the next header |
| PacmanMeaning.DirectiveIff | dasik/lib/actions/pacman_repos_state.py:67-71 | a line is a directive exactly when it reads key, spaces, `=`, value |
| PacmanMeaning.HeaderIff | dasik/lib/actions/pacman_repos_state.py:60-64 | a line is a header exactly when it is a name without brackets in brackets |
| PacmanMeaning.CommentSaysNothing | dasik/lib/actions/pacman_repos_state.py:60-64 | a commented line says nothing, whatever follows |
| PacmanTheorems.RemovedParsesTo | dasik/lib/actions/pacman_repos_state.py:220-229 | removal takes exactly the named sections; leftover text changes no neighbour |
| PacmanTheorems.RehomedIsOutsidePlusBlock | dasik/lib/actions/pacman_repos_state.py:219-239 | without the inserted block the output is exactly the input lines outside the ranges, in order |
| PacmanTheorems.RehomedParsesTo | dasik/lib/actions/pacman_repos_state.py:271-289 | the output parses to the kept sections with those of the block right before the first `core` |
| PacmanTheorems.IsBelowCore | dasik/lib/actions/pacman_repos_state.py:158-170 | decides whether the first header of a name lies below the first `[core]` |
| PacmanTheorems.RehomedNeverBelowCore | dasik/lib/actions/pacman_repos_state.py:158-170 | a re-homed section is never below `[core]` |
| PacmanTheorems.RehomedTwice | dasik/lib/actions/pacman_repos_state.py:219-239 | re-homing twice changes nothing |
| PacmanBlocks.RenderBlock | dasik/lib/actions/pacman_repos_state.py:205-216 | computes the lines of one section |
| PacmanBlocks.BlockParsesTo | dasik/lib/actions/pacman_repos_state.py:205-216 | a rendered section parses to itself with trimmed values, without servers next to an include |
| PacmanBlocks.BlockRoundTripIff | dasik/lib/actions/pacman_repos_state.py:205-216 | a section survives rendering exactly when its values are trimmed and it has an include or servers, not both |
| PacmanRender.Parse | dasik/lib/actions/pacman_repos_state.py:127-150 | parses the text |
| PacmanRender.Render | dasik/lib/actions/pacman_repos_state.py:219-289 | refuses exactly on a name declared twice, else renders; `PacmanMeaning.RemovalTakesExactly` says what the rendering removes |
| PacmanRender.ParseAfterRender | dasik/lib/actions/pacman_repos_state.py:219-289 | parsing after rendering is exact: the sections not removed, and what the declared ones say right before the first `core` |
| PacmanRender.ReadBackIff | dasik/lib/actions/pacman_repos_state.py:219-289 | the declared sections themselves are read back exactly when each is trimmed and has an include or servers, not both |
| PacmanRender.NeverBelowCore | dasik/lib/actions/pacman_repos_state.py:158-170 | after rendering no declared name is below `[core]` |
| PacmanRender.RenderIdempotentIff | dasik/lib/actions/pacman_repos_state.py:219-289 | rendering twice equals rendering once exactly when the text ends in a newline, keeps `[core]`, or nothing is declared |
| MountOptions.RootflagsOptionSet | dasik/lib/actions/kernel_cmdline_action.py:48-83 | computes the option set, the last option of a name winning |
| MountOptions.EquivalentIffSameSettings | dasik/lib/actions/kernel_cmdline_action.py:86-99 | two values are equivalent exactly when every option name resolves alike |
| MountOptions.SwapKeepsSettings | dasik/lib/actions/kernel_cmdline_action.py:48-83 | order between options of different names does not matter |
| MountOptions.LaterOptionWins | dasik/lib/actions/kernel_cmdline_action.py:48-83 | an option is overridden by a later one of its name |
| MountOptions.SettingIsLast | dasik/lib/actions/kernel_cmdline_action.py:48-83 | a value has a setting for exactly the names of its options, the last of each |
| MountOptions.NormalizeIff | dasik/lib/actions/kernel_cmdline_action.py:48-83 | two options of one name are one setting exactly when they are one text, two spellings of one compression level, or one subvolume with and without a slash |
| KernelCmdline.Merge | dasik/lib/actions/kernel_cmdline_action.py:372-398 | the explicit parameters, then the derived ones whose key they do not claim |
| KernelCmdline.RepeatableNeverLost | dasik/lib/actions/kernel_cmdline_action.py:353-395 | a derived repeatable parameter is dropped only when the identical one is explicit |
| KernelMeaning.MergedIff | dasik/lib/actions/kernel_cmdline_action.py:353-398 | a parameter is merged exactly when it is explicit, or derived and no explicit one of its name, or of `rw` and `ro`, takes its place; a repeatable one gives way only to itself |
| KernelMeaning.MergedInOrder | dasik/lib/actions/kernel_cmdline_action.py:353-398 | explicit parameters come first in their order, derived ones after them in theirs |
| KernelCmdline.DesiredTokens | dasik/lib/actions/kernel_cmdline_action.py:471-479 | the words of the merged entries, each once |
| Text.DedupedInOrder | dasik/lib/actions/kernel_cmdline_action.py:471-479 | in the order of their first occurrences |
| KernelConvergence.DiffKeepsOnePerKey | dasik/lib/actions/kernel_cmdline_action.py:528-572 | comparing an equivalent live `rootflags=` keeps one token per root key |
| KernelConvergence.PlanItems | dasik/lib/actions/kernel_cmdline_action.py:600-611 | what a plan installs and removes, token by token; never a root-defining removal |
| KernelMeaning.RootflagsPlannedIff | dasik/lib/actions/kernel_cmdline_action.py:528-611 | a desired `rootflags=` is planned exactly when the entry does not carry a single one that says the same, option by option |
| KernelMeaning.OthersPlannedIff | dasik/lib/actions/kernel_cmdline_action.py:600-611 | any other token is planned exactly when it is desired and not on the entry |
| KernelMeaning.OthersRemovedIff | dasik/lib/actions/kernel_cmdline_action.py:509-526 | a token is removed exactly when it is owned, not desired, and none of the five names that say where the root is |
| KernelMeaning.StepAsDesired | dasik/lib/actions/kernel_cmdline_action.py:698-729 | after a step every desired token is on the entry, or a single `rootflags=` that says the same |
| KernelMeaning.ForeignStays | dasik/lib/actions/kernel_cmdline_action.py:698-729 | a token that is not owned, and that no desired one takes the place of, stays |
| KernelMeaning.DroppedGoes | dasik/lib/actions/kernel_cmdline_action.py:698-729 | an owned token that is no longer desired goes |
| KernelMeaning.StepInOrder | dasik/lib/actions/kernel_cmdline_action.py:698-729 | a step moves nothing: what stays keeps its order and number, ahead of what is new, which is planned and written once |
| KernelConvergence.DesiredIsInstalled | dasik/lib/actions/kernel_cmdline_action.py:698-729 | after an apply every desired token is on the entry |
| KernelConvergence.OneRootflagsLeft | dasik/lib/actions/kernel_cmdline_action.py:698-729 | and of `rootflags=` only the compared one |
| KernelConvergence.SecondPlanSilent | dasik/lib/actions/kernel_cmdline_action.py:600-636 | the second plan is empty and the manifest names only tokens really on the entry |
| KernelConvergence.SecondPlanSilentIff | dasik/lib/actions/kernel_cmdline_action.py:600-636 | for any later manifest: empty exactly when it owns nothing else removable |
| KernelConvergence.ConvergesIff | dasik/lib/actions/kernel_cmdline_action.py:528-636 | plan, apply, plan is silent from every entry and manifest exactly when there is one desired token per root key |
| KernelConvergence.MergeKeepsOnePerKey | dasik/lib/actions/kernel_cmdline_action.py:372-398 | single-token entries without a conflict among themselves merge to one token per root key |
| KernelConvergence.TwoTokenEntryDiverges | dasik/lib/actions/kernel_cmdline_action.py:372-398 | an explicit entry of two tokens can keep both `rw` and `ro`, and never converge |
| KernelConvergence.StepKeepsKey | dasik/lib/actions/kernel_cmdline_action.py:509-526 | one plan and apply keep a root key on the entry |
| KernelConvergence.StepKeepsRwRo | dasik/lib/actions/kernel_cmdline_action.py:509-526 | and one of `rw` and `ro` |
| KernelConvergence.RootNeverLost | dasik/lib/actions/kernel_cmdline_action.py:509-526 | over any run of any configs and manifests an entry that carries a root key always carries one |
| KernelConvergence.InstallLeavesExactlyOne | dasik/lib/actions/kernel_cmdline_action.py:698-729 | installing a root-keyed token leaves exactly one token of its key, and installing `rw` or `ro` exactly one of the two |
| KernelAction.NewTokenList | dasik/lib/actions/kernel_cmdline_action.py:698-729 | computes the new tokens |
| KernelAction.KernelCmdlineAction.Reconcile | dasik/lib/actions/kernel_cmdline_action.py:600-740 | plan, apply and record on the line of the entry: with one desired token per root key the line carries what is desired and the next plan is silent |
| TopoSort.OrderedIsAcyclic | dasik/lib/actions/aur_installer.py:309-332 | a graph with a dependencies-first order has no cycle |
| TopoSort.Sorter.Visit | dasik/lib/actions/aur_installer.py:316-328 | extends the order dependencies first, or returns a walk that ends where it has been |
| TopoSort.Sorter.Sort | dasik/lib/actions/aur_installer.py:309-332 | every node once with its dependencies before it, or a real cycle; a cycle is reported exactly when there is one |
| AurResolve.ResolveCandidates | dasik/lib/actions/aur_installer.py:239-278 | the dependencies of a node to build from the AUR, and which of them are new |
| AurResolve.BuildDepsIff | dasik/lib/actions/aur_installer.py:239-278 | a package's build dependencies are known exactly when each of its missing ones can be asked for and is in the AUR or provided by one package |
| AurResolve.UnclearProviderAborts | dasik/lib/actions/aur_installer.py:255-272 | several providers, or none, of a needed dependency outside the AUR abort the run |
| AurResolve.ResolveGraph | dasik/lib/actions/aur_installer.py:203-237 | ends with a closed graph over exactly the needed packages, declared and discovered apart, or aborts exactly when a needed one cannot be resolved |
| AurResolve.Builder.BuildAll | dasik/lib/actions/aur_installer.py:189-201 | each build finds all its dependencies built or satisfied, what is satisfied is not built, each discovered build is marked as a dependency, and it stops only at a command that fails |
| AurResolve.InstallViaResolution | dasik/lib/actions/aur_installer.py:189-201 | the three stages together, from declared packages to the log of builds; a cycle is reported exactly when all resolves and something needed needs itself, as a chain of needed packages that returns into itself |
| AurMemo.Batches | dasik/lib/actions/package_resolver.py:144-157 | the names in order, in nonempty batches within the limit or of one name, cut as late as possible |
| AurMemo.QueryLength | dasik/lib/actions/package_resolver.py:162-168 | the real query is four characters per name longer than counted, less one |
| AurMemo.StaysUnderIff | dasik/lib/actions/package_resolver.py:50-51 | with names of at least n quoted characters, every requested batch of more than one name stays under the documented cap exactly when n is at least 9 |
| AurMemo.BatchesOutgrow | dasik/lib/actions/package_resolver.py:144-157 | 233 valid, distinct names of eight characters come back as one batch whose request is over the cap |
| AurMemo.PackageResolver.AskBatch | dasik/lib/actions/package_resolver.py:198-207 | a request that succeeds memoizes both outcomes for its names, a failing one nothing |
| AurMemo.PackageResolver.AurDepends | dasik/lib/actions/package_resolver.py:185-211 | the answer of a direct query, the memo agrees with the AUR, no answered name is asked again, memoized names ask nothing |
| LuksHeader.CountReadBack | dasik/lib/actions/luks_token_action.py:156-166 | the count read from a dump is the number of tokens of the kind |
| LuksHeader.SlotsReadBack | dasik/lib/actions/luks_token_action.py:168-221 | the slots read from a dump are the kind's slots, and those left over are the passphrases' |
| LuksHeader.SlotsOf | dasik/lib/actions/luks_token_action.py:168-191 | computes the slots of a kind from a dump |
| LuksHeader.Slots | dasik/lib/actions/luks_token_action.py:194-216 | computes every slot and the token slots from a dump |
| LuksHeader.NoRefsNoSlots | dasik/lib/actions/luks_dump.py:24-28 | a dump without the tokens' keyslots shows no slot of any kind |
| LuksToken.Plan | dasik/lib/actions/luks_token_action.py:263-325 | computes the plan from the dumps that can be read, and raises exactly when an owned item of an open volume has no number; `LuksMeaning` says what is in it |
| LuksMeaning.InstallPlannedIff | dasik/lib/actions/luks_token_action.py:263-291 | the i-th key of a kind is planned exactly when it is declared and the header cannot be read or holds fewer |
| LuksMeaning.RemovalPlannedIff | dasik/lib/actions/luks_token_action.py:293-325 | an owned item's removal exactly when nobody declares it, the header holds as many keys, and a passphrase remains |
| LuksMeaning.InstallsInOrder | dasik/lib/actions/luks_token_action.py:268-291 | the installs of a plan stand in the order of the declarations, and within one by their numbers |
| LuksMeaning.RemovalsLast | dasik/lib/actions/luks_token_action.py:263-325 | and every removal behind them |
| LuksMeaning.PlanEmptyIff | dasik/lib/actions/luks_token_action.py:263-325 | a plan is empty exactly when every declared key is enrolled and nothing owned is to go |
| LuksToken.IndexReadsBack | dasik/lib/actions/luks_token_action.py:125-133 | the number written into an item is read back |
| LuksToken.NeverBoth | dasik/lib/actions/luks_token_action.py:263-325 | for one volume and kind a plan never installs and removes, when the owned items are written as dasik writes them |
| LuksToken.RemovalsBounded | dasik/lib/actions/luks_token_action.py:293-325 | a plan removes at most the keys beyond the declared count |
| LuksToken.NeverTakesDeclaredIff | dasik/lib/actions/luks_token_action.py:293-325 | no plan over any declarations a configuration can hold and any headers removes a declared key exactly when no owned item is miswritten |
| LuksToken.MiswrittenTakesDeclared | dasik/lib/actions/luks_token_action.py:310-314 | any item not written as dasik writes its number, which its kind can declare, takes a declared key in some plan |
| LuksToken.DeclaredAtMost | dasik/lib/models/disk_model.py:202-215 | no number above one of TPM2 or above 31 of FIDO2 is declared |
| LuksApply.WipeOne | dasik/lib/actions/luks_token_action.py:357-371 | wiping a token's slot takes that slot only, and no passphrase |
| LuksApply.WipeKind | dasik/lib/actions/luks_token_action.py:357-371 | wiping a kind leaves none of its keys, all of the others and every passphrase |
| LuksApply.CandidatesStand | dasik/lib/actions/luks_token_action.py:357-371 | as long as every removal of the kind could read a dump: whatever dump of this apply is read, the slots it leaves to choose from still stand, and there is one |
| LuksApply.KeptRemove | dasik/lib/actions/luks_token_action.py:332-371 | one removal names one standing slot, never one wiped before, as long as dumps are read; once one is not, the kind is gone |
| LuksApply.LuksTokenAction.Wipe | dasik/lib/actions/luks_token_action.py:357-371 | names the highest slot of the kind not wiped in this apply, or the kind when the dump shows none, cannot be read, or hides the tokens' keyslots |
| LuksApply.LuksTokenAction.Apply | dasik/lib/actions/luks_token_action.py:332-355 | it stops only at a command that fails or an item without a number or open volume; wherever it stops the passphrases all still open the volume, each installation enrolled one key unless its kind was skipped, nobody who skipped is asked again, no slot is wiped twice, and a kind was wiped whole exactly when a removal of it could not read the dump |
| LuksRun.PlanIsBatch | dasik/lib/actions/luks_token_action.py:263-325 | every plan is a batch whose removals can all be carried out |
| LuksRun.RunNeverBelowDeclaredIff | dasik/lib/actions/luks_token_action.py:332-371 | at any point of a run a volume keeps all its passphrases, and its declared number of keys exactly when every removal of the kind could read the dump or there was nothing to keep |
| LuksRun.BlindRemovalTakesAll | dasik/lib/actions/luks_token_action.py:145-153 | the input: one surplus key, one planned removal, an unreadable dump, and no key of the kind is left |
| LuksRun.ShrinkIsExactIff | dasik/lib/actions/luks_token_action.py:357-365 | with the surplus owned, a complete run ends with exactly the declared number exactly when every removal of the kind could read the dump or none is declared |
| LuksMeaning.GrowIsExact | dasik/lib/actions/luks_token_action.py:327-355 | a complete run that nobody skips ends with exactly the declared number when no more were enrolled |
| LuksRun.NextPlanSilent | dasik/lib/actions/luks_token_action.py:263-325 | and the next plan says nothing about that kind of that volume |
| LuksRun.Reconcile | dasik/lib/actions/luks_token_action.py:263-371 | plan from the headers that can be read, then apply: the guard checked once at plan time holds after the whole apply, unreadable dumps included |
| McpServers.Desired | dasik/lib/actions/mcp_servers_action.py:160-177 | expands a block: under every item the last entry that registers it |
| McpServers.LastEntryWins | dasik/lib/actions/mcp_servers_action.py:160-177 | the last entry that registers an item decides |
| McpServers.ImportState | dasik/lib/actions/mcp_servers_action.py:465-535 | the captured block expands to exactly what was scanned, in normal form; the inverse holds exactly on well-formed registrations |
| McpServers.CaptureExpands | dasik/lib/actions/mcp_servers_action.py:476-503 | no user gets another's agent and no agent another's server |
| McpServers.NormalIff | dasik/lib/actions/mcp_servers_action.py:48-65 | a registration is unchanged by capture and expansion exactly when it is well-formed |
| McpServers.ItemTextInjective | dasik/lib/actions/mcp_servers_action.py:157-158 | an item's text says which user, agent and name it is |
| McpServers.SilentIff | dasik/lib/actions/mcp_servers_action.py:218-242 | a plan is silent exactly when every declared registration is there as declared and nothing undeclared is owned |
| McpServers.SyncThenPlan | dasik/lib/actions/mcp_servers_action.py:218-242 | after a capture the plan is silent exactly when all registrations are well-formed and all owned ones still registered |
| RegistriesFile.WrittenReadsBackIff | dasik/lib/actions/container_registries_action.py:193-205 | below any comment lines, the written list reads back exactly when every entry is nonempty and free of `"` and `]` |
| RegistriesFile.ListedClean | dasik/lib/actions/container_registries_action.py:114-130 | the parser yields no other entries |
| Registries.PlanOfSilentIff | dasik/lib/actions/container_registries_action.py:132-168 | a plan is silent exactly when the declared entries are listed in order and nothing owned is undeclared |
| Registries.ContainerRegistriesAction.Merge | dasik/lib/actions/container_registries_action.py:182-191 | the declared order, then the listed entries neither declared nor removed |
| Registries.ContainerRegistriesAction.Reconcile | dasik/lib/actions/container_registries_action.py:132-205 | after apply the file parses to that list, and the next plan is empty exactly when the file can carry every declared entry |
| SubidLines.NewLineReadsBack | dasik/lib/actions/containers_action.py:150-156 | a new line reads back as its user and its range |
| SubidMaps.NextStart | dasik/lib/actions/containers_action.py:160-173 | the next start lies above every range |
| SubidMaps.HighestIsLeast | dasik/lib/actions/containers_action.py:160-173 | and is the first id or the end of a range |
| SubidMaps.RangesAdjoin | dasik/lib/actions/containers_action.py:148-156 | each new user gets the range after the one before |
| SubidMaps.ApartMeansNoSharedId | dasik/lib/actions/containers_action.py:138-145 | two lines are apart exactly when no id lies in both ranges |
| SubidMaps.AddMaps | dasik/lib/actions/containers_action.py:138-158 | computes the text of one file after adding, from its text before |
| SubidMaps.AddReadsBack | dasik/lib/actions/containers_action.py:183-187 | the written text reads back as the new lines |
| SubidMaps.AddKeepsDisjoint | dasik/lib/actions/containers_action.py:138-158 | adding ranges keeps all ranges disjoint |
| SubidMaps.AddKeepsOldLines | dasik/lib/actions/containers_action.py:138-189 | the old lines that are not blank stay in order ahead of the new ones |
| SubidMaps.AddGivesAsListed | dasik/lib/actions/containers_action.py:138-158 | a user who had no line gains one for each time it is listed; nobody else gains or loses one |
| SubidMaps.OneEachIff | dasik/lib/actions/containers_action.py:138-158 | everybody new gets exactly one line exactly when nobody new is listed twice |
| SubidMaps.DropTakesExactly | dasik/lib/actions/containers_action.py:175-181 | dropping takes every line of the listed users and no other, and keeps ranges disjoint |
| SubidMaps.ContainersAction.Reconcile | dasik/lib/actions/containers_action.py:111-136 | plan, apply, plan over the texts of both files: disjoint, everybody declared mapped once, no create left |
| SafeLabel.NumberedInjective | dasik/lib/actions/disk_partition_action.py:792-796 | no two turns of the counter try the same label |
| SafeLabel.TriedBounded | dasik/lib/actions/disk_partition_action.py:793-796 | so the used labels bound the number of turns |
| SafeLabel.Search | dasik/lib/actions/disk_partition_action.py:791-797 | ends whatever is used, with the least counter whose label is unused |
| SafeLabel.Choose | dasik/lib/actions/disk_partition_action.py:781-797 | the first acceptable candidate, else the base with the least counter that is unused; at most 36 allowed characters |
| SafeLabel.BaseIs | dasik/lib/actions/disk_partition_action.py:781-792 | a valid role is its own base, one without an allowed character becomes `part`, other characters are left out |
| SafeLabel.LabelAll | dasik/lib/actions/disk_partition_action.py:850-912 | each partition of a disk gets the label that is chosen among those not given before; all are pairwise distinct and valid |

## Left out

- SubvolFill.FillSubvolume: a directory that cannot be listed (`_has_content` answers no) is taken for an empty one by the code and cannot occur in the model; owners, modes and ACLs are not modelled.
- SubvolDrop.Remove: writes by other processes during a removal, which the code does not exclude either; a failed command other than the delete changes nothing unless it was interrupted.
- SubvolApply.BtrfsSubvolumeAction.ApplyEach: the filesystems found at the start of a run are kept for all its items, where the code looks for them again before each (`SubvolProbe` models the search), and the guards that read the machine (busy processes, nested subvolumes, foreign mounts, free space) by an arbitrary refusal.
- SubvolRoot.SparedIff: taken over configurations that do not declare the subvolume at a place other than `/`, and machines on which no two mounts share a place and only the root is mounted twice; a root declared elsewhere is moved there on request.
- SubvolDiverge.ConvergesIff: taken over machines with one mount per subvolume and place and fstab lines whose `subvol=` options name one subvolume, over declarations that vet, one per subvolume and mountpoint, without a `subvol=` among their options, and over runs after which the probe finds the filesystems it found before.
- SubvolProbe.Find: every disk counts as converged, and the label of a row is that of the filesystem it is on.
- SubvolState.Diff: the live map per label is one machine-wide record keyed by label and name.
- Fstab.ParseFstabSubvols: lines are cut at `\n` only, words at ASCII whitespace; the atomic replacement of the file is not modelled.
- PacmanRender.Render: the same holds for its lines; `options_block`, `third_party`, `section_of` and the gpg readers are left out as simple or external.
- KernelAction.KernelCmdlineAction.Reconcile: which boot entry file is read, the rewriting of GRUB's file and `grub-mkconfig`; the entry read is taken to be the one written. Deriving parameters from disks, CPU, splash and AppArmor is an input.
- KernelCmdline.Merge: parameters are given; their capture by sync may come back reordered.
- AurResolve.InstallViaResolution: cloning, `makepkg`, pacman and the helper path are arbitrary outcomes; the AUR is a constant finite world.
- AurMemo.PackageResolver.AurDepends: the AUR is constant and its answers well-formed; `aur_providers` and `repo_provides` have the same memo and are left out.
- LuksApply.LuksTokenAction.Apply: one device per volume, open throughout; a failing `systemd-cryptenroll` changes nothing; prompting, policies and passwords of `_enrol` are one of added, skipped or failed; slots are sets, so the ascending sort is not modelled.
- LuksToken.Plan: a dump that shows only part of the tokens, as an older cryptsetup with token plugins writes it, is modelled for the removals of an apply, not for the counts of a plan.
- LuksToken.IndexReadsBack: an item text is given cut at its first colon and its first `#`; a volume name with a colon is not modelled.
- LuksHeader.SlotsReadBack: a foreign token type whose name ends like `systemd-tpm2` or `systemd-fido2` is excluded.
- McpServers.ImportState: the order of the captured entries, which never matters as no two register one item; running the agents' commands and `failed_items` are left out.
- Registries.ContainerRegistriesAction.Apply: deleting or writing the file succeeds.
- Text.ParseInt: non-ASCII digits, which Python's `int` accepts.
- SubidMaps.ContainersAction.Reconcile: user names holding a colon or a line break; files that cannot be written.
- SafeLabel.Choose: beyond ten to the thirty-fifth used labels the length bound is not claimed; the slice with a negative bound is modelled.
- SafeLabel.LabelAll: partitions that cannot be described are skipped before; sizes, types and mount options are left out.
- Partition size arithmetic, formatting, the reconciler, state and generation stores, and the other single-file actions: external behaviour or single-branch claims.
