# New Player Protection, modelled in Dafny

The plugin keeps new players of an ARK server out of harm: every known player has a record with a
start time, a level and a protection flag; a timer takes the flag away from a whole tribe as soon as
one of its members is too old or too strong; commands give it, take it and set tribes to PVE; a
damage hook asks the flags whether a hit on a structure counts. Around it stand the libraries of the
server API: hook chains, a timer scheduler, permission groups stored as text, bit fields of foreign
memory and the merging of name lists.

The project models this state machine and these libraries and proves what holds over whole runs.
`dafny verify dfyconfig.toml` checks everything.

## How it is laid out

| file | content |
|---|---|
| `Options.dfy`, `Time.dfy` | optional values; ticks, truncating `duration_cast`, the "ready" gate and its rate limit |
| `Names.dfy`, `NameLists.dfy` | text without case, text order, lists of names stored with commas |
| `Players.dfy`, `Sweep.dfy` | the records; the expiry sweep as a closure over tribes |
| `Vectors.dfy` | `erase(remove(..., *iter), ...)` with its aliased value |
| `PveTribes.dfy` | the PVE lists and their table |
| `Protection.dfy` | the whole state, every step as a function, runs |
| `Updates.dfy`, `Commands.dfy`, `Entries.dfy` | what each step leaves behind, over records, lists, cache and configuration alone |
| `Invariants.dfy`, `TribePolicy.dfy`, `Lifetime.dfy`, `Restarts.dfy`, `Grants.dfy`, `Session.dfy`, `Durability.dfy` | what runs keep |
| `Plugin.dfy`, `Damage.dfy`, `Status.dfy` | the loops of the source, proved to compute those steps |
| `Timestamps.dfy`, `PlayerTable.dfy` | the Players table as text, save and restart |
| `Hooks.dfy`, `Scheduler.dfy`, `Permissions.dfy`, `BitFields.dfy`, `NameMerge.dfy` | the libraries |

Time is a whole number of 100 ns ticks and one step reads the clock once (`Status` twice). What the
game knows (team, level, whether a player lives, whether a structure is exempt, group membership at
login) enters a step as an argument. The seed-dependent default team of a login is such an argument
too. Records are values in sequences that the methods reassign; the source shares them through
`shared_ptr`, and no two list entries share one.

Where the code leaves something open the model follows what it does in practice:

* The search predicate of `IsTribeProtected` returns nothing for an admin
  (NewPlayerProtectionHooks.h:86-92); it is taken as false.
* The save loop walks a list that its callee clears (NewPlayerProtectionHooks.h:307-310, 226); it is
  taken to walk the list as it was when the loop began.
* `SetHookInternal` records a hook before MinHook has accepted it (Lib/Core/Private/Hooks.cpp:37-49).
  MinHook is modelled as refusing a target that already has a hook, and acceptance is proved, not
  assumed, whenever the detour is not registered yet.
* `FString::operator==` ignores case (Lib/Core/Public/API/UE/Containers/FString.h:995), so group and
  permission names are compared that way, for ASCII letters.

## Properties that turned out false, and when they hold

* The aliased `erase(remove(..., *iter), ...)` does not in general remove the found value and nothing
  else (`Vectors.ErasedAliasedCounterexample`); `Vectors.ErasedAliasedExact` gives the exact condition,
  which duplicate-free lists meet.
* AddProtection does not in general give the requested hours: the shift accumulates from member to
  member (`Grants.AddedHoursCounterexample`), and its sum leaves 64 bits at some 256 million hours
  (`Grants.OverflowCounterexample`). `Grants.RequestedAge` gives the exact condition on the requested
  hours, the configured hours, the size of the tribe and the clock; `Grants.GrantableClosed` is its
  closed form for configured hours below 128 million.
* A protection that an update has taken away does not stay away for good: a restart gives it back when
  no save has come between (`Restarts.RestartCounterexample`). `Restarts.NextUnflaggedIff` says for
  every event exactly when it gives protection back, `Restarts.RunUnflaggedIff` for every run;
  `Restarts.SavedLossIsFinal` says that a saved loss outlasts every restart that keeps the player.
* The existential scan for a protected tribe can differ from "all members are flagged" between updates:
  a login, a logout or a restart can bring a record with another flag among the members.
  `TribePolicy.NextUniformIff` gives the exact condition for each event before it happens,
  `TribePolicy.RunUniformIff` for whole runs, and `TribePolicy.ScanIsPolicySinceUpdate` concludes that
  scan and policy agree from an update on while these conditions are met.
* A name list gains the appended name only if the name is not empty and has no comma
  (`NameLists.AppendIsExact`, `Permissions.CommaNameCounterexample`).
* Merged name lists are not always ascending and can hold a name twice
  (`NameMerge.RepeatedNameCounterexample`); they are strictly ascending exactly under the condition of
  `NameMerge.MergeSortedIff`. For freedom from repeats alone that condition is sufficient
  (`NameMerge.StrictHasNoRepeats`) but not necessary (`NameMerge.NoRepeatsWithoutOrder`).
* A save followed by a restart can bring back rows of players that had left memory;
  `PlayerTable.SaveThenRestart` gives the exact condition, and `PlayerTable.EveryRestartIsExact`
  shows that it is met in every run while the cutoff day does not move back.
* Setting a detour that is already registered breaks the order of calls (`Hooks.SetTwiceLoops`);
  `Hooks.SetHookKeepsChainsIff` says that nothing else does.

## Model

| member | source | states |
|---|---|---|
| `Time.DueExactly` | NewPlayerProtectionHooks.h:553-555 | a gate that compares truncated seconds with 0 opens exactly when less than one second is left |
| `Time.ReadySpan` | NewPlayerProtectionHooks.h:546-567 | `k` ready answers of a gate span more than `(k-1)(interval-1)` seconds, whatever the calls in between |
| `Sweep.SweepIsTribeClosure` | NewPlayerProtectionHooks.h:126-178 | after a sweep a non-admin is flagged iff every non-admin of the tribe was flagged, under the level limit and had a full second left; nothing else changes |
| `Sweep.SweepCatchesUp` | NewPlayerProtectionHooks.h:126-178 | an earlier sweep never changes the outcome of a later one; at equal instants: idempotence |
| `Sweep.SweepIgnoresOrder` | NewPlayerProtectionHooks.h:134-177 | the result does not depend on the order of the list |
| `Sweep.ResetForgetsFlags` | NewPlayerProtectionCommands.h:1158-1175 | a reload recomputes protection from ages and levels alone, with no trace of old flags |
| `Plugin.NewPlayerProtection.RemoveExpiredTribesProtection` | NewPlayerProtectionHooks.h:126-178 | the single nested pass, which tests flags it has itself changed, computes that closure on both lists |
| `Plugin.NewPlayerProtection.SweepRound` | NewPlayerProtectionHooks.h:134-177 | one round keeps: the lists are the old ones cleared for exactly the tribes found spent so far |
| `Plugin.NewPlayerProtection.ClearMembers` | NewPlayerProtectionHooks.h:153-162 | the inner loop clears exactly the non-admins of the tribe |
| `Plugin.NewPlayerProtection.ClearOnlineMembers` | NewPlayerProtectionHooks.h:165-174 | the inner loop clears exactly the online non-admins of the id or the tribe |
| `Plugin.NewPlayerProtection.IsTribeProtected` | NewPlayerProtectionHooks.h:74-107 | true iff the id is above 100000 and the tribe is in the PVE list or has a flagged non-admin record |
| `Plugin.NewPlayerProtection.IsPlayerProtected` | NewPlayerProtectionHooks.h:180-197 | true iff the player is online, no admin and flagged in the online list |
| `Plugin.NewPlayerProtection.AddNewPlayer` | NewPlayerProtectionHooks.h:483-495 | appends a level 1, flagged record unless the id is known |
| `Plugin.NewPlayerProtection.AddOnlinePlayer` | NewPlayerProtectionHooks.h:497-529 | copies the full record into the online list, touching its last login, unless already online |
| `Plugin.NewPlayerProtection.HandleNewPlayer` | NewPlayerProtectionHooks.h:250-277 | the login step on lists and cache, keeping the invariant |
| `Plugin.NewPlayerProtection.RemovePlayer` | NewPlayerProtectionHooks.h:531-544 | removes exactly the player's online entry |
| `Plugin.NewPlayerProtection.HandleLogout` | NewPlayerProtectionHooks.h:279-287 | the logout step, keeping the invariant |
| `Plugin.NewPlayerProtection.UpdateLevelAndTribe` | NewPlayerProtectionHooks.h:569-596 | a player whom the game reports gets the reported level and tribe in both lists, a dead player keeps what is there |
| `Plugin.NewPlayerProtection.UpdateTimer` | NewPlayerProtectionHooks.h:608-636 | a due tick refreshes every online player and cached group list and then sweeps; another tick does nothing |
| `Plugin.NewPlayerProtection.IsNextMessageReady` | NewPlayerProtectionHooks.h:546-567 | answers the gate of the player and moves that player's deadline only |
| `Plugin.NewPlayerProtection.DisableProtection` | NewPlayerProtectionCommands.h:9-46 | clears the whole team exactly under the five guards |
| `Plugin.NewPlayerProtection.RemoveTribeProtection` | NewPlayerProtectionCommands.h:276-313 | clears the tribe iff a flagged record exists, and reports whether the tribe has a record and whether it has a flagged one |
| `Plugin.NewPlayerProtection.CanGrant` | NewPlayerProtectionCommands.h:494-517 | finds out whether the tribe has a non-admin record and all of them are below MaxLevel |
| `Plugin.NewPlayerProtection.GrantPlayers` | NewPlayerProtectionCommands.h:519-537 | the loop with `now +=` gives the `k`-th member the start `now + k * delta` |
| `Plugin.NewPlayerProtection.GrantOnlinePlayers` | NewPlayerProtectionCommands.h:539-553 | the second loop counts on from there |
| `Plugin.NewPlayerProtection.ResetTribeProtection` | NewPlayerProtectionCommands.h:390-429 | every non-admin of an eligible tribe is flagged and starts now, in both lists |
| `Plugin.NewPlayerProtection.AddTribeProtection` | NewPlayerProtectionCommands.h:514-553 | the accumulating grant with the shift converted as the source converts it |
| `Plugin.NewPlayerProtection.ResetPlayerProtection` | NewPlayerProtectionCommands.h:1158-1175 | raises every flag in both lists and sweeps |
| `Plugin.NewPlayerProtection.ReloadConfig` | NewPlayerProtectionCommands.h:1190-1196 | takes over a configuration that could be read, then resets protection |
| `Plugin.NewPlayerProtection.EraseTribe` | NewPlayerProtectionCommands.h:947-957 | the erase idiom on a tribe list |
| `Plugin.NewPlayerProtection.SetPveTribe` | NewPlayerProtectionCommands.h:920-1008 | console and RCON SetPVE, with their different notions of a known tribe |
| `Plugin.NewPlayerProtection.UpdatePveTribe` | NewPlayerProtectionHooks.h:215-248 | the tribe's row gets the new value and no other row changes; a tribe still protected leaves the lists alone; after a removal nothing is pending and the PVE tribes are the protected tribes of the table without this one |
| `Plugin.NewPlayerProtection.SavePve` | NewPlayerProtectionHooks.h:302-310 | the two save loops as one closed form |
| `Plugin.NewPlayerProtection.SavePlayers` | NewPlayerProtectionHooks.h:297-300 | the loop replaces the row of every record in memory and no other |
| `Plugin.NewPlayerProtection.SaveTheWorld` | NewPlayerProtectionHooks.h:289-318 | every record in memory replaces its row; then the PVE lists |
| `Plugin.NewPlayerProtection.AddPlayerFromDB` | NewPlayerProtectionHooks.h:466-481 | appends the record unless the id is known |
| `Plugin.NewPlayerProtection.LoadPlayers` | NewPlayerProtectionConfig.h:96-107 | memory holds exactly the selected rows in key order |
| `Plugin.NewPlayerProtection.RestartServer` | NewPlayerProtectionConfig.h:208-212 | a new process: lists from the tables, nobody online, keeping the invariant |
| `Invariants.RunValid` | NewPlayerProtectionHooks.h:250-287 | in every run of logins, logouts, ticks, commands, saves and restarts: ids are unique, every online record has an equal full record, the cache covers exactly the online players, flags are 0 or 1, PVE lists agree with their table |
| `Invariants.NextValid` | NewPlayerProtectionHooks.h:483-596 | each single step keeps that invariant |
| `Invariants.ProtectedPlayerByFullRecord` | NewPlayerProtectionHooks.h:180-197 | so the scan of the online list answers what the full record says |
| `Invariants.WhoIsProtected` | NewPlayerProtectionHooks.h:180-197 | by id: protected iff online, no admin and flagged in the full list |
| `Invariants.AddBreaksStartTimes` | NewPlayerProtectionCommands.h:535-551 | a member's two start times agree after a grant iff the shift is zero |
| `Updates.WhoIsAdmin` | NewPlayerProtectionHooks.h:24-41 | an id is an admin iff admins are to be ignored and the cached groups name the configured group, without regard to case |
| `Updates.SweepDecides` | NewPlayerProtectionHooks.h:126-178 | after a sweep a non-admin is flagged iff every non-admin record of the tribe was flagged, below MaxLevel and a full second short of HoursOfProtection |
| `Updates.SweepDecidesOnline` | NewPlayerProtectionHooks.h:165-174 | the same of the online record, decided by the full list |
| `Updates.SweepFrame` | NewPlayerProtectionHooks.h:126-178 | a sweep changes nothing but flags of non-admins |
| `Updates.EarlyTick` | NewPlayerProtectionHooks.h:608-614 | a tick a second or more before the deadline changes nothing |
| `Updates.UpdateFrame` | NewPlayerProtectionHooks.h:608-636 | an update renews the cached groups of everyone in the cache and sets the next update; only the lists, the cache and this time change |
| `Updates.UpdateTakesOver` | NewPlayerProtectionHooks.h:569-596 | after an update the full record of an online player whom the game reports has the reported tribe and level, every other record its own; all else but the flag stays |
| `Updates.UpdateTakesOverOnline` | NewPlayerProtectionHooks.h:569-596 | the same of the online records |
| `Updates.UpdateDecides` | NewPlayerProtectionHooks.h:608-636 | by the new groups, tribes and levels: an admin keeps the flag, a non-admin is flagged iff every non-admin of the tribe was flagged and is under both limits |
| `Updates.UpdateDecidesOnline` | NewPlayerProtectionHooks.h:608-636 | an online record has the flag of the full record |
| `Updates.SightedAtLimit` | NewPlayerProtectionHooks.h:583-595 | one non-admin reported at or above MaxLevel leaves no non-admin of the reported tribe flagged in either list |
| `Updates.ReloadDecides` | NewPlayerProtectionCommands.h:1158-1196 | after a reload an admin is flagged, a non-admin iff all non-admins of the tribe are under the limits then in force; a file that cannot be opened changes neither configuration nor next update |
| `Updates.ReloadDecidesOnline` | NewPlayerProtectionCommands.h:1158-1196 | an online record gets the flag of the full record and nothing else |
| `Commands.RemoveTakesAll` | NewPlayerProtectionCommands.h:276-313 | after RemoveProtection nobody of the tribe is flagged in either list, all other records are equal, and unless PVE the tribe is unprotected |
| `Commands.DisableDecides` | NewPlayerProtectionCommands.h:9-46 | Disable does exactly that for a living leader, online, no admin and flagged in the full list, when allowed and not PVE, and otherwise nothing |
| `Commands.GrantRefused` | NewPlayerProtectionCommands.h:494-517 | without a non-admin record, or with one at or above MaxLevel, Reset and Add change nothing |
| `Commands.GrantGiven` | NewPlayerProtectionCommands.h:390-553 | otherwise every non-admin of the tribe is flagged in both lists, after Reset with start now, and no other record changes |
| `Commands.ResetSurvivesSweep` | NewPlayerProtectionCommands.h:390-429 | with an hour configured, a sweep at the instant of a reset takes no flag of the tribe in either list |
| `Commands.SetPveDecides` | NewPlayerProtectionCommands.h:920-1135 | SetPVE changes nothing unless a non-admin record has the tribe or, over RCON, one of the lists does; else the PVE set gains or loses exactly the tribe |
| `Commands.RunFollowsIdeal` | NewPlayerProtectionHooks.h:215-318 | in every run of the plugin the PVE lists and table follow the machine of live, dropped and saved sets, with known tribes read off the records |
| `Entries.LoginEnters` | NewPlayerProtectionHooks.h:250-277 | a login keeps a known record but for the last login, gives a new player a flagged record of level 1 starting now, and appends a copy that may be messaged at once |
| `Entries.LoginAgain` | NewPlayerProtectionHooks.h:497-529 | a login of an online player renews the cached groups only |
| `Entries.LogoutLeaves` | NewPlayerProtectionHooks.h:279-287 | a logout takes the player, and nobody else, from the online list and the cache; the full record stays |
| `Entries.SaveWrites` | NewPlayerProtectionHooks.h:289-318 | a save writes every record in memory with times cut to whole milliseconds, keeps all other rows and leaves the lists of players alone |
| `Entries.RestartReads` | NewPlayerProtectionConfig.h:65-134 | after a restart memory holds exactly the kept rows in the order of ids and the PVE tribes of the table, nobody is online or an admin, and an update is due at once |
| `Entries.UnknownIsReady` | NewPlayerProtectionHooks.h:546-567 | a player who is not online has no throttle |
| `PveTribes.SaveIsFaithful` | NewPlayerProtectionHooks.h:302-310 | a save changes no tribe's PVE status, empties the removed list and leaves exactly the in-memory set protected in the table |
| `PveTribes.SetRefines` | NewPlayerProtectionCommands.h:1066-1135 | SetPVE acts on the lists as insertion and deletion on sets |
| `PveTribes.RunRefinesIdeal` | NewPlayerProtectionHooks.h:215-248 | over any run lists and table follow the machine of live, dropped and saved sets |
| `PveTribes.RestartRestoresLastSave` | NewPlayerProtectionConfig.h:118-128 | a restart yields exactly the PVE tribes of the last save |
| `PveTribes.RemovalNeedsDisjointLists` | NewPlayerProtectionCommands.h:974-1007 | outside the invariant a removal can be lost |
| `Vectors.RemoveInPlace` | NewPlayerProtectionCommands.h:956 | `std::remove` with a value inside the vector, in place |
| `Vectors.ErasedAliasedExact` | NewPlayerProtectionCommands.h:956 | the idiom removes what is meant iff the value stands in one block and the element after the block does not occur again |
| `Vectors.ErasedDistinct` | NewPlayerProtectionHooks.h:542 | on a duplicate-free vector it removes exactly the element found, in order |
| `Vectors.ErasedAliasedCounterexample` | NewPlayerProtectionCommands.h:991 | with a repeated neighbour it removes too much |
| `TribePolicy.ScanIsPolicyIffUniform` | NewPlayerProtectionHooks.h:74-107 | for a non-PVE tribe above 100000 the existential scan equals "has a member and all are flagged" iff the tribe's flags are uniform |
| `TribePolicy.ScanIsPolicy` | NewPlayerProtectionHooks.h:74-107 | so with uniform flags the scan is the policy for every such tribe |
| `TribePolicy.UpdateMakesUniform` | NewPlayerProtectionHooks.h:608-636 | right after every update flags are uniform |
| `TribePolicy.ReloadMakesUniform` | NewPlayerProtectionCommands.h:1177-1196 | and right after a reload |
| `TribePolicy.CommandsKeepUniform` | NewPlayerProtectionCommands.h:297-553 | Disable, RemoveProtection, ResetProtection and AddProtection keep flags uniform |
| `TribePolicy.LoginKeepsUniform` | NewPlayerProtectionHooks.h:250-277 | any login, of a new, returning or still online player, keeps flags uniform iff the player is an admin afterwards or the record carries the flag of the tribe |
| `TribePolicy.NewPlayerKeepsUniform` | NewPlayerProtectionHooks.h:266-269 | so the login of a new player keeps flags uniform iff all members of the tribe are flagged |
| `TribePolicy.LogoutKeepsUniform` | NewPlayerProtectionHooks.h:279-287 | an admin's logout keeps them uniform iff the admin's flag agrees with the tribe's |
| `TribePolicy.RestartKeepsUniform` | NewPlayerProtectionConfig.h:96-107 | a restart keeps them uniform iff the rows it loads agree within each tribe, admins included |
| `TribePolicy.NextUniformIff` | NewPlayerProtectionHooks.h:250-318 | for every event: flags are uniform after it iff its guard holds before it |
| `TribePolicy.RunUniformIff` | NewPlayerProtectionHooks.h:250-318 | flags are uniform throughout a run iff every event meets its guard |
| `TribePolicy.ScanIsPolicySinceUpdate` | NewPlayerProtectionHooks.h:74-107 | from an update on, in every run whose events meet their guards, the existential scan is the universal policy |
| `Lifetime.RunAges` | NewPlayerProtectionHooks.h:126-178 | in a run of one process without Reset, Add and ReloadConfig no flag comes back, no start time moves and no player gets a second record |
| `Lifetime.ExpiredForGood` | NewPlayerProtectionHooks.h:608-636 | in such a run a record that is not an admin's at an update with less than a second left is unflagged then and until the process ends |
| `Lifetime.LostForCause` | NewPlayerProtectionHooks.h:137-150 | a sweep takes a flag only because of a member that was unflagged, at the limit or expired |
| `Restarts.RestartUnflaggedIff` | NewPlayerProtectionConfig.h:96-107 | after a restart a player is known and unflagged iff the age filter lets the row through and the row has flag 0 |
| `Restarts.ReturnUnflaggedIff` | NewPlayerProtectionHooks.h:483-495 | the same for a player who logs in after the restart: a dropped row means a new protection |
| `Restarts.RestartBringsBackIff` | NewPlayerProtectionConfig.h:96-107 | after an update has cleared an expired flag, a restart that keeps the player brings it back iff the row still has flag 1 |
| `Restarts.RestartCounterexample` | NewPlayerProtectionConfig.h:96-107 | login, logout, save, an update at hour 100 of 72, restart: unprotected before, known and flagged after |
| `Restarts.NextUnflaggedIff` | NewPlayerProtectionHooks.h:126-178 | for every event: an unprotected player is unprotected after it iff its condition holds before it (Reset and Add of another or no eligible tribe, a reload with an expired or too strong member, a restart with a saved loss, any other event) |
| `Restarts.RunUnflaggedIff` | NewPlayerProtectionHooks.h:126-178 | a player is unprotected throughout a run of any events iff every event meets that condition |
| `Restarts.ExpiredUntilGivenBack` | NewPlayerProtectionHooks.h:608-636 | an expired player who is not an admin is unprotected at an update, and from there on exactly until an event fails that condition |
| `Restarts.SavedLossIsFinal` | NewPlayerProtectionHooks.h:289-300 | a saved loss of protection outlasts every run of events other than Reset, Add and reload, restarts that keep the player included |
| `Restarts.ExpiredAndSavedForGood` | NewPlayerProtectionHooks.h:608-636 | so expired, cleared by an update and saved means unprotected in every such continuation |
| `Restarts.ExpiredAtEveryUpdate` | NewPlayerProtectionHooks.h:608-636 | whatever reloads and restarts give back to an expired player, every later update at which the player is not an admin takes away again |
| `Grants.HoursDeltaExact` | NewPlayerProtectionCommands.h:535 | the conversions of the hour difference lose nothing iff it fits 32 bits |
| `Grants.GrantedAge` | NewPlayerProtectionCommands.h:519-553 | a granted tribe of `n` passes the age test iff `now + hours + min(delta, n * delta)` is a second away |
| `Grants.RequestedAge` | NewPlayerProtectionCommands.h:519-553 | for every requested number, with start times as 64 bits hold them: the tribe passes the age test for exactly the requested duration iff, for hours added, `now + n * delta` fits 64 bits, or, for hours taken away, no later member goes below the first |
| `Grants.GrantableClosed` | NewPlayerProtectionCommands.h:519-553 | for configured hours below 128 million that is: the last sum fits 64 bits, or hours are taken away from one member only |
| `Grants.RunningIsWrapped` | NewPlayerProtectionCommands.h:535 | adding the shift `k` times in 64 bits gives the `k`-fold sum of the model, wrapped once |
| `Grants.ResetAge` | NewPlayerProtectionCommands.h:396-413 | ResetProtection gives every tribe the configured hours from now |
| `Grants.AddedHoursCounterexample` | NewPlayerProtectionCommands.h:535 | two players log in and are given 69 of 72 hours: the second is put six hours back |
| `Grants.OverflowCounterexample` | NewPlayerProtectionCommands.h:535 | one player logs in and is given 300 million hours more than configured: expired at once |
| `Session.SessionIsThrottled` | NewPlayerProtectionHooks.h:546-567 | through any events of a session, reloads included, an online player's message deadline is the one left by the questions about that player alone |
| `Session.MessagesAreSpaced` | NewPlayerProtectionHooks.h:546-567 | in a session of arbitrary events two ready answers in a row lie more than the interval in force at the first, less a second, apart |
| `Session.MessagesSpan` | NewPlayerProtectionHooks.h:546-567 | so while no interval below `m` is loaded, `k` ready answers span more than `(k-1)(m-1)` seconds |
| `Session.SweepsAreSpaced` | NewPlayerProtectionHooks.h:608-617 | between configuration loads `k` sweeps span more than `k-1` update intervals, each less a second |
| `Durability.RestartForgetsSinceSave` | NewPlayerProtectionConfig.h:65-134 | a restart after any run without a save leads to the very state of a restart right after the save |
| `Durability.RestartRestoresSave` | NewPlayerProtectionHooks.h:289-318 | with the PVE tribes and the kept records of that save |
| `Damage.TakeDamage` | NewPlayerProtectionHooks.h:320-452 | the nested decision equals the flat policy, whose cases the rows below give over lists and flags, and asks for messages exactly as stated |
| `Damage.NotifyTribe` | NewPlayerProtectionHooks.h:421-433 | the loop asks about every online player of the attacking tribe once, in order |
| `Damage.MessagesDoNotDecide` | NewPlayerProtectionHooks.h:372-390 | message timers never change a verdict |
| `Damage.FlaggedIsProtected` | NewPlayerProtectionHooks.h:364 | in a reachable state the online scan is the flag of the full record |
| `Damage.TeamsAsTribes` | NewPlayerProtectionHooks.h:326-330 | 32-bit teams stay different as tribe ids, and negative ones lie above the lowest protected id |
| `Damage.NeverStopped` | NewPlayerProtectionHooks.h:320-372 | hits on no or an exempt structure, on the own tribe, by an admin or by a controller that is no player always go through |
| `Damage.NewPlayerHits` | NewPlayerProtectionHooks.h:364-378 | a new player's hit on another tribe is stopped iff new players may do no damage and the tribe id is at least 100000 |
| `Damage.PveTribeIsSafe` | NewPlayerProtectionHooks.h:74-107 | in every run a tribe above 100000 in the live set of the PVE machine is safe from every foreign hit by an unprotected non-admin, without controller, or without causer, but for wild creatures that are let through |
| `Damage.FlagsDecideHits` | NewPlayerProtectionHooks.h:381-447 | with uniform flags such a hit is stopped iff the attacked tribe is PVE or has members and all are flagged, or, without controller, the same holds of the attacker's tribe and new players may do no damage |
| `Damage.WildHits` | NewPlayerProtectionHooks.h:404-419 | a wild creature that is let through is stopped only for the attacker's sake and only where the attacked tribe is not shielded |
| `Damage.WhoIsAsked` | NewPlayerProtectionHooks.h:372-433 | exactly who may be notified of a hit |
| `Damage.ProtectedTribeIsSafe` | NewPlayerProtectionHooks.h:381-391 | an unprotected player of another tribe is stopped iff the tribe is protected |
| `Status.FoldTribe` | NewPlayerProtectionCommands.h:89-117 | the loop folds oldest start and highest level of the non-admin members |
| `Status.Status` | NewPlayerProtectionCommands.h:75-148 | who gets a report, by lists and flags, and what it shows: the time of the oldest start and the levels of the highest member |
| `Status.BreakdownRecomposes` | NewPlayerProtectionCommands.h:123-126 | days, hours and minutes recompose to the minutes left, hours below 24 and minutes below 60 |
| `Status.BreakdownShows` | NewPlayerProtectionCommands.h:119-126 | the figures are the whole minutes to `oldest + hours - now`, rounded toward zero, as days, hours below 24 and minutes below 60 |
| `Status.NewcomerReport` | NewPlayerProtectionCommands.h:119-129 | a lone new player is shown the configured hours as whole days and the rest, no minutes, and MaxLevel less the level |
| `Status.ReportAgreesWithSweep` | NewPlayerProtectionCommands.h:119-129 | a minute left means nobody is expired, a negative figure that somebody is; no level left iff somebody is at the limit |
| `Status.SafeReportSurvivesSweep` | NewPlayerProtectionHooks.h:134-145 | with a minute and a level left a sweep at the same instant leaves a flagged tribe alone |
| `Timestamps.ScanUndoesText` | NewPlayerProtectionConfig.h:26-46 | reading undoes writing for every four-digit year, unpadded milliseconds included |
| `Timestamps.TimestampRoundTrip` | NewPlayerProtectionConfig.h:5-55 | `GetDateTime` undoes `GetTimestamp` up to truncation to milliseconds |
| `Timestamps.FilterIsByDay` | NewPlayerProtectionConfig.h:98-100 | a time stamp is after a bare date as text iff its day is not before that date |
| `PlayerTable.SaveIsTyped` | NewPlayerProtectionHooks.h:199-213 | writing the texts is the typed save of the state machine |
| `PlayerTable.SaveThenRestart` | NewPlayerProtectionConfig.h:96-107 | a reload after a save yields exactly the records whose last-login day passes the cutoff iff no selectable row of a player outside memory is left |
| `PlayerTable.LaterCutoffIsExact` | NewPlayerProtectionConfig.h:98-100 | which holds for this and every later cutoff while memory holds the rows that a cutoff selects |
| `PlayerTable.RunInStep` | NewPlayerProtectionConfig.h:96-107 | in every run of events, text saves and restarts filtered by day, the text table is the typed table and every row of a player outside memory has a login day before the last cutoff |
| `PlayerTable.EveryRestartIsExact` | NewPlayerProtectionConfig.h:96-107 | so at any point of any run a save and a restart with a cutoff not before the last one bring back exactly the records in memory that pass the filter |
| `Hooks.HookManager.SetHookInternal` | Lib/Core/Private/Hooks.cpp:22-52 | the step for every input, the refused target included |
| `Hooks.HookManager.DisableHookOf` | Lib/Core/Private/Hooks.cpp:54-100 | tear down, erase and rebuild compute the step and keep the invariant |
| `Hooks.HookManager.TearDown` | Lib/Core/Private/Hooks.cpp:77-85 | removes exactly the patches of the list, without failing |
| `Hooks.HookManager.SetAgain` | Lib/Core/Private/Hooks.cpp:93-97 | the rebuilding loop |
| `Hooks.SetHookValid` | Lib/Core/Private/Hooks.cpp:22-52 | with an unregistered detour the call succeeds and every chain stays linked and installed |
| `Hooks.SetHookKeepsChainsIff` | Lib/Core/Private/Hooks.cpp:33-43 | after setting a hook every function calls its detours in reverse order of registration iff the detour was not registered anywhere |
| `Hooks.SetTwiceLoops` | Lib/Core/Private/Hooks.cpp:33-39 | setting a detour twice hooks it onto itself |
| `Hooks.SetAllChains` | Lib/Core/Private/Hooks.cpp:93-97 | registering detours in order builds their chain |
| `Hooks.DisableHookValid` | Lib/Core/Private/Hooks.cpp:54-100 | the remaining detours are chained in their order, all other chains are as before |
| `Hooks.DisableTakesOne` | Lib/Core/Private/Hooks.cpp:54-100 | a successful call takes exactly this detour from the function and leaves the others in their order |
| `Hooks.DisableIsFresh` | Lib/Core/Private/Hooks.cpp:77-97 | lists and patches equal those of registering the remaining detours afresh |
| `Hooks.CallOrder` | Lib/Core/Public/IHooks.h:12-17 | a call runs the detours in reverse order of registration, then the original, and nothing else |
| `Hooks.EveryRunKeepsChains` | Lib/Core/Private/Hooks.cpp:22-101 | this holds after any run of requests |
| `Scheduler.Timer.Update` | Lib/Core/Private/Tools/Timer.cpp:62-108 | every task goes on as it would alone at this instant, and the callbacks run in the order of registration |
| `Scheduler.Timer.RunTasks` | Lib/Core/Private/Tools/Timer.cpp:69-107 | the loop and the lazy removal compute that step, and which callbacks run |
| `Scheduler.Timer.DelayExecute` | Lib/Core/Private/Tools/Timer.cpp:23-29 | the task gets an id of its own, starts on the life of a lone one-shot task, and no other task is affected |
| `Scheduler.Timer.RecurringExecute` | Lib/Core/Private/Tools/Timer.cpp:54-60 | the same for a counted task that is due at once |
| `Scheduler.TaskIsIndependent` | Lib/Core/Private/Tools/Timer.cpp:62-108 | in any run a task fires exactly when it would fire alone, although removal is shared |
| `Scheduler.RecurringTask` | Lib/Core/Public/Timer.h:34-43 | fires at exactly the first `n` updates that are not before the last fire plus the interval; fires and remaining counter add up to `n`, removal comes only after `n` fires |
| `Scheduler.UnlimitedTask` | Lib/Core/Private/Tools/Timer.cpp:83-91 | a task with -1 fires at all such updates and is never removed; other negative counts never fire |
| `Scheduler.DelayedTask` | Lib/Core/Private/Tools/Timer.cpp:23-29 | a one-shot fires once, at the first update not before its due time, and is gone then |
| `NameLists.ParseIntoArray` | Lib/Core/Public/API/UE/Containers/FString.h:2553-2576 | the loop yields the non-empty pieces between commas |
| `NameLists.SplitConcat` | Lib/Core/Public/API/UE/Containers/FString.h:2559-2572 | splitting distributes over a comma, whatever stands on its sides |
| `NameLists.SplitUndoesJoin` | Lib/Permissions/Private/Database/SqlLiteDB.h:234-242 | splitting undoes joining |
| `NameLists.AppendIsExact` | Lib/Permissions/Private/Database/SqlLiteDB.h:212 | appending a name adds exactly that name iff it is not empty and has no comma |
| `NameLists.WithoutIsRemoval` | Lib/Permissions/Private/Database/SqlLiteDB.h:238-242 | the copying loop deletes exactly the name, without regard to case |
| `Permissions.ServeRefines` | Lib/Permissions/Private/Database/SqlLiteDB.h:199-367 | for good names every operation acts on the texts as its counterpart on sets, with the same answer, and keeps the tables consistent |
| `Permissions.RunRefines` | Lib/Permissions/Private/Database/SqlLiteDB.h:199-367 | and so does every run |
| `Permissions.MembersAfter` | Lib/Permissions/Private/Database/SqlLiteDB.h:199-308 | who is in which group after any request, over the stored texts |
| `Permissions.GrantsAfter` | Lib/Permissions/Private/Database/SqlLiteDB.h:260-367 | which group has which permission after any request |
| `Permissions.GroupsAfter` | Lib/Permissions/Private/Database/SqlLiteDB.h:260-308 | which groups there are after any request |
| `Permissions.DoneWhenNew` | Lib/Permissions/Private/Database/SqlLiteDB.h:199-367 | a request succeeds iff what it asks for is possible and not so already |
| `Permissions.PlayerHasIsPermitted` | Lib/Permissions/Private/Permissions.cpp:82-93 | a player's permissions are decided by the sets alone |
| `Permissions.RemovedGroupIsGone` | Lib/Permissions/Private/Database/SqlLiteDB.h:280-308 | after a removal nobody lists the group and permissions depend on the remaining groups only |
| `Permissions.CommaNameCounterexample` | Lib/Permissions/Private/Database/SqlLiteDB.h:199-224 | creating the group "a,b" and adding a new player to it succeeds, and the player is then in Default, a and b and not in "a,b" |
| `Permissions.Database.IsPlayerInGroup` | Lib/Permissions/Private/Permissions.cpp:33-44 | the search loop, without regard to case |
| `Permissions.Database.IsGroupHasPermission` | Lib/Permissions/Private/Permissions.cpp:66-80 | false for a missing group, else the search loop |
| `Permissions.Database.IsPlayerHasPermission` | Lib/Permissions/Private/Permissions.cpp:82-93 | some listed group grants the permission or everything |
| `Permissions.Database.EnlistPlayer` | Lib/Permissions/Private/Database/SqlLiteDB.h:199-224 | adding a player, the missing player and both refusals included |
| `Permissions.Database.ExpelPlayer` | Lib/Permissions/Private/Database/SqlLiteDB.h:226-258 | removing a player, both refusals included |
| `Permissions.Database.CreateNewGroup` | Lib/Permissions/Private/Database/SqlLiteDB.h:260-278 | adding a group |
| `Permissions.Database.GetGroupMembers` | Lib/Permissions/Private/Database/SqlLiteDB.h:177-197 | exactly the players that list the group, each once |
| `Permissions.Database.DeleteGroup` | Lib/Permissions/Private/Database/SqlLiteDB.h:280-308 | the loop over the members and the deletion compute the step |
| `Permissions.Database.GrantPermission` | Lib/Permissions/Private/Database/SqlLiteDB.h:310-333 | granting, both refusals included |
| `Permissions.Database.RevokePermission` | Lib/Permissions/Private/Database/SqlLiteDB.h:335-367 | revoking, both refusals included |
| `BitFields.GetIsField` | Lib/Core/Public/API/Fields.h:40-48 | shift and mask yield the bits of the field and zeros |
| `BitFields.SetIsSplice` | Lib/Core/Public/API/Fields.h:50-57 | the write replaces the bits of the field and no other |
| `BitFields.ReadAfterWrite` | Lib/Core/Public/API/Fields.h:40-57 | reading after writing `v` gives `v` modulo `2^n`, for every width, position and length |
| `BitFields.WriteConserves` | Lib/Core/Public/API/Fields.h:50-57 | as numbers, only the field's share of the word is exchanged |
| `BitFields.SetKeepsOthers` | Lib/Core/Public/API/Fields.h:50-57 | a write does not affect reading a field beside it |
| `BitFields.SetsCommute` | Lib/Core/Public/API/Fields.h:50-57 | writes to fields that do not overlap commute |
| `BitFields.Memory.SetNativeBitField` | Lib/Core/Public/API/Fields.h:50-57 | the write in memory, all other words unchanged |
| `BitFields.Memory.GetNativeBitField` | Lib/Core/Public/API/Fields.h:40-48 | the value of the field's bits |
| `NameMerge.SetUnion` | Lib/Core/Private/Helpers.cpp:28-47 | the two-pointer loop of the union |
| `NameMerge.UniqueCopy` | Lib/Core/Private/Helpers.cpp:49-66 | the copying loop that drops repeats |
| `NameMerge.MergeStringArrays` | Lib/Core/Private/Helpers.cpp:23-69 | exactly the names of both arrays without regard to case, each in an original spelling |
| `NameMerge.MergeSortedIff` | Lib/Core/Private/Helpers.cpp:26-47 | strictly ascending iff both case-sensitively sorted arrays are also ascending without regard to case |
| `NameMerge.StrictHasNoRepeats` | Lib/Core/Private/Helpers.cpp:49-66 | and then without repetition |
| `NameMerge.RepeatedNameCounterexample` | Lib/Core/Private/Helpers.cpp:26-47 | the arrays B, a and a give a, B, a |
| `NameMerge.NoRepeatsWithoutOrder` | Lib/Core/Private/Helpers.cpp:26-66 | the arrays B, a and none give B, a: no repeat, though not ascending |
| `NameMerge.SortIsTheOnlyOne` | Lib/Core/Private/Helpers.cpp:26-27 | the sorted arrangement is unique, so the model's sort is `std::sort` |

## Left out

- Access to game objects, notifications, replies, logs, message texts and the reading of the configuration file: input and output only.
- Parsing of command text, registration and dispatch of commands: easy, and no property of the state rests on them.
- SQL errors, pragmas and the database wrappers: statements are taken to succeed; the MySQL variant repeats the same logic.
- The asynchronous branch of the recurring timer, HTTP requests, the PDB reader, plugin loading and offsets: foreign calls.
- Sharing of records through `shared_ptr`: records are values in the lists; that two vectors hold the same record object is not modelled.
- Time-zone rules: `localtime` and `mktime` are arguments, assumed to invert each other at the instants that are stored.
- Blueprint paths of exempt structures: exemption is an argument.
- Times before 1970 in the Players table: `localtime` does not accept them.
- Overflow of 64-bit tick counts outside AddProtection: the clock readings, intervals and configured hours of the other steps stay far below it, and the subtraction of the age test is over integers. The state machine keeps the sums of AddProtection unwrapped; `Grants.dfy` says what 64 bits make of them.
- Ids above the signed 64-bit range of the database, whose key order would differ.
- `MergePdbConfig`: three independent calls of the merge.
- Letters outside ASCII and text encodings.
