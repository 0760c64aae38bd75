# RoleInvite autorole engine in Dafny

This project models the autorole engine of the RoleInvite cog
(`roleinvite/roleinvite.py`). The cog links roles to invite keys. A key is an
invite URL or one of the sentinels `main` and `default`. When a member joins,
the cog gives them:

- the `default` roles, when the bot holds `manage_roles` and the `default`
  entry has a role it may give;
- the roles of the first linked invite, in mapping order, whose live use count
  is higher than the recorded one;
- the `main` roles, if no linked invite was used.

The moderator commands `roleset add`, `remove`, `list` and `enable` maintain
the links.

## Parts of the model

**State.** Each guild's stored configuration (`def_guild`, line 36) holds the
`enabled` flag and the `invites` mapping. The mapping's insertion order is kept
beside it as a sequence of keys, because the dictionary's order decides which
invite wins.

**Inputs.** Everything Discord answers becomes an input: the `Server` snapshot
plus a `confirm` flag for the yes/no question. The snapshot holds:

- the guild's invites with their use counts;
- the roles with their hierarchy positions;
- the bot's top-role position;
- the `manage_roles` and `manage_guild` permissions;
- whether listing invites is forbidden.

**Modules.**

- `Links` — the store, the Discord snapshot, and the store writes the cog
  performs: `set_raw` of roles or uses, deleting keys, and `API.add_invite`.
  It also holds the two integrity invariants:
  - `Valid`: keys and order agree, and no role id is linked twice;
  - `NoEmptyLinks`.
- `Registry` — the four commands as functions from the old store to a reply
  (new store plus outcome), with their properties as lemmas.
- `Attribution` — `add_roles` (`GrantRoles`) and `on_member_join` (`Join`) as
  functions from the store and snapshot to the new store and the role grants
  made, with the attribution, hierarchy, pruning and frame properties as lemmas.
- `RoleInvite` — the cog as it runs:
  - The class `GuildConfig` holds the fields that the handlers update in place.
  - Its methods carry the command and join code's loops. Each method's
    postcondition ties the new state and its results to the matching
    `Registry` or `Attribution` function of the old state.
- `AsWritten` — the places where the code as written does something other
  than what it evidently means, each with a concrete input. See "## Findings".

**Where the model follows the evident intent.** In each case below the model
does what the code evidently means, not what it literally does:

- An invite that is gone is pruned, and the join scan goes on (line 529).
- `roles_iteration` walks a copy of the role list (line 135).
- An absent `default` or `main` entry grants nothing, and the join goes on
  (line 432).
- `add_roles` stores and grants exactly the roles it may give. If none
  remain, it deletes the entry and stops the join (lines 478-479, 488 and
  498).

**Other deviations.**

- The pruning at line 529 deletes the key from the stored mapping. As written,
  it would delete from the local copy while iterating it.
- The deletion at lines 490-491 is modelled as deleting that one key. As
  written, it writes back the whole mapping read at line 504, which would also
  undo the `set_raw` writes the `default` step made.
- The stale-id pruning at line 456 is kept before the `manage_roles` check at
  line 461, as written. So a join that finds `manage_roles` missing may leave
  an entry empty, but only while it disables the guild (`JoinPreservesValid`).

## Model

| member | source | states |
|---|---|---|
| Links.NewStore | roleinvite/roleinvite.py:36 | a guild never configured has no links and autorole off; that store is valid and has no empty entry |
| Links.FindInvite | roleinvite/roleinvite.py:527 | the result is the first live invite with that URL; it is absent exactly when no live invite has the URL |
| Links.NothingLost | roleinvite/roleinvite.py:443-449 | no stored id is lost exactly when every stored id is found on the server |
| Links.NothingTooHigh | roleinvite/roleinvite.py:471-477 | among existing roles, none sits at or above the bot's top role exactly when all are usable |
| Links.DeleteKeys | roleinvite/roleinvite.py:356-358 | deleting keys removes exactly those entries and their places in the order, keeps the flag, and keeps the store valid |
| Links.DeleteKeysTwice | roleinvite/roleinvite.py:356-357 | deleting two batches of keys one after the other is deleting their union |
| Links.SetRoles | roleinvite/roleinvite.py:456-458 | storing a role list changes only that key's roles; keys, order, flag and use count stay |
| Links.SetRolesKeeps | roleinvite/roleinvite.py:478-479 | storing a duplicate-free list keeps the store valid; storing a non-empty list keeps every entry non-empty |
| Links.SetUses | roleinvite/roleinvite.py:538-540 | recording a use count changes only that key's count |
| Links.SetUsesKeeps | roleinvite/roleinvite.py:538-540 | recording a use count keeps validity and every role list |
| Links.LinkRole | roleinvite/roleinvite.py:192 | `add_invite` appends the role to an existing key, or creates the key last in the order with that one role; no other entry changes |
| Registry.Resolve | roleinvite/roleinvite.py:172-218 | an own-guild invite found among the guild's invites resolves to its URL key with its live use count; `main` and `default` resolve to their sentinel keys with count 0; another guild's invite is refused as foreign, other text as not found, and no other input yields a key |
| Registry.Vet | roleinvite/roleinvite.py:123-161 | the definition of `roles_iteration`; it never adds or removes a key or touches another key, answers "duplicate" exactly when the role is stored and still exists, and then changes nothing; see `VetPreservesValid`, `RoleInvite.LiveRoles` |
| Registry.Add | roleinvite/roleinvite.py:111-223 | the definition of `roleset add`; it never drops a key or changes the flag, and a success leaves the role stored under the resolved key; see `AddSucceeds`, `AddLinks`, `AddDuplicateIff`, `AddDeclined`, `AddPreservesValid` |
| Registry.Remove | roleinvite/roleinvite.py:226-295 | the definition of `roleset remove`; it never creates a key, never touches another key, and a rejection changes nothing; see `RemoveEffect`, `RemovePreservesValid` |
| Registry.List | roleinvite/roleinvite.py:298-358 | the definition of the pruning in `roleset list`; it only deletes entries and keeps every remaining one as it was; see `ListPrunes` |
| Registry.Enable | roleinvite/roleinvite.py:381-396 | the definition of `roleset enable`; it never touches the mapping, and a rejection changes nothing; see `EnableEffect`, `EnableTwice` |
| Registry.AddRejectedUnchanged | roleinvite/roleinvite.py:163-168 | every rejected `add` leaves the store unchanged, except a declined confirmation, which keeps the stale-id pruning of line 144 |
| Registry.AddGuards | roleinvite/roleinvite.py:163-168 | a role at or above the bot's top role is rejected first, then a missing `manage_guild`, both with no change; a successful `add` had a grantable role and `manage_guild` |
| Registry.AddDuplicateIff | roleinvite/roleinvite.py:129-140 | once the key is resolved, `add` answers "already linked" exactly when the key's stored list holds the role |
| Registry.AddSucceeds | roleinvite/roleinvite.py:163-218 | once the key is resolved, `add` links the role exactly when the role may be given, `manage_guild` is held, the role is not yet stored under the key, and the moderator confirms unless the key holds no live role |
| Registry.AddLinks | roleinvite/roleinvite.py:188-217 | a successful `add` appends the role to the key's live roles, or creates the key last with the live use count; nothing else changes |
| Registry.AddDeclined | roleinvite/roleinvite.py:146-160 | the question is asked only when the key has live roles; declining stores just the live roles, and confirming instead would succeed |
| Registry.AddPreservesValid | roleinvite/roleinvite.py:123-161 | `add` never links a role id twice to a key and keeps keys and order in step |
| Registry.VetPreservesValid | roleinvite/roleinvite.py:129-144 | the walk keeps the store valid, and when it lets `add` proceed the role is not yet stored under the key |
| Registry.LinkRolePreservesValid | roleinvite/roleinvite.py:192 | appending a role that is not yet linked keeps the store valid |
| Registry.AddKeepsNoEmptyLinks | roleinvite/roleinvite.py:111-223 | `add` never leaves an entry without roles |
| Registry.RemoveAbsentTwice | roleinvite/roleinvite.py:235-238 | `remove` of an unlinked key answers "cannot be found" and changes nothing, also when repeated |
| Registry.RemoveEffect | roleinvite/roleinvite.py:245-292 | declining changes nothing; with no role, or at most one role linked, the key is deleted; otherwise only that role id goes; other entries and the flag are kept |
| Registry.RemovePreservesValid | roleinvite/roleinvite.py:271-292 | `remove` keeps the store valid |
| Registry.RemoveKeepsNoEmptyLinks | roleinvite/roleinvite.py:245 | dropping one role from an entry of at least two leaves at least one, so no entry is left empty |
| Registry.DeadInvitesAre | roleinvite/roleinvite.py:311-317 | walking the keys in order picks out exactly the concrete keys whose lookup reports NotFound |
| Registry.ListPrunes | roleinvite/roleinvite.py:307-358 | `list` deletes exactly the concrete keys whose invite is gone (nothing without `embed_links`), never `main` or `default`, and keeps every other entry and the flag |
| Registry.ListKeepsNoEmptyLinks | roleinvite/roleinvite.py:356-358 | pruning never leaves an entry empty |
| Registry.EnableEffect | roleinvite/roleinvite.py:389-396 | `enable` flips the flag exactly when the bot holds `manage_roles` and `manage_guild`, and never touches the mapping |
| Registry.EnableTwice | roleinvite/roleinvite.py:395-396 | two `enable` commands under the same permissions restore the store |
| Attribution.KeyOf | roleinvite/roleinvite.py:433-438 | the key a grant reason names gives back that reason |
| Attribution.KeyOfReasonFor | roleinvite/roleinvite.py:433-438 | key and reason determine each other; an invite's reason carries its URL |
| Attribution.FirstUsed | roleinvite/roleinvite.py:522-541 | the position of the first key in mapping order whose live uses exceed the recorded uses: no key before it is used, and it is used unless it is the end |
| Attribution.GrantRoles | roleinvite/roleinvite.py:431-499 | the definition of `add_roles` as intended (fixes for lines 432, 478-479 and 488); its properties are `GrantRolesEffect`, `GrantRolesValid`, `UsableOfFound` |
| Attribution.Join | roleinvite/roleinvite.py:501-544 | the definition of `on_member_join` as intended (fix for line 529); its properties are `JoinAttribution`, `JoinGrantsAreGrantable`, `JoinRecordsGrants`, `JoinPrunesDead`, `JoinPreservesValid` |
| Attribution.Attribute | roleinvite/roleinvite.py:522-544 | the definition of the scan after the `default` step; its properties are `AttributeGrants`, `AttributeFrame`, `AttributeValid`, `AttributeRecords` |
| Attribution.Attributed | roleinvite/roleinvite.py:522-543 | the definition of the key a join is credited to; its properties are `AttributedKey`, `PrunedKeepsAttributed` |
| Attribution.GrantRolesEffect | roleinvite/roleinvite.py:431-499 | `add_roles(k)` touches only `k`'s entry; it grants once exactly `k`'s existing roles below the bot's top role and stores that list; it disables the guild only when `manage_roles` is missing; it stops the join exactly when the entry exists and nothing is grantable |
| Attribution.UsableOfFound | roleinvite/roleinvite.py:443-478 | a role survives both filters exactly when it is stored and grantable |
| Attribution.GrantRolesValid | roleinvite/roleinvite.py:456-496 | `add_roles` keeps the store valid and leaves an entry empty only while disabling the guild |
| Attribution.AttributeGrants | roleinvite/roleinvite.py:522-541 | the scan grants at most once, for the attributed key (never `default`, never a pruned key); `main` is attributed exactly when no key was used; the grant equals the key's usable roles, and the key then stores them and the live uses |
| Attribution.AttributeFrame | roleinvite/roleinvite.py:522-544 | after the scan the dead keys before the used one are gone, every other entry except the attributed one is unchanged, and no key is created |
| Attribution.AttributeValid | roleinvite/roleinvite.py:522-544 | the scan keeps the store valid and leaves an entry empty only while disabling the guild |
| Attribution.PrunedKeepsAttributed | roleinvite/roleinvite.py:527-531 | pruning dead keys never removes or changes the attributed key's entry |
| Attribution.JoinWhenDisabled | roleinvite/roleinvite.py:502-503 | a join on a disabled guild changes nothing and grants nothing |
| Attribution.JoinWhenInvitesForbidden | roleinvite/roleinvite.py:506-517 | when listing invites is forbidden, the guild is disabled and nothing is granted |
| Attribution.DefaultStepAgrees | roleinvite/roleinvite.py:519 | the `default` step keeps the store valid and leaves all other entries as the scan reads them |
| Attribution.DefaultStep | roleinvite/roleinvite.py:519 | the `default` step grants nothing or exactly that entry's usable roles, and stores them |
| Attribution.JoinStopsAtDefault | roleinvite/roleinvite.py:488-496 | with `manage_roles` held, a `default` entry none of whose roles may be given stops the join at line 520: nothing is granted, `default` is deleted, every other entry and the flag stay |
| Attribution.JoinWithoutManageRoles | roleinvite/roleinvite.py:461-470 | without `manage_roles` no role is granted, and the join disables the guild exactly when it reaches an existing entry: `default`, or else the used invite (line 535), or `main` when no invite was used (line 543) |
| Attribution.JoinGrantsForm | roleinvite/roleinvite.py:519-543 | a join grants nothing, `default`'s roles, the attributed key's roles, or both in that order |
| Attribution.JoinAttribution | roleinvite/roleinvite.py:519-543 | at most two grants; a `default` grant comes first; an invite grant names the first used key in mapping order; a `main` grant happens only when no key was used; each grant is its key's usable roles |
| Attribution.AttributedKey | roleinvite/roleinvite.py:522-543 | the attributed key is the first used concrete key, or `main` past the end; never `default` |
| Attribution.JoinGrantsAreGrantable | roleinvite/roleinvite.py:443-498 | every granted role exists and sits strictly below the bot's top role; no grant is empty or names a role twice |
| Attribution.GrantForIsGrantable | roleinvite/roleinvite.py:443-476 | the roles a key's grant names are distinct and grantable |
| Attribution.AttributeRecords | roleinvite/roleinvite.py:538-540 | the scan's key stores exactly the roles granted for it and, for an invite, its live use count |
| Attribution.JoinRecordsGrants | roleinvite/roleinvite.py:478-540 | after a join, each granted key stores exactly the roles granted for it, and the used invite records its live use count |
| Attribution.DefaultRecorded | roleinvite/roleinvite.py:519 | the `default` step stores what it grants |
| Attribution.DefaultSurvivesScan | roleinvite/roleinvite.py:522-544 | the scan leaves the `default` entry as the `default` step stored it |
| Attribution.JoinDefaultFirst | roleinvite/roleinvite.py:519 | with the permissions held and a grantable `default` role, every join's first grant is `default`'s usable roles |
| Attribution.JoinGrantsAttributed | roleinvite/roleinvite.py:535-543 | once the `default` step lets the join go on, the attributed key's usable roles, when there are any, are the last grant |
| Attribution.JoinPrunesDead | roleinvite/roleinvite.py:527-529 | every dead key before the used one is gone after a join; every other entry except `default` and the attributed key, `main` included when an invite wins, is unchanged; no key is created |
| Attribution.JoinPreservesValid | roleinvite/roleinvite.py:456-496 | a join keeps the store valid, and leaves an empty entry only while disabling the guild |
| RoleInvite.LocateInvite | roleinvite/roleinvite.py:213-215 | the linear search returns the first live invite with the URL, or none |
| RoleInvite.LiveRoles | roleinvite/roleinvite.py:129-142 | the walk reports a duplicate exactly when the role is stored and still exists; otherwise it returns the stored ids that still exist, in order |
| RoleInvite.CollectDeadInvites | roleinvite/roleinvite.py:311-317 | the collected keys are exactly the concrete keys whose lookup reports NotFound |
| RoleInvite.SplitFound | roleinvite/roleinvite.py:443-448 | the loop splits the stored ids into found and lost, both in order; nothing is lost exactly when all are found |
| RoleInvite.SplitUsable | roleinvite/roleinvite.py:471-476 | the loop splits existing roles into usable and too high, both in order; none is too high exactly when all are usable |
| RoleInvite.GuildConfig.constructor | roleinvite/roleinvite.py:36 | a new guild configuration holds the registered defaults |
| RoleInvite.GuildConfig.AddInvite | roleinvite/roleinvite.py:192 | the fields become `LinkRole` of the old store |
| RoleInvite.GuildConfig.DeleteKey | roleinvite/roleinvite.py:490-491 | the fields become the old store without that key |
| RoleInvite.GuildConfig.StoreRoles | roleinvite/roleinvite.py:456-458 | the fields become `SetRoles` of the old store |
| RoleInvite.GuildConfig.StoreUses | roleinvite/roleinvite.py:538-540 | the fields become `SetUses` of the old store |
| RoleInvite.GuildConfig.RolesIteration | roleinvite/roleinvite.py:123-161 | the new fields and the verdict are `Vet` of the old store |
| RoleInvite.GuildConfig.Add | roleinvite/roleinvite.py:111-223 | the new fields and the outcome are `Registry.Add` of the old store; validity is preserved |
| RoleInvite.GuildConfig.Remove | roleinvite/roleinvite.py:226-295 | the new fields and the outcome are `Registry.Remove` of the old store; validity is preserved |
| RoleInvite.GuildConfig.List | roleinvite/roleinvite.py:298-358 | the new fields and the outcome are `Registry.List` of the old store; validity is preserved |
| RoleInvite.GuildConfig.DeleteEach | roleinvite/roleinvite.py:356-358 | the loop deletes exactly the listed keys |
| RoleInvite.GuildConfig.Enable | roleinvite/roleinvite.py:381-396 | the new fields and the outcome are `Registry.Enable` of the old store |
| RoleInvite.GuildConfig.AddRoles | roleinvite/roleinvite.py:431-499 | the new fields, the grants and the carry-on flag are `GrantRoles` of the old store |
| RoleInvite.GuildConfig.OnMemberJoin | roleinvite/roleinvite.py:430-544 | the new fields and the grants are `Join` of the old store; validity is preserved |
| RoleInvite.GuildConfig.Scan | roleinvite/roleinvite.py:522-544 | the new fields and the grants are `Attribute` of the snapshot read at line 504 and the current store |
| RoleInvite.GuildConfig.PruneUntilUsed | roleinvite/roleinvite.py:522-535 | the walk stops at `FirstUsed`, with that invite's live count, after deleting exactly the dead keys before it |
| AsWritten.RemoveFirst | roleinvite/roleinvite.py:135 | `list.remove` drops the first occurrence of the id and keeps the rest in order: the result is the list up to that position followed by the list after it |
| AsWritten.FirstIndex | roleinvite/roleinvite.py:135 | the position `list.remove` drops: it holds the id, and no earlier position does |
| AsWritten.IterateAsWritten | roleinvite/roleinvite.py:129-142 | the walk as written, advancing by position over the list it shrinks; it only removes ids, and reports a duplicate only for a role the list holds and the server has |
| AsWritten.StaleIdHidesDuplicate | roleinvite/roleinvite.py:129-144 | as written, a stale id before the role hides the duplicate and the role is stored twice; the intended `add` answers "already linked" |
| AsWritten.GrantRolesAsWritten | roleinvite/roleinvite.py:431-499 | `add_roles` as written: it raises for a missing entry (432) and at 498 when the rebuilt list of raw ids is not empty; whatever it does grant the bot may give, at most once, and it creates no key |
| AsWritten.MissingDefaultStopsJoin | roleinvite/roleinvite.py:432 | as written, a guild without a `default` entry fails before any grant; the intended join ends by granting `main`'s role |
| AsWritten.EmptiedEntryKeptAsWritten | roleinvite/roleinvite.py:478-498 | for any entry whose every role exists but sits too high: as written it is stored with no role, kept, one empty grant is made and the join goes on; the intended step deletes it, grants nothing and stops the join |
| AsWritten.EmptiedEntryIsKept | roleinvite/roleinvite.py:478-498 | the smallest such entry (`default` holding one role above the bot): as written kept with no role and the join goes on; intended deleted and the join stops |
| AsWritten.TooHighRoleRaisesAsWritten | roleinvite/roleinvite.py:477-498 | for any entry holding a role that sits too high and an id that does not: as written every id that is not too high, stale ones included, is stored again at 479, and the handler raises at 498 on the raw ids, granting nothing |
| AsWritten.StaleIdComesBack | roleinvite/roleinvite.py:477-479 | `default` holding stale id 1 and role 2 above the bot: as written id 1 is stored again and the handler raises; intended, the entry is deleted, nothing is granted and the join stops |
| AsWritten.TooHighRoleBlocksGrant | roleinvite/roleinvite.py:477-498 | `default` holding role 2 above the bot and grantable role 3: as written the handler raises and grants nothing; intended, the one grant holds role 3 and not role 2 |
| AsWritten.HighAndKept | roleinvite/roleinvite.py:477-478 | with one id too high and one not, the hierarchy step finds roles to drop and keeps every id that is not too high |
| AsWritten.DeadInviteStopsScan | roleinvite/roleinvite.py:527-529 | a dead invite between a grantable `default` entry and `main`: as written the `default` step lets the join go on and the scan then raises at 529; intended, the dead key is deleted and the join ends by granting `main`'s role |
| AsWritten.ScanAsWritten | roleinvite/roleinvite.py:522-544 | the scan as written; it stops only at a used invite, raises only when a scanned invite is gone, and runs to the end only when none is |
| AsWritten.JoinFallsBackToMain | roleinvite/roleinvite.py:535-544 | a join past `default` with no used invite and a dead key before the end grants `main`'s usable roles last and prunes the dead key |

## Left out

- `roleinvite/sentry.py` (crash reporting) and `roleinvite/__init__.py` (file creation and bot registration) are foreign calls and I/O, and are not part of this model.
- `on_command_error`, `_set_context`, `__unload` and `_set_log` are logging only. `roleinviteinfo` and `error` are presentation and debugging. Every message, embed and translated text is omitted. A grant's reason is kept as a tag.
- `_check` waits for a yes/no reply with a timeout. It becomes the `confirm` input, and a timeout counts as "no".
- Discord's converters become inputs. The invite converter becomes `InviteArg`. A failed role conversion becomes the `RoleNotFound` rejection.
- `bot.get_invite` becomes the `notFound` set of URLs. Errors other than NotFound are not modelled.
- `API.add_invite`, `API.remove_invite` and the background `update_invites` task live in `api.py`, which is not part of this model. Their effects are modelled as the callers imply.
- The warning in `add` when `manage_roles` is missing (lines 169-170) changes nothing, so it is not modelled.
- `list` builds embeds that read `.name` of every stored role (lines 319-349). As written, this fails on a role that no longer exists, before the pruning is saved. The model prunes as intended.
- `remove` also reads `.name` of every stored role when it lists the roles (line 258), which fails the same way. The model proceeds as intended.
- Lines 490-491 write back the whole mapping read at line 504. The model deletes only the one key, so the earlier per-key writes of the same join stay.
- Concurrent joins on the same invite are not modelled. Each join is atomic.
- `API.add_invite` is assumed to record a new invite key with the invite's live use count and a new sentinel key with 0; nothing in `roleinvite/roleinvite.py` passes a use count, and `api.py` is not part of this model.
- Errors of `guild.invites()` other than Forbidden (line 507), and failures of `member.add_roles` itself (line 498), end the join handler in the source; Discord errors are not modelled. The one raise at line 498 that the code causes itself, on raw ids, is modelled by `AsWritten.GrantRolesAsWritten`.
- The `ValueError` that `list.remove` raises for an absent id is not modelled: `AsWritten.RemoveFirst` requires the id to be present, and line 135 only removes an id it has just read from the list.
- Registry.RemoveEffect: states the remaining role ids of a single-role removal as a set (every other id stays and that id goes), not as an exact list, because `API.remove_invite` is not part of this model. `RoleInvite.GuildConfig.Remove` is tied to the exact `WithoutRole` list.

## Findings

| source | as written | input that shows it | evidently intended | confidence | as-written member | corrected member |
|---|---|---|---|---|---|---|
| roleinvite/roleinvite.py:135 | a stale id is removed from the list being iterated, so the id after it is skipped | `main` stores `[1, 2]`, role 1 is gone, and `add` links role 2 to `main` | the walk sees every stored id, and `add` answers "already linked" | high; not executed | AsWritten.StaleIdHidesDuplicate | RoleInvite.LiveRoles |
| roleinvite/roleinvite.py:432 | `bot_invites[invite]` raises KeyError when the guild has no `default` entry, so the join grants nothing | a store with only `main := [5]`, role 5 grantable | an absent entry grants nothing and the join goes on to `main` | high; not executed | AsWritten.MissingDefaultStopsJoin | Attribution.GrantRolesEffect |
| roleinvite/roleinvite.py:488 | the emptiness test reads the list as it was before pruning, so an entry emptied by the checks is kept | `default` stores `[1]`, and role 1 sits above the bot's top role | the emptied entry is deleted and the join stops | high; not executed | AsWritten.EmptiedEntryKeptAsWritten | Attribution.GrantRolesEffect |
| roleinvite/roleinvite.py:478 | the hierarchy step rebuilds the list from the unpruned raw ids, so stale ids are stored again at 479, and line 498 passes those integers to `member.add_roles`, which raises, so nothing is granted | `default` stores `[1, 2]`, role 1 is gone and role 2 sits above the bot's top role; or `default` stores `[2, 3]`, role 2 sits above the top role and role 3 below it | store and grant only roles that exist below the bot's top role | high; not executed | AsWritten.TooHighRoleRaisesAsWritten | Attribution.JoinGrantsAreGrantable |
| roleinvite/roleinvite.py:529 | `invite.url` is read on `None` for an invite that is gone, so the handler raises | a grantable `default` entry, then a dead invite, then `main`, which holds grantable role 5 | prune the dead key and go on scanning | high; not executed | AsWritten.DeadInviteStopsScan | Attribution.JoinPrunesDead |
